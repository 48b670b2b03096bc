/**
 * The definition format of a structure template as the parser receives it,
 * its parse errors, and the compilation of the `keys` legend into a map from
 * characters to predicates (StructureTemplate.buildStructureKeysMap).
 */
module Legend {
  import opened Wrappers
  import opened Predicates

  /** The JSON values the parser distinguishes; `Other` is an object or null. */
  datatype Json = Prim(text: string) | Arr(elems: seq<Json>) | Other

  /** Every way parsing a definition can fail. */
  datatype ParseError =
    | ReservedAnchorKey               // legend key "#"
    | ReservedAirKey                  // legend key "_"
    | ReservedNullKey                 // legend key " "
    | BadKeyName(name: string)        // longer or shorter than one character, and not "anchor"
    | DuplicateKey(key: char)
    | BadKeyValue                     // neither a string nor an array
    | NotAString                      // an array element Gson cannot read as a string
    | BadBlockString(spec: string)    // BlockArgumentParser rejected it
    | LayerNotArray
    | LayerRowCount
    | RowNotPrimitive
    | RowLength
    | UnknownKey(key: char)
    | DuplicateAnchor
    | NullCell                        // the template constructor meets a cell the grid left null

  datatype Result<T> = Ok(value: T) | Err(error: ParseError)

  const AnchorKey := '#'
  const AirKey := '_'
  const NullKey := ' '

  /** blockstateKeyForEntry: a legend name stands for one grid character. */
  function KeyForEntry(name: string): (r: Result<char>)
    ensures r.Ok? <==> (|name| == 1 && name[0] !in {AnchorKey, AirKey, NullKey}) || name == "anchor"
    ensures r.Ok? ==> r.value == if name == "anchor" then AnchorKey else name[0]
    ensures r.Ok? ==> r.value != AirKey && r.value != NullKey
  {
    if |name| == 1 then
      var key := name[0];
      if key == AnchorKey then Err(ReservedAnchorKey)
      else if key == AirKey then Err(ReservedAirKey)
      else if key == NullKey then Err(ReservedNullKey)
      else Ok(key)
    else if name == "anchor" then Ok(AnchorKey)
    else Err(BadKeyName(name))
  }

  /** Gson's `getAsString`: a primitive's text, or that of a one-element array's element. */
  function AsString(j: Json): Option<string>
  {
    match j
    case Prim(t) => Some(t)
    case Arr(es) => if |es| == 1 then AsString(es[0]) else None
    case Other => None
  }

  /** parseStringToBlockStatePredicate */
  function CompileBlockOrTag(reg: Registry, spec: string): (r: Result<Predicate>)
    ensures r.Ok? <==> spec in reg.blockOrTag
    ensures r.Ok? && reg.blockOrTag[spec].BlockResult? ==>
      r.value == Single(reg.blockOrTag[spec].state, reg.blockOrTag[spec].properties)
    ensures r.Ok? && reg.blockOrTag[spec].TagResult? ==>
      var e := reg.blockOrTag[spec];
      r.value == MakeTag(reg, e.tag, e.memberDefaults, e.vagueProperties) &&
      r.value.tag == e.tag && r.value.vagueProperties == e.vagueProperties
  {
    if spec !in reg.blockOrTag then Err(BadBlockString(spec))
    else
      match reg.blockOrTag[spec]
      case BlockResult(st, props) => Ok(Single(st, props))
      case TagResult(tag, members, vague) => Ok(MakeTag(reg, tag, members, vague))
  }

  /** The array elements of a legend value, compiled in order; the first failure stops it. */
  function CompileAll(reg: Registry, es: seq<Json>): (r: Result<seq<Predicate>>)
    ensures r.Ok? ==> |r.value| == |es|
    ensures r.Ok? <==> forall i :: 0 <= i < |es| ==>
      AsString(es[i]).Some? && CompileBlockOrTag(reg, AsString(es[i]).value).Ok?
    ensures r.Ok? ==> forall i :: 0 <= i < |es| ==>
      r.value[i] == CompileBlockOrTag(reg, AsString(es[i]).value).value
  {
    if es == [] then Ok([])
    else
      match AsString(es[0])
      case None => Err(NotAString)
      case Some(s) =>
        match CompileBlockOrTag(reg, s)
        case Err(e) => Err(e)
        case Ok(p) =>
          match CompileAll(reg, es[1..])
          case Err(e) => Err(e)
          case Ok(ps) => Ok([p] + ps)
  }

  /** A legend value: an array becomes an alternation, a primitive one predicate. */
  function CompileValue(reg: Registry, v: Json): (r: Result<Predicate>)
    ensures v.Other? ==> r == Err(BadKeyValue)
    ensures v.Prim? ==> r == CompileBlockOrTag(reg, v.text)
    ensures v.Arr? ==> (r.Ok? <==> CompileAll(reg, v.elems).Ok?)
    ensures v.Arr? && r.Ok? ==> r.value == Nested(CompileAll(reg, v.elems).value)
    ensures v.Arr? && r.Ok? ==> |r.value.children| == |v.elems|
  {
    match v
    case Arr(es) =>
      (match CompileAll(reg, es)
       case Err(e) => Err(e)
       case Ok(ps) => Ok(Nested(ps)))
    case Prim(t) => CompileBlockOrTag(reg, t)
    case Other => Err(BadKeyValue)
  }

  type Entry = (string, Json)

  /**
   * The legend, entry by entry from the left, into the map built so far:
   * the name is checked first, then that the key is new, then the value.
   */
  function CompileKeys(reg: Registry, entries: seq<Entry>, acc: map<char, Predicate>): Result<map<char, Predicate>>
    decreases |entries|
  {
    if entries == [] then Ok(acc)
    else
      match KeyForEntry(entries[0].0)
      case Err(e) => Err(e)
      case Ok(key) =>
        if key in acc then Err(DuplicateKey(key))
        else
          match CompileValue(reg, entries[0].1)
          case Err(e) => Err(e)
          case Ok(p) => CompileKeys(reg, entries[1..], acc[key := p])
  }

  /** The key an entry stands for (meaningful when its name is valid). */
  function KeyOf(e: Entry): char
  {
    if e.0 == "anchor" then AnchorKey else if |e.0| > 0 then e.0[0] else NullKey
  }

  /** Every name is valid, every value compiles, and no two entries share a key. */
  predicate LegendOk(reg: Registry, entries: seq<Entry>)
  {
    && (forall i :: 0 <= i < |entries| ==> KeyForEntry(entries[i].0).Ok? && CompileValue(reg, entries[i].1).Ok?)
    && (forall i, j :: 0 <= i < j < |entries| ==> KeyOf(entries[i]) != KeyOf(entries[j]))
  }

  /** The keys a legend declares. */
  function KeySet(entries: seq<Entry>): set<char>
  {
    if entries == [] then {} else {KeyOf(entries[0])} + KeySet(entries[1..])
  }

  lemma {:induction false} KeySetMembers(entries: seq<Entry>, c: char)
    ensures c in KeySet(entries) <==> exists i :: 0 <= i < |entries| && KeyOf(entries[i]) == c
  {
    if entries != [] {
      KeySetMembers(entries[1..], c);
      if exists i :: 0 <= i < |entries| && KeyOf(entries[i]) == c {
        var i :| 0 <= i < |entries| && KeyOf(entries[i]) == c;
        if i > 0 { assert KeyOf(entries[1..][i - 1]) == c; }
      }
      if exists i :: 0 <= i < |entries[1..]| && KeyOf(entries[1..][i]) == c {
        var i :| 0 <= i < |entries[1..]| && KeyOf(entries[1..][i]) == c;
        assert KeyOf(entries[i + 1]) == c;
      }
    }
  }

  lemma LegendOkCons(reg: Registry, entries: seq<Entry>)
    requires entries != []
    ensures LegendOk(reg, entries) <==>
      && KeyForEntry(entries[0].0).Ok? && CompileValue(reg, entries[0].1).Ok?
      && KeyOf(entries[0]) !in KeySet(entries[1..])
      && LegendOk(reg, entries[1..])
  {
    var rest := entries[1..];
    forall c ensures c in KeySet(rest) <==> exists i :: 0 <= i < |rest| && KeyOf(rest[i]) == c {
      KeySetMembers(rest, c);
    }
    if LegendOk(reg, entries) {
      forall i, j | 0 <= i < j < |rest| ensures KeyOf(rest[i]) != KeyOf(rest[j]) {
        assert rest[i] == entries[i + 1] && rest[j] == entries[j + 1];
      }
      forall i | 0 <= i < |rest| ensures KeyOf(rest[i]) != KeyOf(entries[0]) {
        assert rest[i] == entries[i + 1];
      }
    }
    if && KeyForEntry(entries[0].0).Ok? && CompileValue(reg, entries[0].1).Ok?
       && KeyOf(entries[0]) !in KeySet(rest) && LegendOk(reg, rest)
    {
      forall i | 0 <= i < |entries|
        ensures KeyForEntry(entries[i].0).Ok? && CompileValue(reg, entries[i].1).Ok?
      {
        if i > 0 { assert entries[i] == rest[i - 1]; }
      }
      forall i, j | 0 <= i < j < |entries| ensures KeyOf(entries[i]) != KeyOf(entries[j]) {
        assert entries[j] == rest[j - 1];
        if i > 0 { assert entries[i] == rest[i - 1]; }
      }
    }
  }

  lemma {:induction false} CompileKeysOkIff(reg: Registry, entries: seq<Entry>, acc: map<char, Predicate>)
    ensures CompileKeys(reg, entries, acc).Ok? <==> LegendOk(reg, entries) && KeySet(entries) !! acc.Keys
    decreases |entries|
  {
    if entries != [] {
      LegendOkCons(reg, entries);
      var k := KeyForEntry(entries[0].0);
      var v := CompileValue(reg, entries[0].1);
      if k.Ok? && k.value !in acc && v.Ok? {
        assert k.value == KeyOf(entries[0]);
        CompileKeysOkIff(reg, entries[1..], acc[k.value := v.value]);
      } else if k.Ok? && k.value in acc {
        assert k.value == KeyOf(entries[0]);
      }
    }
  }

  lemma {:induction false} CompileKeysContents(reg: Registry, entries: seq<Entry>, acc: map<char, Predicate>)
    requires CompileKeys(reg, entries, acc).Ok?
    ensures var m := CompileKeys(reg, entries, acc).value;
      && m.Keys == acc.Keys + KeySet(entries)
      && (forall c :: c in acc ==> m[c] == acc[c])
      && (forall i :: 0 <= i < |entries| ==> KeyOf(entries[i]) in m && CompileValue(reg, entries[i].1) == Ok(m[KeyOf(entries[i])]))
    decreases |entries|
  {
    if entries != [] {
      var rest := entries[1..];
      var k := KeyForEntry(entries[0].0).value;
      var v := CompileValue(reg, entries[0].1).value;
      assert k == KeyOf(entries[0]);
      var acc' := acc[k := v];
      CompileKeysContents(reg, rest, acc');
      CompileKeysOkIff(reg, rest, acc');
      var m := CompileKeys(reg, entries, acc).value;
      forall i | 0 <= i < |entries|
        ensures KeyOf(entries[i]) in m && CompileValue(reg, entries[i].1) == Ok(m[KeyOf(entries[i])])
      {
        if i > 0 { assert entries[i] == rest[i - 1]; }
      }
    }
  }

  /**
   * The legend compiles exactly when every name is valid, every key is
   * declared once and every value compiles; each key then maps to its
   * entry's predicate and nothing else is in the map.
   */
  lemma CompileKeysCorrect(reg: Registry, entries: seq<Entry>)
    ensures CompileKeys(reg, entries, map[]).Ok? <==> LegendOk(reg, entries)
    ensures CompileKeys(reg, entries, map[]).Ok? ==>
      var m := CompileKeys(reg, entries, map[]).value;
      && (forall c :: c in m <==> exists i :: 0 <= i < |entries| && KeyOf(entries[i]) == c)
      && AirKey !in m && NullKey !in m
      && (forall i :: 0 <= i < |entries| ==> KeyOf(entries[i]) in m && CompileValue(reg, entries[i].1) == Ok(m[KeyOf(entries[i])]))
  {
    CompileKeysOkIff(reg, entries, map[]);
    if CompileKeys(reg, entries, map[]).Ok? {
      CompileKeysContents(reg, entries, map[]);
      var m := CompileKeys(reg, entries, map[]).value;
      forall c ensures c in m <==> exists i :: 0 <= i < |entries| && KeyOf(entries[i]) == c {
        KeySetMembers(entries, c);
      }
      forall c | c in m ensures c != AirKey && c != NullKey {
        var i :| 0 <= i < |entries| && c == KeyOf(entries[i]);
        assert KeyForEntry(entries[i].0).Ok?;
      }
    }
  }

  /** A reserved one-character name ("#", "_" or " ") anywhere in the legend is an error. */
  lemma ReservedKeyFails(reg: Registry, entries: seq<Entry>, i: nat)
    requires i < |entries| && entries[i].0 in {"#", "_", " "}
    ensures CompileKeys(reg, entries, map[]).Err?
  {
    CompileKeysCorrect(reg, entries);
    assert KeyForEntry(entries[i].0).Err?;
  }

  /** Two entries for the same key (for instance "a" twice) make the legend fail. */
  lemma RepeatedKeyFails(reg: Registry, entries: seq<Entry>, i: nat, j: nat)
    requires i < j < |entries| && KeyOf(entries[i]) == KeyOf(entries[j])
    ensures CompileKeys(reg, entries, map[]).Err?
  {
    CompileKeysCorrect(reg, entries);
  }

  /**
   * buildStructureKeysMap: a loop over the legend's entries in order, adding
   * to a character map and throwing at the first faulty entry.
   */
  method BuildStructureKeysMap(reg: Registry, entries: seq<Entry>) returns (r: Result<map<char, Predicate>>)
    ensures r == CompileKeys(reg, entries, map[])
  {
    var keys: map<char, Predicate> := map[];
    var i := 0;
    while i < |entries|
      invariant 0 <= i <= |entries|
      invariant CompileKeys(reg, entries, map[]) == CompileKeys(reg, entries[i..], keys)
    {
      assert entries[i..][0] == entries[i] && entries[i..][1..] == entries[i + 1..];
      var key := KeyForEntry(entries[i].0);
      if key.Err? {
        return Err(key.error);
      }
      if key.value in keys {
        return Err(DuplicateKey(key.value));
      }
      var value := CompileValue(reg, entries[i].1);
      if value.Err? {
        return Err(value.error);
      }
      keys := keys[key.value := value.value];
      i := i + 1;
    }
    assert entries[i..] == [];
    r := Ok(keys);
  }
}
