/**
 * Block-state predicates of a structure template and their three-valued test.
 * Minecraft's blocks, tags and properties are reduced to a `Registry` value
 * that the predicates consult; nothing in it is interpreted beyond lookups.
 */
module Predicates {
  import opened Rotations

  type BlockId = string
  type TagId = string
  type PropName = string
  type PropValue = string

  /** A block state: its block and the value of each of its properties. */
  datatype BlockState = BlockState(block: BlockId, props: map<PropName, PropValue>)

  /**
   * What BlockArgumentParser.blockOrTag yields: a block state with the
   * properties the string constrained, or a tag with the default states of
   * its member blocks (in registry order) and the loosely given properties.
   */
  datatype BlockOrTag =
    | BlockResult(state: BlockState, properties: map<PropName, PropValue>)
    | TagResult(tag: TagId, memberDefaults: seq<BlockState>, vagueProperties: map<PropName, PropValue>)

  /**
   * The game registries as the engine sees them: the block-or-tag parser
   * (a string absent from `blockOrTag` is a syntax error), tag membership,
   * each block's properties with `Property.parse` as a table from the value
   * strings it accepts to the values they parse to, the blocks that count
   * as air, and `BlockState.rotate`.
   */
  datatype Registry = Registry(
    blockOrTag: map<string, BlockOrTag>,
    tags: map<TagId, set<BlockId>>,
    properties: map<BlockId, map<PropName, map<PropValue, PropValue>>>,
    airBlocks: set<BlockId>,
    rotateState: (BlockState, Rotation) -> BlockState)

  /** `state.isIn(tag)` */
  predicate InTag(reg: Registry, s: BlockState, tag: TagId)
  {
    tag in reg.tags && s.block in reg.tags[tag]
  }

  /** `block.getStateManager().getProperty(name) != null` */
  predicate HasProperty(reg: Registry, b: BlockId, name: PropName)
  {
    b in reg.properties && name in reg.properties[b]
  }

  /** `property.parse(value)` is present (the value is one the property takes) */
  predicate Parses(reg: Registry, b: BlockId, name: PropName, value: PropValue)
  {
    HasProperty(reg, b, name) && value in reg.properties[b][name]
  }

  /** The value `property.parse(value).get()` yields. */
  function ParsedValue(reg: Registry, b: BlockId, name: PropName, value: PropValue): PropValue
    requires Parses(reg, b, name, value)
  {
    reg.properties[b][name][value]
  }

  /** `state.get(property).equals(value)` */
  predicate HasValue(s: BlockState, name: PropName, value: PropValue)
  {
    name in s.props && s.props[name] == value
  }

  /** One loose tag property holds of a state: known, parseable, and the state has the parsed value. */
  predicate TagPropertyHolds(reg: Registry, s: BlockState, name: PropName, value: PropValue)
  {
    HasProperty(reg, s.block, name) && Parses(reg, s.block, name, value)
    && HasValue(s, name, ParsedValue(reg, s.block, name, value))
  }

  /** BlockStatePredicate.Result: wrong block, right block in the wrong state, exact. */
  datatype MatchResult = NoMatch | BlockMatch | StateMatch

  /** BlockStatePredicate.MatchCategory */
  datatype MatchCategory = Air | NonAir | Null | NonNull

  const AllCategories: seq<MatchCategory> := [Air, NonAir, Null, NonNull]

  /**
   * The predicate variants: alternation, a single block with exact
   * properties, a tag with loose properties (its preview states are
   * computed once, when it is built), and the two sentinels NULL_PREDICATE
   * (anything) and AIR_PREDICATE (must be air).
   */
  datatype Predicate =
    | Nested(children: seq<Predicate>)
    | Single(state: BlockState, properties: map<PropName, PropValue>)
    | Tag(tag: TagId, vagueProperties: map<PropName, PropValue>, previewStates: seq<BlockState>)
    | AnyState
    | AirState

  /** `isOf(category)`: only AIR_PREDICATE is AIR, only NULL_PREDICATE is NULL. */
  predicate IsOf(p: Predicate, c: MatchCategory)
  {
    match c
    case Air => p.AirState?
    case NonAir => !p.AirState?
    case Null => p.AnyState?
    case NonNull => !p.AnyState?
  }

  /** The better of two results: STATE_MATCH over BLOCK_MATCH over NO_MATCH. */
  function Best(a: MatchResult, b: MatchResult): MatchResult
  {
    if a == StateMatch || b == StateMatch then StateMatch
    else if a == BlockMatch || b == BlockMatch then BlockMatch
    else NoMatch
  }

  function BestOf(rs: seq<MatchResult>): MatchResult
  {
    if rs == [] then NoMatch else Best(rs[0], BestOf(rs[1..]))
  }

  lemma {:induction false} BestOfIsBest(rs: seq<MatchResult>)
    ensures BestOf(rs) == StateMatch <==> StateMatch in rs
    ensures BestOf(rs) == BlockMatch <==> StateMatch !in rs && BlockMatch in rs
    ensures BestOf(rs) == NoMatch <==> StateMatch !in rs && BlockMatch !in rs
  {
    if rs != [] {
      BestOfIsBest(rs[1..]);
      assert rs == [rs[0]] + rs[1..];
    }
  }

  /** `test(state)` of every predicate variant. */
  function Test(reg: Registry, p: Predicate, s: BlockState): MatchResult
  {
    match p
    case Nested(cs) =>
      BestOf(seq(|cs|, i requires 0 <= i < |cs| => Test(reg, cs[i], s)))
    case Single(st, props) =>
      if s.block != st.block then NoMatch
      else if exists k :: k in props && !HasValue(s, k, props[k]) then BlockMatch
      else StateMatch
    case Tag(tag, vague, _) =>
      if !InTag(reg, s, tag) then NoMatch
      else if exists k :: k in vague && !TagPropertyHolds(reg, s, k, vague[k]) then BlockMatch
      else StateMatch
    case AnyState => StateMatch
    case AirState => if s.block in reg.airBlocks then StateMatch else NoMatch
  }

  /** `matches(state)`: the predicate holds exactly. */
  predicate Matches(reg: Registry, p: Predicate, s: BlockState)
  {
    Test(reg, p, s) == StateMatch
  }

  /** An alternation takes the best outcome of its children; an empty one never matches. */
  lemma NestedTestIsBest(reg: Registry, cs: seq<Predicate>, s: BlockState)
    ensures Test(reg, Nested(cs), s) == StateMatch <==>
      exists i :: 0 <= i < |cs| && Test(reg, cs[i], s) == StateMatch
    ensures Test(reg, Nested(cs), s) == BlockMatch <==>
      (forall i :: 0 <= i < |cs| ==> Test(reg, cs[i], s) != StateMatch) &&
      (exists i :: 0 <= i < |cs| && Test(reg, cs[i], s) == BlockMatch)
    ensures cs == [] ==> Test(reg, Nested(cs), s) == NoMatch
  {
    var rs := seq(|cs|, i requires 0 <= i < |cs| => Test(reg, cs[i], s));
    BestOfIsBest(rs);
    if exists i :: 0 <= i < |cs| && Test(reg, cs[i], s) == StateMatch {
      var i :| 0 <= i < |cs| && Test(reg, cs[i], s) == StateMatch;
      assert rs[i] == StateMatch;
    }
    if exists i :: 0 <= i < |cs| && Test(reg, cs[i], s) == BlockMatch {
      var i :| 0 <= i < |cs| && Test(reg, cs[i], s) == BlockMatch;
      assert rs[i] == BlockMatch;
    }
  }

  /**
   * A single-block predicate: NO_MATCH on a different block, BLOCK_MATCH when
   * some constrained property differs, STATE_MATCH otherwise.
   */
  lemma SingleTestCases(reg: Registry, st: BlockState, props: map<PropName, PropValue>, s: BlockState)
    ensures Test(reg, Single(st, props), s) == NoMatch <==> s.block != st.block
    ensures Test(reg, Single(st, props), s) == StateMatch <==>
      s.block == st.block && forall k :: k in props ==> k in s.props && s.props[k] == props[k]
  {
  }

  /**
   * A tag predicate: NO_MATCH outside the tag, BLOCK_MATCH when some loose
   * property is unknown to the block, does not parse, or differs from the
   * value it parses to.
   */
  lemma TagTestCases(reg: Registry, tag: TagId, vague: map<PropName, PropValue>, pv: seq<BlockState>, s: BlockState)
    ensures Test(reg, Tag(tag, vague, pv), s) == NoMatch <==> !InTag(reg, s, tag)
    ensures Test(reg, Tag(tag, vague, pv), s) == BlockMatch <==>
      InTag(reg, s, tag) &&
      exists k :: k in vague &&
        (!HasProperty(reg, s.block, k) || !Parses(reg, s.block, k, vague[k])
         || !HasValue(s, k, reg.properties[s.block][k][vague[k]]))
    ensures Test(reg, Tag(tag, vague, pv), s) == StateMatch <==>
      InTag(reg, s, tag) &&
      forall k :: k in vague ==>
        s.block in reg.properties && k in reg.properties[s.block] && vague[k] in reg.properties[s.block][k]
        && k in s.props && s.props[k] == reg.properties[s.block][k][vague[k]]
  {
  }

  /**
   * A loose value is compared after parsing: with `age=01` on a block whose
   * `age` parses "01" to "1", a state with age 1 is an exact match.
   */
  lemma LooseValueComparedParsed(reg: Registry)
    requires reg.tags == map["logs" := {"oak"}]
    requires reg.properties == map["oak" := map["age" := map["1" := "1", "01" := "1"]]]
    ensures Test(reg, Tag("logs", map["age" := "01"], []), BlockState("oak", map["age" := "1"])) == StateMatch
  {
    TagTestCases(reg, "logs", map["age" := "01"], [], BlockState("oak", map["age" := "1"]));
  }

  /** NULL_PREDICATE accepts every state. */
  lemma AnyStateAlwaysMatches(reg: Registry, s: BlockState)
    ensures Matches(reg, AnyState, s)
  {
  }

  /**
   * NestedBlockStatePredicate.test: children in order, returning at the first
   * STATE_MATCH and remembering whether a BLOCK_MATCH was seen.
   */
  method TestNested(reg: Registry, cs: seq<Predicate>, s: BlockState) returns (r: MatchResult)
    ensures r == Test(reg, Nested(cs), s)
  {
    ghost var rs := seq(|cs|, i requires 0 <= i < |cs| => Test(reg, cs[i], s));
    BestOfIsBest(rs);
    var hasBlockMatch := false;
    for i := 0 to |cs|
      invariant StateMatch !in rs[..i]
      invariant hasBlockMatch <==> BlockMatch in rs[..i]
    {
      var result := Test(reg, cs[i], s);
      assert rs[..i + 1] == rs[..i] + [result];
      if result == StateMatch {
        assert rs[i] == StateMatch;
        return StateMatch;
      } else if result == BlockMatch {
        hasBlockMatch := true;
      }
    }
    assert rs[..|cs|] == rs;
    r := if hasBlockMatch then BlockMatch else NoMatch;
  }

  /**
   * SingleBlockStatePredicate.test: the block first, then each constrained
   * property in the map's (unspecified) iteration order.
   */
  method TestSingle(reg: Registry, st: BlockState, props: map<PropName, PropValue>, s: BlockState)
    returns (r: MatchResult)
    ensures r == Test(reg, Single(st, props), s)
  {
    if s.block != st.block {
      return NoMatch;
    }
    var todo := props.Keys;
    while todo != {}
      invariant todo <= props.Keys
      invariant forall k :: k in props && k !in todo ==> HasValue(s, k, props[k])
      decreases todo
    {
      var k :| k in todo;
      if !(k in s.props && s.props[k] == props[k]) {
        return BlockMatch;
      }
      todo := todo - {k};
    }
    r := StateMatch;
  }

  /**
   * TagBlockStatePredicate.test: tag membership, then each loose property:
   * unknown name, unparseable value or a different value is a BLOCK_MATCH.
   */
  method TestTag(reg: Registry, tag: TagId, vague: map<PropName, PropValue>, pv: seq<BlockState>, s: BlockState)
    returns (r: MatchResult)
    ensures r == Test(reg, Tag(tag, vague, pv), s)
  {
    if !(tag in reg.tags && s.block in reg.tags[tag]) {
      return NoMatch;
    }
    var todo := vague.Keys;
    while todo != {}
      invariant todo <= vague.Keys
      invariant forall k :: k in vague && k !in todo ==> TagPropertyHolds(reg, s, k, vague[k])
      decreases todo
    {
      var k :| k in todo;
      if !(s.block in reg.properties && k in reg.properties[s.block]) {
        return BlockMatch;
      }
      if vague[k] !in reg.properties[s.block][k] {
        return BlockMatch;
      }
      var expected := reg.properties[s.block][k][vague[k]];
      if !(k in s.props && s.props[k] == expected) {
        return BlockMatch;
      }
      todo := todo - {k};
    }
    r := StateMatch;
  }

  // --- preview states ---

  function Flatten(ss: seq<seq<BlockState>>): seq<BlockState>
  {
    if ss == [] then [] else ss[0] + Flatten(ss[1..])
  }

  /**
   * `previewBlockstates()`: a nested predicate's is the concatenation of its
   * children's, a single predicate's is its one state, a tag's is the array
   * it computed when built. The two sentinels are declared in
   * BlockStatePredicate.java, outside this model, and are given none here.
   */
  function Preview(p: Predicate): seq<BlockState>
  {
    match p
    case Nested(cs) => Flatten(seq(|cs|, i requires 0 <= i < |cs| => Preview(cs[i])))
    case Single(st, _) => [st]
    case Tag(_, _, pv) => pv
    case _ => []
  }

  lemma {:induction false} FlattenMembers(ss: seq<seq<BlockState>>, st: BlockState)
    ensures st in Flatten(ss) <==> exists i :: 0 <= i < |ss| && st in ss[i]
    ensures |Flatten(ss)| == if ss == [] then 0 else |ss[0]| + |Flatten(ss[1..])|
  {
    if ss != [] {
      FlattenMembers(ss[1..], st);
      if st in ss[0] {
        assert 0 < |ss| && st in ss[0];
      }
      if exists i :: 1 <= i < |ss| && st in ss[i] {
        var i :| 1 <= i < |ss| && st in ss[i];
        assert ss[1..][i - 1] == ss[i];
      }
      if exists i :: 0 <= i < |ss[1..]| && st in ss[1..][i] {
        var i :| 0 <= i < |ss[1..]| && st in ss[1..][i];
        assert ss[i + 1] == ss[1..][i];
      }
    }
  }

  /** A nested predicate previews exactly its children's preview states, child by child. */
  lemma NestedPreviewConcat(cs: seq<Predicate>, st: BlockState)
    ensures cs == [] ==> Preview(Nested(cs)) == []
    ensures cs != [] ==> Preview(Nested(cs)) == Preview(cs[0]) + Preview(Nested(cs[1..]))
    ensures st in Preview(Nested(cs)) <==> exists i :: 0 <= i < |cs| && st in Preview(cs[i])
  {
    var ss := seq(|cs|, i requires 0 <= i < |cs| => Preview(cs[i]));
    FlattenMembers(ss, st);
    if cs != [] {
      assert ss[1..] == seq(|cs[1..]|, i requires 0 <= i < |cs[1..]| => Preview(cs[1..][i]));
    }
    if exists i :: 0 <= i < |cs| && st in Preview(cs[i]) {
      var i :| 0 <= i < |cs| && st in Preview(cs[i]);
      assert st in ss[i];
    }
  }

  /** SingleBlockStatePredicate's preview array is exactly its state. */
  lemma SinglePreview(st: BlockState, props: map<PropName, PropValue>)
    ensures Preview(Single(st, props)) == [st]
  {
  }

  /**
   * A tag member's preview: its default state with every loose property
   * the block knows and whose value parses set to the parsed value.
   */
  function ApplyVague(reg: Registry, d: BlockState, vague: map<PropName, PropValue>): (r: BlockState)
  {
    BlockState(d.block, d.props + map k | k in vague && Parses(reg, d.block, k, vague[k]) :: ParsedValue(reg, d.block, k, vague[k]))
  }

  lemma ApplyVagueSetsParsed(reg: Registry, d: BlockState, vague: map<PropName, PropValue>, k: PropName)
    ensures ApplyVague(reg, d, vague).block == d.block
    ensures k in vague && Parses(reg, d.block, k, vague[k]) ==>
      HasValue(ApplyVague(reg, d, vague), k, reg.properties[d.block][k][vague[k]])
    ensures !(k in vague && Parses(reg, d.block, k, vague[k])) ==>
      (k in ApplyVague(reg, d, vague).props <==> k in d.props) &&
      (k in d.props ==> ApplyVague(reg, d, vague).props[k] == d.props[k])
  {
  }

  /** The TagBlockStatePredicate constructor: one preview state per tag member. */
  function MakeTag(reg: Registry, tag: TagId, memberDefaults: seq<BlockState>, vague: map<PropName, PropValue>): (p: Predicate)
    ensures p.Tag? && p.tag == tag && p.vagueProperties == vague
    ensures |Preview(p)| == |memberDefaults|
    ensures forall i :: 0 <= i < |memberDefaults| ==>
      Preview(p)[i] == ApplyVague(reg, memberDefaults[i], vague)
  {
    Tag(tag, vague, seq(|memberDefaults|, i requires 0 <= i < |memberDefaults| => ApplyVague(reg, memberDefaults[i], vague)))
  }
}
