/**
 * Rule condition trees and the executable rule tree compiled from them.
 *
 * A rule is written with a list of root conditions; each condition names a
 * condition type, may carry a configuration map and has ordered children.
 * The payload indexer turns that list into a rule-node tree whose root is a
 * fresh AND container holding the compiled roots in their original order.
 */
module RuleTree {
  import opened Wrappers

  /** Rule, currency and sales-channel ids (hex strings in the store). */
  type Id = string

  /** The condition types a stored condition may name. */
  datatype ConditionType = AndContainer | OrContainer | CurrencyCondition | SalesChannelCondition

  /** One node of a rule's nested condition tree, as it is written. */
  datatype Condition = Condition(kind: ConditionType, value: map<string, seq<Id>>, children: seq<Condition>)

  /** The executable rule tree: two containers and two leaf conditions. */
  datatype RuleNode =
    | And(rules: seq<RuleNode>)
    | Or(rules: seq<RuleNode>)
    | Currency(currencyIds: Option<seq<Id>>)
    | SalesChannel(salesChannelIds: Option<seq<Id>>)

  /** The configuration key each leaf type reads its id list from. */
  const CurrencyIdsKey: string := "currencyIds"
  const SalesChannelIdsKey: string := "salesChannelIds"

  /** The condition type a rule node is registered under. */
  function KindOf(n: RuleNode): ConditionType
  {
    match n
    case And(_) => AndContainer
    case Or(_) => OrContainer
    case Currency(_) => CurrencyCondition
    case SalesChannel(_) => SalesChannelCondition
  }

  /** The value `assign` gives a leaf property: the configured list, or nothing. */
  function Assigned(value: map<string, seq<Id>>, key: string): Option<seq<Id>>
  {
    if key in value then Some(value[key]) else None
  }

  /** Instantiates the node registered for the condition's type, configures
    * it from the stored value and, for containers, attaches the compiled
    * children in order. */
  function CompileNode(c: Condition): (r: RuleNode)
    ensures KindOf(r) == c.kind
    decreases c, 1
  {
    match c.kind
    case AndContainer => And(CompileAll(c.children))
    case OrContainer => Or(CompileAll(c.children))
    case CurrencyCondition => Currency(Assigned(c.value, CurrencyIdsKey))
    case SalesChannelCondition => SalesChannel(Assigned(c.value, SalesChannelIdsKey))
  }

  /** Compiles a list of sibling conditions, each on its own, keeping their order. */
  function CompileAll(cs: seq<Condition>): (r: seq<RuleNode>)
    ensures |r| == |cs|
    ensures forall i :: 0 <= i < |cs| ==> r[i] == CompileNode(cs[i])
    decreases cs, 0
  {
    if cs == [] then [] else [CompileNode(cs[0])] + CompileAll(cs[1..])
  }

  /** The payload of a rule: its root conditions under a fresh AND container. */
  function Compile(roots: seq<Condition>): (r: RuleNode)
    ensures r.And? && |r.rules| == |roots|
    ensures forall i :: 0 <= i < |roots| ==> r.rules[i] == CompileNode(roots[i])
  {
    And(CompileAll(roots))
  }

  /** The condition a rule node is written from: containers carry no value,
    * leaves carry their id list under their own key and no children. */
  function Decompile(n: RuleNode): (c: Condition)
    decreases n, 1
  {
    match n
    case And(rs) => Condition(AndContainer, map[], DecompileAll(rs))
    case Or(rs) => Condition(OrContainer, map[], DecompileAll(rs))
    case Currency(ids) =>
      Condition(CurrencyCondition, if ids.Some? then map[CurrencyIdsKey := ids.value] else map[], [])
    case SalesChannel(ids) =>
      Condition(SalesChannelCondition, if ids.Some? then map[SalesChannelIdsKey := ids.value] else map[], [])
  }

  function DecompileAll(ns: seq<RuleNode>): (cs: seq<Condition>)
    ensures |cs| == |ns|
    decreases ns, 0
  {
    if ns == [] then [] else [Decompile(ns[0])] + DecompileAll(ns[1..])
  }

  /** A condition that holds nothing compilation ignores: containers have no
    * value, leaves have no children and no key other than their own. */
  predicate WellFormed(c: Condition)
    decreases c
  {
    match c.kind
    case AndContainer =>
      c.value == map[] && forall i :: 0 <= i < |c.children| ==> WellFormed(c.children[i])
    case OrContainer =>
      c.value == map[] && forall i :: 0 <= i < |c.children| ==> WellFormed(c.children[i])
    case CurrencyCondition => c.children == [] && c.value.Keys <= {CurrencyIdsKey}
    case SalesChannelCondition => c.children == [] && c.value.Keys <= {SalesChannelIdsKey}
  }

  /** Every rule node is the compilation of the condition it is written from. */
  lemma {:induction false} CompileDecompile(n: RuleNode)
    ensures CompileNode(Decompile(n)) == n
    decreases n, 1
  {
    match n
    case And(rs) => CompileDecompileAll(rs);
    case Or(rs) => CompileDecompileAll(rs);
    case Currency(_) =>
    case SalesChannel(_) =>
  }

  lemma {:induction false} CompileDecompileAll(ns: seq<RuleNode>)
    ensures CompileAll(DecompileAll(ns)) == ns
    decreases ns, 0
  {
    if ns != [] {
      CompileDecompile(ns[0]);
      CompileDecompileAll(ns[1..]);
    }
  }

  /** The condition a rule node is written from is well formed. */
  lemma {:induction false} DecompileWellFormed(n: RuleNode)
    ensures WellFormed(Decompile(n))
    decreases n, 1
  {
    match n
    case And(rs) => DecompileAllWellFormed(rs);
    case Or(rs) => DecompileAllWellFormed(rs);
    case Currency(_) =>
    case SalesChannel(_) =>
  }

  lemma {:induction false} DecompileAllWellFormed(ns: seq<RuleNode>)
    ensures forall i :: 0 <= i < |DecompileAll(ns)| ==> WellFormed(DecompileAll(ns)[i])
    decreases ns, 0
  {
    if ns != [] {
      DecompileWellFormed(ns[0]);
      DecompileAllWellFormed(ns[1..]);
    }
  }

  /** Compilation loses nothing of a well-formed condition: the leaf id lists
    * and the container shapes are kept exactly. */
  lemma {:induction false} DecompileCompile(c: Condition)
    requires WellFormed(c)
    ensures Decompile(CompileNode(c)) == c
    decreases c, 1
  {
    match c.kind
    case AndContainer => DecompileCompileAll(c.children);
    case OrContainer => DecompileCompileAll(c.children);
    case CurrencyCondition =>
      if CurrencyIdsKey in c.value {
        assert c.value == map[CurrencyIdsKey := c.value[CurrencyIdsKey]];
      } else {
        assert c.value == map[];
      }
    case SalesChannelCondition =>
      if SalesChannelIdsKey in c.value {
        assert c.value == map[SalesChannelIdsKey := c.value[SalesChannelIdsKey]];
      } else {
        assert c.value == map[];
      }
  }

  lemma {:induction false} DecompileCompileAll(cs: seq<Condition>)
    requires forall i :: 0 <= i < |cs| ==> WellFormed(cs[i])
    ensures DecompileAll(CompileAll(cs)) == cs
    decreases cs, 0
  {
    if cs != [] {
      DecompileCompile(cs[0]);
      DecompileCompileAll(cs[1..]);
    }
  }

  /** A payload gives back the well-formed root conditions it was compiled from. */
  lemma PayloadRoundTrip(roots: seq<Condition>)
    requires forall i :: 0 <= i < |roots| ==> WellFormed(roots[i])
    ensures DecompileAll(Compile(roots).rules) == roots
  {
    DecompileCompileAll(roots);
  }

  /** Two rules with different well-formed conditions get different payloads. */
  lemma PayloadDeterminesConditions(roots1: seq<Condition>, roots2: seq<Condition>)
    requires forall i :: 0 <= i < |roots1| ==> WellFormed(roots1[i])
    requires forall i :: 0 <= i < |roots2| ==> WellFormed(roots2[i])
    requires Compile(roots1) == Compile(roots2)
    ensures roots1 == roots2
  {
    PayloadRoundTrip(roots1);
    PayloadRoundTrip(roots2);
  }

  /** Every AND-rooted tree is the payload of some well-formed rule. */
  lemma EveryAndTreeIsAPayload(n: RuleNode)
    requires n.And?
    ensures Compile(DecompileAll(n.rules)) == n
    ensures forall i :: 0 <= i < |n.rules| ==> WellFormed(DecompileAll(n.rules)[i])
  {
    CompileDecompileAll(n.rules);
    DecompileAllWellFormed(n.rules);
  }

  /** A leaf's configured id list reaches the compiled leaf unchanged, in order. */
  lemma LeafKeepsConfiguredIds(c: Condition)
    ensures c.kind == CurrencyCondition && CurrencyIdsKey in c.value ==>
      CompileNode(c) == Currency(Some(c.value[CurrencyIdsKey]))
    ensures c.kind == SalesChannelCondition && SalesChannelIdsKey in c.value ==>
      CompileNode(c) == SalesChannel(Some(c.value[SalesChannelIdsKey]))
  {
  }

  /** Containers are kept as the container type they were written as, with
    * one compiled child per written child; an empty OR stays an empty OR. */
  lemma ContainersKeepTheirShape(c: Condition)
    ensures c.kind == OrContainer ==> CompileNode(c).Or? && |CompileNode(c).rules| == |c.children|
    ensures c.kind == AndContainer ==> CompileNode(c).And? && |CompileNode(c).rules| == |c.children|
  {
  }
}
