/**
 * The payload indexer's integration scenarios, each run against a fresh
 * rule table: rules are created, payloads nulled, the indexer run or a
 * plugin event dispatched, and the resulting payloads stated exactly.
 */
module IndexerScenarios {
  import opened Wrappers
  import opened RuleTree
  import opened RuleIndexer

  /** A currency condition configured with the given currency ids. */
  function CurrencyLeaf(ids: seq<Id>): Condition
  {
    Condition(CurrencyCondition, map[CurrencyIdsKey := ids], [])
  }

  /** A sales-channel condition configured with the given sales-channel ids. */
  function SalesChannelLeaf(ids: seq<Id>): Condition
  {
    Condition(SalesChannelCondition, map[SalesChannelIdsKey := ids], [])
  }

  /** One OR root holding one currency condition. */
  function OrOfCurrency(c1: Id, c2: Id): seq<Condition>
  {
    [Condition(OrContainer, map[], [CurrencyLeaf([c1, c2])])]
  }

  /** An OR root holding one currency condition compiles to AND[OR[Currency(ids)]]. */
  lemma OrRootCompiles(c1: Id, c2: Id)
    ensures Compile(OrOfCurrency(c1, c2)) == And([Or([Currency(Some([c1, c2]))])])
  {
    var leaf := CurrencyLeaf([c1, c2]);
    assert CompileAll([leaf]) == [Currency(Some([c1, c2]))];
    assert CompileAll(OrOfCurrency(c1, c2)) == [Or([Currency(Some([c1, c2]))])];
  }

  /** A currency condition alone at the root compiles to AND[Currency(ids)]. */
  lemma LeafRootCompiles(c1: Id, c2: Id)
    ensures Compile([CurrencyLeaf([c1, c2])]) == And([Currency(Some([c1, c2]))])
  {
    assert CompileAll([CurrencyLeaf([c1, c2])]) == [Currency(Some([c1, c2]))];
  }

  /** A sales-channel condition alone at the root compiles to AND[SalesChannel(ids)]. */
  lemma SalesChannelRootCompiles(s1: Id, s2: Id)
    ensures Compile([SalesChannelLeaf([s1, s2])]) == And([SalesChannel(Some([s1, s2]))])
  {
    assert CompileAll([SalesChannelLeaf([s1, s2])]) == [SalesChannel(Some([s1, s2]))];
  }

  /** Two OR roots, the first holding an AND around a currency condition and
    * the second empty. */
  function TwoOrRoots(c1: Id, c2: Id): seq<Condition>
  {
    [Condition(OrContainer, map[], [Condition(AndContainer, map[], [CurrencyLeaf([c1, c2])])]),
     Condition(OrContainer, map[], [])]
  }

  /** Several roots: one AND child per root, each kept as the container it was
    * written as, the nested AND and the childless OR included. */
  lemma MultipleRootsCompile(c1: Id, c2: Id)
    ensures Compile(TwoOrRoots(c1, c2)) == And([Or([And([Currency(Some([c1, c2]))])]), Or([])])
  {
    var leaf := CurrencyLeaf([c1, c2]);
    var inner := Condition(AndContainer, map[], [leaf]);
    assert CompileAll([leaf]) == [Currency(Some([c1, c2]))];
    assert CompileAll([inner]) == [And([Currency(Some([c1, c2]))])];
    assert CompileAll(TwoOrRoots(c1, c2)) == [Or([And([Currency(Some([c1, c2]))])]), Or([])];
  }

  /** Create one OR-rooted rule, null every payload, index: the payload is
    * null before the run and the AND-wrapped tree after it. */
  method IndexOrRoot(id: Id, c1: Id, c2: Id) returns (before: Option<RuleNode>, after: Option<RuleNode>)
    ensures before == None
    ensures after == Some(And([Or([Currency(Some([c1, c2]))])]))
  {
    OrRootCompiles(c1, c2);
    var table := new RuleTable();
    var ok := table.Create([NewRule(id, "test rule", 1, OrOfCurrency(c1, c2))]);
    assert id in table.rows;
    table.NullPayloads(true);
    before := table.rows[id].payload;
    table.Index();
    after := table.rows[id].payload;
  }

  /** Creating an OR-rooted rule compiles its payload without an index run. */
  method CreateOrRoot(id: Id, c1: Id, c2: Id) returns (payload: Option<RuleNode>)
    ensures payload == Some(And([Or([Currency(Some([c1, c2]))])]))
  {
    OrRootCompiles(c1, c2);
    var table := new RuleTable();
    var ok := table.Create([NewRule(id, "test rule", 1, OrOfCurrency(c1, c2))]);
    assert id in table.rows;
    payload := table.rows[id].payload;
  }

  /** Two rules written together, nulled and indexed: each gets the tree of
    * its own conditions. */
  method IndexTwoRules(id1: Id, id2: Id, c1: Id, c2: Id, s1: Id, s2: Id)
    returns (before: Option<RuleNode>, payload1: Option<RuleNode>, payload2: Option<RuleNode>)
    requires id1 != id2
    ensures before == None
    ensures payload1 == Some(And([Or([Currency(Some([c1, c2]))])]))
    ensures payload2 == Some(And([SalesChannel(Some([s1, s2]))]))
  {
    OrRootCompiles(c1, c2);
    SalesChannelRootCompiles(s1, s2);
    var table := new RuleTable();
    var ok := table.Create([
      NewRule(id1, "test rule", 1, OrOfCurrency(c1, c2)),
      NewRule(id2, "second rule", 42, [SalesChannelLeaf([s1, s2])])]);
    WithCreatedKeys(map[], [NewRule(id1, "test rule", 1, OrOfCurrency(c1, c2)),
      NewRule(id2, "second rule", 42, [SalesChannelLeaf([s1, s2])])]);
    assert id1 in table.rows && id2 in table.rows;
    table.NullPayloads(true);
    before := table.rows[id1].payload;
    table.Index();
    payload1 := table.rows[id1].payload;
    payload2 := table.rows[id2].payload;
  }

  /** Two rules written together get the trees of their own conditions at once. */
  method CreateTwoRules(id1: Id, id2: Id, c1: Id, c2: Id, s1: Id, s2: Id)
    returns (payload1: Option<RuleNode>, payload2: Option<RuleNode>)
    requires id1 != id2
    ensures payload1 == Some(And([Or([Currency(Some([c1, c2]))])]))
    ensures payload2 == Some(And([SalesChannel(Some([s1, s2]))]))
  {
    OrRootCompiles(c1, c2);
    SalesChannelRootCompiles(s1, s2);
    var table := new RuleTable();
    var ok := table.Create([
      NewRule(id1, "test rule", 1, OrOfCurrency(c1, c2)),
      NewRule(id2, "second rule", 42, [SalesChannelLeaf([s1, s2])])]);
    WithCreatedKeys(map[], [NewRule(id1, "test rule", 1, OrOfCurrency(c1, c2)),
      NewRule(id2, "second rule", 42, [SalesChannelLeaf([s1, s2])])]);
    assert id1 in table.rows && id2 in table.rows;
    payload1 := table.rows[id1].payload;
    payload2 := table.rows[id2].payload;
  }

  /** Two OR roots, one holding an AND around a currency condition and one
    * empty: the payload is an AND with two OR children, kept as written. */
  method IndexMultipleRoots(id: Id, c1: Id, c2: Id) returns (before: Option<RuleNode>, after: Option<RuleNode>)
    ensures before == None
    ensures after.Some? && after.value.And? && |after.value.rules| == 2
    ensures forall i :: 0 <= i < |after.value.rules| ==> after.value.rules[i].Or?
    ensures after == Some(And([Or([And([Currency(Some([c1, c2]))])]), Or([])]))
  {
    MultipleRootsCompile(c1, c2);
    var table := new RuleTable();
    var ok := table.Create([NewRule(id, "test rule", 1, TwoOrRoots(c1, c2))]);
    assert id in table.rows;
    table.NullPayloads(true);
    before := table.rows[id].payload;
    table.Index();
    after := table.rows[id].payload;
  }

  /** A single currency condition at the root is still wrapped in an AND. */
  method IndexLeafRoot(id: Id, c1: Id, c2: Id) returns (before: Option<RuleNode>, after: Option<RuleNode>)
    ensures before == None
    ensures after == Some(And([Currency(Some([c1, c2]))]))
  {
    LeafRootCompiles(c1, c2);
    var table := new RuleTable();
    var ok := table.Create([NewRule(id, "test rule", 1, [CurrencyLeaf([c1, c2])])]);
    assert id in table.rows;
    table.NullPayloads(true);
    before := table.rows[id].payload;
    table.Index();
    after := table.rows[id].payload;
  }

  /** Creating a rule whose root is a currency condition wraps it in an AND at once. */
  method CreateLeafRoot(id: Id, c1: Id, c2: Id) returns (payload: Option<RuleNode>)
    ensures payload == Some(And([Currency(Some([c1, c2]))]))
  {
    LeafRootCompiles(c1, c2);
    var table := new RuleTable();
    var ok := table.Create([NewRule(id, "test rule", 1, [CurrencyLeaf([c1, c2])])]);
    assert id in table.rows;
    payload := table.rows[id].payload;
  }

  /** Twenty-one rows inserted directly with an empty AND payload, then a
    * plugin event: every row is still there, with a null payload and
    * `invalid` cleared. */
  method PostEventNullsPayload(ids: seq<Id>, event: PluginEvent) returns (rows: map<Id, RuleRow>)
    requires |ids| == 21
    requires forall i, j :: 0 <= i < j < |ids| ==> ids[i] != ids[j]
    ensures rows.Keys == set i | 0 <= i < |ids| :: ids[i]
    ensures forall id :: id in rows ==> rows[id].payload == None && !rows[id].invalid
  {
    var table := new RuleTable();
    var i := 0;
    while i < 21
      invariant 0 <= i <= 21
      invariant table.rows.Keys == set k | 0 <= k < i :: ids[k]
    {
      var ok := table.InsertRow(ids[i], "Rule", 1, And([]));
      i := i + 1;
    }
    table.OnPluginEvent(event);
    rows := table.rows;
  }
}
