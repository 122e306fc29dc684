/**
 * The rule table and the payload indexer that keeps its cached payloads in
 * step with the stored conditions.
 *
 * Each row holds a rule's conditions, its nullable compiled payload and the
 * `invalid` flag. A repository write compiles the payload at once; a plugin
 * lifecycle event nulls every payload; an index run compiles every rule
 * whose payload is null from that rule's own conditions.
 */
module RuleIndexer {
  import opened Wrappers
  import opened RuleTree

  /** One row of the rule table. */
  datatype RuleRow = RuleRow(
    name: string,
    priority: int,
    conditions: seq<Condition>,
    payload: Option<RuleNode>,
    invalid: bool)

  /** A rule as handed to the repository's create. */
  datatype NewRule = NewRule(id: Id, name: string, priority: int, conditions: seq<Condition>)

  /** The five plugin post-lifecycle events the indexer subscribes to. */
  datatype PluginEvent = PostInstall | PostActivate | PostUpdate | PostDeactivate | PostUninstall

  /** The row a repository write of `r` leaves: payload compiled, not invalid. */
  function Written(r: NewRule): RuleRow
  {
    RuleRow(r.name, r.priority, r.conditions, Some(Compile(r.conditions)), false)
  }

  /** A create succeeds when its ids are new and pairwise distinct. */
  predicate Creatable(rows: map<Id, RuleRow>, batch: seq<NewRule>)
  {
    (forall i :: 0 <= i < |batch| ==> batch[i].id !in rows) &&
    (forall i, j :: 0 <= i < j < |batch| ==> batch[i].id != batch[j].id)
  }

  /** The table after the rules of `batch` are written, one after another. */
  function WithCreated(rows: map<Id, RuleRow>, batch: seq<NewRule>): map<Id, RuleRow>
  {
    if batch == [] then rows
    else WithCreated(rows, batch[..|batch| - 1])[batch[|batch| - 1].id := Written(batch[|batch| - 1])]
  }

  /** One row after an index run: a null payload is compiled from the row's own conditions. */
  function IndexRow(row: RuleRow): RuleRow
  {
    if row.payload.None? then row.(payload := Some(Compile(row.conditions)), invalid := false) else row
  }

  /** The table after an index run. */
  function Indexed(rows: map<Id, RuleRow>): map<Id, RuleRow>
  {
    map id | id in rows :: IndexRow(rows[id])
  }

  /** The table after every payload is set to null and `invalid` to the given flag. */
  function Nulled(rows: map<Id, RuleRow>, invalid: bool): map<Id, RuleRow>
  {
    map id | id in rows :: rows[id].(payload := None, invalid := invalid)
  }

  /** Every cached payload is the compilation of its own rule's conditions. */
  predicate Coherent(rows: map<Id, RuleRow>)
  {
    forall id :: id in rows && rows[id].payload.Some? ==> rows[id].payload.value == Compile(rows[id].conditions)
  }

  /** Every rule has a payload, and it is the compilation of its own conditions. */
  predicate Fresh(rows: map<Id, RuleRow>)
  {
    forall id :: id in rows ==> rows[id].payload == Some(Compile(rows[id].conditions))
  }

  /** The ids of a batch of new rules. */
  function Ids(batch: seq<NewRule>): set<Id>
  {
    set i | 0 <= i < |batch| :: batch[i].id
  }

  /** A create adds exactly the ids of the batch to the table. */
  lemma {:induction false} WithCreatedKeys(rows: map<Id, RuleRow>, batch: seq<NewRule>)
    ensures WithCreated(rows, batch).Keys == rows.Keys + Ids(batch)
  {
    if batch != [] {
      var init := batch[..|batch| - 1];
      WithCreatedKeys(rows, init);
      assert forall i :: 0 <= i < |init| ==> init[i] == batch[i];
      assert Ids(batch) == Ids(init) + {batch[|batch| - 1].id};
    }
  }

  /** A create writes each rule of the batch, compiled, and keeps the others. */
  lemma {:induction false} WithCreatedContents(rows: map<Id, RuleRow>, batch: seq<NewRule>)
    requires Creatable(rows, batch)
    ensures forall i :: 0 <= i < |batch| ==>
      batch[i].id in WithCreated(rows, batch) && WithCreated(rows, batch)[batch[i].id] == Written(batch[i])
    ensures forall id :: id in rows ==> id in WithCreated(rows, batch) && WithCreated(rows, batch)[id] == rows[id]
  {
    if batch != [] {
      var init := batch[..|batch| - 1];
      var last := batch[|batch| - 1];
      assert forall i :: 0 <= i < |init| ==> init[i] == batch[i];
      assert Creatable(rows, init);
      WithCreatedContents(rows, init);
      assert last.id !in rows;
      forall i | 0 <= i < |init|
        ensures WithCreated(rows, batch)[batch[i].id] == Written(batch[i])
      {
        assert batch[i].id != last.id;
      }
    }
  }

  /** Creating rules keeps every cached payload coherent, and the new rules fresh. */
  lemma CreateKeepsCoherence(rows: map<Id, RuleRow>, batch: seq<NewRule>)
    requires Creatable(rows, batch) && Coherent(rows)
    ensures Coherent(WithCreated(rows, batch))
    ensures forall i :: 0 <= i < |batch| ==>
      batch[i].id in WithCreated(rows, batch) &&
      WithCreated(rows, batch)[batch[i].id].payload == Some(Compile(batch[i].conditions))
  {
    WithCreatedContents(rows, batch);
    WithCreatedKeys(rows, batch);
    var after := WithCreated(rows, batch);
    forall id | id in after && after[id].payload.Some?
      ensures after[id].payload.value == Compile(after[id].conditions)
    {
      if id !in rows {
        var i :| 0 <= i < |batch| && batch[i].id == id;
      }
    }
  }

  /** An index run fills every null payload, compiled from that rule's own
    * conditions, leaves non-null payloads alone and keeps every rule. */
  lemma IndexFillsNulls(rows: map<Id, RuleRow>)
    ensures Indexed(rows).Keys == rows.Keys
    ensures forall id :: id in rows && rows[id].payload.None? ==>
      Indexed(rows)[id].payload == Some(Compile(rows[id].conditions))
    ensures forall id :: id in rows && rows[id].payload.Some? ==> Indexed(rows)[id] == rows[id]
    ensures forall id :: id in rows ==>
      Indexed(rows)[id].conditions == rows[id].conditions &&
      Indexed(rows)[id].name == rows[id].name &&
      Indexed(rows)[id].priority == rows[id].priority
  {
  }

  /** What an index run gives a rule depends on that rule's row only. */
  lemma IndexIsPerRule(rows1: map<Id, RuleRow>, rows2: map<Id, RuleRow>, id: Id)
    requires id in rows1 && id in rows2 && rows1[id] == rows2[id]
    ensures Indexed(rows1)[id] == Indexed(rows2)[id]
  {
  }

  /** On a coherent table, an index run leaves every rule fresh. */
  lemma IndexMakesFresh(rows: map<Id, RuleRow>)
    requires Coherent(rows)
    ensures Fresh(Indexed(rows))
  {
  }

  /** Nulling payloads keeps every rule and its conditions and drops every
    * payload, whatever it was before. */
  lemma NulledKeepsRules(rows: map<Id, RuleRow>, invalid: bool)
    ensures Nulled(rows, invalid).Keys == rows.Keys
    ensures forall id :: id in rows ==>
      Nulled(rows, invalid)[id].payload.None? &&
      Nulled(rows, invalid)[id].invalid == invalid &&
      Nulled(rows, invalid)[id].conditions == rows[id].conditions &&
      Nulled(rows, invalid)[id].name == rows[id].name &&
      Nulled(rows, invalid)[id].priority == rows[id].priority
    ensures Coherent(Nulled(rows, invalid))
  {
  }

  /** After a plugin event, an index run recompiles every rule from its own
    * conditions, whatever payloads the table held before the event. */
  lemma EventThenIndexRecompilesAll(rows: map<Id, RuleRow>)
    ensures Indexed(Nulled(rows, false)).Keys == rows.Keys
    ensures Fresh(Indexed(Nulled(rows, false)))
    ensures forall id :: id in rows ==> !Indexed(Nulled(rows, false))[id].invalid
  {
    NulledKeepsRules(rows, false);
    IndexMakesFresh(Nulled(rows, false));
  }

  /** The rule table, with the indexer's and the invalidation listener's writes. */
  class RuleTable {
    var rows: map<Id, RuleRow>

    constructor ()
      ensures rows == map[]
    {
      rows := map[];
    }

    /** The repository's create: writes the rules and compiles their payloads
      * at once; fails, changing nothing, on an id that is taken or repeated. */
    method Create(batch: seq<NewRule>) returns (ok: bool)
      modifies this
      ensures ok == Creatable(old(rows), batch)
      ensures rows == if ok then WithCreated(old(rows), batch) else old(rows)
      ensures ok && Coherent(old(rows)) ==> Coherent(rows)
    {
      ok := Creatable(rows, batch);
      if !ok {
        return;
      }
      var i := 0;
      while i < |batch|
        invariant 0 <= i <= |batch|
        invariant rows == WithCreated(old(rows), batch[..i])
      {
        assert batch[..i + 1][..i] == batch[..i];
        rows := rows[batch[i].id := Written(batch[i])];
        i := i + 1;
      }
      assert batch[..|batch|] == batch;
      if Coherent(old(rows)) {
        CreateKeepsCoherence(old(rows), batch);
      }
    }

    /** A direct insert of a row with no conditions and the given payload. */
    method InsertRow(id: Id, name: string, priority: int, payload: RuleNode) returns (ok: bool)
      modifies this
      ensures ok == (id !in old(rows))
      ensures rows == if ok then old(rows)[id := RuleRow(name, priority, [], Some(payload), false)] else old(rows)
    {
      ok := id !in rows;
      if ok {
        rows := rows[id := RuleRow(name, priority, [], Some(payload), false)];
      }
    }

    /** Sets every row's payload to null and its `invalid` flag to `invalid`. */
    method NullPayloads(invalid: bool)
      modifies this
      ensures rows == Nulled(old(rows), invalid)
    {
      var pending := rows.Keys;
      while pending != {}
        invariant pending <= rows.Keys
        invariant rows.Keys == old(rows).Keys
        invariant forall id :: id in rows ==>
          rows[id] == if id in pending then old(rows)[id] else old(rows)[id].(payload := None, invalid := invalid)
        decreases pending
      {
        var id :| id in pending;
        rows := rows[id := rows[id].(payload := None, invalid := invalid)];
        pending := pending - {id};
      }
    }

    /** Any plugin post-lifecycle event nulls every payload and clears `invalid`. */
    method OnPluginEvent(event: PluginEvent)
      modifies this
      ensures rows == Nulled(old(rows), false)
    {
      NullPayloads(false);
    }

    /** An index run: compiles every rule whose payload is null from its own conditions. */
    method Index()
      modifies this
      ensures rows == Indexed(old(rows))
      ensures Coherent(old(rows)) ==> Fresh(rows)
    {
      var pending := rows.Keys;
      while pending != {}
        invariant pending <= rows.Keys
        invariant rows.Keys == old(rows).Keys
        invariant forall id :: id in rows ==>
          rows[id] == if id in pending then old(rows)[id] else IndexRow(old(rows)[id])
        decreases pending
      {
        var id :| id in pending;
        var row := rows[id];
        if row.payload.None? {
          rows := rows[id := row.(payload := Some(Compile(row.conditions)), invalid := false)];
        }
        pending := pending - {id};
      }
      if Coherent(old(rows)) {
        IndexMakesFresh(old(rows));
      }
    }
  }
}
