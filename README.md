# Rule payload indexer — a Dafny model

A rule of the shop's rule engine is written with a list of nested
conditions (AND and OR containers, currency and sales-channel leaves). The
rule payload indexer compiles that list into an executable rule tree whose
root is always a fresh AND container, caches it in the rule's `payload`
column, and keeps that cache in step with the stored rows: a repository
write compiles the payload at once, a plugin post-lifecycle event nulls
every payload, and an index run compiles every null payload again.

The indexer class itself is not modelled; its behaviour is taken from its
integration test,
`src/Core/Content/Test/Rule/DataAbstractionLayer/RulePayloadIndexerTest.php`.

Files:

- `wrappers.dfy` — `Option`, for the nullable payload column and unassigned leaf properties.
- `rule_tree.dfy` — module `RuleTree`: `Condition` (type, value map, children) and
  `RuleNode` (`And`, `Or`, `Currency`, `SalesChannel`); the compiler `Compile`; its
  inverse `Decompile` on well-formed conditions and the round-trip lemmas.
- `rule_table.dfy` — module `RuleIndexer`: the rule table as class `RuleTable` with a
  `map` field updated in place by `Create`, `InsertRow`, `NullPayloads`,
  `OnPluginEvent` and `Index`; `Create`, `NullPayloads`/`OnPluginEvent` and `Index`
  are each tied to a specification function (`WithCreated`, `Nulled`, `Indexed`)
  whose properties are proved as lemmas.
- `scenarios.dfy` — module `IndexerScenarios`: each test case run on a fresh table,
  with the exact payload it expects.

## Model

| member | source | states |
|---|---|---|
| RuleTree.CompileNode | src/Core/Content/Test/Rule/DataAbstractionLayer/RulePayloadIndexerTest.php:73-88 | a condition compiles to the rule node registered for its own type (OR to `OrRule`, currency to `CurrencyRule`, ...) |
| RuleTree.CompileAll | src/Core/Content/Test/Rule/DataAbstractionLayer/RulePayloadIndexerTest.php:293-316 | sibling conditions compile one for one, each on its own, in their written order |
| RuleTree.Compile | src/Core/Content/Test/Rule/DataAbstractionLayer/RulePayloadIndexerTest.php:327-330 | the payload is an AND with exactly one child per root condition, the i-th child being the i-th root compiled |
| RuleTree.CompileDecompile | src/Core/Content/Test/Rule/DataAbstractionLayer/RulePayloadIndexerTest.php:100-103 | every rule node is the compilation of the condition it is written from |
| RuleTree.CompileDecompileAll | src/Core/Content/Test/Rule/DataAbstractionLayer/RulePayloadIndexerTest.php:100-103 | the same for a list of sibling nodes, order kept |
| RuleTree.DecompileWellFormed | src/Core/Content/Test/Rule/DataAbstractionLayer/RulePayloadIndexerTest.php:73-88 | the condition a node is written from carries no value on containers and no children on leaves |
| RuleTree.DecompileAllWellFormed | src/Core/Content/Test/Rule/DataAbstractionLayer/RulePayloadIndexerTest.php:73-88 | the same for a list of nodes |
| RuleTree.DecompileCompile | src/Core/Content/Test/Rule/DataAbstractionLayer/RulePayloadIndexerTest.php:79-84 | compiling a well-formed condition loses nothing: id lists, container types and child order come back exactly |
| RuleTree.DecompileCompileAll | src/Core/Content/Test/Rule/DataAbstractionLayer/RulePayloadIndexerTest.php:293-316 | the same for a list of well-formed sibling conditions |
| RuleTree.PayloadRoundTrip | src/Core/Content/Test/Rule/DataAbstractionLayer/RulePayloadIndexerTest.php:100-103 | a payload gives back, as its AND's children, the well-formed root conditions it was compiled from |
| RuleTree.PayloadDeterminesConditions | src/Core/Content/Test/Rule/DataAbstractionLayer/RulePayloadIndexerTest.php:204-214 | rules with different well-formed conditions never share a payload |
| RuleTree.EveryAndTreeIsAPayload | src/Core/Content/Test/Rule/DataAbstractionLayer/RulePayloadIndexerTest.php:365-368 | every AND-rooted tree is the payload of some well-formed rule |
| RuleTree.LeafKeepsConfiguredIds | src/Core/Content/Test/Rule/DataAbstractionLayer/RulePayloadIndexerTest.php:184-187 | a leaf's `currencyIds` / `salesChannelIds` list reaches the compiled leaf unchanged and in order |
| RuleTree.ContainersKeepTheirShape | src/Core/Content/Test/Rule/DataAbstractionLayer/RulePayloadIndexerTest.php:313-315 | a container stays the container type it was written as, with one child per written child (a childless OR stays a childless OR) |
| RuleIndexer.WithCreatedKeys | src/Core/Content/Test/Rule/DataAbstractionLayer/RulePayloadIndexerTest.php:194 | a create adds exactly the batch's ids to the table |
| RuleIndexer.WithCreatedContents | src/Core/Content/Test/Rule/DataAbstractionLayer/RulePayloadIndexerTest.php:266-282 | a create stores each rule of the batch with its payload compiled and `invalid` cleared, and keeps every other row |
| RuleIndexer.CreateKeepsCoherence | src/Core/Content/Test/Rule/DataAbstractionLayer/RulePayloadIndexerTest.php:134-142 | after a create every new rule's payload is the compilation of its own conditions, and a coherent table stays coherent |
| RuleIndexer.IndexFillsNulls | src/Core/Content/Test/Rule/DataAbstractionLayer/RulePayloadIndexerTest.php:93-98 | an index run gives every null payload the compilation of that rule's conditions, leaves set payloads alone and keeps every rule |
| RuleIndexer.IndexIsPerRule | src/Core/Content/Test/Rule/DataAbstractionLayer/RulePayloadIndexerTest.php:196-214 | what an index run writes for a rule depends on that rule's row only |
| RuleIndexer.IndexMakesFresh | src/Core/Content/Test/Rule/DataAbstractionLayer/RulePayloadIndexerTest.php:321-326 | on a coherent table an index run leaves every rule with the payload compiled from its own conditions |
| RuleIndexer.NulledKeepsRules | src/Core/Content/Test/Rule/DataAbstractionLayer/RulePayloadIndexerTest.php:424-430 | nulling payloads keeps every rule, its name, priority and conditions, drops every payload whatever it was and sets `invalid` to the given flag |
| RuleIndexer.EventThenIndexRecompilesAll | src/Core/Content/Test/Rule/DataAbstractionLayer/RulePayloadIndexerTest.php:422-430 | a plugin event followed by an index run leaves every rule with its own compiled payload, whatever payloads the table held before |
| RuleIndexer.RuleTable.constructor | src/Core/Content/Test/Rule/DataAbstractionLayer/RulePayloadIndexerTest.php:54-61 | a new table holds no rules |
| RuleIndexer.RuleTable.Create | src/Core/Content/Test/Rule/DataAbstractionLayer/RulePayloadIndexerTest.php:91 | the repository's create: succeeds exactly when the ids are new and distinct, then the table is the old one with the batch written and compiled; otherwise it is unchanged; coherence is kept |
| RuleIndexer.RuleTable.InsertRow | src/Core/Content/Test/Rule/DataAbstractionLayer/RulePayloadIndexerTest.php:412-420 | a direct insert adds one row with no conditions and the given payload, and fails on a taken id |
| RuleIndexer.RuleTable.NullPayloads | src/Core/Content/Test/Rule/DataAbstractionLayer/RulePayloadIndexerTest.php:93 | the bulk update sets every row's payload to null and `invalid` to the given flag |
| RuleIndexer.RuleTable.OnPluginEvent | src/Core/Content/Test/Rule/DataAbstractionLayer/RulePayloadIndexerTest.php:433-442 | each of the five plugin post-lifecycle events nulls every payload and clears `invalid` on every rule |
| RuleIndexer.RuleTable.Index | src/Core/Content/Test/Rule/DataAbstractionLayer/RulePayloadIndexerTest.php:96-98 | the table after an index run is `Indexed` of the table before; on a coherent table every rule is then fresh |
| IndexerScenarios.OrRootCompiles | src/Core/Content/Test/Rule/DataAbstractionLayer/RulePayloadIndexerTest.php:69-103 | an OR root holding one currency leaf compiles to `AND[OR[Currency(ids)]]` |
| IndexerScenarios.LeafRootCompiles | src/Core/Content/Test/Rule/DataAbstractionLayer/RulePayloadIndexerTest.php:339-368 | a currency leaf at the root compiles to `AND[Currency(ids)]` |
| IndexerScenarios.SalesChannelRootCompiles | src/Core/Content/Test/Rule/DataAbstractionLayer/RulePayloadIndexerTest.php:180-214 | a sales-channel leaf at the root compiles to `AND[SalesChannel(ids)]` |
| IndexerScenarios.MultipleRootsCompile | src/Core/Content/Test/Rule/DataAbstractionLayer/RulePayloadIndexerTest.php:293-330 | an OR holding an AND and a childless OR compile to an AND of those two ORs, nesting kept |
| IndexerScenarios.IndexOrRoot | src/Core/Content/Test/Rule/DataAbstractionLayer/RulePayloadIndexerTest.php:63-104 | after create, nulling and index, the payload is null before the run and `AND[OR[Currency(ids)]]` after it |
| IndexerScenarios.CreateOrRoot | src/Core/Content/Test/Rule/DataAbstractionLayer/RulePayloadIndexerTest.php:106-143 | a create alone yields `AND[OR[Currency(ids)]]` |
| IndexerScenarios.IndexTwoRules | src/Core/Content/Test/Rule/DataAbstractionLayer/RulePayloadIndexerTest.php:145-215 | two rules nulled and indexed each get the tree of their own conditions |
| IndexerScenarios.CreateTwoRules | src/Core/Content/Test/Rule/DataAbstractionLayer/RulePayloadIndexerTest.php:217-283 | two rules created together each get the tree of their own conditions at once |
| IndexerScenarios.IndexMultipleRoots | src/Core/Content/Test/Rule/DataAbstractionLayer/RulePayloadIndexerTest.php:285-331 | with two OR roots the indexed payload is an AND with two children, both OR |
| IndexerScenarios.IndexLeafRoot | src/Core/Content/Test/Rule/DataAbstractionLayer/RulePayloadIndexerTest.php:333-369 | a currency leaf at the root is indexed to `AND[Currency(ids)]` |
| IndexerScenarios.CreateLeafRoot | src/Core/Content/Test/Rule/DataAbstractionLayer/RulePayloadIndexerTest.php:371-403 | a create alone wraps a currency root leaf in an AND |
| IndexerScenarios.PostEventNullsPayload | src/Core/Content/Test/Rule/DataAbstractionLayer/RulePayloadIndexerTest.php:408-431 | 21 rows inserted with an empty AND payload, then any plugin event: all 21 ids remain, each with a null payload and `invalid` false |

## Left out

- The indexer class is not modelled directly; every behaviour here is the one its integration test asserts. Where the test is silent the choice is the model's, each one listed below.
- Persistence: the database connection, query builder, repository search and criteria, and the service container become an in-memory `map` from rule id to row.
- Random ids: ids are plain strings; the scenarios take them as parameters and require the rule ids to differ.
- Serialization: the stored payload is the rule tree itself; the PHP `serialize` byte format is not modelled, so no codec round trip is stated.
- Leaf evaluation: how a currency or sales-channel condition matches a cart or context is not modelled; leaves are data.
- Event dispatch: the dispatcher becomes a direct call to `OnPluginEvent`; the five events are one method with the event as a parameter.
- The `DateTime` argument of `index` is not modelled; no assertion depends on it, nor on batching.
- Unknown condition types and per-rule fault isolation: condition types are an enumeration of the four tested types, so a registry miss cannot be expressed.
- A single AND root: the model wraps a lone AND root a second time, giving `AND[AND[..]]` (this follows from the contracts of `RuleTree.Compile` and `RuleTree.CompileNode`); no assertion in the test shows what the indexer does in that case.
- An index run's effect on a second run (an empty report) and rule deletion are not modelled: no test exercises them.
- RuleIndexer.RuleTable.Index: clearing `invalid` on the rows it compiles is a modelling choice; the test asserts only the payload.
- RuleIndexer.RuleTable.Create: the repository's behaviour on a taken or repeated id is not shown (every create in the test uses fresh random ids); the model renders it as `ok == false` with the table unchanged.
- RuleIndexer.RuleTable.constructor: the table starts empty, a modelling choice; the test's setup only fetches services, and its final check runs over whatever rows the store holds. `IndexerScenarios.PostEventNullsPayload`'s exact key set depends on this empty start.
- RuleTree.CompileNode: a leaf whose value lacks its own key keeps its id list unassigned (`None`), keys other than its own are dropped, children under a leaf are ignored, and a container's value is dropped; no test shows these cases.
- RuleTree.CompileAll: sibling order is kept, a modelling choice; no assertion in the test can tell sibling order apart (its only list of several siblings holds two ORs, checked by count and class only), so the exact tree in `IndexerScenarios.MultipleRootsCompile` is the model's.
- RuleTree.Condition: a condition's value is modelled as a map from keys to id lists, not arbitrary JSON.
- RuleIndexer.Written: a create leaves the written rule's `invalid` false; the test does not show this flag after a create, only the payload.
- RuleIndexer.RuleTable.InsertRow: the test only inserts fresh ids and does not show an insert of a taken id; the model returns `ok == false` and leaves the table unchanged.
- RuleIndexer.RuleTable.Index: an index run leaves every row whose payload is not null exactly as it was, even one flagged `invalid`; the test nulls every payload before each run, so it never shows an index run meeting a set payload.
- RuleIndexer.RuleTable.InsertRow: the inserted row's `invalid` is false, standing for the column's default, which the test does not show.
- IndexerScenarios.PostEventNullsPayload: every inserted row is named `Rule` rather than `Rule0` … `Rule20`; names play no part in the assertions.
