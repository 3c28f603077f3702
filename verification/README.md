# Join safety, verified

A Dafny model of JoinLint's join-safety runtime and of the other protocols of the repository whose
correctness is not visible in one function body. The claim the product makes is about rows: joining
along a plan, or running a query that passed validation, never shows a row of the promised grain
twice. Here that claim is stated over tables and join rows and proved through every stage: counting
rows, authorising relationships, searching for trees, walking them from the grain, caching evidence,
and binding a query to a stored proof.

Run `dafny verify dfyconfig.toml` in this directory to check the whole project.

## How the model is built

- A table is a sequence of rows, a row maps columns to cells, and a null cell matches nothing. A join
  row is a map from instance names to row positions (`Relational.JoinRow`). With left joins a result row
  may lack instances (`LeftJoins.ResultRow`); evaluating the query join by join, in any order in which it
  can be written, gives exactly these rows (`LeftSteps.EvaluationIsResult`).
- Identifiers that the program derives by hashing canonical JSON (RFC 8785, section 3.2) are kept as
  the hashed content, so equal ids mean equal content. Names compare in an order of their encoded
  characters (`Ordering.NameLe`), proved total. Timestamps are opaque and never compared.
- Code that updates state step by step is a method with loop invariants or a class
  (`SpanningTrees.TreeSearch`, `EvidenceCache.RuntimeCache`, `Publish.Workspace`), proved against
  specification functions; the properties are lemmas about those functions.
- Concurrency is a state machine: each file read, unlink, store and lock operation of the evidence
  cache is one step, and the theorems are about every run.

| file | what it holds |
|---|---|
| `Ordering.dfy`, `Sets.dfy` | orders, stable sorting, sizes of sets, repeated values |
| `Domain.dfy`, `Relational.dfy` | shared values; tables, grouping, join rows |
| `Evidence.dfy`, `EvidenceRows.dfy` | measuring, findings, authorisation, the authorised graph; what each of them says about the rows |
| `GrainWalk.dfy`, `QueueWalk.dfy`, `Rings.dfy`, `JoinSafety.dfy` | walks from the grain; the queue loop and when it ends; trees, walks and join rows |
| `CandidateEdges.dfy`, `SpanningTrees.dfy`, `Planner.dfy`, `PlanSafety.dfy` | the planner and what its plans guarantee |
| `PlanChoice.dfy`, `StableKeys.dfy` | which trees a plan offers, what its proofs and ids record, and every way the planner can answer; stable keys as a fact about rows |
| `Bijections.dfy`, `SqlGraph.dfy`, `InstanceGroups.dfy`, `SqlCanonical.dfy` | the canonical form of a query's join graph |
| `SqlForm.dfy` | what a canonical form looks like; matching and naming, said of the endpoints and names as written |
| `SqlMatching.dfy`, `SqlValidation.dfy`, `SqlSafety.dfy`, `ProofLifecycle.dfy`, `ProofBoundSql.dfy`, `ProoflessSql.dfy` | validating a query with a proof and without one |
| `AnyBinding.dfy`, `MixedSides.dfy`, `UniformRows.dfy` | every binding is as safe as the one taken; exact conditions on an edge and on a query |
| `LeftJoins.dfy`, `LeftSteps.dfy`, `LeftMissing.dfy` | the result rows of left joins; their evaluation join by join; which instances can be missing |
| `LeftGrain.dfy`, `LeftRows.dfy`, `LeftProof.dfy`, `LeftWitnesses.dfy` | when left joins keep the grain, without a proof and with one |
| `RenamedRows.dfy`, `RenamedResults.dfy`, `QueryVerdict.dfy` | the rows, the result and the verdict of a query under its canonical form |
| `EvidenceCache.dfy`, `CacheProtocol.dfy`, `CachedPlanning.dfy` | the evidence cache: repair, concurrency, planning from it |
| `JoinPaths.dfy` | enumerating and validating entity paths |
| `Wilson.dfy`, `Holm.dfy` | the two statistics of the release gates |
| `Publish.dfy`, `Fingerprint.dfy` | publishing generated evidence; the source fingerprint |
| `ReviewSelection.dfy`, `ReviewOrder.dfy` | choosing review items, and in which order they are taken |
| `RelationshipCounts.dfy`, `RelationshipReport.dfy` | validation by value counts, and what its report says of the values |
| `Witnesses.dfy`, `SqlWitnesses.dfy` | small databases and queries on which a promise fails |

## Where the code promises less than it seems

Each item has a witness and the exact condition, proved for all inputs; for edges that mix sides the
condition is exact edge by edge, and for refused instances it is exact for queries of left joins only.

- `NO_VERIFIED_PATH` does not mean that no safe tree exists: the safety filter runs after the search
  is cut at four results. `Witnesses.LimitHidesSafeTree` is a database of two tables and a request for
  two instances on which a safe tree exists and the answer is `NO_VERIFIED_PATH`;
  `PlanSafety.LimitHidesExactly` says that this happens exactly when the first safe growth, in the
  order of the search, stands at the limit or later.
- Relationship matching compares unordered endpoint pairs, so an edge that mixes the sides of a
  composite self-relationship is accepted (`SqlSafety.MixedSidesMatch`), and a query with such an edge
  passes against a planned proof and repeats rows of its grain (`SqlWitnesses.MixedQueryRepeats`).
  `SqlSafety.MatchIsExactWhen` says when the edge means its relationship, and
  `MixedSides.EdgeKeepsGrainExactly` when a query of one such edge keeps its grain on every database:
  when its pairs, read from the side taken for the child, include the relationship's. Queries of more
  edges keep it when every edge is like that (sufficient only), as every edge is across entities and for
  single key columns (`ProofBoundSql.UnmistakableIsCovered`).
- The queue walk of a query without a proof need not end. It goes on for ever exactly when no walk
  from the checked instance multiplies rows and one of them ends on a ring of three or more instances
  (`Rings.NeverEndsOnRings`); `SqlWitnesses.RingIsNeverAnswered` is such a query. With a proof the graph
  is a tree and the walk ends.
- A query without a proof that passes need not keep the named grain: nothing asks that its joins
  connect everything (`SqlWitnesses.PartsApartRepeat`). It keeps the grain on every database exactly when
  walks from the grain lead to every instance (`UniformRows.KeepsGrainEverywhereExactly`), and on one
  database as `ProoflessSql.ProoflessKeepsGrainExactly` says.
- Left joins are not walked differently from inner ones, so a query that passes can repeat its grain when
  left joins meet at one optional instance: a missing row there no longer ties what is joined beyond it
  (`LeftWitnesses.MeetingRepeats`). It keeps the grain of its result on every database exactly when the
  grain settles every instance (`LeftRows.KeepsResultEverywhereExactly`); where the joins form a tree, as
  with a proof, exactly when no optional instance is left joined to two others
  (`LeftProof.TreeSettlesExactly`).
- An instance refused as optional can still be in every row of the result: another join condition below it
  keeps only rows that have it (`LeftJoins.AlwaysThereIsThere`; `LeftWitnesses.RefusedButThere` is such a
  query). Among queries of left joins only, an instance is refused exactly when it is missing from a row
  of the result on some database that authorises the relationships
  (`LeftMissing.RefusedExactlyWhenMissing`).
- The cache selector leaves out the declared cardinality, so a cached record can carry other findings
  than a fresh verification (`Witnesses.CachedIsNotFresh`); `EvidenceCache.CachedIsFreshExactly` says
  exactly when.
- The verifier can run twice for one selector (`CacheProtocol.StaleUnlinkVerifiesTwice`). It runs at
  most once in every run of every set of processes exactly when every index pointer that some process
  can ask for answers at the start (`CacheProtocol.VerifiedOnceExactly`).
- A rename that takes effect and then reports an error, or a failed rename whose restore fails, leaves
  published evidence only in the backup's place (`Publish.Workspace.WriteGenerated` states the family).
  A second attempt that fails loses it exactly when it had filled its own tree, then harmed the backup,
  and did not move its tree into place (`Publish.TwoFailures`); `Publish.TwoFailuresLoseEvidence` is a
  pair of attempts after which nothing is left.

## Model

| member | source | states |
|---|---|---|
| Evidence.MeasureIsConsistent | src/joinlint/runtime/domain.py:234-244 | For all tables the measured counts satisfy every consistency check made when measurements are built, and the null count is zero exactly when every child row has a complete key |
| Evidence.OrphanCountZero | src/joinlint/runtime/evidence.py:208-213 | The orphan count, obtained by subtracting counts, is zero exactly when every child row with a complete key finds a parent row |
| Relational.DistinctCountUnique | src/joinlint/runtime/evidence.py:190-207 | Grouping yields as many groups as there are keyed rows exactly when no two keyed rows share a key |
| Relational.LargestGroupAtMostOne | src/joinlint/runtime/evidence.py:214-225 | The largest group has at most one row exactly when the key is unique |
| Evidence.AuthorizedExactly | src/joinlint/runtime/evidence.py:121-139 | Evidence measured on a database is usable exactly when the snapshot is current, the parent key is unique, no child row is an orphan, and, if one child per parent was declared, the child key is unique; the codes reported are in `EvidenceRows.FindingsExactly` and `ReasonsExactly` |
| Evidence.BoundsAreRowFacts | src/joinlint/runtime/evidence.py:265-272 | A measured bound of one on parents (children) means that no child (parent) row matches two rows |
| EvidenceRows.MeasureExactly | src/joinlint/runtime/evidence.py:188-241 | Each reported count is the length of any list, without repeats, of the rows or keys that it counts: rows, rows with a complete key, distinct keys on either side, and children that find a parent |
| EvidenceRows.BoundsExactly | src/joinlint/runtime/evidence.py:214-225 | Each bound is the size of a largest group of rows with one key: no group is larger, and one is as large |
| EvidenceRows.ObservedExactly | src/joinlint/runtime/evidence.py:265-284 | The observed cardinality, and its conflict with the declared one, are exactly facts about the uniqueness of the two keys |
| EvidenceRows.FindingsExactly | src/joinlint/runtime/evidence.py:244-262 | A record holds a code with its severity exactly when the rows call for it: repeated parent key, orphan, child row without a key, drift from the declared cardinality, or two keys that both repeat; there is no other code |
| EvidenceRows.ReasonsExactly | src/joinlint/runtime/evidence.py:121-139 | The blocking reasons are exactly the blocking codes that the rows call for, in order and each once, as the record's own codes are, beside the policy, whether the snapshot is current, and usability, which means current and without a reason |
| EvidenceRows.GraphExactly | src/joinlint/runtime/evidence.py:142-166 | A relationship is in the graph exactly when some seed has it, the last record of its id is usable, and it carries that record, its authorisation and the seed's cardinality; relationships come in the order of their ids |
| Evidence.BuildAuthorizedGraph | src/joinlint/runtime/evidence.py:142-166 | The loops compute the graph of the specification: later records replace earlier ones, and what remains is sorted by relationship id |
| Evidence.FreshGraphKeeps | src/joinlint/runtime/evidence.py:142-166 | With fresh evidence a relationship is kept exactly when its rows allow the join |
| Evidence.FreshGraphIsMeasured | src/joinlint/runtime/evidence.py:75-118 | Every kept relationship carries measurements of this database and of the current snapshot |
| QueueWalk.BuildAdjacency | src/joinlint/runtime/planner.py:120-124 | The filled dictionary lists for each node exactly its neighbours with their fan-out, in edge order |
| QueueWalk.FanoutFree | src/joinlint/runtime/planner.py:116-134 | Whenever the queue loop ends, it answers true exactly when no walk away from the grain, never turning back, crosses an edge that multiplies rows |
| QueueWalk.NeverEndsExactly | src/joinlint/runtime/planner.py:125-134 | For all links the loop goes on for ever exactly when no walk from the grain multiplies rows and walks from it can have any length |
| Rings.NeverEndsOnRings | src/joinlint/runtime/planner.py:125-134 | Without self-links that is exactly when no walk from the grain multiplies rows and some walk ends on a ring of three or more different nodes |
| QueueWalk.TreeWalkEnds | src/joinlint/runtime/planner.py:125-134 | On every spanning tree the loop ends |
| JoinSafety.AtMostOneJoinRow | src/joinlint/runtime/planner.py:116-134 | Two rows of an inner join along a measured tree that never fans out from the grain and that agree on the grain are equal |
| JoinSafety.ExactlyOneJoinRow | src/joinlint/runtime/planner.py:116-134 | If every edge leads from child to parent away from the grain and no child key is null, each grain row is in exactly one join row |
| CandidateEdges.BuildCandidates | src/joinlint/runtime/planner.py:137-173 | The nested loops and the sort compute the candidate list of the specification |
| CandidateEdges.CandidatesExactly | src/joinlint/runtime/planner.py:137-173 | A candidate is listed exactly when an authorised relationship connects two distinct requested instances of its entities in that direction, with that direction's cardinality and fan-out |
| CandidateEdges.CandidatesIgnoreRequestOrder | src/joinlint/runtime/planner.py:276-285 | Any permutation of the request gives the same list, including the order of tying forward and reverse edges of a self-relationship |
| PlanChoice.CandidatesByPreference | src/joinlint/runtime/planner.py:276-285 | Of two listed candidates the earlier is preferred: curated before declared, then no fan-out before fan-out, then the smaller relationship id, then the smaller refs |
| PlanChoice.CandidateReads | src/joinlint/runtime/planner.py:146-172 | A candidate joins instances of the right entities; along it from child to parent the bound is on parents and the cardinality the observed one, and back the bound is on children and the cardinality is turned round; either way its far side is many exactly when the bound exceeds one |
| SpanningTrees.TreeSearch.Grow | src/joinlint/runtime/planner.py:186-207 | The recursive closure over the shared result list leaves in it the first results, up to the limit, of the unbounded search |
| SpanningTrees.FindSpanningTrees | src/joinlint/runtime/planner.py:176-207 | The result is the first min(limit, N) of the N growth sequences in search order |
| SpanningTrees.RecordedExactly | src/joinlint/runtime/planner.py:176-207 | A sequence of edges is among the growths exactly when it grows a spanning tree from the start within the depth bound; it then has one edge fewer than there are refs |
| SpanningTrees.SearchOrder | src/joinlint/runtime/planner.py:196-206 | Growths come in lexicographic order of the candidates they choose, so the limit keeps the preferred ones |
| SpanningTrees.FindsSomethingExactly | src/joinlint/runtime/planner.py:176-207 | The search returns something exactly when every ref is within the depth bound of the start |
| Planner.TreeIsSafe | src/joinlint/runtime/planner.py:210-212 | A tree passes exactly when at most one edge fans out as planned and no walk from the grain does |
| PlanChoice.SafeTreeExactly | src/joinlint/runtime/planner.py:116-134 | A tree is safe exactly when no two of its edges fan out as planned and no walk from the grain, never turning back, ends with an edge that multiplies rows |
| Planner.PlanJoin | src/joinlint/runtime/planner.py:32-88 | The method returns the specified plan or the specified error, check by check; `PlanChoice.PlanPicks` and `PlanChoice.PlanOutcomes` say which plan and when which error |
| PlanSafety.PlanKeepsGrain | src/joinlint/runtime/planner.py:32-88 | On every database whose measurements authorised the graph, the inner join along a returned proof or along any alternative holds each row of the expected grain at most once |
| PlanSafety.PlanKeepsEveryRow | src/joinlint/runtime/planner.py:32-88 | Along a plan that climbs from child to parent with no null child key, each grain row is joined exactly once |
| PlanSafety.PlanShape | src/joinlint/runtime/planner.py:61-88 | What is offered spans the request with one edge fewer than refs, within the depth bound, and with at most one fan-out edge |
| PlanSafety.OfferedTree | src/joinlint/runtime/planner.py:215-273 | Behind the proof and each alternative stands a safe spanning tree the search found, described edge by edge, with the plan id of its content |
| PlanChoice.PlanPicks | src/joinlint/runtime/planner.py:61-88 | The proof records the first safe tree that the search meets among its first four growths; the alternatives, where asked for, record at strictly rising places all later safe ones below that limit, and otherwise there are none; each carries the request's refs, start, grain, depth and policy and the tree's snapshot |
| PlanChoice.EdgesAreRecorded | src/joinlint/runtime/planner.py:252-273 | A proof edge records its candidate: refs, relationship, evidence, endpoints, direction, cardinality and provenance, and one equality for each pair of key columns, child side first |
| PlanChoice.PlanOutcomes | src/joinlint/runtime/planner.py:43-69 | Every answer of the planner has its own exact condition: invalid argument, no verified path, several sources, evidence of several snapshots, or a plan |
| StableKeys.StableGrainExactly | src/joinlint/runtime/planner.py:306-316 | The grain counts as stable exactly when the catalog lists its entity and the first definition listed rules out, on every table that keeps to it, that a row is stored twice |
| PlanSafety.LimitHidesExactly | src/joinlint/runtime/planner.py:61-65 | Past the argument checks the answer NO_VERIFIED_PATH hides a safe spanning tree exactly when the first safe growth stands at position four or later, every earlier growth being unsafe and choosing an earlier candidate where the two part |
| PlanSafety.NoPathComplete | src/joinlint/runtime/planner.py:61-65 | With at most four growths it is raised exactly when no spanning tree within the depth bound is safe |
| PlanSafety.CrowdedHides | src/joinlint/runtime/planner.py:62-65 | On every graph where four curated relationships fan out from the start, no curated one leads safely away from it, and a declared one does, the safe tree is hidden |
| Witnesses.LimitHidesSafeTree | src/joinlint/runtime/planner.py:61-65 | For the graph authorised from five seeds on two small tables, and any catalog with a stable key for the grain, the planner answers NO_VERIFIED_PATH although a safe spanning tree exists |
| PlanSafety.ForwardNeverFansOut | src/joinlint/runtime/planner.py:146-173 | Over freshly authorised relationships only a candidate from parent to child can multiply rows |
| PlanSafety.PlanIgnoresRequestOrder | src/joinlint/runtime/planner.py:32-88 | Any permutation of the requested instances gives the same result: same error, or same edges and same plan id |
| PlanSafety.OfferedIsValid | src/joinlint/runtime/domain.py:314-361 | Everything the planner offers passes the validators of proofs and proof edges |
| PlanSafety.EverySafeTreeOffered | src/joinlint/runtime/planner.py:72-88 | With alternatives asked for, every safe tree the search returned is the proof or one of its alternatives |
| PlanSafety.PlanIdExactly | src/joinlint/runtime/domain.py:444-493 | Within one request two trees get the same plan id exactly when they have the same edges; across requests `PlanChoice.PlanIdsExactly` |
| PlanChoice.PlanIdsExactly | src/joinlint/runtime/domain.py:444-493 | Of all proofs that any two requests over any two graphs are offered, two have one id exactly when source, snapshot, policy, refs, start, grain and depth are the same and they have the same edges, in whatever order |
| PlanSafety.GrowthOrderKeepsPlanId | src/joinlint/runtime/domain.py:444-493 | Two growth orders of one edge set get the same plan id |
| SqlGraph.WrittenReads | src/joinlint/runtime/sql.py:358-378 | Writing an edge with renamed instances in its standard orientation keeps its meaning |
| SqlCanonical.Renamings | src/joinlint/runtime/sql.py:305-335 | The generated renamings are exactly the entity-preserving bijections onto the canonical names |
| SqlCanonical.CanonicalizeInstances | src/joinlint/runtime/sql.py:300-355 | The loop that keeps the best rendering returns the least of all renamed graphs |
| SqlCanonical.CanonicalExactly | src/joinlint/runtime/sql.py:300-355 | Two join graphs get the same canonical form exactly when an entity-preserving renaming of instances maps one onto the other, up to edge order and orientation of inner edges |
| SqlCanonical.CanonicalIdempotent | src/joinlint/runtime/sql.py:300-355 | A canonical form is its own canonical form |
| SqlForm.FormExactly | src/joinlint/runtime/sql.py:300-378 | In the canonical form the n instances are called i0 to i(n-1), in blocks by the order of their entities, and listed by name; inner edges start at the smaller name; and pairs and edges are in order |
| SqlForm.DecimalReads | src/joinlint/runtime/sql.py:313-314 | The number in an instance's name is written in decimal digits without leading zeros |
| RenamedRows.SameRows | src/joinlint/runtime/sql.py:300-378 | If a renaming of instances turns one join graph into another, up to edge order and orientation, then on every database the rows of the second, read under the first's names, are exactly the rows of the first |
| RenamedRows.RepeatsAlike | src/joinlint/runtime/sql.py:300-378 | An instance repeats a row in one of the two graphs exactly when its namesake does in the other |
| RenamedResults.SameResultRows | src/joinlint/runtime/sql.py:300-378 | The same of the result rows with left joins, where instances may be missing |
| SqlMatching.MatchHasLeastId | src/joinlint/runtime/sql.py:381-405 | Among all relationships whose endpoints match, the one with the least id is chosen |
| SqlForm.EdgeMatchesExactly | src/joinlint/runtime/sql.py:381-405 | An edge matches a relationship exactly when each of its pairs equates two corresponding key columns and each two corresponding ones are equated, in whatever order a pair is written |
| SqlForm.ChildSideExactly | src/joinlint/runtime/sql.py:408-419 | The left instance is taken for the child exactly when the left ends name the child's key columns and nothing else; otherwise the right one is |
| SqlMatching.MatchEdges | src/joinlint/runtime/sql.py:169-184 | Each edge yields its match or one finding, in order |
| SqlMatching.EntityRenamings | src/joinlint/runtime/sql.py:427-449 | The combinations tried are exactly the entity-preserving bijections between the two lists of instances |
| SqlMatching.ProofMapping | src/joinlint/runtime/sql.py:422-464 | A mapping is returned exactly when some entity-preserving bijection makes the multisets of relationship, child and parent equal; it is one, and the first in the order of trial |
| SqlValidation.BoundIsTree | src/joinlint/runtime/sql.py:500-503 | The matched edges of a bound query form a spanning tree of the query's instances, whichever side of each edge was written first |
| SqlValidation.OfferedProofIsTree | src/joinlint/runtime/planner.py:215-249 | Every proof the planner offers has distinct refs and edges forming a spanning tree of them |
| SqlValidation.GrainCompatible | src/joinlint/runtime/sql.py:491-513 | Whenever the check answers, it accepts exactly when the expected instance is not the filled-in side of a left join and no walk from it multiplies rows; the next rows say what the first means for the rows of the result |
| LeftJoins.RefusedExactly | src/joinlint/runtime/sql.py:491-499 | The instances that the check refuses as optional are exactly those that stand on the filled-in side of a left join |
| LeftJoins.AcceptedIsThere | src/joinlint/runtime/sql.py:491-499 | On every database an instance that the check accepts is in every row of the result |
| LeftJoins.InnerResult | src/joinlint/runtime/sql.py:121-131 | Without left joins the result rows are the rows of the inner join |
| LeftMissing.RefusedExactlyWhenMissing | src/joinlint/runtime/sql.py:491-499 | In a query of left joins an instance is in every row of the result, on every database that authorises the relationships, exactly when the check does not refuse it as optional |
| LeftMissing.MissingSomewhere | src/joinlint/runtime/sql.py:491-499 | In any query an instance is missing from a row of the result on some such database when it is left joined, or stands behind a left join, on a column that no other join of the query needs to be filled |
| LeftWitnesses.RefusedButThere | src/joinlint/runtime/sql.py:491-499 | An order left joined to one line and then joined to another is refused as optional, and is in every row of the result on every database |
| LeftSteps.EvaluationIsResult | src/joinlint/runtime/sql.py:121-131 | For every order in which an optional instance comes after what it is left joined to, evaluating the query join by join yields exactly its result rows |
| SqlValidation.ProoflessEndsExactly | src/joinlint/runtime/sql.py:491-513 | For every well-formed query the check goes on for ever exactly when the instance is not optional, no walk from it multiplies rows, and one ends on a ring of three or more instances |
| SqlValidation.ExpectedSqlRef | src/joinlint/runtime/sql.py:467-488 | With a binding it is the instance bound to the wanted ref; otherwise the only instance that answers to the wanted name by ref, entity or last part of the entity; and nothing when there is none or more than one |
| SqlForm.AnswersExactly | src/joinlint/runtime/sql.py:480-488 | An instance answers to its own name, to its entity's, and to the one part of that without a dot that is all of it or follows a dot |
| StableKeys.StableInstanceExactly | src/joinlint/runtime/sql.py:516-533 | An instance counts as stable exactly when the first definition listed for its entity rules out that a row is stored twice |
| SqlValidation.ValidateSql | src/joinlint/runtime/sql.py:159-208 | The outcome is one function of the query, the graph, the proof and what is asked; it passes exactly when it has no finding; a proof matches exactly when all edges match and a binding exists; without a proof there is one finding for each unmatched edge; and the only other finding is an unacceptable grain at the checked instance |
| SqlForm.ReportedExactly | src/joinlint/runtime/sql.py:199-205 | When every edge is matched the outcome reports for each edge, in turn, the id and the evidence of the matching relationship with the least id |
| SqlValidation.TreeProofEnds | src/joinlint/runtime/sql.py:491-513 | With a stored proof whose edges form a tree, validation of every well-formed query ends |
| QueryVerdict.JudgeQuery | src/joinlint/runtime/service.py:130-145 | The outcome is that of the query's canonical form |
| QueryVerdict.AlikeQueriesAlikeAnswers | src/joinlint/runtime/sql.py:156-208 | Two queries that differ only in the names of their instances, the order of joins and the side an inner join is written from get the same outcome, ids and findings included |
| SqlSafety.MatchIsExactWhen | src/joinlint/runtime/sql.py:385-419 | A matched edge means its relationship exactly when its pairs, read from the side taken for the child, are the relationship's pairs |
| SqlSafety.CoversAcrossEntities | src/joinlint/runtime/sql.py:408-419 | Between two different entities the matched edge implies its relationship: its pairs, read from the child, include all of the relationship's |
| SqlSafety.CoversSingleColumn | src/joinlint/runtime/sql.py:408-419 | With a single key column the matched edge implies its relationship |
| ProofBoundSql.UnmistakableIsCovered | src/joinlint/runtime/sql.py:381-464 | For a bound query whose endpoints are written with their instances' entities, over relationships of one key column or between unmistakable entities, every matched edge implies its relationship |
| SqlSafety.MixedSidesMatch | src/joinlint/runtime/sql.py:385-399 | A composite self-relationship can be matched by an edge whose meaning is not the relationship's |
| SqlWitnesses.MixedQueryRepeats | src/joinlint/runtime/sql.py:159-208 | On one table of two rows a query with such an edge is accepted against a planned proof under every binding, and a row of the promised grain is in two join rows |
| MixedSides.EdgeKeepsGrainExactly | src/joinlint/runtime/sql.py:381-419 | For every matched inner edge over a self-relationship whose two sides share no column, the query of that edge never repeats a row of the side taken for the child, on any database that authorises the relationship, exactly when its pairs, read from that side, include the relationship's |
| SqlSafety.AcceptedSqlKeepsGrain | src/joinlint/runtime/sql.py:159-208 | Two rows of the inner join of an accepted query that agree on the checked instance are equal |
| SqlWitnesses.RingIsNeverAnswered | src/joinlint/runtime/sql.py:504-512 | On one row, three instances joined in a ring form a well-formed query, fully matched and with a named grain, on which the walk never ends |
| ProoflessSql.MatchedIsTyped | src/joinlint/runtime/sql.py:408-419 | Where no entity is mistaken for another, the side taken for the child is an instance of the child's entity and the other one of the parent's |
| ProoflessSql.ProoflessKeepsGrainExactly | src/joinlint/runtime/sql.py:159-208 | A query that passes without a proof keeps the named grain on a measured database exactly when no two join rows differ at an instance that no walk from the grain reaches; so it does whenever its joins connect everything |
| UniformRows.KeepsGrainEverywhereExactly | src/joinlint/runtime/sql.py:159-208 | A query that passes without a proof keeps the named grain on every database that authorises its relationships exactly when walks from the grain lead to every instance |
| LeftRows.KeepsResultEverywhereExactly | src/joinlint/runtime/sql.py:159-208 | With left joins, a query that passes without a proof keeps the named grain of its result on every database that authorises its relationships exactly when the grain settles every instance, one after the other |
| LeftWitnesses.MeetingRepeats | src/joinlint/runtime/sql.py:491-513 | Two lines left joined to one order, over two lines without an order: the query passes with a line as its grain and repeats it |
| SqlWitnesses.PartsApartRepeat | src/joinlint/runtime/sql.py:132-141 | A query whose joins fall into two parts passes, and the named grain is repeated |
| ProofLifecycle.StatusOf | src/joinlint/runtime/planner.py:91-113 | A proof is current exactly when snapshot and policy agree and all its evidence is available, and each other status has its own condition |
| ProofLifecycle.AuthorizedGraphIsBound | src/joinlint/runtime/domain.py:285-291 | A graph built from hashed records binds every relationship to evidence of its own id |
| ProofLifecycle.CurrentProofKeepsGrain | src/joinlint/runtime/planner.py:91-113 | A proof all of whose evidence is still available keeps its grain on the current database, whatever the rest of the graph it was planned from was measured on |
| ProofBoundSql.Gate | src/joinlint/runtime/service.py:107-129 | The request is let through exactly when the named source, if any, is the proof's, the proof is current, and the wanted grain, if any, is one of its refs; each refusal has its own condition |
| AnyBinding.SafeUnderAny | src/joinlint/runtime/sql.py:422-464 | If the walk from the instance bound to the target is safe under one binding, it is safe under every binding |
| AnyBinding.AuthorizedIsDistinct | src/joinlint/runtime/evidence.py:142-166 | From distinct seeds, whatever the evidence, the authorised graph has no relationship id twice |
| ProofBoundSql.ValidateWithProof | src/joinlint/runtime/service.py:103-137 | For a proof that some planning run returned, a passing answer means that the rows of the wanted instance are never repeated on the current database, under every binding when relationship ids are distinct, provided no edge can be read two ways, or each matched edge implies its relationship |
| LeftProof.TreeSettlesExactly | src/joinlint/runtime/sql.py:491-513 | Where the joins form a tree the grain settles every instance exactly when no optional instance is left joined to two others |
| LeftProof.PassedKeepsResult | src/joinlint/runtime/service.py:103-137 | Under that condition what passes against a planner's proof keeps its grain in the result with left joins: the wanted instance is in every row, and no two rows show the same row of it |
| QueryVerdict.JudgeWithProof | src/joinlint/runtime/service.py:103-137 | The same of the query as it was written: what passes in canonical form never repeats the rows of the wanted instance, the caller's or else the proof's, under the caller's own names, whichever renaming and binding were taken; and, where no optional instance is left joined to two others, it is in every row of the result with left joins and never repeated there |
| EvidenceCache.RuntimeCache.LoadEvidence | src/joinlint/runtime/cache.py:90-109 | Returns the record filed under its own id or nothing, and deletes the file exactly when it returns nothing |
| EvidenceCache.RuntimeCache.LoadPointer | src/joinlint/runtime/cache.py:134-147 | Returns a readable pointer or nothing, and deletes the file exactly when it returns nothing |
| EvidenceCache.RuntimeCache.StoreEvidence | src/joinlint/runtime/cache.py:34-42 | Files the record under its id and points its selector at it |
| EvidenceCache.RuntimeCache.LoadEvidenceFor | src/joinlint/runtime/cache.py:44-72 | Answers for the selector and leaves the repaired contents |
| EvidenceCache.RuntimeCache.EvidenceFor | src/joinlint/runtime/service.py:227-253 | With any change of the files while waiting for the lock, the returned record is the answer found first, the answer found under the lock, or a fresh verification that is stored; and the next lookup answers it |
| EvidenceCache.RuntimeCache.GatherEvidence | src/joinlint/runtime/service.py:211 | From honest files, at every arrival, the gathered records measure what a fresh verification would, and the files stay honest |
| EvidenceCache.AnswersMatch | src/joinlint/runtime/cache.py:62-72 | Whatever the files hold, an answer carries its id and the four requested fields |
| EvidenceCache.RepairKeepsAnswers | src/joinlint/runtime/cache.py:62-71 | The deletions of a lookup change no answer for any selector |
| EvidenceCache.RepairIsLocal | src/joinlint/runtime/cache.py:62-71 | After a lookup the index holds the selector exactly when it answered, and no usable record was touched |
| EvidenceCache.StoringAnswers | src/joinlint/runtime/cache.py:34-42 | Storing makes its selector answer, and silences exactly those others that pointed at the overwritten file |
| EvidenceCache.LookupIsCurrent | src/joinlint/runtime/service.py:227-253 | From honest files every way out of the lookup returns the measurements of a fresh verification and keeps the files honest |
| EvidenceCache.CachedIsFreshExactly | src/joinlint/runtime/service.py:228-233 | A record stored for one declared cardinality equals a fresh one for another exactly when both declarations take the observed cardinality alike |
| Witnesses.CachedIsNotFresh | src/joinlint/runtime/service.py:228-233 | Two seeds with one selector and different declared cardinalities whose records on one database differ |
| CachedPlanning.CachedGraphIsMeasured | src/joinlint/runtime/service.py:211-216 | A graph built from cached records carries measurements of the current database even where its findings are old |
| CachedPlanning.PlanFromCache | src/joinlint/runtime/service.py:203-224 | From honest files to a plan: a returned proof and every alternative keep the grain |
| CacheProtocol.AnyRunMatches | src/joinlint/runtime/service.py:227-253 | From any files, in every interleaving, a returned record carries its four fields and at most one process is past a selector's lock |
| CacheProtocol.NoDeadlock | src/joinlint/runtime/cache.py:80-88 | While a process is unfinished some process can step |
| CacheProtocol.RunsFinish | src/joinlint/runtime/service.py:227-253 | No run takes more than thirteen steps a process, and a run that cannot go on has answered everyone |
| CacheProtocol.EveryRunAgrees | src/joinlint/runtime/service.py:227-253 | From files whose askable pointers answer, whatever else lies about, at every step of every interleaving each such pointer leads to a stored matching record, the verifier has run at most once for a selector, and all answers for it are the same record |
| CacheProtocol.VerifiedOnceExactly | src/joinlint/runtime/service.py:227-253 | In every run of every set of processes each selector is verified at most once exactly when, at the start, every pointer that some process can ask for answers |
| CacheProtocol.HonestRunsAnswerCurrent | src/joinlint/runtime/service.py:227-253 | Links, unreadable and misfiled files notwithstanding, every process returns the measurements of a fresh verification |
| CacheProtocol.StaleUnlinkVerifiesTwice | src/joinlint/runtime/cache.py:134-147 | From any files with a pointer that does not answer (a link, unreadable, to a missing, unreadable or misfiled record, or to another selector's record) two processes can verify its selector twice |
| JoinPaths.FindJoinPath | src/joinlint/services.py:215-246 | Returns, sorted and without repeats, exactly the simple paths of one to max_depth edges between two entities; with endpoints written entity.column these are, name by name, the chains of relationships between the two entities; raises the limit error exactly when there are more than twenty; and its queue loop ends |
| JoinPaths.PathsExactly | src/joinlint/services.py:224-240 | A path is one of these exactly when it leads from name to name: each edge is a relationship of the model, its direction and cardinality noted, between the entity before and the entity after, and no entity is visited twice |
| JoinPaths.OneEdgeIsPath | src/joinlint/services.py:234-240 | A relationship between two different entities is by itself the forward path from the one to the other and the reverse path back |
| JoinPaths.ExpandItem | src/joinlint/services.py:234-240 | The loop over relationships appends exactly the continuations of a queue item |
| JoinPaths.ValidatePathShape | src/joinlint/services.py:368-390 | Accepts exactly the contiguous simple chains of current edges and returns their relationships; with endpoints written entity.column contiguity and simplicity are those of the entities' names |
| JoinPaths.ReturnedPathsAccepted | src/joinlint/services.py:215-246 | Every returned path is accepted by the validator and uses no relationship twice |
| JoinPaths.AcceptedEdgesDistinct | src/joinlint/services.py:297-298 | An accepted path has no repeated relationship, so the lookup of its cached edges never refuses it for repeated ids |
| Wilson.BoundIsSolution | benchmarks/formal_eval/gates.py:115-126 | The computed bound is the lower solution of the quadratic, between zero and the rate, so the final clamp changes nothing |
| Wilson.WilsonIsRoot | benchmarks/formal_eval/gates.py:115-126 | The bound L solves total (p - L)^2 = z^2 L (1 - L), is the least solution, and is the only one in [0, p] while some trials failed |
| Wilson.WilsonRises | benchmarks/formal_eval/gates.py:115-126 | For a fixed total the bound is strictly increasing in the successes |
| Wilson.WilsonAtTheEnds | benchmarks/formal_eval/gates.py:115-126 | Without failures the bound is total / (total + z^2), without successes it is zero |
| Holm.HolmAdjust | benchmarks/formal_eval/gates.py:626-636 | Values outside the unit interval are refused; otherwise each input position holds the running maximum up to its rank |
| Holm.AdjustedRejectsExactly | benchmarks/formal_eval/gates.py:626-636 | For every alpha below one an adjusted p-value is at most alpha exactly when Holm's step-down test, which compares the k-th smallest p-value with alpha over the number of hypotheses from there on, rejects the hypothesis |
| Holm.AdjustedKeepsOrder | benchmarks/formal_eval/gates.py:630-635 | Adjusted values lie between the p-value and one, respect the order of p-values, and agree on ties |
| Holm.AdjustingIgnoresOrder | benchmarks/formal_eval/gates.py:630-635 | Permuting the input permutes the output |
| Publish.Workspace.Rename | src/joinlint/paths.py:243-265 | Moves the source or changes nothing, and may report an error after moving |
| Publish.Workspace.RemoveTree | src/joinlint/paths.py:281-311 | Removes a tree, possibly only part of it before an error |
| Publish.Workspace.WriteGenerated | src/joinlint/artifacts.py:14-56 | With evidence there at the start, at every step a complete old or new tree is in its place or the backup's; success, exactly when no primitive on the way fails, leaves the new tree alone; an error leaves the old tree, the new tree, or, in exactly one family of faults, the old tree in the backup's place; and with only a backup at the start an error leaves its tree in neither place exactly when the attempt came to harm it |
| Publish.WrittenExactly | src/joinlint/artifacts.py:23-32 | The new tree holds exactly the file names given, each with what was given last for it |
| Publish.TwoFailures | src/joinlint/artifacts.py:14-56 | What was complete after a first attempt is in neither place after a second that fails, with no new tree there, exactly when the first left a gap and the second, its own tree filled, harmed the backup and did not move its tree into place |
| Publish.TwoFailuresLoseEvidence | src/joinlint/artifacts.py:32-45 | A late rename error, then an attempt whose rename fails, leave no tree anywhere |
| Fingerprint.HashInput | src/joinlint/snapshots.py:68-84 | The bytes fed to the hash are the prefix and the stream of the entries in path order; an overflow error is raised exactly when a length does not fit eight bytes |
| Fingerprint.FitsExactly | src/joinlint/snapshots.py:80-82 | What fits eight bytes is below 2 to the 64 |
| Fingerprint.ValueOfBigEndian | src/joinlint/snapshots.py:80-82 | Fixed-width big-endian integers can be read back |
| Fingerprint.EntryLayout | src/joinlint/snapshots.py:79-83 | An entry is fed as its path's length in eight bytes, the path, its size in eight bytes, and the digest |
| Fingerprint.FirstByteCountsMost | src/joinlint/snapshots.py:80-82 | In these integers the first byte counts most |
| Fingerprint.StreamInOrder | src/joinlint/snapshots.py:78-83 | The entries follow one another from the smallest path on |
| Fingerprint.SameStreamExactly | src/joinlint/snapshots.py:68-84 | Entries with distinct paths, fitting sizes and 32-byte digests give the same stream exactly when they are permutations of each other |
| ReviewSelection.ChooseCounts | benchmarks/formal_eval/bird_review.py:243-258 | A database yields its quota, or as many entries as it has distinct pairs not used before |
| ReviewSelection.ChooseSpreadsDepths | benchmarks/formal_eval/bird_review.py:245-256 | Either all chosen depths differ, or every depth left out has only used pairs |
| ReviewSelection.SelectReviewCandidates | benchmarks/formal_eval/bird_review.py:225-260 | Fails exactly when some database, in name order, has fewer unused distinct pairs than the quota; otherwise returns the specified selection |
| ReviewSelection.SelectionFacts | benchmarks/formal_eval/bird_review.py:225-260 | A selection holds the quota for each database, no pair twice, and only candidates of requested databases |
| ReviewSelection.QuotaPerDatabase | benchmarks/formal_eval/bird_review.py:233-260 | A selection splits into one share per database, of exactly the quota and from that database's candidates; in each share all depths differ, or every depth left out has only pairs that this share or an earlier one holds |
| ReviewSelection.BlockFacts | benchmarks/formal_eval/bird_review.py:243-259 | Each database contributes exactly its quota from its own candidates |
| ReviewOrder.ChosenGreedily | benchmarks/formal_eval/bird_review.py:233-256 | Of a database's candidates the foremost, by depth, then rank, then place in the source, is taken time and again: first only with new depths until none is left or the quota is met, then with any depth until the quota is met or every pair is used up |
| ReviewOrder.SelectionInOrder | benchmarks/formal_eval/bird_review.py:232-260 | The databases are served in the order of their names and the selection is listed by task id |
| ReviewSelection.SelectExecutableCandidates | benchmarks/formal_eval/bird_review.py:299-328 | The retry loop ends; a returned selection is the greedy selection among what was not removed, holds the quota of each database and no pair twice, spreads the depths of each share, everything in it executes, and everything removed failed to execute in an earlier round |
| RelationshipCounts.ValidateRelationship | src/joinlint/validation.py:31-71 | The reported maxima are the largest value counts over matched values, the cardinality follows from them, and the findings are the specified ones in code order |
| RelationshipCounts.CodesExactly | src/joinlint/validation.py:49-71 | Each finding code is reported exactly under its own condition, and the codes come in order |
| RelationshipReport.NormalizedExactly | src/joinlint/validation.py:41-42 | Missing and empty values are left out, the others are normalised and keep their order |
| RelationshipReport.CountsExactly | src/joinlint/validation.py:43-48 | The two maxima are the largest numbers of rows that a row of the other column meets, and the cardinality follows from them |
| RelationshipReport.FindingsExactly | src/joinlint/validation.py:48-71 | A report holds exactly the findings due, each with its own severity under its own condition on the values, in the order of their codes |
| RelationshipCounts.JoinCounted | src/joinlint/validation.py:43-47 | The number of joined row pairs is the sum, over the distinct values that occur on both sides, of the products of the two counts |
| RelationshipCounts.CountsBoundJoin | src/joinlint/validation.py:43-47 | The join size is at most either side's rows times the rows each may meet on the other |
| RelationshipCounts.UniqueKeyJoinSize | src/joinlint/validation.py:43-57 | With a unique referenced key the join size is the number of non-null child rows less the orphans, hence equal to it exactly when there is none |
| RelationshipCounts.BoundOfOneExactly | src/joinlint/validation.py:45-48 | A reported bound of at most one means exactly that no row meets two rows |
| RelationshipCounts.ValidatePath | src/joinlint/validation.py:74-87 | The findings are those of the single relationships, with their severities, each code once and in order, and compound fan-out exactly when more than one relationship fans out |
| RelationshipReport.CompoundExactly | src/joinlint/validation.py:79-83 | Fan-out is compound exactly when two relationships of the path multiply rows |

## Left out

- The SQL front end (parsing, qualification, scope and derived-column resolution in `normalize_sql_graph`): the model starts from the normalised graph.
- SQLite itself, type affinities and collations: queries are taken as the counts they denote over rows, with cells compared by equality.
- LeftMissing.MissingSomewhere: gives one direction, since whether a refused instance can be missing in a query that also has other joins depends on the rows that these force on the tables; `LeftMissing.RefusedExactlyWhenMissing` is exact for left joins only.
- LeftProof.PassedKeepsResult: asks that no optional instance is left joined to two others, because the code also accepts such queries; `LeftProof.TreeSettlesExactly` and `LeftRows.KeepsResultEverywhereExactly` say what then fails.
- SqlValidation.GrainCompatible: asks that the walk ends where it is reached, because it need not; `SqlValidation.ProoflessEndsExactly` says exactly when it does.
- SqlValidation.ValidateSql: asks the same, which holds with every tree-shaped proof (`SqlValidation.TreeProofEnds`), and those are all that the planner offers (`SqlValidation.OfferedProofIsTree`).
- QueryVerdict.JudgeQuery: asks the same of the canonical form.
- SqlSafety.AcceptedSqlKeepsGrain: asks that each matched edge covers its relationship, because the code also accepts edges that mix the sides of a composite self-relationship (`SqlWitnesses.MixedQueryRepeats`).
- ProofBoundSql.ValidateWithProof: makes its promise under that demand or under the one a caller can check, for the same reason; `MixedSides.EdgeKeepsGrainExactly` shows that the demand is needed for one edge.
- QueryVerdict.JudgeWithProof: makes its promise under the same demand.
- MixedSides.EdgeKeepsGrainExactly: is about queries of one edge; for more edges the same demand is proved sufficient only.
- The lookup of the source among several, and the choice of the source of a query without a proof.
- Planner.PlanEdgeLe: leaves out the evidence id, the last component of the source's sort key, which never decides within a tree.
- EvidenceCache.RuntimeCache: file modes, temporary files, the proof store and errors of the file system other than missing, linked and unreadable files are not modelled; the record's verification time is not part of the record.
- CacheProtocol.EveryRunAgrees: is about runs in which no process crashes and every askable pointer answers at the start, which `CacheProtocol.VerifiedOnceExactly` shows is needed; `AnyRunMatches`, `RunsFinish` and `HonestRunsAnswerCurrent` ask for less.
- Publish.Workspace.WriteGenerated: failures of the existence checks themselves, symbolic links and concurrent publishers are not modelled.
- Wilson.WilsonLower: computes over reals and takes the square root as an argument; floating-point rounding is not modelled.
- Fingerprint.HashInput: takes digests as bytes, so malformed hexadecimal text is not modelled.
- `_nearest_rank` and the bootstrap interval, whose samples come from a random generator.
- The rest of `validate_cached_edges` and `validate_cached_path` in services.py: lookups of cached documents and a count of edges.
- Relationship discovery from catalogs and models, configuration, reports, the command line and the MCP server.
- Pydantic field formats (digest and identifier syntax), beyond the checks the theorems use.
