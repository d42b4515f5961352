# Verification of the catalog, comparison and client protocol core

This project models the deterministic core of the system in Dafny 4.11 and proves what it is for.
`dafny verify dfyconfig.toml` checks all of it.

- **Catalog graphs** (`CatalogBuild`, `CatalogNormalize`, `CatalogValidate`, `CatalogMutate`,
  `CatalogProject`, `CatalogDiagram`, and the modules on trees and mutations beside them). Graphs are built from schema trees by a builder object whose
  node and edge lists grow in place, brought into canonical order, validated, projected with
  truncation, and edited by five declarative mutations. One predicate, `WellFormed`, runs through all
  of it: validation decides it, construction from trees establishes it, mutations and projections keep
  it, each with the exact exceptions.
- **Schema diff** (`CatalogMatch`, `CatalogCarry`, `SchemaDiff`, `DependencyOrder`, and the `Diff*`
  modules). Nodes are matched by id, by path, by accepted renames and by a worklist over the
  descendants of renamed containers; the differences become changes with prerequisites; a layered sort
  orders them. The composition with mutations (`RenameRoundTrip`, `MutationRoundTrip`) shows that a
  diff gives back exactly the edit that was made.
- **Row comparison** (`RowComparison`, `ComparisonInput`, `ComparisonResults`, `RowOrder`,
  `ComparisonOrder`, `ValueComparison`, `Decimal`): grouping by key, the sorted merge of row digests,
  positional pairing, bounded retention of differences, and the canonical spelling of decimals.
- **Client protocols** (`Transfers`, `RoomReplica`, `RoomRuns`, `TokenRefresh`): chunk assembly, the
  room replica as an object, all its runs against a server over a lossy network, and all interleavings
  of clients that refresh one session.
- **Search, statistics and bounded text** (`JoinWalks`, `JoinSearch`, `Fuzzy`, `NameIndex`, `Timing`,
  `AiText`).

Conventions: an object that the program updates in place is a class here, its loops are loops with
invariants, and each method is proved against a specification function or predicate whose properties
are the lemmas. Ids and paths are strings. SHA-256 is a function from seeds to strings, and results
that need it assume it injective: `Injective` for ids, whose seed, kind and path are separate fields of
what is digested, and `Telling` for the rows of one comparison, whose digests are equal exactly when
their JSON is, floats that are not finite all being written as null. Both assumptions can be met
(`InjectiveDigestExists`, `TellingCanBeMet`). Floats are real numbers with two infinities and values that
are no number. A document is a set of operations that only grows, so import is union and export is
difference. A network keeps every message that was ever sent and may deliver it any number of times or
never. In `TokenRefresh` the server never issues a refresh token twice and the clock never goes back. In
`AiText` any of the appends to the event log may fail. `hide` statements only keep proofs small.

Results on graphs built from trees ask for unique ids of the tree nodes; `TreeNames` reduces that to the
names in the trees.

What the proofs brought to light about the program:

- `crates/core/src/schema_diff.rs:58-59` says that graph validation rejects duplicate paths. It does
  not (`crates/core/src/catalog.rs:1068-1321`). Two nodes of one kind and path then compete for one
  target, and the loser is in no change at all, since `match_pair` marks it matched before it looks at
  the target (`crates/core/src/schema_diff.rs:305`). `LostIffNamesakes` is the exact condition,
  `NamesakeExample` an instance with two valid graphs.
- A schema tree with a standalone index object, or with an object of 2^32 columns or more, gives a
  graph that validation turns down (`StandaloneIndexExample`). So do two parts of one kind and path,
  which get one id (`TreeIdsIffPaths`): names with dots lead to it (`DottedNamesExample`), and so do two
  objects of one name and different kinds that both list a column (`TwinColumnsExample`). Where catalog,
  schema and part names have no dots, `NamedTreesWellFormedIff` states on the names in the trees exactly
  when the graph is valid.
- Renaming a container and diffing gives the rename alone exactly when no two siblings below it share
  kind and name, which overloaded routines do (`RenameThenDiff`, `OverloadExample`).
- A rename drops the signature a path may end in. A table listed with one can be renamed to name and
  signature together: its path stays, the path stage matches it first, and the diff refuses the
  correspondence the rename announces (`TreeRenameAcceptedIff`, `SignatureExample`).
- Adding a column produces an invalid graph exactly when the table already uses the largest 32-bit
  ordinal, and dropping a foreign key exactly when something hangs below its constraint
  (`MutationKeepsWellFormed`, `LastOrdinalExample`, `ConstraintWithChildExample`); on graphs built from
  trees only the first can happen (`TreeMutationKeepsWellFormed`).
- Exact equality of cells is not reflexive on decimals that do not parse (`ExactReflexiveIff`).
- A positive relative tolerance accepts an infinite value against any other number but not a number
  (`NonFiniteToleratedIff`, `InfinityExample`).
- Rows are matched by a digest of their JSON, which writes every float that is not finite as null. An
  infinity and a non-number thus count as matched rows (`NonFiniteMatchExample`), and the order of two
  rows with different infinities shows in the result (`NonFiniteOrderExample`). Under a column key the
  order of a side never shows exactly when no two different rows of one key are written alike, or a group
  is too large (`RowOrderIrrelevantIff`).
- A replica restored from a snapshot may report nothing pending and still hold operations the server
  has never seen, until its first catch-up (`SnapshotExample`). That can happen exactly when it starts
  with operations the server lacks (`NeverLosesIff`).
- A foreign-key reference of three parts is resolved by its first two (`ResolveMeans`), so the full path
  of a table misses it or hits another one (`FullPathExample`); the model follows the code.

## Model

| member | source | states |
|---|---|---|
| DependencyOrder.StableDependencyOrder | crates/core/src/schema_diff.rs:665-710 | the loop returns the one stable order of its changes and reports whether some could never be emitted |
| DependencyOrder.LayerIsLongestChain | crates/core/src/schema_diff.rs:665-710 | a change is emitted in round k exactly when its longest prerequisite chain has k steps |
| DependencyOrder.BlockedIsReachesCycle | crates/core/src/schema_diff.rs:665-710 | no round emits a change exactly when its prerequisites lead to a cycle |
| DependencyOrder.StableOrderUnique | crates/core/src/schema_diff.rs:665-710 | layers, ascending ids and blocked changes last leave room for one sequence only |
| DependencyOrder.StableOrderDistinct | crates/core/src/schema_diff.rs:665-710 | the order lists every change once |
| DependencyOrder.PrerequisitesComeFirst | crates/core/src/schema_diff.rs:665-710 | every change that reaches no cycle comes strictly after all its prerequisites |
| DependencyOrder.GroupedIffReachesCycle | crates/core/src/schema_diff.rs:665-710 | a dependency group marks exactly the changes that can reach a cycle, and nothing else about a change is altered |
| DependencyOrder.InputOrderIrrelevant | crates/core/src/schema_diff.rs:665-710 | permuted inputs give one result |
| CatalogMatch.MatchByIds | crates/core/src/schema_diff.rs:44-57 | after the first stage exactly the ids that name one kind on both sides are paired, in whatever order the map is walked |
| CatalogMatch.MatchByPaths | crates/core/src/schema_diff.rs:58-79 | the second stage takes exactly the unmatched nodes whose kind and path exist among the unmatched targets |
| CatalogMatch.MatchRenames | crates/core/src/schema_diff.rs:81-109 | renames are accepted exactly when each joins unmatched, compatible nodes of one kind and no end is used twice |
| CatalogCarry.CorrelateRenamedDescendants | crates/core/src/schema_diff.rs:227-266 | the worklist carries only children that stand where they stood and refuses no other for lack of trying |
| SchemaDiff.AttachDependencies | crates/core/src/schema_diff.rs:560-663 | the five loops build the prerequisite map of the specification |
| SchemaDiff.DiffCatalogs | crates/core/src/schema_diff.rs:25-225 | the whole diff: a matching of the four stages, its changes in stable order, and the exact limit and rename errors |
| DiffOrder.PrerequisitesMean | crates/core/src/schema_diff.rs:560-663 | one change is a prerequisite of another exactly when the relation `Waits` says it has to come first |
| DiffChanges.RawDistinct | crates/core/src/schema_diff.rs:389-422 | no two changes of a diff share an id, and no node is created or dropped twice |
| DiffChanges.NoCycleBetweenRankedGraphs | crates/core/src/schema_diff.rs:560-710 | between graphs whose parents and edge targets sit lower, no diff has a cycle and every change follows what it waits for |
| DiffPatch.MatchingIsBijection | crates/core/src/schema_diff.rs:37-110 | matching is one to one |
| DiffPatch.MatchedNodes | crates/core/src/schema_diff.rs:37-110 | matching joins nodes of one kind that exist on their sides |
| DiffPatch.LostIffNamesakes | crates/core/src/schema_diff.rs:297-308 | a node vanishes from the diff exactly when two nodes compete for one path |
| DiffPatch.LostIsUnreported | crates/core/src/schema_diff.rs:122-225 | a node that vanishes is in no change |
| MutationExamples.NamesakeExample | crates/core/src/schema_diff.rs:297-308 | two well-formed graphs whose every diff leaves one of two tables out |
| DiffPatch.SilentPairsAgree | crates/core/src/schema_diff.rs:268-286 | a pair is matched silently only when it agrees on kind, name, ordinal, digest, completeness, details and compared extras |
| DiffPatch.ReportsRaw | crates/core/src/schema_diff.rs:122-225 | a diff reports exactly the changes it collected |
| DiffPatch.DiffIsPatch | crates/core/src/schema_diff.rs:25-225 | without namesakes, every unmatched source node is reported gone, every unmatched target node created, and every silent pair agrees |
| DiffInvariance.DiffIgnoresListOrder | crates/core/src/schema_diff.rs:25-225 | permuting nodes or edges of either graph leaves the diff as it is |
| DiffInvariance.NoRenamesNoSiblings | crates/core/src/schema_diff.rs:227-266 | without accepted renames nothing is asked of siblings |
| DiffOutcome.SelfDiffIsEmpty | crates/core/src/schema_diff.rs:25-225 | any listing of a graph against itself gives no change |
| DiffOutcome.IdsDecide | crates/core/src/schema_diff.rs:37-110 | when one side is found by id entirely, no other stage pairs anything |
| DiffOutcome.OneChange | crates/core/src/schema_diff.rs:665-710 | a diff with one change carries a group exactly when the change waits for itself |
| CatalogBuild.GraphBuilder.AddCatalogs | crates/core/src/catalog.rs:20-191 | the nested loops append exactly the nodes, containment edges and relation names of the trees |
| CatalogBuild.GraphBuilder.ResolveReferences | crates/core/src/catalog.rs:193-224 | unresolved foreign keys get their targets in place |
| CatalogBuild.ResolveMeans | crates/core/src/catalog.rs:193-224 | two parts or more are looked up under the first two; a plain name needs one schema to have it |
| CatalogBuild.OnlyTwoPartsMatter | crates/core/src/catalog.rs:200-206 | nothing after the second part of a reference has an effect |
| CatalogBuild.FullPathExample | crates/core/src/catalog.rs:200-206 | the full path of a table misses it, or hits another table |
| CatalogNormalize.NormalizedIdempotent | crates/core/src/catalog.rs:239-268 | the canonical form is a fixed point |
| CatalogNormalize.CoverageListsOnce | crates/core/src/catalog.rs:240-245 | the coverage lists keep their elements, in ascending order and once each |
| CatalogNormalize.NormalizedIsCanonical | crates/core/src/catalog.rs:239-275 | two listings of the same nodes end up in one order |
| CatalogNormalize.GraphFromTrees | crates/core/src/catalog.rs:15-233 | the builder and the canonical order give the graph of the trees |
| CatalogTrees.TreeNodesOf | crates/core/src/catalog.rs:20-191 | which nodes a tree graph has |
| CatalogTrees.TreeEdgesOf | crates/core/src/catalog.rs:20-224 | which edges a tree graph has |
| CatalogTreeShape.TreeParent | crates/core/src/catalog.rs:20-191 | every node but a catalog has its parent in the graph, one role up |
| CatalogTreeGraphs.TreeGraphRanked | crates/core/src/catalog.rs:15-233 | parents and edge targets of a tree graph sit in lower roles |
| CatalogTreeGraphs.TreeDiffHasNoCycle | crates/core/src/schema_diff.rs:560-710 | diffs of two tree graphs never meet a cycle, whatever renames are accepted |
| CatalogTreeGraphs.TreeGraphWellFormedIff | crates/core/src/catalog.rs:15-233 | a tree graph is well-formed exactly when ids are unique and the trees hold no standalone index and no object with too many columns |
| TreeNames.TreeIdsIffPaths | crates/core/src/catalog.rs:1475-1480 | ids are unique exactly when no two parts of the trees share kind and path |
| TreeNames.TreeIdsIffNames | crates/core/src/catalog.rs:15-191 | with plain names that is so exactly when siblings are named apart |
| CatalogTreeGraphs.NamedTreesWellFormedIff | crates/core/src/catalog.rs:15-233 | with plain names a tree graph is well-formed exactly when siblings are named apart and the trees are admissible |
| CatalogTreeGraphs.NamedTreesDiffHasNoCycle | crates/core/src/schema_diff.rs:560-710 | diffs between such trees never meet a cycle |
| CatalogTreeGraphs.StandaloneIndexExample | crates/core/src/catalog.rs:20-60 | a tree with a standalone index gives an invalid graph |
| CatalogTreeGraphs.DottedNamesExample | crates/core/src/catalog.rs:34-42 | names with dots give two schemas one id |
| CatalogTreeGraphs.TwinColumnsExample | crates/core/src/catalog.rs:94-96 | a table and a type of one name give their columns one id |
| CatalogValidate.ValidateGraph | crates/core/src/catalog.rs:1068-1321 | accepted exactly when well-formed and within the limits, each error only for its own reason |
| CatalogValidate.CheckRooted | crates/core/src/catalog.rs:1068-1321 | the parent walk reports a cycle exactly when it never ends |
| CatalogValidate.CheckNodes | crates/core/src/catalog.rs:1068-1321 | unique ids, column ordinals and node shapes are decided in one pass |
| CatalogValidate.CheckEdges | crates/core/src/catalog.rs:1068-1321 | edge ends, certainty, containment and foreign-key rules are decided |
| CatalogValidate.WalkReachesCatalog | crates/core/src/catalog.rs:1068-1321 | in a valid graph every parent chain ends at a catalog node |
| CatalogMutate.Descendants | crates/core/src/catalog.rs:502-519 | the fixpoint loop finds the least set with the root that is closed under children |
| CatalogMutate.RenameCatalogObject | crates/core/src/catalog.rs:462-591 | a rename is refused for its reasons and otherwise rewrites exactly the subtree and announces the root |
| CatalogMutate.AddCatalogForeignKey | crates/core/src/catalog.rs:593-704 | the constraint node and its edges are appended, or the first failing check is named |
| MutationKeeps.DropTakesOne | crates/core/src/catalog.rs:706-732 | a drop takes the constraint and every edge that mentions it, and nothing else |
| MutationKeeps.ChangeTouchesOne | crates/core/src/catalog.rs:734-758 | a column change leaves every node in its place, and the column differs only in the type and nullability asked for |
| MutationKeeps.AddedColumnIsLast | crates/core/src/catalog.rs:760-828 | an added column comes after every column of its table while an ordinal is left, under a name none of them has |
| CatalogMutate.ApplyDiagramMutation | crates/core/src/catalog.rs:399-460 | success returns the mutated copy in canonical order and well-formed; failure names a refusal or an unfit result |
| RenameIsomorphism.RenameIsIsomorphism | crates/core/src/catalog.rs:462-591 | a rename maps ids one to one, changes them in the subtree only, and moves parents and edge ends along |
| RenameIsomorphism.SubtreeInside | crates/core/src/catalog.rs:502-519 | every member of the subtree but the root has its parent in it |
| MutationKeeps.NormalizedFormed | crates/core/src/catalog.rs:239-275 | reordering neither makes nor breaks well-formedness |
| MutationKeeps.AddColumnKeepsWellFormed | crates/core/src/catalog.rs:760-828 | a new column keeps the graph well-formed exactly when an ordinal is free |
| MutationKeeps.AddForeignKeyKeepsWellFormed | crates/core/src/catalog.rs:593-704 | a new foreign key always keeps it |
| MutationKeeps.DropKeepsWellFormed | crates/core/src/catalog.rs:706-732 | dropping one keeps it exactly when nothing hangs below the constraint |
| MutationKeeps.ChangeKeepsWellFormed | crates/core/src/catalog.rs:734-758 | changing a column always keeps it |
| MutationKeeps.RenameKeepsWellFormed | crates/core/src/catalog.rs:462-591 | a rename with unused new ids always keeps it |
| MutationKeeps.IsomorphicFormed | crates/core/src/catalog.rs:545-591 | a graph under other ids is as well-formed as the graph |
| MutationKeeps.MutationKeepsWellFormed | crates/core/src/catalog.rs:399-828 | all five mutations at once, with the exact exceptions |
| MutationOfTrees.TreeMutationFresh | crates/core/src/catalog.rs:399-828 | on tree graphs the ids of every mutation are unused |
| MutationOfTrees.TreeMutationKeepsWellFormed | crates/core/src/catalog.rs:399-828 | on tree graphs a mutation that passes its checks gives a well-formed graph, unless a table runs out of ordinals |
| MutationOfTrees.TreeRenameNotRefused | crates/core/src/catalog.rs:462-591 | a rename of a tree graph is refused for its checks only |
| MutationOfTrees.TreeRenameExists | crates/core/src/catalog.rs:462-591 | a rename that passes its checks has a well-formed result |
| MutationExamples.LastOrdinalExample | crates/core/src/catalog.rs:760-828 | a table whose column has the largest ordinal takes no further column |
| MutationExamples.ConstraintWithChildExample | crates/core/src/catalog.rs:706-732 | a constraint with something below it cannot be dropped |
| RenameRoundTrip.AnnouncementAccepted | crates/core/src/schema_diff.rs:77-109 | the diff accepts the correspondence a rename announces |
| RenameRoundTrip.DescendantCarried | crates/core/src/schema_diff.rs:227-266 | every descendant of the renamed root is carried to its image |
| RenameRoundTrip.RenameThenDiff | crates/core/src/schema_diff.rs:25-266 | rename then diff is the one rename exactly when no siblings below the root share kind and name |
| MutationExamples.OverloadRename | crates/core/src/catalog.rs:462-591 | a schema with two overloaded routines can be renamed |
| MutationExamples.OverloadExample | crates/core/src/schema_diff.rs:227-266 | no diff of that rename is the rename alone |
| RenameOfTrees.DotFreeNamesDoNotClash | crates/core/src/catalog.rs:462-591 | when the last path segment of the root and the new name have no dots and differ, no renamed path meets an old one |
| RenameOfTrees.TreeGraphNested | crates/core/src/catalog.rs:20-191 | child paths continue their parents' paths after a dot |
| RenameOfTrees.TreeRenameAcceptedIff | crates/core/src/schema_diff.rs:58-109 | the diff accepts the correspondence of a rename exactly when the new name is not the label, name and signature, the object has already |
| RenameOfTrees.TreeRenameThenDiff | crates/core/src/catalog.rs:462-591 | the round trip for schemas, tables and columns of every graph built from trees, old label and new name without dots |
| MutationExamples.SignatureExample | crates/core/src/catalog.rs:462-591 | a table with a signature renamed to its own label, a rename no diff accepts |
| MutationRoundTrip.AddThenDiff | crates/core/src/catalog.rs:593-828 | adding a column or foreign key comes back as exactly one Create of that node |
| MutationRoundTrip.DropThenDiff | crates/core/src/catalog.rs:706-732 | dropping a foreign key comes back as exactly one Drop, or one Unknown without complete coverage |
| MutationRoundTrip.ChangeThenDiff | crates/core/src/catalog.rs:734-758 | changing a column comes back as one Alter of its details, or as nothing when nothing changed |
| CatalogProject.AncestorsOf | crates/core/src/catalog.rs:329-337 | the loop computes the least ancestor-closed superset |
| CatalogProject.ClosureIsAncestors | crates/core/src/catalog.rs:329-337 | that superset is the selection with the ancestors of its members |
| CatalogProject.IsInAllowedSchema | crates/core/src/catalog.rs:305-318 | the walk up finds an allowed schema exactly when one lies on it |
| CatalogProject.ProjectGraph | crates/core/src/catalog.rs:279-354 | the projected graph is the ancestor closure of the selection, cut to the limit |
| CatalogProject.ProjectionDetermined | crates/core/src/catalog.rs:279-354 | graph and request decide the projection |
| CatalogProject.ProjectionWellFormed | crates/core/src/catalog.rs:279-368 | with parents first, the projection is well-formed, cut or not |
| CatalogDiagram.ObjectOwner | crates/core/src/catalog.rs:858-872 | the walk finds the nearest object directly below a schema |
| CatalogDiagram.Neighbourhood | crates/core/src/catalog.rs:923-945 | the rounds compute the ball of the given depth, stopping early when nothing is discovered |
| CatalogDiagram.BallIsWithin | crates/core/src/catalog.rs:923-945 | the ball holds exactly the objects that many hops from a seed |
| CatalogDiagram.ProjectDiagram | crates/core/src/catalog.rs:836-1048 | the diagram of the request, or the exact limit and unknown-object errors |
| CatalogDiagram.DiagramBall | crates/core/src/catalog.rs:836-1048 | a diagram selects exactly the objects within its depth of the seed owners |
| CatalogDiagram.DiagramAddsUp | crates/core/src/catalog.rs:1005-1048 | every shown node has its parent and every shown edge its ends, and shown plus omitted is everything |
| ProjectionOfTrees.TreeParentsFirst | crates/core/src/catalog.rs:15-275 | the canonical order of a tree graph puts parents before children |
| ProjectionOfTrees.TreeProjectionWellFormed | crates/core/src/catalog.rs:279-368 | projections of tree graphs are well-formed and parent-closed after truncation |
| ProjectionOfTrees.TreeDiagramAddsUp | crates/core/src/catalog.rs:836-1048 | the same for diagrams of tree graphs |
| Decimal.NormalizeDenotes | crates/core/src/comparison.rs:743-769 | normalizing keeps the number |
| Decimal.NormalizeIffSameNumber | crates/core/src/comparison.rs:743-769 | two accepted strings normalize to one string exactly when they denote one number |
| Decimal.NormalizeIdempotent | crates/core/src/comparison.rs:743-769 | normalizing twice is normalizing once |
| Decimal.IntTextDenotes | crates/core/src/comparison.rs:735-741 | the text of an integer is its own normal form and denotes it |
| ValueComparison.ExactIffSameNumber | crates/core/src/comparison.rs:532-548 | on integers and decimals that parse, exact equality, equal numbers and equal canonical keys are one |
| ValueComparison.ExactReflexiveIff | crates/core/src/comparison.rs:720-741 | a value equals itself unless it is a malformed decimal or not a number |
| ValueComparison.ExactPartialEquivalence | crates/core/src/comparison.rs:720-741 | exact equality is symmetric and transitive on all values |
| ValueComparison.MalformedDecimalExample | crates/core/src/comparison.rs:731-733 | a decimal that is not equal to itself |
| ValueComparison.CompareSymmetric | crates/core/src/comparison.rs:611-718 | the verdict on two cells does not depend on the sides |
| ValueComparison.StrictVerdicts | crates/core/src/comparison.rs:611-640 | without a tolerance cells are equal when both are null or exactly equal |
| ValueComparison.NonFiniteToleratedIff | crates/core/src/comparison.rs:636-657 | where an infinity or a non-number takes part, two different values pass for equal exactly under a positive relative bound, non-numbers never |
| ValueComparison.InfinityExample | crates/core/src/comparison.rs:647-651 | infinity passes for zero |
| RowComparison.GroupRows | crates/core/src/comparison.rs:488-512 | each key's group holds its rows in row order |
| RowComparison.MergeGroup | crates/core/src/comparison.rs:142-167 | the two-pointer loop computes the merge of two sorted groups |
| RowComparison.Output.RetainDiff | crates/core/src/comparison.rs:603-609 | the kept differences are the first ones up to the limit, and the cut is noted exactly when there were more |
| RowComparison.Output.CompareGroup | crates/core/src/comparison.rs:112-250 | one group adds its matches, pairs and one-sided rows to the output |
| RowComparison.CompareRows | crates/core/src/comparison.rs:91-250 | the output shows the outcome over all keys in order, or the error of a too large group |
| ComparisonInput.ResolveColumns | crates/core/src/comparison.rs:301-364 | explicit mappings first, then equal names; one to one, exhaustive and sorted, or exactly the inconsistent mappings refused |
| ComparisonInput.ResolveKey | crates/core/src/comparison.rs:398-441 | the key is accepted exactly when every column is mapped and compatible, or the order is immutable on both sides |
| ComparisonInput.ValidateRows | crates/core/src/comparison.rs:287-299 | the first row of the wrong width is reported, if there is one |
| ComparisonInput.Compare | crates/core/src/comparison.rs:91-250 | the checks in their order, then the outcome over the mapped tuples |
| ComparisonResults.MergeIsIntersection | crates/core/src/comparison.rs:142-167 | the merge matches exactly the multiset intersection of the mapped tuples as JSON writes them and leaves the two differences |
| ComparisonResults.LeftoversApart | crates/core/src/comparison.rs:142-167 | no tuple is left over on both sides |
| ComparisonResults.RowsConserved | crates/core/src/comparison.rs:112-250 | every row of either side is counted once and every counted difference is listed |
| ComparisonResults.NeverBothRemovedAndAdded | crates/core/src/comparison.rs:169-254 | no key group lists both a removed and an added row |
| RowOrder.RowOrderIrrelevant | crates/core/src/comparison.rs:91-250 | with a column key the outcome over mapped tuples does not depend on row order, when JSON writes no two different rows of one key and side alike |
| RowOrder.RowOrderIrrelevantIff | crates/core/src/comparison.rs:91-250 | that is the exact condition: the order of one side never shows if and only if its rows are so, or a group of it is too large |
| ComparisonOrder.CompareIgnoresRowOrder | crates/core/src/comparison.rs:91-250 | the same for whole datasets: columns, key and outcome are those of any reordering |
| RowOrder.FiniteRowsApart | crates/core/src/comparison.rs:514-530 | rows whose floats are finite are told apart |
| RowOrder.NonFiniteOrderExample | crates/core/src/comparison.rs:514-530 | two rows with opposite infinities whose order shows in the outcome |
| RowOrder.NonFiniteMatchExample | crates/core/src/comparison.rs:514-530 | an infinity and a non-number count as matched rows |
| Transfers.Assembly.Ingest | crates/client-sdk/src/room_replica/transfers.rs:43-120 | a chunk is refused for the first rule it breaks, which drops everything assembled, or placed within the bounds |
| Transfers.AcceptedBounded | crates/client-sdk/src/room_replica/transfers.rs:54-120 | at most four unfinished transfers within one byte budget are ever held |
| Transfers.AssemblyFaithful | crates/client-sdk/src/room_replica/transfers.rs:54-120 | chunks in any order and with duplicates assemble to exactly the payload that was cut |
| RoomReplica.Replica.SyncMessage | crates/client-sdk/src/room_replica.rs:173-185 | open transfers are dropped and the current version is announced |
| RoomReplica.Replica.LocalEdit | crates/client-sdk/src/room_replica.rs:189-223 | an edit is sent whole under a fresh pending id |
| RoomReplica.Replica.CatchUp | crates/client-sdk/src/room_replica.rs:229-253 | everything the server lacks goes out under one id that replaces all pending ones |
| RoomReplica.Replica.IngestMessage | crates/client-sdk/src/room_replica.rs:256-319 | each server message changes exactly its part of the replica |
| RoomRuns.CatchUpAnchors | crates/client-sdk/src/lib.rs:1084-1105 | after a catch-up every operation is durable or pending, whatever was so before |
| RoomRuns.IngestAdds | crates/client-sdk/src/room_replica.rs:256-319 | what a message adds or acknowledges is on the server |
| RoomRuns.StepKeeps | crates/client-sdk/src/lib.rs:838-959 | every step of client, server and network keeps the invariant |
| RoomRuns.NothingIsLost | crates/client-sdk/src/lib.rs:838-1134 | in every run that began with nothing the server lacks, or caught up once, nothing pending means everything durable |
| RoomRuns.NeverLosesIff | crates/client-sdk/src/lib.rs:838-1134 | all runs from a start have that property exactly when the server has all the replica starts with |
| RoomRuns.SnapshotExample | crates/client-sdk/src/room_replica.rs:122-139 | before the first catch-up a restored replica may be ahead with nothing pending |
| TokenRefresh.StepKeeps | crates/client-sdk/src/lib.rs:1265-1305 | every step, failure and cancellation of any call keeps the invariant |
| TokenRefresh.NoSupersededTokenSent | crates/client-sdk/src/lib.rs:1287-1305 | no refresh token is sent once a successor was installed; what is sent is the one installed last |
| TokenRefresh.WaitersSendNothing | crates/client-sdk/src/lib.rs:1273-1285 | a call that refreshes when needed sends nothing while the installed pair is good, however long it waited |
| TokenRefresh.SingleFlight | crates/client-sdk/src/lib.rs:1265-1305 | at most one refresh is under way |
| TokenRefresh.RevisionCountsRotations | crates/client-sdk/src/lib.rs:524-551 | at rest the revision is the number of installed rotations |
| JoinWalks.EdgesAreProven | crates/completion/src/joins.rs:33-88 | the search runs over exactly the proven foreign keys, in both directions |
| JoinWalks.ExtractEdges | crates/completion/src/joins.rs:33-88 | the loop collects and sorts them |
| JoinWalks.StartsAreInScope | crates/completion/src/joins.rs:89-128 | the search starts exactly from the tables that unshadowed relations in scope name, each being the only one of its name |
| JoinWalks.MatchingIsOnly | crates/completion/src/joins.rs:103-119 | the filter leaves one node exactly when one place of the node list matches |
| JoinWalks.AliasesDiffer | crates/completion/src/joins.rs:144-152 | aliases of different hops differ |
| JoinSearch.ExpandItem | crates/completion/src/joins.rs:132-199 | one queue entry yields its suggestions and follow-ups in edge order, up to the work and output limits |
| JoinSearch.RunSearch | crates/completion/src/joins.rs:129-201 | suggestions come in nondecreasing hops, within the limits, and all of them when no limit stops the search |
| JoinSearch.JoinCandidates | crates/completion/src/joins.rs:18-201 | the whole search, nothing outside a join slot or with a zero limit |
| JoinSearch.SuggestionIsProven | crates/completion/src/joins.rs:18-201 | a suggestion starts at the one table a relation in scope names and walks at most three proven hops without revisits but a self-join, under free and distinct aliases |
| Timing.CountSamples | crates/core/src/performance.rs:61-83 | warmups, outcomes and unavailable timings are counted |
| Timing.CountsAddUp | crates/core/src/performance.rs:61-83 | every sample is counted once |
| Timing.Welford | crates/core/src/performance.rs:88-98 | the loop computes the mean and the sum of squared deviations from it |
| Timing.RankIsCeiling | crates/core/src/performance.rs:105-109 | the split rank is the rounded-up share of the count and in bounds |
| Timing.Summarize | crates/core/src/performance.rs:61-119 | the summary of the samples |
| Timing.DistributionOrdered | crates/core/src/performance.rs:99-119 | minimum, mean, median, percentiles and maximum are in order, and the variance is the definition's |
| Timing.SampleOrderIrrelevant | crates/core/src/performance.rs:61-119 | permuted samples have one summary |
| Fuzzy.FindMatch | crates/completion/src/fuzzy.rs:33-103 | the scan places as much of the query as possible as early as possible, with the closed-form score and the byte ranges of the runs |
| Fuzzy.MatchIffSubsequence | crates/completion/src/fuzzy.rs:33-103 | a match exists exactly when the query is a subsequence |
| Fuzzy.MatchIsEarliest | crates/completion/src/fuzzy.rs:33-103 | positions are pointwise the earliest, runs are maximal and spell the query |
| NameIndex.BuildNameIndex | crates/completion/src/dictionary.rs:171-187 | every included object once, sorted by name |
| NameIndex.BuildColumnIndex | crates/completion/src/dictionary.rs:189-205 | every column once, sorted by name |
| NameIndex.BetweenStarts | crates/completion/src/rank.rs:584-586 | what lies between a prefix and a string starting with it starts with it too |
| NameIndex.IndexedCandidates | crates/completion/src/rank.rs:575-591 | the two binary cuts are the naive scan |
| NameIndex.IndexedColumns | crates/completion/src/rank.rs:375-407 | the cut and the bounded walk are the first entries of the naive scan |
| AiText.AppendText | crates/desktop/src/ai_tools.rs:265-294 | chunks are nonempty, bounded, whole characters, and together the text |
| AiText.TextPublisher.Delta | crates/desktop/src/ai_harness.rs:265-282 | a delta is accepted whole within the budget or refused before anything changes |
| AiText.TextPublisher.Message | crates/desktop/src/ai_harness.rs:239-246 | completed messages are bounded on their own and never touch the streamed text |
| AiText.TextPublisher.Flush | crates/desktop/src/ai_harness.rs:288-302 | after a flush the server has everything accepted |
| AiText.BoundaryNear | crates/desktop/src/ai_tools.rs:276-279 | the step back to a character boundary takes at most three bytes |
| AiText.RetainTurns | crates/desktop/src/ai_harness.rs:74-84 | the retained turns are the longest fitting suffix of at most six |
| AiText.BuildInput | crates/desktop/src/ai_harness.rs:59-105 | the input is refused exactly when context and prompt alone are too large |
| AiText.InputFits | crates/desktop/src/ai_harness.rs:59-105 | the input never exceeds its limit and ends with context and prompt as they are |

## Left out

- DiffCatalogs: risk and reversibility labels, rename suggestions, the diff digest, warnings and engine checks are not part of the result, since each is settled by reading one branch
- StableDependencyOrder: prerequisites are sets, so the order of the listed prerequisite ids of one change is not modelled
- ValidateGraph: bounds on string lengths, nesting and collection sizes inside node details are left out, and which of several faults is reported first is stated only as each error having its own reason
- NormalizeGraph: nodes and edges that agree on all sort keys keep their relative order here, while the program breaks such ties by their serialized form
- GraphFromTrees: coverage arrives as a parameter; how drivers record failed schemas is not modelled
- ApplyDiagramMutation: the expected-revision check belongs to the caller and is left out
- RenameThenDiff: needs new ids that are not in use and no renamed path equal to an old one in the subtree; for tree graphs with dot-free names both are proved
- AddThenDiff: the column's default engine facets are one fixed text
- ResolveColumns: the reported list of compared columns, with the compatibility of each, is left out
- ProjectGraph: requires parent chains that end, as the program's parent walk does not return otherwise
- ProjectDiagram: the catalog revision and digest it passes through are left out
- Compare: cancellation, tolerance validation and the output digest are left out; types are compared by family name
- CompareValue: Unicode normalization, trimming, case folding and digests of binaries are functions of an unspecified library, and rounding of floats is not modelled
- CanonicalKey: the text of floats and of other values is a function of an unspecified library
- Replica.LocalEdit: the document's own failures are left out, and an edit is the set of operations it adds
- NothingIsLost: covers one replica lifetime; ids of an earlier lifetime are not told apart by the program either
- StepKeeps: the 64-bit revision counter does not wrap here, and the access token and protocol negotiation appear only as a step that may fail
- JoinCandidates: the candidate's label and fixed detail text are left out
- Summarize: counts and sums do not overflow and the standard deviation is given by its square
- FindMatch: 32-bit overflow of scores and offsets is left out
- IndexedCandidates: completion scoring, keyword tables and the global ranking that follows are left out
- AppendText: event ids and the JSON envelope are left out
- FollowMode, presence, attachments, reconnect delays and heartbeats: bookkeeping of a view that is rebuilt from the server
- HTTP and WebSocket plumbing, data transfer objects, vault and automation clients: no invariant of their own
- The document type, the semantic layer, the protocol crate and the server: abstract types and stated assumptions here
- Invocation ids: a bounded map from a key to an id, read off one body
- Provider processes, sandboxing and key storage: operating-system effects
