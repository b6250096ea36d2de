# A verified model of plingo

plingo is an incremental language toolkit: documents are edited in a workspace, token sequences live
in a persistent balanced tape, grammars are lowered by macros, names are resolved by searching a scope
graph with regular path expressions, and an example language (the simply typed lambda calculus) is
named and checked by components whose published tables reach a fixpoint. This project models those
parts in Dafny and proves what they promise to each other.

- **Tape** (`LeafOrder`, `Tape*`): a persistent tree of small leaves with fractional order labels, and
  an id index that a splice only patches in two windows of 64 entries. The index law has an exact
  condition, and it holds over whole runs of edits; node ids stay unique over all of them. A tree is
  called balanced when sibling heights differ by at most one, and right-leaning when this fails at most
  along its right spine, above complete left subtrees; a state is good when its tape is valid and its
  index exact.
- **Source edits and workspace** (`Source*`, `Workspaces`): a batch of edits is validated, sorted,
  grouped, placed and merged into splices; the result reads as if every edit were made at its old
  position, and the coordinate map carries every kept unit of text. A workspace folds whole batches.
- **Scopes** (`PathExprs`, `Resolution`, `PathOrders`, `VisiblePaths`, `ScopeRegex`): derivatives of
  path expressions, the search for matching walks, the preference order and the shadowing of paths,
  and the notation for path expressions.
- **Facts** (`FactLists`, `FactTrees`, `FactPatches`): lists and ordered trees stored as keyed facts
  over a committed state, written in full or as sparse patches.
- **Grammar macros** (`Tiers`, `Grammar*`): precedence tiers and the lowering of rule expressions to
  plain productions, both one to one on derivations.
- **Simply typed lambda calculus** (`Stlc*`): naming and checking as fixpoints of their equations,
  soundness and completeness of the checker against an independent typing relation, and exactly which
  node carries which type, which expectation and which diagnostic.

Values (trees, expressions, labels) are datatypes. What changes in place is a class: the id allocator,
iterators and cursors, the workspace, the fact emitters and patch handles, the lowering context.
Algorithms with loops are methods, each proved against a specification; the lemmas are about the
specifications. `dafny verify dfyconfig.toml` checks everything.

## Model

| member | source | states |
|---|---|---|
| `LeafOrder.Compare` | `src/framework/tape.rs:243-255` | the bit scan over both labels answers less, greater and equal exactly on earlier, later and identical labels |
| `LeafOrder.BeforeTotal` | `src/framework/tape.rs:243-255` | any two canonical labels are ordered one way, the other way, or are the same label |
| `LeafOrder.BeforeTransitive` | `src/framework/tape.rs:243-255` | the order on labels is transitive |
| `LeafOrder.Halved` | `src/framework/tape.rs:209-214` | the label built below another is canonical and strictly smaller |
| `LeafOrder.Above` | `src/framework/tape.rs:216-218` | the label built above another is canonical and strictly larger |
| `LeafOrder.Between` | `src/framework/tape.rs:220-239` | every gap, open or closed on either side, has a canonical label strictly inside |
| `LeafOrder.SearchBetween` | `src/framework/tape.rs:229-237` | the search loop terminates, stays strictly inside the gap, and stops at the shortest increment that fits |
| `LeafOrder.BuildInitial` | `src/framework/tape.rs:177-191` | the width search and the bit fill produce the label of the ordinal |
| `LeafOrder.InitialOrdered` | `src/framework/tape.rs:177-191` | the labels of the initial leaves increase with the ordinal |
| `TapeTree.RebalanceLeaves` | `src/framework/tape.rs:908-954` | rotations, single or double, keep the same leaves in the same order |
| `TapeTree.JoinLeaves` | `src/framework/tape.rs:859-906` | concatenating two trees keeps all leaves, except that the two facing ones become one when together they hold at most 64 entries |
| `TapeTree.JoinEntries` | `src/framework/tape.rs:859-906` | concatenation of trees is concatenation of sequences |
| `TapeTree.Split` | `src/framework/tape.rs:956-997` | a split gives two valid trees whose labels stay adjacent, also below a given upper label |
| `TapeTree.SplitEntries` | `src/framework/tape.rs:956-997` | a split cuts the sequence exactly at the rank |
| `TapeBalance.JoinBalanced` | `src/framework/tape.rs:859-954` | joining height-balanced trees gives a balanced tree as tall as the taller one or one level more |
| `TapeBalance.SplitBalanced` | `src/framework/tape.rs:956-997` | splitting a balanced tree gives two balanced trees, neither taller |
| `TapeBalance.BalancedLeafCount` | `src/framework/tape.rs:819-838` | a balanced tree of height h has at least Fibonacci(h) leaves |
| `TapeBalance.JoinLeaning` | `src/framework/tape.rs:859-954` | joining a balanced tree with a right-leaning one gives a right-leaning tree and keeps the height bound |
| `TapeBalance.SplitLeaning` | `src/framework/tape.rs:956-997` | cutting a right-leaning tree leaves a balanced part before the cut and a right-leaning one after it |
| `TapeSplice.BuildBalancedLeaning` | `src/framework/tape.rs:840-857` | pairing up any number of leaves, odd ones carried up, gives a right-leaning tree |
| `TapeSplice.BuildBalancedSmall` | `src/framework/tape.rs:840-857` | up to four leaves the result is height-balanced |
| `TapeSplice.FromEntriesDenotes` | `src/framework/tape.rs:405-424` | a tape built from entries holds exactly those entries and is right-leaning; up to 256 entries it is balanced |
| `TapeSplice.RekeyDenotes` | `src/framework/tape.rs:654-679` | relabelling a tape between two bounds keeps its sequence, and small tapes keep their balance |
| `TapeSplice.SpliceDenotes` | `src/framework/tape.rs:616-629` | a splice with any bounds yields prefix, replacement, suffix of the clamped range |
| `TapeSplice.SpliceNeverRelabels` | `src/framework/tape.rs:608-629` | in a splice both final concatenations find their labels already in order, so no kept leaf is relabelled |
| `TapeOccurrences.LeavesIncreasing` | `src/framework/tape.rs:819-838` | leaf labels increase strictly from left to right and lie between the first and last label cached at the root |
| `TapeOccurrences.RebuiltExact` | `src/framework/tape.rs:681-690` | an index built from scratch locates every id exactly whenever ids are distinct |
| `TapeOccurrences.ExactUnique` | `src/framework/tape.rs:681-690` | a sequence of leaves has only one exact index |
| `TapeOccurrences.CollectLists` | `src/framework/tape.rs:1028-1068` | range collection lists exactly the ranks of the range, each with its true location |
| `TapeOccurrences.PatchExactIff` | `src/framework/tape.rs:692-720` | removing and re-adding the two 64-wide windows gives an exact index iff no kept entry outside the windows moved |
| `TapeLocality.SplitPrefixVerdict` | `src/framework/tape.rs:956-997` | a recursive test on the tree holds iff the split re-makes a leaf location more than a given reach before the cut |
| `TapeLocality.SplitSuffixVerdict` | `src/framework/tape.rs:956-997` | the mirrored test holds iff a location more than the reach after the cut is re-made |
| `TapePatch.UnmovedIff` | `src/framework/tape.rs:692-720` | after a splice some kept entry outside the windows has moved iff one of the two cuts fuses leaves far from itself |
| `TapePatch.SpliceWithIndexExactIff` | `src/framework/tape.rs:692-720` | starting from an exact index, the patched index is exact iff the resulting ids are distinct and neither cut fuses leaves far away |
| `TapePatch.PatchedIsRebuilt` | `src/framework/tape.rs:681-720` | in that case the patched index equals the one rebuilt from scratch |
| `TapePatch.RankOfIdExact` | `src/framework/tape.rs:722-729` | with an exact index, looking up an id answers its rank iff it occurs, and nothing otherwise |
| `TapePatch.RankOfIdFound` | `src/framework/tape.rs:999-1026` | descending by label and slot from a recorded location finds the rank it was recorded for |
| `TapeRuns.LeaningSpliceNotFar` | `src/framework/tape.rs:692-720` | on right-leaning tapes, balanced ones among them, no cut ever fuses leaves far away |
| `TapeRuns.SpliceBalanced` | `src/framework/tape.rs:616-629` | splicing balanced material into a balanced tape keeps it balanced |
| `TapeRuns.StepGoodIff` | `src/framework/tape.rs:692-720` | one edit on any good state yields the model sequence, and the state stays good iff ids stay distinct and the splice is not far |
| `TapeRuns.RunStaysExact` | `src/framework/tape.rs:405-424` | over every run of edits of at most 128 entries each, from any initial tape: the tape is the model sequence, the index is the rebuilt one, and lookups answer the true ranks |
| `TapeRuns.BalancedRunStaysExact` | `src/framework/tape.rs:692-720` | from any balanced good state, every run of edits of at most 256 entries each keeps the tape balanced and the index the rebuilt one |
| `TapeRuns.GoodLooksUp` | `src/framework/tape.rs:722-729` | in a good state with distinct ids, every lookup answers the true rank |
| `TapeIdentities.JoinDraws` | `src/framework/tape.rs:859-954` | concatenating two trees keeps node ids of them, none more often than before, or draws new ones once each |
| `TapeIdentities.SplitDraws` | `src/framework/tape.rs:956-997` | both parts of a split together keep node ids of the tree, none more often than there, or draw new ones once each |
| `TapeIdentities.SpliceDraws` | `src/framework/tape.rs:616-629` | a splice keeps node ids of the tape and of the replacement, none more often than there, or draws new ones once each |
| `TapeIdentities.RunKeepsUnique` | `src/framework/tape.rs:118-157` | over every run of edits from any initial tape, whatever is inserted, no two nodes of the tape have the same id and all are below the counter |
| `TapeFarExample.EmptySpliceGoesStale` | `src/framework/tape.rs:692-720` | four public edits after which the patched index differs from the rebuilt one, although the last edit changes no entry |
| `TapeLookup.MetricBeforeIs` | `src/framework/tape.rs:444-472` | the aggregate descent sums exactly the entries before the clamped rank |
| `TapeLookup.MetricBeforeFields` | `src/framework/tape.rs:444-472` | each count before a rank is the sum of that field of the entries before it |
| `TapeLookup.Get` | `src/framework/tape.rs:521-543` | reading a rank answers the entry there, or nothing past the end |
| `TapeLookup.LexicalRankAtByte` | `src/framework/tape.rs:756-797` | the byte lookup answers the first entry that ends after the byte, visiting at most one node per level |
| `TapeLookup.FirstEndingAfterUnique` | `src/framework/tape.rs:756-797` | that entry is unique: an entry ends after the byte iff its rank is at least the answer |
| `TapeLookup.ExactEqIff` | `src/framework/tape.rs:545-576` | structural equality holds iff the sequences are equal and the two trees branch alike |
| `TapeCursors.TapeIter.Next` | `src/framework/tape.rs:1091-1118` | iteration yields the remaining entries in order, then nothing for ever |
| `TapeCursors.TapeRangeIter.constructor` | `src/framework/tape.rs:584-588` | a range iterator starts with exactly the entries of the clamped range |
| `TapeCursors.TapeRangeIter.PushIntersection` | `src/framework/tape.rs:1146-1167` | descending stacks exactly the entries of the node inside the range, in order |
| `TapeCursors.TapeRangeIter.Next` | `src/framework/tape.rs:1172-1196` | range iteration yields its remaining entries in order, then nothing for ever |
| `TapeCursors.CursorAt` | `src/framework/tape.rs:590-595` | a cursor exists iff the rank is inside the tape, and is then placed there |
| `TapeCursors.TapeCursor.Current` | `src/framework/tape.rs:1220-1225` | the entry shown is the one at the rank of the cursor, also after failed moves |
| `TapeCursors.TapeCursor.Advance` | `src/framework/tape.rs:1232-1256` | a placed cursor advances iff there is a next rank, and is placed there; a failed move keeps leaf and slot but loses the path |
| `TapeCursors.TapeCursor.Retreat` | `src/framework/tape.rs:1258-1278` | a placed cursor retreats iff it is not at the start, and is placed one rank lower; a failed move loses the path |
| `TapeCursors.TapeCursor.DescendToRank` | `src/framework/tape.rs:1280-1307` | the descent ends in the leaf and slot of the wanted rank, with the path that leads there |
| `TapeCursors.TapeCursor.DescendLeft` | `src/framework/tape.rs:1309-1326` | the descent ends in the first slot below the node |
| `TapeCursors.TapeCursor.DescendRight` | `src/framework/tape.rs:1328-1346` | the descent ends in the last slot below the node |
| `TapeCursors.PlacedByRank` | `src/framework/tape.rs:1199-1346` | a placed cursor is what a fresh descent to its rank would be |
| `TapeCursors.SameRankSameCursor` | `src/framework/tape.rs:1199-1346` | two placed cursors of one rank have the same path, leaf and slot |
| `TapeCursors.Walk` | `src/framework/tape.rs:1232-1278` | a run of moves succeeds iff it stays inside the tape; moves that cancel out restore the cursor completely |
| `TapeMethods.TapeIdAllocator.Allocate` | `src/framework/tape.rs:152-157` | ids are handed out in increasing order, one at a time |
| `TapeMethods.Build` | `src/framework/tape.rs:840-857` | the pairing loops build the tree of the specification with the same ids |
| `TapeMethods.NewTape` | `src/framework/tape.rs:405-424` | chunking, labelling and pairing build the tape of the specification |
| `TapeMethods.Rekey` | `src/framework/tape.rs:654-679` | the relabelling loop builds the tape of the specification |
| `TapeMethods.Rotate` | `src/framework/tape.rs:908-954` | rebalancing performs the rotation of the specification |
| `TapeMethods.ConcatNodes` | `src/framework/tape.rs:859-906` | recursive concatenation builds the tree of the specification |
| `TapeMethods.SplitNode` | `src/framework/tape.rs:956-997` | recursive splitting builds the two trees of the specification |
| `TapeMethods.CutAt` | `src/framework/tape.rs:597-606` | splitting a tape clamps the rank and builds the two tapes of the specification |
| `TapeMethods.Append` | `src/framework/tape.rs:608-614` | concatenating tapes relabels the right one only when its labels do not fit |
| `TapeMethods.SpliceRange` | `src/framework/tape.rs:616-629` | the splice builds the tape of the specification |
| `TapeMethods.CollectLocations` | `src/framework/tape.rs:1037-1068` | the recursive collection appends the locations of the specification |
| `TapeMethods.SpliceAndPatch` | `src/framework/tape.rs:692-720` | the splice with its index update yields the tape and index of the specification |
| `SourceOrder.SortHolds` | `src/framework/source.rs:397-417` | the stable sort by position, kind and caller order is a sorted permutation of the operations |
| `SourceOrder.SortReads` | `src/framework/source.rs:397-417` | sorting changes neither what is inserted at a position nor what is deleted there |
| `SourceOrder.OverlapIffConflict` | `src/framework/source.rs:419-505` | the neighbour check over grouped replacements fails iff two operations clash |
| `SourceOrder.GroupsNaive` | `src/framework/source.rs:419-487` | grouping insertions and deletions reads the same as the single operations |
| `SourceEdits.MergeOps` | `src/framework/source.rs:419-487` | the grouping loop produces the groups of the specification |
| `SourceEdits.FindOverlap` | `src/framework/source.rs:489-503` | the check reports the first overlapping neighbour pair iff there is one |
| `SourceEdits.Validate` | `src/framework/source.rs:362-396` | validation rejects iff some edit is out of bounds, and then names the first one |
| `SourceEdits.Place` | `src/framework/source.rs:505-546` | the shift loop drops replacements that restate the old text and places all others |
| `SourceEdits.MergeAdjacent` | `src/framework/source.rs:548-568` | merging splices that touch in both coordinates describes the same replacements |
| `SourceEdits.NormalIsNaive` | `src/framework/source.rs:338-571` | for every batch in bounds and without overlap, the normalized replacements produce the text that inserting and deleting position by position produces |
| `SourceEdits.ConflictIffOverlapping` | `src/framework/source.rs:489-503` | operations clash in any order iff the caller's edits overlap |
| `SourceEdits.Conservation` | `src/framework/source.rs:505-546` | bytes inserted minus bytes removed is the total shift |
| `SourceEdits.ShiftNeverUnderflows` | `src/framework/source.rs:505-546` | the running shift never takes a start below zero |
| `SourceEdits.NormalizeEdits` | `src/framework/source.rs:338-571` | accepts exactly the batches in bounds and without overlap, and otherwise blames the closed document, the first edit out of bounds, or the first two overlapping groups; the splices are apart, correctly placed, and read like the batch, and the byte counts are those of the replacements that change something |
| `SourceEdits.ApplySplices` | `src/framework/source.rs:574-596` | applying splices back to front yields the replaced text, in which every new range holds its inserted text |
| `SourceEdits.Edited` | `src/framework/source.rs:338-596` | normalizing and applying a batch yields the position-by-position reading of the edits |
| `SourceEdits.NoSpliceIff` | `src/framework/source.rs:531-546` | a batch leaves no splice iff every grouped replacement restates the old text |
| `SourceEdits.MergedSpliceMayBeIdentity` | `src/framework/source.rs:548-568` | a splice left by merging two effective neighbours can restate the old text |
| `SourceRuns.RunsAreMaximal` | `src/framework/source.rs:548-568` | replacements are cut into runs that touch inside and not at the cuts |
| `SourceRuns.CoalescedJoins` | `src/framework/source.rs:548-568` | merging neighbours makes one replacement of each such run |
| `SourceRuns.SplicesChangeIff` | `src/framework/source.rs:531-568` | every splice that is left changes the text iff no run of two or more effective replacements puts back what it covers |
| `SourceRuns.UnchangedIff` | `src/framework/source.rs:338-596` | an accepted batch leaves the text as it was iff its grouped replacements cancel out: each text and each stretch between them stands in the old text where the new text has it, and the shifts add up to zero |
| `SourceRuns.IdleSpliceIff` | `src/framework/source.rs:531-568` | an accepted batch leaves a splice although the text stays the same iff its grouped replacements cancel out and one of them changes its own range |
| `SourceRuns.ApartSplicesMayCancel` | `src/framework/source.rs:531-568` | two splices that do not touch and each change the text can leave it as it was |
| `SourceText.TextStands` | `src/framework/source.rs:574-596` | each replacement's text stands at its shifted place in the new text |
| `SourceText.ReplacedLength` | `src/framework/source.rs:505-546` | the new length is the old one plus the total shift |
| `SourceMap.Build` | `src/framework/source.rs:148-186` | the islands built are the unchanged stretches between the splices |
| `SourceMap.MapIsMoved` | `src/framework/source.rs:188-199` | the binary search over islands agrees with walking the splices |
| `SourceMap.MovedDefined` | `src/framework/source.rs:188-199` | an old position maps iff it lies in no replaced range, and then to a new position outside every inserted range |
| `SourceMap.MapKeepsUnits` | `src/framework/source.rs:188-199` | after any accepted batch, every old position outside the replaced ranges maps to the same unit of text, and no other position maps |
| `SourceMap.MapCarriesOver` | `src/framework/source.rs:188-199` | the map built for an accepted batch carries an old position over iff it lies in no replaced range, to the position before it plus the shift, where the same unit of text stands |
| `SourceMap.MapNamesIsland` | `src/framework/source.rs:188-199` | the answer is a position and an island iff that island holds the old position and puts it there |
| `SourceMap.IslandsRegular` | `src/framework/source.rs:148-186` | the islands are not empty, in order without overlap, each as long in the new text as in the old one and moved by its delta |
| `SourceMap.MapIncreases` | `src/framework/source.rs:188-199` | mapping keeps the order of positions |
| `SourceMap.NewPartition` | `src/framework/source.rs:148-199` | a new position lies in an inserted range iff no old position maps to it |
| `SourceMap.DescribedNormalized` | `src/framework/source.rs:338-571` | the splices of every accepted batch have the form the map needs |
| `Workspaces.SourceDocument` | `src/framework/source.rs:598-668` | the document fold rejects a command based on another revision, and otherwise yields one that continues it: the next id, the id before, the text and delta of the command, and a map of exactly the old positions outside its splices |
| `Workspaces.NextContinues` | `src/framework/source.rs:598-668` | every revision the specification yields for a command that fits continues the previous one: ids, text, delta, and a map of exactly the old positions outside the splices |
| `Workspaces.GroupByUri` | `src/framework/workspace.rs:375-400` | grouping keeps each document's edits in caller order, documents in increasing order |
| `Workspaces.PrepareDocument` | `src/framework/workspace.rs:400-435` | a document's part is accepted iff it is open and takes the edits, and is otherwise blamed for what is wrong with it; no command is written iff no splice is left, and then the text is unchanged |
| `Workspaces.Workspace.Commit` | `src/framework/workspace.rs:306-450` | all written documents are folded, or nothing changes |
| `Workspaces.Workspace.Open` | `src/framework/workspace.rs:306-364` | opening sets the text with a delta and a map that replace all of it, does nothing on equal content, and gives a document closed before an id no earlier reopening had |
| `Workspaces.Workspace.Close` | `src/framework/workspace.rs:444-451` | closing removes exactly that document |
| `Workspaces.Workspace.Edit` | `src/framework/workspace.rs:375-442` | a batch is accepted iff every mentioned document is open and takes its part; then all texts are the edited ones, exactly documents left with a splice get a new revision, and its delta holds the splices, its map carries over what they keep, and it names the id before; otherwise nothing changes and the error is that of the first document that refuses its part |
| `Workspaces.FoldedBatch` | `src/framework/workspace.rs:375-442` | folding the prepared commands gives every document the outcome of its own edits |
| `Workspaces.IdleRevisionIff` | `src/framework/source.rs:88-91` | a document gets a new revision with the old text iff its grouped replacements cancel out and one of them changes its own range |
| `Workspaces.RevisionsMoveIdly` | `src/framework/source.rs:88-91` | two batches on the text `aa` that do so, one with touching replacements and one without |
| `Workspaces.BatchHolds` | `src/framework/workspace.rs:375-442` | after a batch the texts are the edited ones and every revision keeps its identity |
| `Workspaces.OpenHolds` | `src/framework/workspace.rs:306-364` | identities stay unique over opening and reopening |
| `PathExprs.OrLanguage` | `src/framework/scope.rs:390-397` | the simplifying union matches the union |
| `PathExprs.ThenLanguage` | `src/framework/scope.rs:399-406` | the simplifying concatenation matches the concatenation |
| `PathExprs.StarLanguage` | `src/framework/scope.rs:408-414` | the simplifying star matches the star |
| `PathExprs.NullableIff` | `src/framework/scope.rs:420-427` | nullable iff the empty word matches |
| `PathExprs.DerivativeIff` | `src/framework/scope.rs:429-453` | the derivative by a label matches a word iff the expression matches the label followed by the word |
| `PathExprs.ResidualIff` | `src/framework/scope.rs:429-453` | derivatives by a whole word match exactly the possible continuations |
| `PathExprs.AcceptsIff` | `src/framework/scope.rs:420-453` | a word is accepted by derivatives iff it matches |
| `PathExprs.SmartDerivative` | `src/framework/scope.rs:429-453` | derivatives of expressions built by the constructors are built by them |
| `PathExprs.EmptyIffDead` | `src/framework/scope.rs:386-453` | pruning on `Empty` is exact: the residual is `Empty` iff no continuation matches |
| `PathExprs.LabelsComplete` | `src/framework/scope.rs:455-478` | every label with a live derivative is listed, once |
| `Resolution.Resolve` | `src/framework/scope.rs:244-306` | whenever the search ends it answers exactly the matching walks that repeat no search state and end in an accepted scope |
| `Resolution.TargetHasWitness` | `src/framework/scope.rs:244-306` | every accepted scope that some matching walk reaches is among the answers |
| `Resolution.CutOut` | `src/framework/scope.rs:244-306` | leaving out the steps between two visits of one search state leaves a walk to the same end with the same residual |
| `Resolution.Shorten` | `src/framework/scope.rs:244-306` | every walk can be shortened to one that repeats no search state |
| `Resolution.EndsIff` | `src/framework/scope.rs:244-306` | the search ends iff the live walks that repeat no state are bounded in length, iff a finite set of search states is closed under live steps |
| `Resolution.FiniteResidualsEnd` | `src/framework/scope.rs:244-306` | the search ends when the expression has finitely many residuals |
| `Resolution.AcyclicEnds` | `src/framework/scope.rs:244-306` | the search ends, for every expression, when what live walks reach is acyclic |
| `Resolution.EndlessSearch` | `src/framework/scope.rs:390-453` | for `a* a*` on a one-scope loop there are live walks of every length that repeat no state |
| `Resolution.NeverEnds` | `src/framework/scope.rs:244-306` | on that input the search never ends |
| `PathOrders.Prefer` | `src/framework/scope.rs:530-557` | the stored pairs stay the transitive closure of the given preferences |
| `PathOrders.ComparePaths` | `src/framework/scope.rs:559-588` | the comparison loop answers Greater iff the left path is ahead under the given preferences: at the first difference it ends first or its label is preferred, directly or through others; Less iff the right one is, Equal iff the paths are the same, and nothing otherwise |
| `PathOrders.CompareJudges` | `src/framework/scope.rs:559-588` | the answer over the stored closure is that judgement on the given preferences, for any two paths |
| `PathOrders.AheadOneWay` | `src/framework/scope.rs:559-588` | over acyclic preferences no two paths are ahead of each other |
| `PathOrders.BeatsTransitive` | `src/framework/scope.rs:559-588` | over an acyclic closure, being greater is transitive on paths |
| `PathOrders.OneWayIffAcyclic` | `src/framework/scope.rs:530-557` | the stored closure relates no pair both ways iff the given preferences are acyclic |
| `PathOrders.StrictIffAcyclic` | `src/framework/scope.rs:510-588` | being greater is a strict partial order on paths iff the given preferences are acyclic |
| `VisiblePaths.PartitionVisible` | `src/framework/scope.rs:625-660` | every path is visible or shadowed, shadowed iff a listed path is ahead of it under the given preferences; the dominators listed are the visible ones, and over an acyclic order the list is never empty |
| `VisiblePaths.OvertakenBy` | `src/framework/scope.rs:625-660` | a path is shadowed by every listed proper prefix of it, and by every listed path that continues a common prefix with a preferred label |
| `VisiblePaths.OvertakenIff` | `src/framework/scope.rs:625-660` | a path is dominated over the stored closure iff a listed path is ahead of it under the given preferences |
| `VisiblePaths.VisibleDominator` | `src/framework/scope.rs:625-660` | over an acyclic order every dominated path has a visible dominator |
| `VisiblePaths.CyclicShadowsAll` | `src/framework/scope.rs:625-660` | over any cyclic order two one-step paths shadow each other, so none is visible |
| `ScopeRegex.ExpandMeans` | `plingo-macros/src/scope_regex.rs:9-50` | desugaring `+` and `?` and expanding to constructor calls keeps the language of the notation |
| `ScopeRegex.ParseAtom` | `plingo-macros/src/scope_regex.rs:111-131` | reads a label, or a group exactly when its content parses; operators, bars and malformed groups are errors |
| `ScopeRegex.ParseRepetition` | `plingo-macros/src/scope_regex.rs:80-109` | reads one atom with at most one postfix operator; a second operator is an error |
| `ScopeRegex.ParseConcatenation` | `plingo-macros/src/scope_regex.rs:65-78` | reads items up to the next bar or the end; fails only when some token is out of place |
| `ScopeRegex.ParseAlternation` | `plingo-macros/src/scope_regex.rs:56-63` | parsing succeeds exactly on well-formed tokens, and yields their reading |
| `ScopeRegex.ParseRegex` | `plingo-macros/src/scope_regex.rs:51-63` | what parses matches exactly what was written |
| `ScopeRegex.StarTokens` | `plingo-macros/src/scope_regex.rs:80-109` | the tokens `a *` match the words of any number of `a` |
| `ScopeRegex.PlusTokens` | `plingo-macros/src/scope_regex.rs:80-109` | the tokens `a +` match the words of one `a` or more |
| `ScopeRegex.QuestionTokens` | `plingo-macros/src/scope_regex.rs:80-109` | the tokens `a ?` match the empty word and `a` |
| `ScopeRegex.TokensInjective` | `plingo-macros/src/scope_regex.rs:56-131` | the notation is unambiguous: tokens have one reading |
| `ScopeRegex.TokensWellFormed` | `plingo-macros/src/scope_regex.rs:56-131` | every written form parses |
| `FactLists.ListEmit.Push` | `src/reactive/kind.rs:655-660` | appends; at the 32-bit maximum the facts no longer hold any list |
| `FactLists.ListEmit.Set` | `src/reactive/kind.rs:662-666` | replaces an item; the facts still hold a list iff the truncated index is inside |
| `FactLists.ListEmit.Remove` | `src/reactive/kind.rs:668-687` | drops one item and shifts the rest; out of range nothing changes |
| `FactLists.ListEmit.Replace` | `src/reactive/kind.rs:689-701` | the facts hold exactly the new list, leftover slots retracted |
| `FactLists.ListEmit.Clear` | `src/reactive/kind.rs:703-710` | the facts hold the empty list |
| `FactTrees.AbortedIff` | `src/reactive/kind.rs:925-1008` | the error message slices out of order, which stops the program, iff both anchors are present and `after` is first found at or before `before` |
| `FactTrees.SplicedIff` | `src/reactive/kind.rs:925-1008` | a splice is accepted iff the order reads: a side up to the first occurrence of `before`, the removed run, a side from the first occurrence of `after`, and nothing inserted stays on either side |
| `FactTrees.FittingDone` | `src/reactive/kind.rs:925-1008` | where the order reads a side up to `before`, the removed run, a side from `after`, the new order is the first side, the inserted nodes, the second side |
| `FactTrees.SwappedAnchorsAbort` | `src/reactive/kind.rs:925-1008` | an empty splice between two swapped anchors stops the program |
| `FactTrees.SplicedNeighbours` | `src/reactive/kind.rs:925-1008` | a successful splice replaces exactly the removed run between the two anchors, and inserts nothing that stays elsewhere |
| `FactTrees.SplicedDistinct` | `src/reactive/kind.rs:925-1008` | a successful splice keeps the order duplicate-free |
| `FactTrees.SpliceUndo` | `src/reactive/kind.rs:925-1008` | swapping removed and inserted undoes a splice |
| `FactTrees.TreeFacts.SetChildren` | `src/reactive/kind.rs:896-920` | links match the order after replacing all children |
| `FactTrees.TreeFacts.SpliceChildren` | `src/reactive/kind.rs:925-1008` | a successful splice keeps order and links matching and touches no other node; a failed one writes nothing |
| `FactTrees.TreeFacts.SpliceAndBack` | `src/reactive/kind.rs:925-1008` | a splice and its swap leave every order and link fact as it was |
| `FactTrees.TreeFacts.ReplaceRoots` | `src/reactive/kind.rs:1049-1070` | root links match the root order after replacing all roots |
| `FactTrees.SameFacts` | `src/reactive/kind.rs:839-1008` | replacing all children and splicing to the same order leave the same facts |
| `FactPatches.TreePatch.SetChildren` | `src/reactive/kind.rs:364-388` | the operations appended are the retractions, the order and the additions against the committed order |
| `FactPatches.TreePatch.SpliceChildren` | `src/reactive/kind.rs:392-471` | the outcome is judged by the committed order; a failed call appends nothing |
| `FactPatches.TreePatch.Freeze` | `src/reactive/plain.rs:1947-1969` | freezing succeeds iff no key occurs twice, and then holds exactly the operations |
| `FactPatches.RunCommitsIff` | `src/reactive/plain.rs:1947-1969` | a run of accepted patch calls commits iff they touch different nodes and each is clean |
| `FactPatches.CleanIff` | `src/reactive/kind.rs:364-471` | a call is clean iff what it publishes is duplicate-free and, for a splice, avoids what it removes |
| `FactPatches.RunLeaves` | `src/reactive/kind.rs:364-471` | after a committed run every touched node holds its new order with matching links |
| `FactPatches.OthersStay` | `src/reactive/plain.rs:1947-1969` | facts of untouched nodes stay as they were |
| `FactPatches.Invoke` | `src/reactive/plain.rs:1947-1969` | an invocation succeeds iff every call is accepted, the nodes differ and each call is clean; then every touched node is consistent and nothing else changed; otherwise the error is that of the first call not accepted, or a repeated key |
| `FactPatches.PatchReadsCommitted` | `src/reactive/plain.rs:1184-1198` | of two consecutive splices of one node the second is judged by the committed order, not by what the first leaves |
| `FactPatches.RepeatedNodeFails` | `src/reactive/plain.rs:1947-1969` | touching one node twice never commits |
| `Tiers.CollectIs` | `plingo-macros/src/non_terminal.rs:1249-1300` | collecting levels succeeds iff every recursive use is annotated where it has to be, and adds exactly the mentioned levels |
| `Tiers.CollectReads` | `plingo-macros/src/non_terminal.rs:1249-1300` | collecting reads the references from left to right: it adds their levels, or reports the first one that is not a level of the enclosing nonterminal |
| `Tiers.CollectRules` | `plingo-macros/src/non_terminal.rs:119-183` | validation succeeds iff every rule is valid, and collects exactly the annotated levels; otherwise the error names what is wrong with the first rule that is not valid |
| `Tiers.BuildPlan` | `plingo-macros/src/non_terminal.rs:119-183` | there is no plan without annotations; otherwise there is one iff every rule is valid, every level lookup is then defined, and each rule produces the level in front of its arrow, or the level of its first symbol, or the tightest level when it has no annotation |
| `Tiers.PlannedProduces` | `plingo-macros/src/non_terminal.rs:119-183` | every plan gives a rule that level |
| `Tiers.CompactIsExplicit` | `plingo-macros/src/non_terminal.rs:1300-1311` | `Self:n, ...` and `Self:n <- Self:n, ...` are valid alike and have the same plans |
| `Tiers.BodyBegins` | `plingo-macros/src/non_terminal.rs:189-254` | where the first symbol of an expression is a level, every body that fits it, and every derivation of it, has a first child at that level |
| `Tiers.InferredBegins` | `plingo-macros/src/non_terminal.rs:119-254` | every body of a tiered rule without an arrow begins with a child at exactly the level the rule produces |
| `Tiers.Lowering` | `plingo-macros/src/non_terminal.rs:189-254` | the promotions go from the root to the loosest level and from each level to the next tighter one |
| `Tiers.PromotionsStep` | `plingo-macros/src/non_terminal.rs:189-254` | a level is promoted exactly to the next level in order, the root exactly to the loosest |
| `Tiers.PlannedLawful` | `plingo-macros/src/non_terminal.rs:119-254` | every grammar that gets a plan has the properties the theorems on derivations need |
| `Tiers.LiftDerives` | `plingo-macros/src/non_terminal.rs:189-254` | a syntax tree whose operands are tight enough has a derivation, from which it is read back |
| `Tiers.StripDerives` | `plingo-macros/src/non_terminal.rs:189-254` | dropping the promotions of a derivation gives a tree with tight enough operands, which lifts back to it |
| `Tiers.TiersOneToOne` | `plingo-macros/src/non_terminal.rs:189-254` | derivations from a level and trees of that level or tighter correspond one to one, so promotions add no ambiguity |
| `GrammarLowering.LowerCtx.Fresh` | `plingo-macros/src/non_terminal.rs:926-948` | names and builders draw from one counter |
| `GrammarLowering.LowerCtx.LowerExpr` | `plingo-macros/src/non_terminal.rs:357-924` | lowering fails iff an alternation has not two branches, and otherwise registers the productions of the specification |
| `GrammarLowering.LowerCtx.LowerAlt` | `plingo-macros/src/non_terminal.rs:806-924` | an alternation of two branches registers one production for each |
| `GrammarLowering.LowerCtx.LowerRepeat` | `plingo-macros/src/non_terminal.rs:501-805` | a repeat registers the recursive form without bounds and one production per count otherwise |
| `GrammarLowering.LowerCtx.PushCounts` | `plingo-macros/src/non_terminal.rs:714-805` | the counting loop registers exactly the productions for the counts from the lower to the upper bound |
| `GrammarRepeats.SpreadStands` | `plingo-macros/src/non_terminal.rs:501-805` | items with separators between them, in an admitted number, make a derivation of the repeat and are read back from it |
| `GrammarRepeats.GatherReads` | `plingo-macros/src/non_terminal.rs:501-805` | every derivation of the repeat consists of such pieces in an admitted number |
| `GrammarRepeats.SpreadWord` | `plingo-macros/src/non_terminal.rs:501-805` | a derivation of a repeat spells its pieces in order |
| `GrammarMeaning.LowerRange` | `plingo-macros/src/non_terminal.rs:926-948` | lowering defines only nonterminals it drew from the counter, so two expressions never share one |
| `GrammarBuilders.LowerUnmixed` | `plingo-macros/src/non_terminal.rs:926-948` | every production has a builder number of its own, and no builder number is the number of a nonterminal |
| `GrammarMeaning.DeriveHolds` | `plingo-macros/src/non_terminal.rs:357-924` | every parse of the expression has a derivation of the lowered symbols with the same word, from which it is read back |
| `GrammarMeaning.ReadHolds` | `plingo-macros/src/non_terminal.rs:357-924` | every derivation of the lowered symbols is that of a parse |
| `GrammarMeaning.LoweringOneToOne` | `plingo-macros/src/non_terminal.rs:357-924` | parses of an expression and derivations in the lowered grammar correspond one to one and spell the same words |
| `GrammarMeaning.LoweringKeepsLanguage` | `plingo-macros/src/non_terminal.rs:357-924` | a word is derivable iff the expression has a parse that spells it |
| `GrammarCounts.RepeatCountsIff` | `plingo-macros/src/non_terminal.rs:501-805` | a repeat derives exactly the item counts it admits, for every item and separator that have a parse where they are needed |
| `GrammarCounts.OpenEndedStops` | `plingo-macros/src/non_terminal.rs:714-715` | without an upper bound: from zero every count, but not zero with a separator; from a positive bound exactly the counts up to three above it |
| `GrammarCounts.BoundedCounts` | `plingo-macros/src/non_terminal.rs:714-715` | with an upper bound: exactly the counts between the bounds, and none only from zero |
| `GrammarCounts.OpenEndedSymbols` | `plingo-macros/src/non_terminal.rs:714-715` | an open-ended repeat of one symbol derives a word of a length iff the lower bound is zero or the length is at most three above it |
| `GrammarCounts.EmptyRepeatIff` | `plingo-macros/src/non_terminal.rs:501-805` | a repeat derives the empty word iff some admitted number of items, and of separators between them, can be empty |
| `GrammarCounts.SeparatedNeedsOne` | `plingo-macros/src/non_terminal.rs:519-712` | an unbounded repeat derives the empty word iff it has no separator with symbols or its item can be empty |
| `GrammarCounts.BoundedFromZero` | `plingo-macros/src/non_terminal.rs:704-712` | a repeat from zero with an upper bound always derives the empty word |
| `GrammarCounts.EmptyListMissing` | `plingo-macros/src/non_terminal.rs:519-712` | of one symbol separated by another the empty list is not derivable |
| `StlcNames.NameDocument` | `examples/stlc/name_resolve.rs:157-182` | the declaration loop emits for each declaration the scope that the one before leaves behind; a fixpoint contains these effects |
| `StlcNames.NameDeclaration` | `examples/stlc/name_resolve.rs:184-242` | the parameter loop emits one scope for each parameter and for the body, nested inside the declaration; a fixpoint contains these effects |
| `StlcNames.NameParam` | `examples/stlc/name_resolve.rs:250-285` | a parameter binds its name in front of its incoming scope |
| `StlcNames.NameExpr` | `examples/stlc/name_resolve.rs:318-412` | every child gets its incoming scope, and exactly case and let bind a name; a fixpoint contains these effects |
| `StlcFixpoints.ExprFixedIff` | `examples/stlc/name_resolve.rs:318-412` | below an expression the naming equations hold iff the tables hold exactly what the components emit at every node |
| `StlcFixpoints.FixpointIff` | `examples/stlc/name_resolve.rs:157-412` | the tables of a document are a fixpoint iff they hold exactly what the naming components emit at every node |
| `StlcNames.ResolveVariable` | `examples/stlc/name_resolve.rs:414-462` | resolution ends for any published tables, cyclic ones too |
| `StlcNames.WalkIsNearest` | `examples/stlc/name_resolve.rs:414-462` | walking the published scope edges finds the nearest binder of the name |
| `StlcNames.FixpointResolvesLexically` | `examples/stlc/name_resolve.rs:157-462` | in every fixpoint of the naming equations every variable resolves to its nearest enclosing binder, or is unbound |
| `StlcTypes.BuildFunction` | `examples/stlc/check.rs:39-59` | the type built curries to the arrows from the parameters to the result, and is flat when they are |
| `StlcTypes.FunctionCurries` | `examples/stlc/check.rs:39-59` | the type built curries to the arrows from its parameters to its result |
| `StlcTypes.FlattenCurry` | `examples/stlc/check.rs:38-83` | flattening a simple type and currying it back is the identity |
| `StlcTypes.CurryFlatten` | `examples/stlc/check.rs:38-83` | currying a flat type and flattening it back is the identity |
| `StlcTypes.CurryInjective` | `examples/stlc/check.rs:38-83` | flat types are equal iff they stand for the same simple type |
| `StlcTypes.ApplyUndoesFunction` | `examples/stlc/check.rs:61-73` | applying a function type of one parameter gives back its result |
| `StlcTypes.ApplyPeels` | `examples/stlc/check.rs:61-73` | applying is defined iff the type is an arrow, and peels exactly the outermost one |
| `StlcTyping.OnlyFreeMatters` | `examples/stlc/check.rs:286-500` | derivations use the context only at the free names |
| `StlcTyping.TypesUnique` | `examples/stlc/check.rs:286-500` | a term has at most one type |
| `StlcTyping.NameFixed` | `examples/stlc/check.rs:286-500` | a let-free term of known type fixes the type of every name that occurs in it |
| `StlcCheck.SynthExpr` | `examples/stlc/check.rs:286-500` | the component publishes the effects of the specification, whose meaning is the subject of `StlcJudgements` and `StlcDiagnostics` |
| `StlcJudgements.FoundIff` | `examples/stlc/check.rs:286-500` | in every fixpoint the type found at an expression is the one its typing rule gives, read on simple types; a variable has the type of its nearest binder |
| `StlcJudgements.AskedIff` | `examples/stlc/check.rs:286-500` | in every fixpoint each child is asked for the type its rule needs, or the one asked of the node where the rule passes it on, read on simple types; and nothing else is asked |
| `StlcDiagnostics.ReportsExactly` | `examples/stlc/check.rs:286-500` | in every fixpoint an expression carries a diagnostic iff it deserves it: an unbound variable iff no enclosing binder has the name, a branch mismatch iff both branch types are known and differ, the application of a known non-function, a mismatch with the type asked |
| `StlcDiagnostics.ParamReports` | `examples/stlc/check.rs:257-284` | a parameter carries a missing annotation iff it has none, and otherwise only mismatches with the type asked |
| `StlcDiagnostics.DeclarationReports` | `examples/stlc/check.rs:501-560` | a declaration carries exactly its mismatches with the annotation and with the type asked |
| `StlcDiagnostics.NamelessReports` | `examples/stlc/check.rs:472-489` | a variable whose token is missing is reported, under the empty name, iff it has a scope |
| `StlcCheck.SynthFlat` | `examples/stlc/check.rs:286-500` | every type an expression publishes or asks for is flat, from flat tables |
| `StlcRuns.ComponentFlat` | `examples/stlc/check.rs:210-560` | so is every type that atoms, types, parameters, expressions and declarations publish or ask for |
| `StlcRuns.RunStaysFlat` | `examples/stlc/check.rs:142-620` | over every run of components from empty tables, in any order and with retractions, all published types are flat |
| `StlcRuns.StillIff` | `examples/stlc/check.rs:158-208` | a node satisfies its equation iff running its component changes no table, given that its children differ |
| `StlcCheck.TypeSound` | `examples/stlc/check.rs:210-255` | a clean written type denotes the type synthesized for it |
| `StlcCheck.ParamSound` | `examples/stlc/check.rs:257-284` | a clean parameter is annotated, and its binder has the annotated type |
| `StlcCheck.Sound` | `examples/stlc/check.rs:286-500` | in a clean fixpoint whose used let binders have the type of their values, every term has a derivation of its synthesized type |
| `StlcCheck.UnusedLetsSound` | `examples/stlc/check.rs:286-500` | a clean fixpoint is sound when no let binder occurs in its body, in particular without lets |
| `StlcCheck.AbstractParameters` | `examples/stlc/check.rs:519-526` | folding the parameters from the last to the first builds the type of the declaration |
| `StlcCheck.DeclarationSound` | `examples/stlc/check.rs:501-560` | a clean declaration publishes the arrows from its written parameter types to the type its body derives |
| `StlcCheck.DocumentSound` | `examples/stlc/check.rs:501-620` | in any clean fixpoint of a document whose let binders are unused, every declaration is well-typed |
| `StlcCheck.AnnotatedParametersNeverClean` | `examples/stlc/check.rs:501-560` | a declaration with parameters and a known annotation always has a diagnostic or an unknown node |
| `StlcLets.OneLetIff` | `examples/stlc/check.rs:561-620` | for one let around a let-free body, a clean fixpoint is right iff the binder is unused or the value has the type of the whole |
| `StlcLets.OneLetAnywhereIff` | `examples/stlc/check.rs:561-620` | where at most one let uses its binder, anywhere in a term but not in the value of a let and with a let-free body, a clean fixpoint is right iff that let has the type of its value |
| `StlcLets.LetUnsound` | `examples/stlc/check.rs:561-620` | every fixpoint on `let x = true in succ x` is clean at type Nat, although the term has no type |
| `StlcLets.LetFixpoint` | `examples/stlc/check.rs:561-620` | that fixpoint exists |
| `StlcCheck.DeclarationCleanIff` | `examples/stlc/check.rs:501-560` | over clean parts, a declaration nothing is asked of is clean iff it has no parameters or no annotation |
| `StlcComplete.CaseBindersUnused` | `examples/stlc/check.rs:561-607` | a clean term uses no case binder, since only a let publishes a type for its binder |
| `StlcComplete.Complete` | `examples/stlc/check.rs:286-607` | every fixpoint on a well-typed term that uses no case or let binder is clean, at the type of the term, where its free names have the published types of the context and at most its type is asked of it |
| `StlcComplete.WellTypedCleanIff` | `examples/stlc/check.rs:286-607` | in such surroundings a fixpoint on a well-typed term that uses no let binder is clean iff the term uses no case binder |
| `StlcComplete.CaseRejected` | `examples/stlc/check.rs:604-607` | no fixpoint on `case 0 of 0 => 0, succ n => n` is clean, although the term has type Nat |
| `StlcComplete.CaseFixpoint` | `examples/stlc/check.rs:604-607` | a fixpoint on that term exists |
| `StlcDiagnostics.CleanIffQuiet` | `examples/stlc/check.rs:286-607` | in every fixpoint around a term without error nodes, the term is clean iff no node of it carries a diagnostic and every binder it uses has a published type |
| `StlcDiagnostics.DiagnosedIffIllTyped` | `examples/stlc/check.rs:286-607` | a term that uses no case or let binder and only names of known type is free of diagnostics iff it has a type that meets what is asked of it |
| `StlcDiagnostics.LetStaysUnknown` | `examples/stlc/check.rs:561-607` | on `let x = 1 in x`, of type Nat, the tables given hold no diagnostic and no type of the term |
| `StlcDiagnostics.SelfLetNamed` | `examples/stlc/name_resolve.rs:318-412` | the tables given for `let x = 1 in x` are a fixpoint of the naming equations, and resolve its variable |
| `StlcDiagnostics.SelfLetChecked` | `examples/stlc/check.rs:561-607` | the tables given for `let x = 1 in x` are a fixpoint of the checking equations: the let waits for the type of its binder, which waits for the let |

## Findings

Each row is a property that the code does not have on all inputs: where, an input on which it fails,
and exactly when it holds.

| property | where | failing input | holds exactly when |
|---|---|---|---|
| the patched index equals the rebuilt one | `src/framework/tape.rs:692-720` | a tape of 256 entries: remove the first 123, insert 257 in front, insert 192 in front, then an empty splice at 550 (`TapeFarExample.EmptySpliceGoesStale`) | the resulting ids are distinct and neither cut fuses leaves more than 64 entries away, a test on the tree before the call (`TapePatch.SpliceWithIndexExactIff`); it cannot fail on balanced or right-leaning tapes, so not in runs that insert at most 128 entries a time (`TapeRuns.RunStaysExact`) |
| a mismatching splice is reported as an error | `src/reactive/kind.rs:925-1008` | children `[1, 2]`, before 2, after 1, nothing removed or inserted: the error message slices backwards and stops the program (`FactTrees.SwappedAnchorsAbort`) | an anchor is missing, or `before` is first found strictly ahead of `after` (`FactTrees.AbortedIff`) |
| a patch splice is judged by the order the invocation has so far, as its comment says | `src/reactive/kind.rs:389-392` | append 1 to an empty node, then append 2 after 1 (`FactPatches.PatchReadsCommitted`) | it is the first call on its node, and only such calls commit: touching a node twice is rejected at the end (`FactPatches.RepeatedNodeFails`), and a run commits iff the nodes differ and each call is clean (`FactPatches.RunCommitsIff`, `FactPatches.CleanIff`) |
| name resolution ends | `src/framework/scope.rs:244-306` | `a* a*` on one scope with an `a` edge to itself: `or` collapses only equal operands, so residuals grow for ever (`Resolution.NeverEnds`) | live walks that repeat no search state are bounded in length, equivalently a finite set of states is closed under live steps (`Resolution.EndsIff`) |
| a dominated path has a visible dominator | `src/framework/scope.rs:625-660` | two labels preferred to each other, two one-step paths (`VisiblePaths.CyclicShadowsAll`) | for all paths iff the given preferences are acyclic (`PathOrders.StrictIffAcyclic`, `VisiblePaths.VisibleDominator`) |
| every splice that is left changes the text | `src/framework/source.rs:548-568` | delete 0 to 1 and insert `a` at 1 in `aa` (`SourceEdits.MergedSpliceMayBeIdentity`) | no run of two or more touching effective replacements puts back what it covers (`SourceRuns.SplicesChangeIff`) |
| a revision advances only for effective text changes | `src/framework/source.rs:88-91` | in `aa`, delete 0 to 1 and insert `a` at 1, or at 2 (`Workspaces.RevisionsMoveIdly`) | the grouped replacements of the batch do not cancel out, or each of them restates its own range (`Workspaces.IdleRevisionIff`) |
| a list emitter always holds a list after `push` and `set` | `src/reactive/kind.rs:655-666` | `push` on a list of 2^32 - 1 items; `set` past the end | the length stays below 2^32 (`FactLists.ListEmit.Push`); the truncated index is below the length (`FactLists.ListEmit.Set`) |
| an open-ended repeat has no upper bound | `plingo-macros/src/non_terminal.rs:714-715` | four items above a positive lower bound | the lower bound is zero; otherwise exactly the counts from the bound to three above it are derivable (`GrammarCounts.OpenEndedStops`, for every item and separator `GrammarCounts.RepeatCountsIff`) |
| a repeat from zero derives the empty word | `plingo-macros/src/non_terminal.rs:519-712` | an unbounded list of one symbol separated by another (`GrammarCounts.EmptyListMissing`) | it has an upper bound (`GrammarCounts.BoundedFromZero`), or no separator with symbols, or an item that can be empty (`GrammarCounts.SeparatedNeedsOne`) |
| a term whose checking is clean is well-typed | `examples/stlc/check.rs:561-620` | `let x = true in succ x`: the let publishes its own type for its binder (`StlcLets.LetUnsound`, `StlcLets.LetFixpoint`) | for a term in which at most one let uses its binder, with a let-free body and outside the value of a let: that let has the type of its value (`StlcLets.OneLetAnywhereIff`); whole documents are sound when no let uses its binder (`StlcCheck.DocumentSound`) |
| a well-typed declaration can be clean | `examples/stlc/check.rs:501-560` | any declaration with parameters and an annotation: its body and the function over its body are both asked for the annotated type (`StlcCheck.AnnotatedParametersNeverClean`) | its parts are clean and it has no parameters or no annotation (`StlcCheck.DeclarationCleanIff`) |
| a term without diagnostics has a type | `examples/stlc/check.rs:561-607` | `let x = 1 in x`: the let waits for the type of its own binder (`StlcDiagnostics.LetStaysUnknown`) | every binder the term uses has a published type, for terms without error nodes (`StlcDiagnostics.CleanIffQuiet`) |
| a well-typed term can be clean | `examples/stlc/check.rs:604-607` | `case 0 of 0 => 0, succ n => n`: no type is ever published for the binder (`StlcComplete.CaseRejected`, `StlcComplete.CaseFixpoint`) | no case binder is used, for terms that use no let binder (`StlcComplete.WellTypedCleanIff`); then every fixpoint is clean |

## Left out

- TapeLookup.ExactEqIff: the metrics compared first carry byte and token counts here, not the content hash that the code adds to them as a filter.
- TapeBalance.BalancedLeafCount: heights are unbounded numbers, while the code stores 16 bits and saturates; this lemma bounds the height of a balanced tape, so saturation would need more leaves than any memory holds.
- TapeMethods.TapeIdAllocator.Allocate: ids are unbounded, and the metrics of entries do not overflow.
- FactLists.ListEmit.Replace: for 2^32 items or more nothing is promised about what the truncated slots hold.
- StlcCheck.UnusedLetsSound: for terms with used let binders soundness is stated with the condition on the published types (`Sound`); conditions on one term cover unused binders and a single used one (`OneLetAnywhereIff`).
- Sharing of subtrees between tapes (`Arc` identity) and work counters.
- Text is a sequence of one-byte units: UTF-8 boundaries, ropes and URIs as strings (a URI is its rank) are not modelled. The URI hash is a parameter.
- The engine's transaction is one update of the maps it writes; ownership diffs between invocations, emission modes, and the error a patch handle gets when it peeks inside a command are not modelled.
- The command counter is per workspace, not per process.
- Trees of facts: node removal, `child`, `root`, `append_roots`, payloads.
- Labels of path expressions are single tokens; braced Rust expressions are labels too.
- Tiers and lowering are two theorems that meet at atoms: the tier theorem keeps rule bodies as expressions, and the lowering theorem takes every atom, tiered ones included, as one opaque symbol, so the two expression types stay separate.
- In the tier theorem a repeat may have any number of items; the bounds are the subject of the lowering theorem.
- Builders in generated code: value kinds, named captures and their projection; they find children by item number, so an item of several symbols or none inside a counted repeat is read differently there than by the grammar reading modelled here.
- Type nodes in naming, import and export paths, and the wording and the position of diagnostics and errors.
- The lexer, the parser engine and the reactive scheduler.
