# Verified models of MillenniumDB components

Dafny models of the storage and query evaluation core of MillenniumDB, a graph database, and proofs
of what that core is for. All paths below are relative to the repository.

**All shortest paths.** `BFSEnum` searches the product of a graph and an automaton breadth first,
remembers every optimal predecessor of each product state, and enumerates all shortest accepted paths
lazily, suspending the search after each result. Iterators inside the visited states are shared and
moved in place. `ProductGraph` is the search space over a list of stored edges, `PathEnumeration` the enumeration of the
predecessor graph by cursors, `BreadthFirst` what the search knows at any moment, `SearchStates` and
`BfsEnums` the classes. `StoredWalks` says the result again over the stored edges alone. `SearchOrders` compares the versions of the search, `BFSCheck` among them, run for
run. Main result: a full run produces exactly the shortest accepted runs.

**B+tree and leapfrog join.** `IndexPages` and `BPlusTrees` insert into pages in place, with leaf,
directory and root splits; `PageTrees`, `TreeInsertion` and `LeafChains` say which trees the pages make
up and why every step keeps them good; `RangeScan` reads ranges. `Prefixes` and `LeapfrogIters` are the
trie view of a tree, `NaturalJoin`, `LeapfrogSearch` and `LeapfrogJoins` the worst-case-optimal join.
Each layer refines a sorted set of records, and the join refines the relational natural join.
`BulkTrees`, `BulkImports` and `DiskVectors` build an index from a file by an external merge sort.

**Path expressions.** `Paths` has the rewriting done inside every star, inversion and nullability
against a language semantics (the operators of section 9.1 of the SPARQL 1.1 Query Language), and
`PathRelations` reads paths as relations on the nodes of a graph;
`PathAutomata` and `RpqNfas` the construction of the automaton, `PathLanguages` and `ShortStars` which
words that automaton accepts. The construction is not always exact: the automaton of a path accepts
the words of another path computed from it, and the exact conditions are proved with inputs for which
words are lost or added.

**Buffer manager.** `PagePools` is the page store and the pool as values, `BufferManagers` the classes,
`PinProtocol` a state machine in which threads that hold pages pin, unpin and write while another
thread gets a page, one counter access at a time.

**ORDER BY.** `TupleOrders`, `TupleCollections`, `RunMerging` and `OrderBys`: comparison by keys, the
in-place quicksort of a page, merging runs of pages between two files, and the operator.

**Join order.** `Combinations` is the combinatorial number system behind the table index,
`SelingerTables` the dynamic program.

Classes are proved against functions on values: a method's contract ties the new fields to such a
function of the old ones, and lemmas about the functions give the results.

## Where the code and its documentation disagree

- `append_page` (`buffer_manager.h:59-62`) promises that two calls in a row give two pages because the
  page is written at once. Reading past the end of a file lengthens the file up to the page, not
  including it (`file_manager.cc:62-68`), so the second call finds the first page again.
  `AppendTwice` has the exact condition, `AppendTwiceToNewFile` the case that always fails. The split of
  a full root calls it twice in a row (`bplus_tree_dir.cc:153-154`). `BPlusTree.Insert` is therefore
  proved from the promise of the header, a fresh zeroed page, and not from the code of the buffer
  manager.
- `path_kleene_star.h:48` says that an automaton with two states has one connection. It can have more;
  `ShortStarIsEnoughIff` has the exact condition under which nothing is lost.

## Model

| member | source | states |
|---|---|---|
| BfsEnums.BfsEnum.Drain | MillenniumDB/src/execution/binding_id_iter/paths/all_shortest/bfs_enum.cc:67-127 | For each of the three searches (one final state, several, one given end): asking for paths until there are no more terminates; a run is produced if and only if it is a shortest accepted run whose end is asked for; every step of a produced run follows a stored edge in the direction its transition asks for, and the runs produced follow exactly the shortest walks along stored edges (`ShortestWalk`, which knows of no index); only runs of length 1 can be produced more than once, and none is if and only if no two different edges lead from the start state into one such answer (`ParallelFirst`); the runs come out in the order of `Whole`. |
| ProductGraph.NeighborsAreStored | MillenniumDB/src/execution/binding_id_iter/paths/index_provider/path_index/path_index.cc:143-170 | Through a transition, a node is a neighbour as often as an edge of its type is stored from the node to it, or in the inverse direction from it to the node; neighbours come in ascending order. |
| StoredWalks.ShortestIsShortest | MillenniumDB/src/execution/binding_id_iter/paths/all_shortest/bfs_enum.h:106-113 | A run, whose edges are picked out of index lookups, is a shortest accepted one exactly when its steps are a shortest walk along the stored edges. |
| StoredWalks.WalkHasRun | MillenniumDB/src/execution/binding_id_iter/paths/all_shortest/bfs_enum.h:106-113 | Every walk along stored edges is followed by a run, so the lookups miss no edge. |
| SearchOrders.VersionsAgree | MillenniumDB/src/execution/binding_id_iter/paths/all_shortest/bfs_enum.cc:165-203 | With one final state, the versions with and without `MULTIPLE_FINAL` produce the same sequence of runs. |
| SearchOrders.CheckIsEnumeration | MillenniumDB/src/execution/binding_id_iter/paths/all_shortest/bfs_check.cc:54-183 | The check between two fixed ends produces the sequence of the enumeration restricted to that end, run for run, though it stops at once when the empty run is the answer. |
| BfsEnums.BfsEnum.Next | MillenniumDB/src/execution/binding_id_iter/paths/all_shortest/bfs_enum.cc:67-127 | One call either produces exactly the run that the cursors of the returned state spell out, or produces nothing and leaves the search finished; every call makes progress (an edge looked at, or a pending run taken). |
| BfsEnums.BfsEnum.Resume | MillenniumDB/src/execution/binding_id_iter/paths/all_shortest/bfs_enum.cc:96-126 | The enumerate-or-expand loop after the first call: the suspended state stays consistent, with the produced and pending runs balanced against the runs that are due. |
| BfsEnums.BfsEnum.FirstStep | MillenniumDB/src/execution/binding_id_iter/paths/all_shortest/bfs_enum.cc:69-94 | A missing start node ends the search; an accepting start state produces the empty run once and the search goes on later. |
| BfsEnums.BfsEnum.ExpandFront | MillenniumDB/src/execution/binding_id_iter/paths/all_shortest/bfs_enum.cc:130-213 | Expanding the front of the queue either completes shortest runs, which become pending exactly with their multiplicities, or looks at every remaining edge of the front without completing any and drops it. |
| BfsEnums.BfsEnum.Look | MillenniumDB/src/execution/binding_id_iter/paths/all_shortest/bfs_enum.cc:153-204 | Looking at one neighbour updates visited states, queue, predecessor lists and the table of least distances as `LookAt` says, and reports a solution exactly when `Solution` holds. |
| BfsEnums.BfsEnum.Reset | MillenniumDB/src/execution/binding_id_iter/paths/all_shortest/bfs_enum.cc:45-64 | After a reset, possibly with another start node, the search is in its initial state. |
| BfsEnums.BfsEnum.LayeredAtAnyMoment | MillenniumDB/src/execution/binding_id_iter/paths/all_shortest/bfs_enum.cc:144-211 | Whenever the search is suspended, the fields show a search whose layers are true (`TrueLayers`): recorded distances are true distances, the queue is ordered and spans one layer, the front holds exactly its optimal incoming edges. |
| BreadthFirst.LayersAreTrue | MillenniumDB/src/execution/binding_id_iter/paths/all_shortest/bfs_enum.cc:144-211 | `TrueLayers` holds in every state that satisfies the search invariant, while the queue is still full. |
| BreadthFirst.DistancesAreTrue | MillenniumDB/src/execution/binding_id_iter/paths/all_shortest/bfs_enum.cc:158-185 | At any moment a recorded distance is attained by some run and no run to that state is shorter. |
| BreadthFirst.SettledLinks | MillenniumDB/src/execution/binding_id_iter/paths/all_shortest/bfs_enum.cc:162-163 | A state no farther than the front of the queue lists an edge if and only if the edge comes from the layer before it. |
| BreadthFirst.LinkRunsAreShortest | MillenniumDB/src/execution/binding_id_iter/paths/all_shortest/bfs_enum.cc:162-163 | Into a settled state, the runs along the predecessor lists are exactly the shortest runs. |
| BreadthFirst.ScanInv | MillenniumDB/src/execution/binding_id_iter/paths/all_shortest/bfs_enum.cc:153-204 | Looking at one edge keeps the layering, queue and coverage invariants. |
| BreadthFirst.ScanExpected | MillenniumDB/src/execution/binding_id_iter/paths/all_shortest/bfs_enum.cc:153-204 | Looking at an edge makes due exactly the runs that the iteration started for it then produces, counted with multiplicity. |
| BreadthFirst.Verdict | MillenniumDB/src/execution/binding_id_iter/paths/all_shortest/bfs_enum.cc:165-203 | The test for a solution, with the table of least distances (`MULTIPLE_FINAL`) or by finality alone when there is one final state, holds exactly when the edge goes one layer up into a nearest final state of its node. |
| BreadthFirst.ExpectedAtEnd | MillenniumDB/src/execution/binding_id_iter/paths/all_shortest/bfs_enum.cc:67-127 | When the queue is empty the due runs are exactly the shortest accepted runs. |
| BreadthFirst.ProducedOnce | MillenniumDB/src/execution/binding_id_iter/paths/all_shortest/search_state.cc:43-48 | A finished search has produced no run twice if and only if no two edges lead from the start state into one answer; `start_enumeration` starts again from the first link there. |
| BreadthFirst.ParallelEdgesExist | MillenniumDB/src/execution/binding_id_iter/paths/all_shortest/search_state.cc:43-48 | A two-node graph and automaton for which that happens. |
| SearchStates.SearchState.Next | MillenniumDB/src/execution/binding_id_iter/paths/all_shortest/search_state.cc:17-40 | The recursive step through the shared linked lists of predecessors refines the step on cursor values (`Advance`). |
| SearchStates.SearchState.TakeRun | MillenniumDB/src/execution/binding_id_iter/paths/all_shortest/search_state.cc:17-40 | Called on the state being enumerated, the step takes the first element off the list of remaining runs; after the last one it returns false with every cursor null again, although inner iterators are shared. |
| SearchStates.SearchState.StartEnumeration | MillenniumDB/src/execution/binding_id_iter/paths/all_shortest/search_state.cc:43-48 | The cursor is set to the newest link, except when the links come from the start state, where it is left null. |
| SearchStates.SearchState.Add | MillenniumDB/src/execution/binding_id_iter/paths/all_shortest/search_state.cc:10-14 | A new predecessor is appended to the list of one state; all other states are untouched. |
| SearchStates.SearchState.GetPath | MillenniumDB/src/execution/binding_id_iter/paths/all_shortest/search_state.cc:51-75 | The nodes, types and directions read back along the cursors are those of the run the cursors spell out. |
| PathEnumeration.AdvanceEnumerates | MillenniumDB/src/execution/binding_id_iter/paths/all_shortest/search_state.cc:17-40 | On every layered predecessor graph a step enumerates: remaining runs before = [current run] + remaining runs after; none remaining means all cursors end null. |
| PathEnumeration.PathsCount | MillenniumDB/src/execution/binding_id_iter/paths/all_shortest/search_state.cc:17-40 | The list of runs to be enumerated contains each run along the links exactly once and nothing else. |
| BPlusTrees.BPlusTree.Insert | MillenniumDB/src/storage/index/bplus_tree/bplus_tree_dir.cc:97-275 | Returns false exactly for a record that is stored, and then changes no page; otherwise the stored list becomes the old one with the record in its place. The tree stays valid through leaf, directory and root splits: keys and separators ordered, leaves at one depth, counts within capacity, each leaf linked to its in-order successor. Rests on the header contract of `append_page` (see Left out). |
| BPlusTrees.BPlusTree.InsertInLeaf | MillenniumDB/src/storage/index/bplus_tree/bplus_tree_leaf.cc:22-112 | Insertion into a leaf page: duplicate, in place, or split with the new right page linked between the leaf and its successor; all other pages unchanged. |
| BPlusTrees.BPlusTree.AddChild | MillenniumDB/src/storage/index/bplus_tree/bplus_tree_dir.cc:119-275 | Adding a key and child to a directory: in place, by splitting a directory, or by moving both halves of a full root to new pages; all other pages unchanged. |
| BPlusTrees.BPlusTree.InsertRoot | MillenniumDB/src/storage/index/bplus_tree/bplus_tree_dir.cc:97-275 | From the root on, the pages afterwards make up a good tree that holds the old records and the new one. |
| BPlusTrees.BPlusTree.ContentsAscend | MillenniumDB/src/storage/index/bplus_tree/bplus_tree_dir.cc:397-516 | In a valid tree the records from left to right are strictly ascending, so none is stored twice. |
| BPlusTrees.BPlusTree.SearchLeaf | MillenniumDB/src/storage/index/bplus_tree/bplus_tree_dir.cc:313-350 | Starting from any directory whose range holds the record, the leaf and index found are the position of the first stored record not below it in the whole tree; the directories passed on the way are stacked. |
| BPlusTrees.BPlusTree.LeafFacts | MillenniumDB/src/storage/index/bplus_tree/bplus_tree_leaf.cc:205-251 | The leaves in order hold the contents; a leaf is linked to the next one, and only the last is linked to nothing; only the single leaf of an empty tree is empty. |
| BPlusTrees.BPlusTree.CheckDir | MillenniumDB/src/storage/index/bplus_tree/bplus_tree_dir.cc:381-393 | When the check succeeds the record is in the range of the directory. |
| IndexPages.LeafPage.SearchIndex | MillenniumDB/src/storage/index/bplus_tree/bplus_tree_leaf.cc:118-149 | The binary search finds the number of records smaller than the given one. |
| IndexPages.DirPage.SearchChildIndex | MillenniumDB/src/storage/index/bplus_tree/bplus_tree_dir.cc:354-377 | The binary search finds the number of keys not above the record, which is the child to descend into. |
| IndexPages.LeafPage.SplitInto | MillenniumDB/src/storage/index/bplus_tree/bplus_tree_leaf.cc:43-111 | The records and the new one are divided between the page and the new page in order, with the first of the upper half as separator. |
| IndexPages.ShiftRight | MillenniumDB/src/storage/index/bplus_tree/bplus_tree_leaf.cc:153-159 | Shifting in place moves the range one slot up and keeps everything else. |
| TreeInsertion.DirSplits | MillenniumDB/src/storage/index/bplus_tree/bplus_tree_dir.cc:235-275 | Cutting a full row of children around the middle key gives two good trees with that key between them, at the same depth and with the same records. |
| TreeInsertion.RootSplits | MillenniumDB/src/storage/index/bplus_tree/bplus_tree_dir.cc:151-232 | Splitting the root gives a good tree one level deeper with the same records. |
| TreeInsertion.LeafRegrown | MillenniumDB/src/storage/index/bplus_tree/bplus_tree_leaf.cc:22-112 | Every outcome of an insertion in a leaf is a tree, or two trees around a key, with the record inserted. |
| PageTrees.RowInsert | MillenniumDB/src/storage/index/bplus_tree/bplus_tree_dir.cc:97-118 | Inserting into the child that the search chooses is inserting into the list of the whole row. |
| PageTrees.GoodIsSorted | MillenniumDB/src/storage/index/bplus_tree/bplus_tree_dir.cc:397-516 | A good tree stores strictly ascending records within its bounds. |
| LeafChains.GoodIsChained | MillenniumDB/src/storage/index/bplus_tree/bplus_tree_leaf.cc:82-84 | In a good tree the chain of leaf links is the in-order list of leaves. |
| BulkImports.BptWriter.BulkInsert | MillenniumDB/src/storage/index/bplus_tree/bpt_mem_import.h:110-191 | Adding a leaf at the right end of a directory, in the three cases of the source: the tree at that page gets the leaf as its last, or it stays and a new tree with just that leaf is handed up; other pages are unchanged. `BPlusTreeDir::bulk_insert` is the same algorithm on pages of the buffer. |
| BulkImports.BptWriter.FlushBlock | MillenniumDB/src/storage/index/bplus_tree/bpt_mem_import.h:28-37 | Writing one more leaf turns a complete index over the leaves so far into one over all of them. |
| BulkImports.CompleteIndex | MillenniumDB/src/storage/index/bplus_tree/bplus_tree_dir.cc:397-516 | In a complete index all leaves are at one depth, chained in order, hold the records of the leaf file in strictly ascending order, and every separator is the first record of the leaf to its right. |
| DiskVectors.MergeSort | MillenniumDB/src/import/disk_vector.h:125-301 | For every file of distinct tuples sorted run by run: the sort and bulk build give a complete index whose leaf chain is the sorted permutation of the file, every leaf full but perhaps the last. |
| DiskVectors.MergeRuns | MillenniumDB/src/import/disk_vector.h:197-293 | The k-way merge through one block of each run, with the short last run and block, leaf by leaf. |
| DiskVectors.RunLengths | MillenniumDB/src/import/disk_vector.h:136-157 | The block counts computed from the length of the file are those of its runs, the last run and the last block included. |
| DiskVectors.PutOut | MillenniumDB/src/import/disk_vector.h:237-284 | Putting out the least head keeps what is out ascending and below everything left, and no tuple is lost or doubled. |
| BulkTrees.NewRoot | MillenniumDB/src/storage/index/bplus_tree/bpt_mem_import.h:155-186 | When the root is full its content moves to one new page and the new child to another that has no key; the result is a good tree one level deeper. |
| BulkTrees.Lower | MillenniumDB/src/storage/index/bplus_tree/bpt_mem_import.h:110-191 | A tree whose records are all below a bound is good for the range that ends there, because its separators are first records of leaves. |
| Records.Compare | MillenniumDB/src/storage/index/record.h:33-53 | Smaller exactly when the first identifier that differs is smaller, greater when it is greater, equal when none differs; and so in the order of ranks. |
| Records.InsertedAdds | MillenniumDB/src/storage/index/bplus_tree/bplus_tree_leaf.cc:30-45 | Putting a new record in its place adds just that record and keeps the list strictly ascending. |
| RangeScan.Scan | MillenniumDB/src/storage/index/bplus_tree/bplus_tree.cc:58-121 | `get_range` followed by `next` until null yields exactly the stored records in [min, max] in ascending order. |
| RangeScan.BptIter.Next | MillenniumDB/src/storage/index/bplus_tree/bplus_tree.cc:91-121 | The next record not above max across leaf borders, or null; after null the iterator stays where it is and keeps returning null. |
| RangeScan.GetRange | MillenniumDB/src/storage/index/bplus_tree/bplus_tree.cc:58-63 | The iterator begins at the first stored record not below min. |
| LeapfrogIters.LeapfrogBptIter.InternalSearch | MillenniumDB/src/storage/index/leapfrog/leapfrog_bpt_iter.cc:126-183 | True exactly when the tree holds a record in [min, max], and then the iterator stands at the least one; on false tuple, leaf and position are unchanged. The same whether the search starts at the cached leaf, a popped directory or the root. |
| LeapfrogIters.LeapfrogBptIter.Seek | MillenniumDB/src/storage/index/leapfrog/leapfrog_bpt_iter.cc:101-121 | Finds the first record that agrees with the current one before the level and has at least the key there, or returns false and stays. |
| LeapfrogIters.LeapfrogBptIter.Next | MillenniumDB/src/storage/index/leapfrog/leapfrog_bpt_iter.cc:75-97 | The same for the next larger identifier at the level. |
| LeapfrogIters.LeapfrogBptIter.Down | MillenniumDB/src/storage/index/leapfrog/leapfrog_bpt_iter.cc:51-71 | One level deeper, at the first record that starts like the current one; such a record always exists. |
| LeapfrogIters.LeapfrogBptIter.OpenTerms | MillenniumDB/src/storage/index/leapfrog/leapfrog_bpt_iter.cc:226-245 | True exactly when some record starts with the terms, and then the iterator stands at the first one. |
| LeapfrogIters.LeapfrogBptIter.BeginEnumeration | MillenniumDB/src/storage/index/leapfrog/leapfrog_bpt_iter.cc:187-200 | The range iterator stands before the records that agree with the current one up to the level. |
| LeapfrogIters.LeapfrogBptIter.NextEnumeration | MillenniumDB/src/storage/index/leapfrog/leapfrog_bpt_iter.cc:210-222 | Yields the enumerated part of each record of that group in order, then nothing. |
| Prefixes.RangeMeaning | MillenniumDB/src/storage/index/leapfrog/leapfrog_bpt_iter.cc:101-121 | Between the padded bounds that `seek` and `next` build lie exactly the records with the fixed prefix and at least the key at the level. |
| Prefixes.PrefixMeaning | MillenniumDB/src/storage/index/leapfrog/leapfrog_bpt_iter.cc:187-200 | Between the prefix filled with zeros and the prefix filled with the greatest identifier lie exactly the records with that prefix. |
| LeapfrogJoins.LeapfrogJoin.Drain | MillenniumDB/src/execution/binding_id_iter/leapfrog_join.cc:64-121 | From the beginning until `next` returns false, the rows produced are the rows of the natural join: each once, nothing else, with the join variables in lexicographic order. A row is one if and only if every relation has a record with the relation's terms, then the row's values of its join variables, then what the row shows for it (`IsRow`). |
| LeapfrogJoins.LeapfrogJoin.Next | MillenniumDB/src/execution/binding_id_iter/leapfrog_join.cc:64-121 | One call produces one more row, which the parent binding and the values show, or ends with everything produced; it terminates. |
| LeapfrogJoins.LeapfrogJoin.Begin | MillenniumDB/src/execution/binding_id_iter/leapfrog_join.cc:21-61 | The iterators are distributed over the variables they have, opened at their terms, and the join is ready with nothing produced. |
| LeapfrogJoins.LeapfrogJoin.Reset | MillenniumDB/src/execution/binding_id_iter/leapfrog_join.cc:124-136 | Begins again as the first time. |
| LeapfrogJoins.LeapfrogJoin.FindIntersectionForCurrentLevel | MillenniumDB/src/execution/binding_id_iter/leapfrog_join.cc:178-215 | Terminates; binds the least value, from the current keys on, that all iterators of the level have, or returns false exactly when there is none. |
| LeapfrogJoins.LeapfrogJoin.SortLevel | MillenniumDB/src/execution/binding_id_iter/leapfrog_join.cc:148-174 | After going down, the insertion sort leaves the iterators of the level in cyclic ascending order, which the intersection needs. |
| LeapfrogJoins.LeapfrogJoin.Up | MillenniumDB/src/execution/binding_id_iter/leapfrog_join.cc:139-145 | Leaving an exhausted level leaves everything below the next value of the level above produced. |
| LeapfrogJoins.LeapfrogJoin.NextRow | MillenniumDB/src/execution/binding_id_iter/leapfrog_join.cc:94-104 | The odometer produces the next combination of enumerated records for the current binding, or reports that every combination was produced once. |
| LeapfrogJoins.LeapfrogJoin.MoveLast | MillenniumDB/src/execution/binding_id_iter/leapfrog_join.cc:77-118 | Advancing the last iterator of a level restores the cyclic order, or shows the level to be exhausted. |
| NaturalJoin.ProductHas | MillenniumDB/src/execution/binding_id_iter/leapfrog_join.cc:94-104 | A row is in the product of the iterators' groups exactly when each of its parts is in the group of its iterator. |
| NaturalJoin.JoinMeans | MillenniumDB/src/execution/binding_id_iter/leapfrog_join.cc:21-61 | Membership in the natural join, place by place of every record. |
| NaturalJoin.StepShowsNext | MillenniumDB/src/execution/binding_id_iter/leapfrog_join.cc:94-104 | Moving one wheel and restarting the ones before it shows the next combination that is still to come. |
| LeapfrogSearch.FoundBinds | MillenniumDB/src/execution/binding_id_iter/leapfrog_join.cc:178-215 | The value found by the intersection is the next one that can be extended to a row; nothing is skipped. |
| LeapfrogSearch.LevelDone | MillenniumDB/src/execution/binding_id_iter/leapfrog_join.cc:139-145 | An exhausted level has produced every row that extends its prefix. |
| LeapfrogSearch.BindingDone | MillenniumDB/src/execution/binding_id_iter/leapfrog_join.cc:94-104 | The product of the groups is exactly the set of rows with the current binding. |
| Paths.NullableIsEmptyWord | MillenniumDB/src/parser/query/paths/path_sequence.h:154-161 | For every path, `nullable` holds exactly when the empty word matches. |
| Paths.DenullKeepsStar | MillenniumDB/src/parser/query/paths/denull_path.cc:85-126 | For every path, the star of the rewritten operand has the same words as the star of the operand. |
| Paths.DenullIsNotNullable | MillenniumDB/src/parser/query/paths/denull_path.cc:85-126 | The rewritten path is not nullable exactly when no optional, star or part that the rewriting opens leaves a nullable one (`Opens`). |
| Paths.OptionalOfOptional | MillenniumDB/src/parser/query/paths/denull_path.cc:119-121 | A path whose rewriting stays nullable. |
| Paths.InvertReverses | MillenniumDB/src/parser/query/paths/path_sequence.h:30-36 | For every path, a word matches it exactly when the reversed word with inverted steps matches the inverted path, although inversion rebuilds stars through `denull`. |
| PathRelations.NamedGraph.InvertRelates | MillenniumDB/src/parser/query/paths/path_atom.h:42-48 | On every graph and for every path, the inverted path relates y to x exactly when the path relates x to y along stored edges. |
| Paths.InvertTwice | MillenniumDB/src/parser/query/paths/path_kleene_star.h:153-155 | Inverting twice gives back the same path if and only if no star in it has a nullable operand. |
| Paths.InvertNullable | MillenniumDB/src/parser/query/paths/path_alternatives.h:49-56 | Inversion keeps nullability. |
| PathLanguages.AutomatonReads | MillenniumDB/src/parser/query/paths/path_kleene_star.h:44-63 | For every path without checks, the base automaton accepts exactly the words of `Reads(p)`, a path computed from p: stars and optionals take in what their operand reads on ways back to its start, and a star over two states repeats one label. |
| PathLanguages.ExactIffReadsTheSame | MillenniumDB/src/parser/query/paths/path_kleene_star.h:44-63 | For every path without checks, the automaton accepts exactly the words of the path if and only if `Reads(p)` and p have the same words. |
| PathLanguages.ExactIffNothingElse | MillenniumDB/src/parser/query/paths/path_kleene_star.h:44-63 | When stars have no nullable operands only one inclusion is left in that condition: no word is ever lost. |
| PathLanguages.OptionalIsExactIff | MillenniumDB/src/parser/query/paths/path_optional.h:41-46 | Over an exact operand the optional is exact if and only if the operand's loops on its start are words of the optional. |
| PathLanguages.StarIsExactIff | MillenniumDB/src/parser/query/paths/path_kleene_star.h:54-62 | Over an exact operand the ordinary star is exact if and only if the operand's loops on its start are words of the star. |
| PathLanguages.AcceptsWord | MillenniumDB/src/parser/query/paths/path_kleene_star.h:44-63 | When no star has a nullable operand the automaton accepts every word of the path, through the two-state shortcut too. |
| PathLanguages.BaseNfaIsExact | MillenniumDB/src/parser/query/paths/path_kleene_star.h:44-63 | A condition on the syntax under which the automaton is exact: no operand of a star begins with a star, and an operand of an optional that does is itself one. |
| PathLanguages.BuiltStarsArePlain | MillenniumDB/src/parser/query/paths/path_kleene_star.h:12-13 | When no optional has a nullable operand, the stars that the constructor builds have no nullable operand. |
| PathLanguages.LeadingStarAcceptsMore | MillenniumDB/src/parser/query/paths/path_optional.h:41-46 | (a*/b)? : its automaton accepts a, which is no word of it. |
| ShortStars.ShortStarIsEnoughIff | MillenniumDB/src/parser/query/paths/path_kleene_star.h:47-53 | For every operand whose automaton has two states, the short star accepts every word the ordinary star would if and only if each transition is an epsilon or carries the label of the first transition listed at the start. |
| ShortStars.ShortStarLosesNothingIff | MillenniumDB/src/parser/query/paths/path_kleene_star.h:47-53 | The same for words of the path, over an exact operand. |
| ShortStars.ShortStarIsExactIff | MillenniumDB/src/parser/query/paths/path_kleene_star.h:47-53 | Over an exact operand the short star is exact if and only if in addition the one letter alone is a row of words of the operand. |
| ShortStars.BaseIsTrim | MillenniumDB/src/parser/query/paths/path_sequence.h:66-80 | Every state of a base automaton is on the way from the start to an end. |
| ShortStars.ShortStarLosesWords | MillenniumDB/src/parser/query/paths/path_kleene_star.h:47-53 | A star over an optional one-way choice of a* : its short automaton accepts only the empty word. |
| ShortStars.ShortStarLosesSecondLetter | MillenniumDB/src/parser/query/paths/path_kleene_star.h:47-53 | A star over (a*/b*)? : its short automaton rejects b. |
| PathAutomata.LinkedAcceptsOnly | MillenniumDB/src/parser/query/paths/path_sequence.h:66-80 | Linking two automata accepts only words of the first followed by words of the second. |
| PathAutomata.LoopedIs | MillenniumDB/src/parser/query/paths/path_kleene_star.h:54-62 | Looping an automaton accepts exactly the rows of words that it accepts or reads on ways back to its start. |
| RpqNfas.GetRpqBaseAutomaton | MillenniumDB/src/parser/query/paths/path_atom.h:62-71 | The automaton built step by step in place has the value `BaseNfa(p)`; a path with a check is an error, and no other path is. |
| RpqNfas.RpqNfa.AddTransition | MillenniumDB/src/parser/query/paths/automaton/rpq_automaton.cc:76-107 | Adds a transition unless it is listed, with the states it needs. |
| RpqNfas.RpqNfa.RenameAndMerge | MillenniumDB/src/parser/query/paths/automaton/rpq_automaton.cc:48-73 | Adds the transitions of the other automaton with its states renamed to follow the own ones, and renames the start and ends of the other. |
| BufferManagers.BufferManager.GetPage | MillenniumDB/src/storage/buffer_manager.cc:123-149 | The page returned is the one asked for, shows what the plain store holds under the id and is pinned once more. A page that was not in memory holds the bytes that the file has at its place, and 4096 zeros at or past the end of the file. The store and every page that somebody holds are unchanged; map and frames stay one to one. |
| BufferManagers.BufferManager.GetBufferAvailable | MillenniumDB/src/storage/buffer_manager.cc:88-102 | Terminates whenever some frame is unpinned, and stops exactly at the frame that second chances single out (`Swept`). |
| BufferManagers.BufferManager.Flush | MillenniumDB/src/storage/buffer_manager.cc:61-70 | Afterwards the disk holds the whole store, every page that was dirty at its own place of its file, no page is dirty and nothing else has changed. |
| BufferManagers.BufferManager.Write | MillenniumDB/src/storage/page.h:24-24 | A write by a holder, marked dirty, changes the store at that page only. |
| BufferManagers.BufferManager.RemoveTmp | MillenniumDB/src/storage/buffer_manager.cc:195-205 | All pages of a temporary file leave the pool unwritten; everything else is kept. |
| BufferManagers.BufferManager.AppendPage | MillenniumDB/src/storage/buffer_manager.cc:83-85 | The page past the end of the file as the disk has it: 4096 zeros and pinned once if it is not in memory, otherwise the page that is there already. |
| BufferManagers.BufferManager.AppendTwice | MillenniumDB/src/storage/buffer_manager.cc:83-85 | Two appends in a row give one and the same page if and only if the page past the end is in memory already or the first append does not write out a dirty page past the end of the file. |
| BufferManagers.AppendTwiceToNewFile | MillenniumDB/src/storage/buffer_manager.cc:83-85 | On a new file two appends in a row always give the same page. |
| PagePools.ClaimingKeeps | MillenniumDB/src/storage/buffer_manager.cc:129-145 | Evicting a page, writing it back when dirty and reading another one leaves the store what it was and shows the new page. |
| PagePools.SweptIsDetermined | MillenniumDB/src/storage/buffer_manager.cc:88-102 | The sweep has one outcome: the unpinned frame with the least wait, and every other unpinned frame nearer by that wait. |
| PagePools.AppendedPageIsNotCounted | MillenniumDB/src/storage/file_manager.cc:54-78 | Reading a page past the end lengthens the file up to that page and not beyond, so that the page count changes only through the page evicted for it. |
| PinProtocol.RunIsSafe | MillenniumDB/src/storage/buffer_manager.cc:88-149 | In every run of any interleaving: a frame's pins are its number of holders, map and frames agree one to one, clean frames show the disk, and the asserts of `reassign` and `unpin` hold. |
| PinProtocol.HeldPageStays | MillenniumDB/src/storage/page.h:72-81 | A page held from the start to the end of a run stays in its frame. |
| PinProtocol.HolderSeesLastWritten | MillenniumDB/src/storage/buffer_manager.cc:123-149 | In every run, whoever holds a page sees what was last written to it, or what the disk held at the start. |
| PinProtocol.AskedIsHandedOut | MillenniumDB/src/storage/buffer_manager.cc:123-149 | In every run, after a page has been asked for, the step that frees the mutex registers one new holder, on a frame that holds that page with what the store has of it, whatever the other holders did in between. |
| PinProtocol.PinningTwoSteps | MillenniumDB/src/storage/page.h:52-55 | Counting a pin and then a use does to the frame what `pin` does, and the new holder is on the frame of the old one. |
| PinProtocol.SweepIsBounded | MillenniumDB/src/storage/buffer_manager.cc:88-102 | If a frame is unpinned when the sweep is under way, the steps the sweep still takes are bounded in advance, whatever the holders of other frames do meanwhile. |
| PinProtocol.SweepCanMove | MillenniumDB/src/storage/buffer_manager.cc:88-102 | A sweep that has not chosen a frame has a step to take. |
| PinProtocol.PinnedPoolIsSweptForEver | MillenniumDB/src/storage/buffer_manager.cc:88-102 | When every frame is pinned and nobody unpins, the sweep never chooses a frame. |
| OrderBys.Ordered | MillenniumDB/src/execution/binding_iter/order_by.cc:42-83 | For every number of tuples, and so of pages, and every weak order of values: what comes out is sorted and has each tuple as often as it went in. Of any two tuples that come out, when all have the columns of the keys, the first key whose columns differ is in the direction it asks for (`InColumns`). |
| OrderBys.OrderBy.Begin | MillenniumDB/src/execution/binding_iter/order_by.cc:42-68 | Afterwards the output file holds the child's tuples in order, on pages that are all full but perhaps the last. |
| OrderBys.OrderBy.MergeSort | MillenniumDB/src/execution/binding_iter/order_by.cc:107-156 | The passes terminate and leave one sorted run with the same tuples on pages of the same sizes, in whichever file was written last. |
| OrderBys.MergePass | MillenniumDB/src/execution/binding_iter/order_by.cc:128-152 | One pass doubles the width of the sorted runs, through the clamped last pass, short trailing runs that are merged from two halves of themselves, and single trailing pages that are copied. |
| OrderBys.OrderBy.FillPages | MillenniumDB/src/execution/binding_iter/order_by.cc:50-65 | The child's tuples fill packed pages, each sorted. |
| OrderBys.OrderBy.Next | MillenniumDB/src/execution/binding_iter/order_by.cc:71-83 | The first of the tuples still to come, across page borders; after the last one false, again and again. |
| RunMerging.Merge | MillenniumDB/src/storage/tuple_collection/tuple_collection.cc:158-222 | Two neighbouring runs are merged into the same pages of the other file: the tuples are `Merged` of the two runs, page sizes are kept, other pages are untouched. |
| TupleCollections.TupleCollection.Sort | MillenniumDB/src/storage/tuple_collection/tuple_collection.cc:81-94 | The page is sorted in place and holds the same tuples as often. |
| TupleCollections.TupleCollection.Partition | MillenniumDB/src/storage/tuple_collection/tuple_collection.cc:132-145 | For whichever pivot is drawn: the range is permuted, what precedes the pivot is before it and the rest after it. |
| TupleOrders.OrderIsLawful | MillenniumDB/src/storage/tuple_collection/tuple_collection.cc:97-120 | Over any total preorder on values, comparing by keys, each ascending or descending, is a total preorder on tuples. |
| TupleOrders.PrecedesMeans | MillenniumDB/src/storage/tuple_collection/tuple_collection.cc:97-120 | The first key on which two tuples differ decides. |
| TupleOrders.ColumnsDecide | MillenniumDB/src/storage/tuple_collection/tuple_collection.cc:110-117 | A tuple may precede another if and only if the first key whose column values differ puts it first; columns are read from the tuples themselves. |
| TupleOrders.MergedIsSorted | MillenniumDB/src/storage/tuple_collection/tuple_collection.cc:158-222 | Merging two sorted runs gives a sorted run. |
| SelingerTables.SelingerOptimizer.GetPlan | MillenniumDB/src/query_optimizer/quad_model/join_order/selinger_optimizer.cc:83-124 | The plan joins every base plan once, is kept at every subset, and is cheapest among all left-deep orders when costs satisfy the principle of optimality. |
| SelingerTables.KeptIsCheapest | MillenniumDB/src/query_optimizer/quad_model/join_order/selinger_optimizer.cc:83-124 | Under the principle of optimality a plan kept by the table is cheapest for its subset. |
| SelingerTables.SelingerOptimizer.FillRow | MillenniumDB/src/query_optimizer/quad_model/join_order/selinger_optimizer.cc:84-122 | Every subset of one size gets the plan kept for it, in its own cell of the row. |
| SelingerTables.IsForMeans | MillenniumDB/src/query_optimizer/quad_model/join_order/selinger_optimizer.cc:107-117 | The recursive account of what a plan joins agrees with listing its relations: no repetition, and just those of the subset. |
| SelingerTables.NestedLoopIsMonotone | MillenniumDB/src/query_optimizer/quad_model/plan/join/index_nested_loop_plan.cc:8-21 | The nested loop cost satisfies the principle of optimality when estimated sizes do not depend on the join order. |
| SelingerTables.CostIsTotalWork | MillenniumDB/src/query_optimizer/quad_model/plan/join/index_nested_loop_plan.cc:8-21 | The cost of a plan is the work of its first relation and, for each later one, its work with the earlier ones bound times the larger of 1 and the product of the outputs before it (`TotalWork`, over the list of relations). |
| SelingerTables.BestOrder | MillenniumDB/src/query_optimizer/quad_model/join_order/selinger_optimizer.cc:83-124 | The order read off the plan has every relation once, and when sizes do not depend on the order no order of the relations takes less `TotalWork`. |
| SelingerTables.OptimizerMissesBest | MillenniumDB/src/query_optimizer/quad_model/plan/join/index_nested_loop_plan.cc:8-21 | Estimates for three relations, with sizes that depend on the order, for which every plan the optimizer can return costs 25 while another left-deep plan costs 18. |
| Combinations.NCr | MillenniumDB/src/query_optimizer/quad_model/join_order/selinger_optimizer.cc:127-139 | Multiplying and dividing in turn computes the binomial coefficient, every division exact. |
| Combinations.CombinationEnumerator.GetNextCombination | MillenniumDB/src/query_optimizer/quad_model/join_order/selinger_optimizer.cc:34-52 | The c-th call produces the subset of the wanted size whose index is c. |
| Combinations.IndexIsOneToOne | MillenniumDB/src/query_optimizer/quad_model/join_order/selinger_optimizer.cc:142-153 | `get_index` is below n choose r and differs for different subsets of one size. |
| Combinations.PlusCounts | MillenniumDB/src/query_optimizer/quad_model/join_order/selinger_optimizer.cc:34-46 | One tick of the counter leaves behind one more subset of the wanted size exactly when it stood at one. |

## Left out

- DiskVectors.MergeSort: begins after the columns have been reordered and each run sorted in memory; statistics are left out, and that a block of each run fits in the buffer, which the source asserts. The priority queue is a map from runs to their first tuples, of which a least one is taken.
- BulkImports.BptWriter.BulkInsert: directory pages are sequences of the keys and children in use; the leaf writer and the directory writer are one object.
- BfsEnums.BfsEnum.Reset: does not read the given end of a check again, which is fixed for the object.
- BPlusTrees.BPlusTree.Insert: assumes that an appended page is new and zeroed, as the header promises; the constructor begins with such pages for the root and the first leaf.
- BPlusTrees.BPlusTree.InsertInLeaf: compares the record with the one at the index found only when there is one there; the source compares with the slot behind the last record when the new record is the largest.
- Pages of the B+tree are objects with an array slot for each record, key and child; the byte layout, the page numbers of two files and the pinning of index pages are not modelled.
- BPlusTrees.BPlusTree.CheckDir: one direction, which is what the search needs; outside its keys a directory may still cover the record.
- LeapfrogIters.LeapfrogBptIter.Next: identifiers are below the largest 64-bit value, so that adding one does not wrap; the same holds for the keys of the join.
- Over an empty tree the current tuple of a leapfrog iterator is uninitialised memory; the model gives it an arbitrary value that nothing depends on.
- LeapfrogJoins.LeapfrogJoin.Begin: variables are given by their position in the order of the plan and iterators by their index; initial ranges are constant terms; `Planned` is what the planner guarantees of them.
- `LeapfrogEdgeTableIter` and joins over edge tables.
- BfsEnums.BfsEnum.Drain: the parent binding and the store of materialised paths are left out, a produced path is the run that the cursors spell out; the index iterator is a value with the neighbours it returns.
- ProductGraph.NeighborsAreStored: the index provider is a function of the stored edges, in the order of the B+trees; the hash trie indexes give the same neighbours, in another order, and are left out.
- The list of predecessors of a state is a sequence instead of linked nodes with begin and end pointers; the cursor is a position in it.
- Searches over data paths (`RDPQAutomaton`), and the transformation of the automaton of a path into a deterministic one: the search takes any deterministic automaton.
- RpqNfas.RpqNfa.AddTransition: the incoming transitions (`inner_transitions`), which only that transformation reads, are left out.
- BufferManagers.BufferManager.GetPage: needs the page in memory or an unpinned frame; otherwise the source searches for ever, as `PinnedPoolIsSweptForEver` says.
- The private pools of temporary pages are the same class as the shared one, one object for each thread; which thread has which pool is left out. A file has a whole number of pages, and system calls do not fail.
- PinProtocol.RunIsSafe: flushing at shutdown, which no thread interrupts, is in the class only; page numbers and pin counts do not overflow.
- OrderBys.OrderBy.Begin: called once; the child is the list of tuples it yields; a page holds a fixed positive number of tuples. Timeouts are left out.
- TupleOrders.OrderIsLawful: how two graph objects compare is a parameter; all order variables are saved variables, given by their position.
- OrderBys: pages are read from and written back to the files as values; that the buffer manager gives back what was written is proved there.
- SelingerTables.SelingerOptimizer.GetPlan: costs are real numbers, and the estimates of base plans a parameter.
- Combinations.NCr: numbers are unbounded, the source works with 64 bits and says so.
- The copies of the path classes for SPARQL, the expression evaluators, the nested loop and hash joins, the server, catalogs, statistics, timeouts and printing.
