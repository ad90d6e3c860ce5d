# WeaveDB core: the ordered index engine and its neighbours

WeaveDB keeps documents in directories and answers queries from secondary indexes. This
project models that engine in Dafny and proves that each of its fast structures computes
the simple thing it stands for.

* **The B+ tree** (`Bpt.dfy`, class `BPT`). A tree keeps document ids in leaf nodes that are
  linked to their neighbours, under inner nodes with separators and parent pointers. The
  invariant `Valid` says: one level per height, every node at its level exactly once,
  separators equal to the smallest sort key of the subtree to their right, parent and
  neighbour pointers matching the levels, sizes within bounds off the root, and the leaves
  together listing documents in strictly increasing order. It is kept by every insertion
  and deletion, through splits, borrows, merges, root growth and root collapse, and what a
  tree lists (`Entries`) changes by exactly the one document. The order-free part of the
  argument (`Layout`, `Regroup`, `Steps`, `Siblings`, `Repair`) is one lemma about
  rewriting a few siblings under one parent, used for splits, borrows and merges alike;
  deletion has an extra state in which a separator is stale on the way up and `Repair`
  says where exactly.
* **Ranges** (`Ranges`, `Cursors`, `Merge`). A range query is the documents within its
  bounds, in order or reversed, up to the limit (`Answer`). The scans, with their two
  placements of missing fields, compute it; so do cursors, one document at a time; and a
  merge of cursors yields the first documents of their sorted union, also when documents
  are placed by all sort fields but a first one on which they agree.
* **Indexes** (`Indexer`). One tree per field or composite index, kept in step with the
  documents through creation, update and deletion.
* **Queries** (`Parser`, `Planner`, `AnswerOrder`, `Queries`, `Answers`). A query is taken
  apart, an index and bounds are chosen, and the answer, from one range, two ranges or two
  merged cursors, is the documents that satisfy the query, in the order of its sorting
  clauses. `Answers` says what that means for a caller, and when a turned condition changes
  the answer. `Counterexamples` runs the model on small directories where the code does not
  do what one would expect.
* **The store** (`WeaveKv`). Layers of uncommitted, committed and stored values, with a
  queue of commits drained in transactions and a numbered log, under any interleaving and
  crashes.
* **Codes and counters** (`Base58`, `TextCode`, `DocIds`, `Keccak`, `Bundler`). Content
  ids, base64url, generated document ids, the sponge, and the slots of a process.

`Lists`, `Arithmetic` and `SortOrder` hold what the others share: sequences, powers, and
comparing documents by a list of ascending and descending fields.

## Reading the model

A tree's records are a `map` from node number to node, and the shape they form is a ghost
field: the list of node numbers level by level, the smallest key below each node, and the
height each node was made for. Nodes that a merge leaves behind in the store are no part of
any level, and the invariant speaks of the levels only.

What the model takes for granted:

* The key/value store is a true map, and documents are handed to tree operations as a map,
  since a tree never writes them when its caller stores them.
* The order of a tree is at least 3 (the indexer uses 100), and its last sort field is the
  document id. Where the code lists the id field twice, once is the same order.
* Documents are flat and hold scalars; scalars of one kind compare as usual, kinds are
  ordered among each other so that comparison is total. Their field names contain no separator
  and are not `__id__`.
* An index name is the list of its sort fields, not its spelling with slashes.
* A commit changes none of the keys the log itself uses, and a transaction of the store is
  atomic. Draining is a state machine: a transaction, what follows it, and the return of
  the outer call are separate steps that may interleave with everything else.
* The sponge works over any permutation of 200 bytes.
* The buffer size of a base 58 conversion is a parameter; the code computes it from
  logarithms, and `NoCarryLeft` and `MultihashFits` say when it is large enough.

Where the code does something its description does not say, the model follows the code:

* A limit of zero or less given to `range` never stops a scan, so it does not limit; one
  above 1000 counts as 1000 (`Limited`, `LimitOf`).
* The sort order of equality fields is always ascending: the lookup that would take a
  direction over from the query indexes positions, not fields (`core/src/parser.js:230`).
* A condition on a descending field of a composite index is answered as its opposite:
  bounds are taken in index order. `Queries.Get` states what is answered for every query;
  `Answers.TurnedAgrees` states exactly when that is what was asked, and
  `Counterexamples.WrongAnswer` is a run that returns a wrong list.
* A cursor whose start bound admits nothing of an index that is not empty is left without a
  position. With equalities, a `!=` and no sort order this happens exactly if the index
  lists documents but none past the excluded value; `Queries.StartsPast` states
  it and `Counterexamples.LostCursor` is such a run.
* A document stored from scratch enters a registered index over one field besides the id
  only if that index is the plain ascending one; `Indexer.Indexer.Put` states this as an
  if-and-only-if, and `Counterexamples.LeftBehind` is a directory where it happens. An
  update does follow such an index.
* A document inserted a second time leaves a list no index can have, wherever it is put
  (`LeafOrder.ListedTwice`); the indexer deletes it first.
* A key whose last change deletes it still reads as the stored value until the queue is
  drained; `WeaveKv.Kv.QueuedView` states exactly when.
* Keys starting with two underscores are kept out of the public log unless they contain a
  line end, because of the expression used (`core/src/weavekv.js:42`).

## Model

| member | source | states |
|---|---|---|
| SortOrder.TextOrder | core/src/bpt.js:104-113 | A text is less than another exactly if there is a place up to which they agree and where it ends or has the smaller character |
| SortOrder.ScalarOrder | core/src/bpt.js:104-113 | Numbers compare as numbers, texts by their first difference, false before true; the kinds are ordered among each other |
| SortOrder.CompDecides | core/src/bpt.js:115-140 | One key comes before another exactly if it has the smaller value, or the greater one if the field descends, in the first field in which they differ; a missing value is first or last |
| SortOrder.CompIsTotalOrder | core/src/bpt.js:115-140 | Comparing by mixed ascending and descending fields is antisymmetric, zero only on equal keys, and transitive, wherever missing fields go |
| SortOrder.BoundComp | core/src/bpt.js:115-140 | A bound with missing fields compares with a full key by its given fields; if those agree, a missing field puts it below everything or, with nulls last, above everything, whatever the field's direction |
| SortOrder.FullIgnoresNullsFrom | core/src/bpt.js:115-140 | Between keys without missing fields the placement of nulls makes no difference |
| LeafOrder.CompMonotone | core/src/bpt.js:115-140 | Along an index a bound's comparison changes sign at most once, and is zero at most once |
| LeafOrder.KeysDiffer | core/src/bpt.js:986-996 | With the id as last field, no two documents have the same sort key |
| Regroup.RewriteKeepsTree | core/src/bpt.js:673-773 | Replacing some siblings under one parent by others with the same documents, keys and links keeps the whole tree and its documents |
| Steps.SplitStep | core/src/bpt.js:947-984 | Splitting a node under its parent yields a tree with the same documents |
| Steps.Grow | core/src/bpt.js:968-976 | A new root over the old one yields a tree with the same documents |
| Steps.Shrink | core/src/bpt.js:673-773 | Making the only child of the root the root yields a tree with the same documents |
| Siblings.BorrowStep | core/src/bpt.js:673-773 | Moving an entry between neighbours with a new separator keeps the tree and its documents |
| Siblings.MergeStep | core/src/bpt.js:673-773 | Pooling two neighbours into either of them keeps the tree and its documents |
| Repair.RepairSeparator | core/src/bpt.js:775-800 | With one stale separator, rewriting it at the first ancestor that is not a first child gives a tree again |
| Repair.RepairUp | core/src/bpt.js:775-800 | Below a first child the stale separator is further up, and nowhere else |
| Repair.RepairTop | core/src/bpt.js:775-800 | At the top no separator is stale any more |
| Descent.BetweenBelow | core/src/bpt.js:161-194 | The child chosen by separators is the one around the bound |
| LeafOrder.FoundInLeaf | core/src/bpt.js:605-611 | A document is in the tree exactly if it is in the leaf its key leads to |
| LeafOrder.PlaceInContents | core/src/bpt.js:890-902 | The place in the leaf is the place among all documents of the index |
| LeafOrder.LeafInsert | core/src/bpt.js:890-902 | A leaf with one document more, in its place, leaves a tree sane up to the size of that leaf |
| Upkeep.LeafRemove | core/src/bpt.js:879-888 | A leaf with one document less leaves a tree that is at most thin at that leaf |
| Shrinking.HasSibling | core/src/bpt.js:802-877 | A thin node other than the root has a neighbour under the same parent |
| Shrinking.BorrowEffect | core/src/bpt.js:802-877 | After borrowing all sizes are in bounds and nothing else changed |
| Shrinking.MergeEffect | core/src/bpt.js:802-877 | After merging only the parent may be thin, and the node merged away is on no level |
| Shrinking.ShrinkEffect | core/src/bpt.js:673-773 | After a root collapse all sizes are in bounds |
| Shrinking.LeftOver | core/src/bpt.js:870 | Writing a node that is on no level changes nothing about the tree |
| TreeHeight.HeightIsLogarithmic | core/src/bpt.js:30-37 | A tree with h levels above the leaves, h at least 1, holds at least 2 * lo * (lo + 1)^(h - 1) documents, lo being the least size of a node |
| Bpt.BPT.constructor | core/src/bpt.js:30-37 | A new tree is valid for any documents and lists none |
| Bpt.BPT.Search | core/src/bpt.js:161-176 | Finds the leaf around a bound, or the first leaf; none exactly if the tree is empty |
| Bpt.BPT.RSearch | core/src/bpt.js:178-194 | The same from the right, with the last leaf |
| Bpt.BPT.SplitNode | core/src/bpt.js:934-966 | The two halves share the entries, are linked, have sizes in bounds, and moved children know their parent |
| Bpt.BPT.ParentFor | core/src/bpt.js:968-984 | A new root over both halves, or the parent with the new half right after the old one |
| Bpt.BPT.SplitOnce | core/src/bpt.js:998-1013 | One split keeps the documents and leaves at most the parent oversized |
| Bpt.BPT.Split | core/src/bpt.js:998-1013 | Cascading splits end in a sane tree with the same documents |
| Bpt.BPT.Init | core/src/bpt.js:148-158 | The first document makes a valid one-leaf tree |
| Bpt.BPT.PutIn | core/src/bpt.js:890-902 | The new document goes where all before it precede it and all after it follow it |
| Bpt.BPT.Insert | core/src/bpt.js:904-917 | Keeps the whole invariant; the index lists what it did with the document put in place; without a value nothing changes |
| LeafOrder.ListedTwice | core/src/bpt.js:890-902 | A document that is listed already, put in again at any place, leaves a list no valid index has |
| Bpt.BPT.UpdateIndexes | core/src/bpt.js:775-800 | Climbs to the one stale separator and repairs it, changing nothing but separators; for a node merged away, changes nothing |
| Bpt.BPT.InnerFromPrev | core/src/bpt.js:684-709 | An inner node borrows from its left neighbour: sizes in bounds, same documents, same leaves |
| Bpt.BPT.InnerFromNext | core/src/bpt.js:684-728 | The same from the right neighbour |
| Bpt.BPT.MergeInnerPrev | core/src/bpt.js:673-773 | Merging into the left neighbour, with all that follows above, restores sizes and keeps documents and leaves |
| Bpt.BPT.MergeInnerNext | core/src/bpt.js:673-773 | The same for the right neighbour |
| Bpt.BPT.DropRoot | core/src/bpt.js:673-773 | An empty inner root is replaced by its only child |
| Bpt.BPT.RmIndex | core/src/bpt.js:673-773 | Taking a separator and a child out of an inner node, with all that follows above, keeps the tree sane and its documents |
| Bpt.BPT.RefillLeaf | core/src/bpt.js:802-877 | A thin leaf is refilled or merged away; at most the separator of its first document is left to repair |
| Bpt.BPT.Balance | core/src/bpt.js:802-877 | After a removal from a leaf, makes the tree sane again with the same documents |
| Bpt.BPT.SearchNode | core/src/bpt.js:634-671 | Finds a document's position in a leaf exactly if it is there |
| Bpt.BPT.SearchByKey | core/src/bpt.js:605-611 | Finds a document's leaf and position exactly if the index lists it |
| Bpt.BPT.Delete | core/src/bpt.js:879-888 | Keeps the whole invariant; the index lists what it did without the document; one that is not listed changes nothing |
| Bpt.BPT.DocsFrame | core/src/bpt.js:115-140 | Changing documents without changing the sort keys of listed ones keeps an index valid |
| Bpt.BPT.BinarySearch | core/src/bpt.js:613-632 | Finds the position that agrees with a bound, or the neighbours it falls between |
| Bpt.BPT.FindIndex | core/src/bpt.js:347-374 | Going back over documents that agree with the bound ends where it started, since keys are distinct |
| Bpt.BPT.FindNext | core/src/bpt.js:376-430 | Finds the next document, in this leaf or a later one, exactly if there is one |
| Bpt.BPT.FindFirstLtIndex | core/src/bpt.js:432-458 | Finds the document before a position, in this leaf or an earlier one |
| Ranges.AgainstComp | core/src/bpt.js:115-140 | The two placements of nulls together tell on which side of a partial bound a document is |
| Ranges.StopsAtEnd | core/src/bpt.js:200-252 | A scan stops exactly at a document the end bound excludes, in both directions |
| Ranges.StartsFrom | core/src/bpt.js:460-603 | Where the comparison with the start bound turns, the documents the start admits begin or end |
| Ranges.ScanAnswers | core/src/bpt.js:236-252 | Scanning from the right place gives the documents within the bounds, up to the limit |
| Ranges.AnswerSize | core/src/bpt.js:236-252 | An answer is the beginning of what is within the bounds: as much as the limit says, a thousand without a limit or with a greater one, all of it with a limit below one |
| Bpt.BPT.GetVals | core/src/bpt.js:236-252 | Collects leaf after leaf what a scan over the whole list would |
| Bpt.BPT.GetValsReverse | core/src/bpt.js:200-234 | The same backwards over the left neighbours |
| Bpt.BPT.LocateForward | core/src/bpt.js:460-590 | Finds the first document the start bound admits, exactly if there is one |
| Bpt.BPT.LocateReverse | core/src/bpt.js:460-590 | Finds the last document the start bound admits, exactly if there is one |
| Bpt.BPT.Range | core/src/bpt.js:460-603 | For all mixes of bounds, full or partial, in both directions: the documents within the bounds in order, up to the limit; never more than 1000 unless the limit is below one |
| Cursors.OpenCursor | core/src/bpt.js:460-603 | A forward cursor is left without a position exactly if the index is not empty and its start bound admits no listed document; else it starts at the beginning of its range |
| Cursors.Cursor.Next | core/src/bpt.js:304-345 | The n-th call gives the n-th document of the range, and nothing once all were given |
| Cursors.CursorAscends | core/src/bpt.js:304-345 | What a forward cursor gives is strictly ascending |
| Merge.PlaceOf | core/src/planner.js:66-79 | Scanning from the end finds the place of a document in an ascending list, or that it is there, with any order that agrees with the list's on these documents |
| Merge.TailOrder | core/src/planner.js:51-53 | Among documents with the same first sort field, comparing by the fields after it is comparing by all |
| Merge.Dropped | core/src/planner.js:80-81 | All a cursor has left once it reaches the border comes after the border |
| Merge.Step | core/src/planner.js:60-94 | One round keeps: the result holds exactly what was taken, in order; a cursor left out has nothing more to give within the limit |
| Merge.MergedIsUnion | core/src/planner.js:60-96 | When no cursor is left the first documents are those of the sorted union |
| Merge.Union | core/src/planner.js:60-96 | Such a union exists for any cursors |
| Cursors.PRanges | core/src/planner.js:22-97 | Merging cursors gives the first `limit` documents of their sorted union, without duplicates, and ends, with documents placed by all sort fields or by all but a first one they share |
| Indexer.Indexer.constructor | core/src/indexer.js:28-33 | An empty directory is in step |
| Indexer.HasIsFullKey | core/src/indexer.js:560-617 | A document has the fields of an index exactly if no value of its sort key is missing |
| Indexer.Indexer.WidthIs | core/src/indexer.js:560-617 | Whether an index has a field besides the id, and whether it has more than one |
| Indexer.Indexer.InsertInto | core/src/indexer.js:518-617 | One index gains a document; every other one stays |
| Indexer.Indexer.DeleteFrom | core/src/indexer.js:205-269 | One index loses a document, if it lists it; every other one stays |
| Indexer.Indexer.Mod | core/src/indexer.js:271-318 | The fields that went, came and changed between two documents |
| Indexer.Indexer.Differs | core/src/indexer.js:320-516 | An index none of whose fields went, came or changed sorts both documents alike, so it may be skipped |
| Indexer.Indexer.Rework | core/src/indexer.js:320-516 | After an update every index lists the document exactly if it now has its fields |
| Indexer.Indexer.Update | core/src/indexer.js:320-516 | An update keeps all indexes in step and every complete one complete |
| Indexer.Indexer.Create | core/src/indexer.js:560-617 | A new document enters every index over one field and every composite one over more than one whose fields it has |
| Indexer.Indexer.Del | core/src/indexer.js:205-269 | A deletion takes the document out of every index; complete indexes stay complete |
| Indexer.Indexer.Put | core/src/indexer.js:518-617 | Creation, replacement or update; exactly which registered indexes a new document enters; an update keeps every complete registered index complete |
| Indexer.Indexer.Listing | core/src/indexer.js:63-76 | The listing an index is built from is the first thousand documents, each once |
| Indexer.Indexer.AddIndex | core/src/indexer.js:63-134 | The new index lists exactly those of the first thousand documents that have its fields; in a directory of that size it is complete |
| Indexer.Indexer.RemoveIndex | core/src/indexer.js:136-203 | The index no longer lists any of the first thousand documents; in a directory of that size it is empty |
| Indexer.SortedUnique | core/src/indexer.js:518-617 | An order and a set of documents determine the list |
| Indexer.ExactListing | core/src/indexer.js:518-617 | A complete index lists exactly the documents with all its fields, each once, in order |
| Indexer.DirectorySize | core/src/indexer.js:71-76 | The index of all documents has as many entries as there are documents |
| Indexer.SameContents | core/src/indexer.js:518-617 | Two directories with the same documents have the same complete indexes, whatever their histories |
| Indexer.Run | core/src/indexer.js:63-617 | Over any run of writes, deletions and registrations: the documents are what the run says; every index over one field, every composite one over more that was complete, and every such one registered on the way with at most a thousand documents is complete at the end |
| Indexer.EarlyOrLate | core/src/indexer.js:63-134 | An index added after the writes lists the same as one added before them |
| Indexer.RemoveAndAdd | core/src/indexer.js:136-203 | Removing an index and adding it again reproduces it |
| Parser.LegalStep | core/src/parser.js:288-525 | Clauses make a query exactly if each fits after those before it |
| Parser.Parse | core/src/parser.js:288-525 | Succeeds exactly on legal clauses: one limit from 1 to 1000, equalities first and on different fields, one != or at most one bound from each side on one field; yields what they ask |
| Parser.SortsListed | core/src/parser.js:288-525 | Every sorting clause is an entry of the sort order with its field and direction, in the order written |
| Parser.SortsFrom | core/src/parser.js:288-525 | The sort order has no other entries |
| Parser.LimitIs | core/src/parser.js:288-525 | The limit is the one given, and 1000 if none is |
| Parser.Overlay | core/src/parser.js:262-272 | Two sort orders agree exactly if fields match and no direction contradicts; open directions are taken over |
| Parser.CheckSort | core/src/parser.js:217-278 | Which queries have an index, and which one it is |
| Parser.RestIs | core/src/parser.js:228-233 | What is cut off the sort order are equality fields at its head; all the rest is kept |
| Parser.IndexIs | core/src/parser.js:217-278 | The index has the equality fields, ascending, and then every other field of the sort order with its direction, or the field of the conditions if there is none |
| Parser.SortableIs | core/src/parser.js:217-278 | There is an index exactly if no other field precedes an equality field in the sort order, the first other field is that of the conditions, and a != that is added to the sort order is on no equality field |
| Parser.CheckStartEnd | core/src/parser.js:132-215 | Refuses conditions on an equality field, else yields the bounds and which of them a reversed scan swaps |
| Planner.TwoInside | core/src/parser.js:46-66 | For != a listed document satisfies the query exactly if it lies in one of the two ranges; the first holds only documents before the excluded value, the second only documents after it |
| Planner.AgainstEqualities | core/src/parser.js:180-187 | A bound on the equality fields tells only on which side a document first differs |
| Planner.AgainstOneMore | core/src/parser.js:188-211 | With a value for one more field, that field decides among documents with the equal values |
| Planner.BetweenEdges | core/src/parser.js:180-211 | Between two such bounds lie exactly the documents with the equal values whose next field is between the edges |
| Planner.OneMeets | core/src/parser.js:119-130 | What one range selects, in terms of the order of the index |
| Planner.OneSelects | core/src/parser.js:119-130 | With an ascending field one range selects exactly what satisfies the query |
| Planner.TwoSelect | core/src/parser.js:46-66 | The two ranges of != select exactly what satisfies the query, one before and one after the excluded value |
| Planner.ModOpt | core/src/planner.js:159-188 | In reverse, bounds made by conditions change places and keep their inclusiveness |
| Planner.SameInside | core/src/planner.js:159-188 | Forward or reversed with swapped bounds, the same documents are inside |
| Planner.SelectTwo | core/src/planner.js:99-140 | Two selections one after the other are the selection of either, if the first lies before the second |
| Planner.IsReady | core/src/parser.js:217-278 | The chosen index sorts by the equality fields, then by the field of the conditions |
| Planner.TurnedSelects | core/src/planner.js:272-303 | For every query, whatever the directions, a document lies between the bounds exactly if it satisfies the query that is answered |
| Planner.OneAnswer | core/src/planner.js:272-303 | One range, forward or reversed, gives the limited list of documents that satisfy the query, in order |
| Planner.TwoAnswer | core/src/planner.js:99-140 | Two ranges, the second with the rest of the limit, give the same for != |
| Planner.RangeQuery | core/src/planner.js:142-157 | Fails exactly if a composite index is not registered, else gives the range |
| AnswerOrder.RightInOrder | core/src/planner.js:315-372 | Any two documents of an answer are different and in the order of the sort fields and directions of the query, whatever index answered it and in whichever direction |
| Queries.Get | core/src/planner.js:315-372 | For all clauses, among them conditions on the id field: refused exactly if they are illegal, have no index or need one over more than one field that is not registered; without a position for a cursor exactly in the case below; otherwise the first `limit` of the listed documents that satisfy the query answered, different from each other and in the order of the sorting clauses as written. Indexes and documents stay |
| Queries.AskTail | core/src/planner.js:22-97 | Equalities with != and no sort order: two cursors are opened and merged by all sort fields but the first, which gives the first `limit` of the documents that satisfy the query, in order |
| Queries.TailAnswer | core/src/planner.js:51-97 | What the two cursors give has a sorted union, and its first `limit` documents are those of all documents that satisfy the query |
| Queries.TailHead | core/src/planner.js:51-53 | All that the two cursors give agrees on the first sort field, so leaving it out of the comparison changes nothing |
| Queries.StartsPast | core/src/bpt.js:592-601 | Both cursors find a position exactly if the index is empty or some listed document is past the excluded value in the order of the index |
| Answers.ClausesMet | core/src/parser.js:288-525 | A document satisfies the query made of some clauses exactly if it meets each clause as written |
| Answers.AnswerMeets | core/src/planner.js:315-372 | Unless conditions were turned, every document of an answer meets all clauses, and an answer shorter than the limit from a complete index has every document that does and has the fields of the index |
| Answers.NoClauses | core/src/planner.js:272-303 | Without clauses a query is never refused and lists the documents by id, all of them if there are at most a thousand, else a thousand |
| Answers.RightIsAll | core/src/planner.js:315-372 | An answer shorter than the limit from a complete index has every document that satisfies the query answered and has the fields of the index, and no other |
| Answers.RightIsFirst | core/src/planner.js:315-372 | A document that satisfies the query and is left out of an answer from a complete index comes after everything in it, and the answer is as long as its limit |
| Answers.TurnedAgrees | core/src/parser.js:188-211 | With conditions on a descending field of a composite index, the query asked and the one answered have the same documents exactly if the conditions are harmless: no document can satisfy the equalities, or there is a lower and an upper condition and their values are equal, or neither value is included and none a document can have lies between them |
| Answers.Witness | core/src/parser.js:188-211 | For every value a document can have in the field of the conditions there is a document that satisfies the query, asked or answered, exactly if the value meets the conditions |
| Counterexamples.WrongAnswer | core/src/parser.js:188-211 | A directory with one document, listed in a complete index, and clauses it satisfies, for which the answer is empty |
| Counterexamples.LostCursor | core/src/bpt.js:592-601 | A directory with one document and clauses with equalities and != for which a cursor finds no position |
| Counterexamples.LeftBehind | core/src/indexer.js:560-617 | A directory whose registered index over one field besides the id does not list a document that has the field |
| WeaveKv.Kv.constructor | core/src/weavekv.js:3-8 | A restart continues right after the last stored commit |
| WeaveKv.Kv.Put | core/src/weavekv.js:10 | The open changes gain exactly this one; the value is read back at once and other keys read as before |
| WeaveKv.Kv.Del | core/src/weavekv.js:11 | The open changes gain exactly this one; the key reads as it did below the open transaction |
| WeaveKv.Kv.Reset | core/src/weavekv.js:12-15 | Every key reads as it did before the open transaction |
| WeaveKv.Kv.Commit | core/src/weavekv.js:74-82 | The open changes become the last commit, are queued under the next number, and a drain is under way; every key they set reads its new value, every key they delete reads as stored, all others read as before; nothing stored changes yet |
| WeaveKv.Kv.Write | core/src/weavekv.js:37-45 | The store takes exactly the changes, and the public part is exactly the keys that are not private |
| WeaveKv.Kv.Transact | core/src/weavekv.js:27-64 | Everything queued is stored and logged in order; what is visible changes only for deleted keys |
| WeaveKv.Kv.Resume | core/src/weavekv.js:65-70 | If more was queued meanwhile, another drain is on its way |
| WeaveKv.Kv.Crash | core/src/weavekv.js:5-8 | What remains is the fold of a prefix of the commits, without a gap, and numbering goes on after it |
| WeaveKv.Kv.DrainedView | core/src/weavekv.js:9 | With nothing queued and no open transaction every key reads as the fold of all commits |
| WeaveKv.Kv.QueuedView | core/src/weavekv.js:9 | With commits queued, a key reads as the fold exactly unless its last change deletes it and the store still has it |
| WeaveKv.Kv.UndeletedView | core/src/weavekv.js:9 | A key no commit deletes reads as the fold at all times |
| WeaveKv.PrivateIs | core/src/weavekv.js:42 | A key is private exactly if it is two underscores and a text without a line end |
| WeaveKv.PublicFold | core/src/weavekv.js:42-43 | Folding the public parts gives the fold on keys that are not private, and nothing on others |
| WeaveKv.Replay | core/src/weavekv.js:27-64 | Applying the log from its first entry rebuilds exactly the keys that are not private |
| WeaveKv.Run | core/src/weavekv.js:16-82 | After any interleaving of calls, transactions, continuations and crashes, the open changes, the commits and how many of them are stored are what the steps say, and the store and log are the fold of those |
| WeaveKv.OpenIs | core/src/weavekv.js:10-15 | After any steps what is open is, key by key, the last Set or Remove since the last commit, reset or crash |
| WeaveKv.CommitMade | core/src/weavekv.js:74-82 | Every Finish that no later crash undoes makes one commit, with the next number, of exactly what was open then |
| WeaveKv.CommitFrom | core/src/weavekv.js:74-82 | Every commit of a run was made by a Finish |
| WeaveKv.CommitCount | core/src/weavekv.js:74-82 | Without a crash a run makes as many commits as it has Finish steps |
| WeaveKv.DrainsAll | core/src/weavekv.js:16-73 | At any time, the drains under way store all commits once they take their next steps |
| WeaveKv.Durable | core/src/weavekv.js:16-82 | Whatever steps follow, crashes among them, stored commits stay and keep their numbers |
| Base58.AddByte | core/src/utils.js:274-286 | The buffer goes from denoting n to denoting 256 n + byte, zero outside its last digits; a carry is left over only if that number does not fit |
| Base58.Convert | core/src/utils.js:274-286 | Succeeds exactly if the number fits the buffer, which then denotes it |
| Base58.Render | core/src/utils.js:287-301 | Skipped zeros and leaders give the text that reads as the number, with one leader per zero byte |
| Base58.ToCID | core/src/utils.js:260-302 | The conversion fails exactly if the number does not fit; else the text is in the alphabet, its digits denote the number of the bytes, and exactly as many ones lead as zero bytes do |
| Base58.CidReads | core/src/utils.js:260-302 | The content id reads, character by character of the alphabet, as the number of the bytes, with one leading 1 per leading zero byte and no more |
| Base58.CidOnly | core/src/utils.js:260-302 | No other text reads as these bytes |
| Base58.DigitsNormal | core/src/utils.js:260-302 | The digits denote the number, without a leading zero |
| Base58.NotationUnique | core/src/utils.js:260-302 | A number has one notation without leading zeros |
| Base58.NoCarryLeft | core/src/utils.js:266-283 | If 58^size exceeds 256^n, n counting the bytes after the leading zeros, no carry is left over |
| Base58.CidInjective | core/src/utils.js:260-302 | Different byte sequences give different texts |
| Base58.MultihashFits | core/src/utils.js:304-307 | A 34-byte hash starting with 18 fits 47 digits |
| TextCode.BytesToBase64url | core/src/utils.js:139-158 | The loop writes the base64url text of section 5 of RFC 4648, without padding |
| TextCode.Base64urlToBytes | core/src/utils.js:111-137 | The loop reads group by group, padding as needed |
| TextCode.RoundTrip | core/src/utils.js:111-158 | Decoding undoes encoding for every byte sequence |
| TextCode.EncodesBits | core/src/utils.js:139-158 | The text is the bits of the bytes cut into sixes, filled up with zeros, as section 4 of RFC 4648 says |
| DocIds.ToB64 | core/src/utils.js:53-63 | Writes a counter in base 64: the text denotes it, has characters of the alphabet only and no leading A unless it is A |
| DocIds.WrittenInjective | core/src/utils.js:53-63 | Different counters give different ids |
| DocIds.Dir.GenDocID | core/src/utils.js:65-76 | Ends with the first unused id after the last counter, and the counter strictly increases |
| DocIds.Dir.GenMany | core/src/utils.js:65-76 | Over any run with documents coming and going no id is given twice |
| Keccak.XorBits | core/src/keccak.js:295 | Combining two bytes is exclusive or on each of their bits |
| Keccak.AbsorbChunks | core/src/keccak.js:288-299 | Absorbing two parts one after the other is absorbing them joined |
| Keccak.AbsorbIsBlockwise | core/src/keccak.js:288-299 | Absorbing whole blocks byte by byte is xoring and permuting block by block |
| Keccak.XoredBits | core/src/keccak.js:288-299 | A block is xored onto the state bit by bit, filled up with zeros, as section 4 of FIPS 202 says |
| Keccak.FinishIsSponge | core/src/keccak.js:300-309 | Finishing absorbs the padding behind the suffix |
| Keccak.PaddingBits | core/src/keccak.js:300-309 | For the suffix of the original Keccak the padding is a one, zeros and a one, as section 5.1 of FIPS 202 says |
| Keccak.StreamIsSqueeze | core/src/keccak.js:310-324 | Writing out is the squeezing phase of section 4 of FIPS 202 |
| Keccak.Keccak.constructor | core/src/keccak.js:264-282 | A new sponge is all zero |
| Keccak.Keccak.Update | core/src/keccak.js:288-299 | The state absorbs the data, with the position always inside the block; refused once finished or destroyed |
| Keccak.Keccak.Finish | core/src/keccak.js:300-309 | Pads once; a second call changes nothing |
| Keccak.Keccak.WriteInto | core/src/keccak.js:310-324 | Fills the output with the next bytes of the stream, finishing first if needed |
| Keccak.Hash | core/src/keccak.js:366-369 | However the input is cut into chunks, the output is the sponge of the joined, padded input |
| Bundler.Slots.DelDone | hb/src/bundler.js:35-45 | Moves the border over handled slots as far as possible; what counts as handled stays the same |
| Bundler.Slots.AddGap | hb/src/bundler.js:226-233 | The gap before a slot becomes missing, without duplicates |
| Bundler.Slots.Arrive | hb/src/bundler.js:225-246 | Exactly the arriving slot is handled in addition, and what is missing is exactly the unhandled slots up to the highest |
| Bundler.Slots.Replay | hb/src/bundler.js:225-246 | For arrivals in any order, with repeats: handled is what arrived, missing is the rest below the highest, each once |
| Bundler.Slots.ReplayAll | hb/src/bundler.js:225-246 | Once every slot up to the highest arrived, nothing is missing |

## Left out

- Bpt.BPT.Insert: does not cover inserting a document that the index lists already, after which no index is valid (`LeafOrder.ListedTwice`); the indexer deletes it first, and the code does not look.
- Cursors.OpenCursor: reverse cursors and cursors with limits are not modelled.
- Queries.Get: does not say what is returned once a cursor was left without a position (`Lost`), since the code then reads a leaf that is not there.
- Indexer.EarlyOrLate: asks for an index over more than one field besides the id, since one over a single field misses documents stored from scratch (`Counterexamples.LeftBehind`).
- `in` and `not-in`: with three or more ranges the remaining limit is computed from a running total that counts earlier results again.
- Array-valued fields, array indexes and `array-contains`: an update builds their trees with a different order than the rest of the code, and comparison is no order on arrays where one begins another.
- Comparing texts by UTF-16 code units: texts are compared character by character, which is a different order only where characters outside the basic plane occur.
- Dotted fields: deletion looks at top-level keys only, and sort keys do not follow paths.
- Null values: an update takes an old null for an absent field while creation indexes it.
- Adding and removing an index in directories of more than a thousand documents: only what the capped listing gives is stated, not completeness.
- `startAt`, `startAfter`, `endAt` and `endBefore` in queries, document cursors, and both kinds of bounds at once.
- The spelling of index names with slashes, and field names that contain separators.
- The private log entries, hashes and time stamps in the log, and the callbacks of commits.
- The commit of a tree's pending records, its change callback, and reading through the pending records.
- The permutation of the sponge, other output lengths and suffixes with the high bit.
- The computation of buffer sizes in floating point.
- Triggers, authorisation, schemas, signatures and hashing, which rest on libraries that are not part of this model.
- Servers, uploads, network synchronisation, the bundler apart from its slots, and the variants for SQL and vectors.
