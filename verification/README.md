# QuasarDB verification project

A Dafny model of QuasarDB, with proofs. It covers the storage node (a page-based B*+-tree, heap pages, an undo
journal with REVERT, the table that ties them together, and the query executor that uses an index in place of a
scan) and, beside it, the server's SQL front end (lexer, parser, AST codec), its task queue, and its catalog,
registry and router.

`dafny verify dfyconfig.toml` checks the whole project.

## How the model is laid out

Objects that the program updates in place are classes with the program's fields; their methods carry contracts in
terms of specification functions, and the lemmas are about those functions.

| files | what they hold |
|---|---|
| `LeafRun`, `TreeSpec`, `TreeProofs`, `TreeTheorems`, `TreeGap`, `TreeUpdate` | the B*+-tree on values, its invariant, and insert, remove and update as map operations |
| `TreeSearch` | search in trees of any height |
| `Pages`, `TreePages`, `TreeLayout`, `Node`, `BStarPlusTree` | the tree on pages: node copies with arrays shifted in place, free pages, the leaf chain |
| `Bytes`, `Values`, `Records`, `TablePages`, `Heap` | encodings, three-valued logic, slotted pages down to the byte, the record heap |
| `Journal`, `Interner` | the undo journal and the string file as byte files |
| `TableSpec`, `BatchSpec`, `IndexSet`, `Table` | the table as a state machine with its history, and what several rows at once do to it |
| `Executor`, `MeaningLaws` | conditions, index use, SUM and COUNT, INSERT, UPDATE, DELETE, and the laws of what conditions mean |
| `TimeOrder` | the order of digits and time stamps as texts |
| `LexSpec`, `LexQuotes`, `Lexer`, `Ast`, `ConditionGrammar`, `ConditionText`, `StatementGrammar`, `StatementProofs`, `Parser`, `StatementPrint`, `StatementText`, `TextPrint` | from text to statements and back |
| `LexSigns`, `Sentences`, `StatementSentences` | what characters, words and signs say, on texts written out |
| `StatementSpelling`, `StatementExact`, `StatementTests` | the statement grammar as a relation, what the parser accepts, and which of that the grammar has |
| `AstCodec`, `AstRoundTrip`, `AstSerializer`, `ShippedMeaning`, `ShippedSpelling` | statements as JSON |
| `TaskProcessor`, `TaskProtocol`, `TaskResults`, `TaskSteps` | the task queue over all interleavings, where results come from, and its objects step by step |
| `Catalog`, `Registry`, `Router` | databases, storage nodes, routing |

## Choices and findings

- Capacities of tree pages are symbolic (`Caps`): `phys` pairs fit a leaf, `physInner` keys an inner node. The
  proofs need `phys >= 4` and `physInner >= 2`. With `phys` 3, and with no other capacity, 3 to 3 empties the middle
  leaf before it reads its first key (`MiddleKeepsAPair`).
- `remove` can stop in the guard of the 2 to 1 merge. `RemoveRefinesMap` says exactly when (`MergeGap`), and
  `GapReachable` shows that every capacity with `HasGap` gets there: leaves of 11 pairs, and all from 13 on
  (`GapSizes`).
- A record too large for a page is refused only after the journal, and for an insertion the counter, have moved
  on; for an update the old record is gone by then. `InsertRow` and `UpdateRecord` state what is left. By
  `RowsFit` this cannot happen with 814 columns or fewer.
- A table keeps its past states as a ghost sequence, one for each journal track. The contract of `Revert` names
  the state it restores, and `Valid` says that every earlier state can still be restored.
- The tree indexes of a table and of its columns are maps from keys to addresses, which is what `BStarPlusTree`
  is proved to be, with two limits: a removal stops at `MergeGap`, and an insertion is proved while the root does
  not overflow. So the results about `Table`, its `Revert` included, and `Executor` hold as long as no index tree
  meets either case. String columns have interned ids as keys.
- An INSERT or UPDATE of several rows is not undone when a row fails. INSERT stops at the first such row; UPDATE goes
  on with the next one and reports the first error. The rows done stay, each with its journal track, and are what
  `InsertMultiple` and `UpdateMultiple` state. The UPDATE is done row by row, so a row may be refused for a value that
  a later one gives up.
- The executor is proved against `Meaning`, which evaluates conditions on texts and numbers without any ids. BETWEEN on
  two strings compares ids, which follow the order in which texts were first met; `Meaning` takes that order as a
  parameter, and answers are stated for every order that agrees with the ids after the call (`Ranks`). That it is the
  order of the texts is not claimed, and not so.
- Definitions that methods and specification share are tied down by laws that do not use them: `MeaningLaws` says
  what each construct of a condition makes of its parts, `Sentences` and `StatementSentences` what texts written out
  word by word stand for, `LexLessIs` and `KeptAreEarlier` what it is to be earlier, `StoiReads` which number digits are.
- A statement is what some text says exactly when its names, numbers and strings can be written (`TextsSayPrintables`),
  and the keywords are exactly the words such statements need (`KeywordsAreUsed`).
- A task can fail after its handler has answered only if it was cancelled before (`OutcomeIsShown`). Cancelling a task
  that failed for another reason replaces the error.
- Characters of a statement stand for bytes.
- docs/GRAMMAR.md calls `SeLeCt` invalid; the lexer upper-cases every word, and so does the model. The document lacks
  CREATE USER, GRANT and REVOKE, which the relation `StatementSpelled` has as the parser reads them. The parser accepts
  more than the grammar in three ways: a comma before the first row of INSERT, literals among the items of SELECT, and
  no semicolon at the end. `AcceptedInGrammar` proves that these are all, by tests on the tokens. The grammar's list of
  several statements is not accepted; the parser takes one.
- A string that is not closed becomes an invalid token without its quote. This is all the lexer loses: the tokens write
  the text exactly when its quotes are even in number (`LosslessIffEven`), and `Relexing` says exactly when they are
  lexed back.
- TECH_STORAGE.md describes an older storage design; the model follows the source.
- Time stamps, the outcome of starting a process, the answers of storage nodes and the scheduling of threads are
  parameters or nondeterministic choices. The router's preconditions ask for names without dots, which is what
  the lexer makes, and for a free port number.
- Preconditions such as `recordIdCount + 1 < U32_LIMIT` exclude the exhaustion of 32-bit ids, string ids and page
  numbers.

## Model

| member | source | states |
|---|---|---|
| `TreeTheorems.InsertRefinesMap` | apps/storage/include/qdb/storage/b_star_plus_tree.h:216-230 | inserting an absent key adds exactly that pair; leaves stay sorted and fenced by the separators and within their size bounds through every redistribution and split; the tree is well-formed again unless the root overflows |
| `TreeTheorems.RemoveRefinesMap` | apps/storage/include/qdb/storage/b_star_plus_tree.h:232-256 | removing takes exactly the key out and keeps the tree well-formed through every redistribution and merge; the merge guard fails if and only if the state is `MergeGap` |
| `TreeGap.GapNeedsCapacity` | apps/storage/include/qdb/storage/b_star_plus_tree.h:658-669 | the guard can fail only at capacities with `HasGap`: the larger half of a full leaf and one pair more are still below MIN |
| `TreeGap.GapSizes` | apps/storage/include/qdb/storage/node.h:74-78 | these are the capacities of 11 pairs, and of 13 or more |
| `TreeGap.GapReachable` | apps/storage/include/qdb/storage/b_star_plus_tree.h:658-669 | at every capacity with `HasGap` a run of inserts and removes from the empty tree reaches a state in which the guard fails |
| `TreeGap.RunsKeepWellformed` | apps/storage/include/qdb/storage/b_star_plus_tree.h:216-256 | every tree reachable from the empty one by inserts of new keys and removals is well-formed |
| `TreeUpdate.UpdateRefinesMap` | apps/storage/include/qdb/storage/b_star_plus_tree.h:258-269 | a present key gets the new value and nothing else changes; an absent key changes nothing |
| `TreeTheorems.FixOverflowCorrect` | apps/storage/include/qdb/storage/b_star_plus_tree.h:332-367 | every branch of the overflow handler keeps all pairs in order, every leaf between its minimum and MAX, and adds at most one leaf |
| `TreeTheorems.FixUnderflowOfTwo` | apps/storage/include/qdb/storage/b_star_plus_tree.h:658-669 | with two leaves: even out, merge, or fail the guard, the last exactly when the sibling has MAX/2 pairs and the leaf more than MAX - MAX/2 |
| `TreeTheorems.FixUnderflowOfMany` | apps/storage/include/qdb/storage/b_star_plus_tree.h:631-689 | with three or more leaves the underflow handler always succeeds, keeps all pairs and every leaf within MIN..MAX, and drops at most one leaf |
| `TreeTheorems.Even2Correct` | apps/storage/include/qdb/storage/b_star_plus_tree.h:383-405 | 2 to 2: same pairs in order, the left leaf gets half rounded down |
| `TreeTheorems.ThirdsCorrect` | apps/storage/include/qdb/storage/b_star_plus_tree.h:407-477 | 2 to 3 and 3 to 3: same pairs in order, sizes n/3, half of the rest, the rest |
| `TreeTheorems.HalvesCorrect` | apps/storage/include/qdb/storage/b_star_plus_tree.h:691-726 | 1 to 2 and 3 to 2: same pairs in order, sizes n/2 and the rest |
| `TreeTheorems.MergeCorrect` | apps/storage/include/qdb/storage/b_star_plus_tree.h:728-748 | 2 to 1: one leaf with the pairs of both |
| `TreeProofs.RoutedAlone` | apps/storage/include/qdb/storage/node.h:303-313 | only the child the separators route a key to can hold that key |
| `TreeProofs.SearchIsLookup` | apps/storage/include/qdb/storage/b_star_plus_tree.h:186-214 | a lookup in the routed leaf is a lookup in the whole tree |
| `TreeProofs.AddToLeafIsInsert` | apps/storage/include/qdb/storage/node.h:555-571 | adding a pair to the routed leaf adds it to the whole tree and keeps the order |
| `TreeProofs.DropFromLeafIsRemove` | apps/storage/include/qdb/storage/node.h:593-606 | removing a key from the routed leaf removes it from the whole tree |
| `TreeProofs.SeparatorPosition` | apps/storage/include/qdb/storage/node.h:533-553 | where a new separator goes among the sorted separators of the root |
| `LeafRun.LowerBoundUnique` | apps/storage/include/qdb/storage/node.h:499-507 | the lower bound is the only place that splits a sorted run around a key |
| `LeafRun.InsertedIsMapInsert` | apps/storage/include/qdb/storage/node.h:555-571 | a sorted insertion into a leaf keeps it sorted and adds exactly that pair |
| `LeafRun.WithoutIsMapRemove` | apps/storage/include/qdb/storage/node.h:593-626 | removing a key from a leaf keeps it sorted and takes exactly that pair out |
| `LeafRun.RevisedIsMapUpdate` | apps/storage/include/qdb/storage/node.h:628-655 | giving a key of a leaf another value changes only that pair |
| `TreeSearch.OnlyLeaf` | apps/storage/include/qdb/storage/b_star_plus_tree.h:316-330 | in a tree of any height no leaf but the one the descent ends at holds the key |
| `TreeSearch.DescentDecides` | apps/storage/include/qdb/storage/b_star_plus_tree.h:186-214 | that leaf decides whether the key is in the tree and what its value is |
| `TreeSearch.NextIsLarger` | apps/storage/include/qdb/storage/b_star_plus_tree.h:58-104 | behind a pair of the leaf chain only larger keys follow |
| `TreeSearch.FlatShapeSearchable` | apps/storage/include/qdb/storage/b_star_plus_tree.h:316-330 | trees of the two shapes insert and remove work on are searchable |
| `TreePages.ChainWindow` | apps/storage/include/qdb/storage/b_star_plus_tree.h:369-381 | rewriting a window of leaves keeps the chain: all leaves in key order, ending at -1 |
| `TreePages.FlatShapeRepresents` | apps/storage/include/qdb/storage/b_star_plus_tree.h:316-330 | the stored root and leaves are what the descent walks |
| `TreeLayout.ConservedSameOrder` | apps/storage/include/qdb/storage/node.h:228-242 | rewriting pages in place keeps every node page reachable once or deleted |
| `TreeLayout.SplitConserved` | apps/storage/include/qdb/storage/node.h:118-147 | a split takes one deleted or fresh page, which becomes reachable once |
| `TreeLayout.MergeConserved` | apps/storage/include/qdb/storage/node.h:234-242 | a merge marks exactly the page it frees as deleted |
| `TreeLayout.EvenStored` | apps/storage/include/qdb/storage/b_star_plus_tree.h:383-405 | what 2 to 2 writes is the evened tree, chain and pages kept |
| `TreeLayout.Thirds3Stored` | apps/storage/include/qdb/storage/b_star_plus_tree.h:407-441 | what 3 to 3 writes is the shared tree, chain and pages kept |
| `TreeLayout.Thirds2Stored` | apps/storage/include/qdb/storage/b_star_plus_tree.h:443-477 | what 2 to 3 writes is the split tree, with the new page in the chain |
| `TreeLayout.HalvesStored` | apps/storage/include/qdb/storage/b_star_plus_tree.h:691-726 | what 3 to 2 writes is the merged tree, with one page given back |
| `TreeLayout.NewRootStored` | apps/storage/include/qdb/storage/b_star_plus_tree.h:369-381 | what 1 to 2 writes is a root over two leaves |
| `TreeLayout.MergedRootStored` | apps/storage/include/qdb/storage/b_star_plus_tree.h:728-748 | what 2 to 1 writes is a root leaf, with root and right leaf given back |
| `TreeLayout.RootLeafStored` | apps/storage/include/qdb/storage/b_star_plus_tree.h:163-167 | the first leaf is root and first leaf |
| `TreeLayout.NoRootStored` | apps/storage/include/qdb/storage/b_star_plus_tree.h:245-251 | the empty root leaf is given back and the tree is empty |
| `BStarPlusTree.BStarPlusTree.Insert` | apps/storage/include/qdb/storage/b_star_plus_tree.h:216-230 | the pages after an insert hold the well-formed tree with the pair added; every node page is reachable once or deleted and the chain visits the leaves in key order |
| `BStarPlusTree.BStarPlusTree.Remove` | apps/storage/include/qdb/storage/b_star_plus_tree.h:232-256 | the pages after a removal hold the tree without the key; the outcome says when the guard stops the program |
| `BStarPlusTree.BStarPlusTree.Update` | apps/storage/include/qdb/storage/b_star_plus_tree.h:258-269 | the pages after an update hold the tree with the new value; it throws exactly on an empty tree |
| `BStarPlusTree.BStarPlusTree.Search` | apps/storage/include/qdb/storage/b_star_plus_tree.h:186-214 | for a tree of any height the result is the value of the key alone, or nothing |
| `BStarPlusTree.BStarPlusTree.Lookup` | apps/storage/include/qdb/storage/b_star_plus_tree.h:186-214 | the same for the trees insert and remove build, with no condition left |
| `BStarPlusTree.BStarPlusTree.FindLeaf` | apps/storage/include/qdb/storage/b_star_plus_tree.h:316-330 | the descent ends at the routed leaf and records the path |
| `BStarPlusTree.BStarPlusTree.NextPair` | apps/storage/include/qdb/storage/b_star_plus_tree.h:58-104 | the iterator steps to a larger key, or to the end only behind the last pair |
| `BStarPlusTree.BStarPlusTree.constructor` | apps/storage/include/qdb/storage/b_star_plus_tree.h:130-157 | a new file holds the empty tree |
| `BStarPlusTree.BStarPlusTree.CreateRoot` | apps/storage/include/qdb/storage/b_star_plus_tree.h:163-167 | an empty leaf becomes root and first leaf |
| `BStarPlusTree.BStarPlusTree.HandleLeafOverflow` | apps/storage/include/qdb/storage/b_star_plus_tree.h:332-367 | the pages follow `FixOverflow` |
| `BStarPlusTree.BStarPlusTree.HandleLeafUnderflow` | apps/storage/include/qdb/storage/b_star_plus_tree.h:631-689 | the pages follow `FixUnderflow` |
| `BStarPlusTree.BStarPlusTree.SplitLeaf1to2` | apps/storage/include/qdb/storage/b_star_plus_tree.h:369-381 | the pages follow 1 to 2 |
| `BStarPlusTree.BStarPlusTree.RedistributeLeaves2to2` | apps/storage/include/qdb/storage/b_star_plus_tree.h:383-405 | the pages follow 2 to 2 |
| `BStarPlusTree.BStarPlusTree.RedistributeLeaves3to3` | apps/storage/include/qdb/storage/b_star_plus_tree.h:407-441 | the pages follow 3 to 3 |
| `BStarPlusTree.MiddleKeepsAPair` | apps/storage/include/qdb/storage/b_star_plus_tree.h:424-437 | the middle leaf keeps a pair before its first key is read for every capacity but 3 |
| `BStarPlusTree.BStarPlusTree.SplitLeaves2to3` | apps/storage/include/qdb/storage/b_star_plus_tree.h:443-477 | the pages follow 2 to 3 |
| `BStarPlusTree.BStarPlusTree.MergeLeaves3to2` | apps/storage/include/qdb/storage/b_star_plus_tree.h:691-726 | the pages follow 3 to 2 |
| `BStarPlusTree.BStarPlusTree.MergeLeaves2to1` | apps/storage/include/qdb/storage/b_star_plus_tree.h:728-748 | the pages follow 2 to 1 |
| `Node.Node.Create` | apps/storage/include/qdb/storage/node.h:118-147 | a new node takes the first deleted page, or a fresh one if there is none, and no other page changes |
| `Node.Node.Load` | apps/storage/include/qdb/storage/node.h:149-178 | a loaded node mirrors its page |
| `Node.Node.MarkDeleted` | apps/storage/include/qdb/storage/node.h:234-242 | exactly this page is marked deleted |
| `Node.Node.SendToRightLeaf` | apps/storage/include/qdb/storage/node.h:445-462 | the last pairs of a leaf move in front of its right neighbour |
| `Node.Node.TakeFromRightLeaf` | apps/storage/include/qdb/storage/node.h:464-485 | the first pairs of the right neighbour move behind this leaf |
| `Node.Node.MoveRightLeaf` | apps/storage/include/qdb/storage/node.h:411-423 | room is made at the front by shifting the arrays |
| `Node.Node.MoveLeftLeaf` | apps/storage/include/qdb/storage/node.h:425-443 | the front is dropped by shifting the arrays |
| `Node.Node.InsertInLeaf` | apps/storage/include/qdb/storage/node.h:555-571 | the arrays hold the sorted insertion and the page is written |
| `Node.Node.RemoveFromLeaf` | apps/storage/include/qdb/storage/node.h:593-606 | the arrays hold the run without the key; true exactly if it was there |
| `Node.Node.RemoveFromLeafByIdx` | apps/storage/include/qdb/storage/node.h:608-626 | the pair at the index is shifted over |
| `Node.Node.UpdateValue` | apps/storage/include/qdb/storage/node.h:628-655 | the value of the key is replaced; true exactly if the key is there |
| `Node.Node.InsertInInternal` | apps/storage/include/qdb/storage/node.h:533-553 | separator and right child go in side by side |
| `Node.Node.RemoveFromInternal` | apps/storage/include/qdb/storage/node.h:573-591 | the separator and the child right of it go |
| `Node.Node.PushBackToInternal` | apps/storage/include/qdb/storage/node.h:488-497 | the first child of a new root |
| `Bytes.U32Bijection` | apps/storage/src/serializer.cpp:29-75 | four little-endian bytes and 32-bit numbers determine each other |
| `Bytes.I32Bijection` | apps/storage/src/serializer.cpp:29-75 | so do four bytes and signed 32-bit numbers in two's complement |
| `Bytes.LittleEndian` | apps/storage/src/serializer.cpp:29-75 | the first byte is the least significant |
| `Bytes.TwosComplement` | apps/storage/src/serializer.cpp:29-75 | signed and unsigned readings differ by 2^32, and only from 2^31 on |
| `Values.Kleene` | apps/storage/src/value.cpp:11-43 | the three-valued connectives are commutative, associative, distributive both ways, absorbing, and follow De Morgan |
| `Values.TruthTables` | apps/storage/src/value.cpp:11-43 | AND is true where both sides are and false where one is, OR true where one is and false where both are |
| `Values.ComparisonsAgree` | apps/storage/src/value.cpp:151-205 | on integers the six comparisons are those of the numbers, on strings those of the ids; with a null all are unknown |
| `Records.SizeBounds` | apps/storage/src/serializer.cpp:13-27 | a record takes one to five bytes a field, and as many as the size function says |
| `Records.Serialize` | apps/storage/src/record.cpp:83-95 | the buffer is the encoding of the fields |
| `Records.ReadBack` | apps/storage/src/serializer.cpp:77-103 | a value read from where it was written is that value, and the position is behind it |
| `Records.FromBinary` | apps/storage/src/record.cpp:34-48 | the fields returned are the only ones whose encoding begins the data; nothing is returned only when there are none |
| `Records.RoundTrip` | apps/storage/src/record.cpp:34-95 | different field lists of one width have different encodings: reading back is the inverse of writing |
| `TablePages.OffsetsStay` | apps/storage/src/page.cpp:7-15 | deleting cells moves no cell |
| `TablePages.AppendHolds` | apps/storage/src/page.cpp:64-83 | a new cell at the free offset leaves all others where they are, byte for byte |
| `TablePages.DeleteHolds` | apps/storage/src/page.cpp:97-109 | setting the deleted mark changes that cell only |
| `TablePages.TablePage.CellAt` | apps/storage/src/page.cpp:7-25 | the walk over the cell sizes ends at the cell of the slot |
| `TablePages.TablePage.IsRecordFit` | apps/storage/src/page.cpp:60-62 | exactly the records fit that stay inside the page |
| `TablePages.TablePage.InsertRecord` | apps/storage/src/page.cpp:64-83 | the bytes of the page hold one slot more, at the returned index; -1 exactly if it does not fit |
| `TablePages.TablePage.DeleteRecord` | apps/storage/src/page.cpp:97-109 | the bytes of the page hold the same slots with one marked deleted |
| `TablePages.TablePage.ReadRecord` | apps/storage/src/page.cpp:85-95 | the record of a live slot, nothing for a deleted or missing one |
| `Heap.RowsFit` | apps/storage/include/qdb/storage/page.h:12-35 | 814 columns always fit a page, and 815 columns may not |
| `Heap.Heap.FindEnoughFreePage` | apps/storage/src/table.cpp:329-347 | the preferred page if it has room, else the first with room, else a new one; none exactly for an oversized record |
| `Heap.Heap.WriteRecord` | apps/storage/src/table.cpp:319-327 | exactly one cell is added, at the returned address; it fails exactly for an oversized record |
| `Heap.Heap.DeleteRecord` | apps/storage/src/page.cpp:97-109 | exactly the cell at the address is marked deleted |
| `Heap.Heap.ReadRecord` | apps/storage/src/table.cpp:118-129 | reading an address gives the record written there |
| `Bytes.LexOrder` | apps/storage/src/journal.cpp:96-124 | comparing time stamps, and texts, is a strict total order |
| `Bytes.LexLessIs` | apps/storage/src/journal.cpp:107 | of two texts the less is the one that is less where they first differ, or ends there |
| `TimeOrder.TextsDiffer` | apps/storage/src/executor.cpp:36 | a text is the codes of its characters, so different texts have different bytes |
| `TimeOrder.DigitsInOrder` | apps/storage/src/journal.cpp:107 | of digits in equal number the order as texts is that of the numbers |
| `TimeOrder.StampsInOrder` | apps/storage/src/journal.cpp:107 | the order of time stamps as texts is that of the times |
| `TimeOrder.KeptAreEarlier` | apps/storage/src/journal.cpp:96-124 | when the clock never went back, REVERT keeps exactly the operations of an earlier time |
| `Journal.FileDetermines` | apps/storage/src/journal.cpp:66-124 | two track lists with the same bytes are the same list: the file read backwards determines every track |
| `Journal.LastTrack` | apps/storage/src/journal.cpp:96-124 | the last four bytes lead to the start of the last track |
| `Journal.Journal.WriteTrack` | apps/storage/src/journal.cpp:66-94 | the file after a write is that of the kept tracks and the new one, whatever was behind the position |
| `Journal.Journal.SaveInsertion` | apps/storage/src/journal.cpp:54-56 | an insertion is recorded as a deletion to be made |
| `Journal.Journal.SaveUpdation` | apps/storage/src/journal.cpp:58-60 | an update is recorded with the old fields |
| `Journal.Journal.SaveDeletion` | apps/storage/src/journal.cpp:62-64 | a deletion is recorded with the deleted fields |
| `Journal.Journal.RevertLast` | apps/storage/src/journal.cpp:96-124 | a pop returns the last track as it was written, or nothing, with the position unchanged, when that is older than the time or there is none |
| `Journal.Journal.TruncateToLast` | apps/storage/src/journal.cpp:138-153 | what is behind the position is cut off, and only that |
| `Interner.U64ReadBack` | apps/storage/src/interner.cpp:89-150 | eight little-endian bytes give the number back |
| `Interner.Interner.Intern` | apps/storage/src/interner.cpp:46-67 | the id means the text, now and later; a known text keeps its id and a new one gets the next; ids and texts stay in bijection |
| `Interner.Interner.View` | apps/storage/src/interner.cpp:37-44 | the text of an issued id |
| `Interner.Interner.LoadStorage` | apps/storage/src/interner.cpp:89-120 | the file of the texts rebuilds both maps and the next id |
| `Interner.Interner.AppendToDisk` | apps/storage/src/interner.cpp:134-150 | the file grows by the entry of the new text |
| `Interner.Interner.Injective` | apps/storage/src/interner.cpp:46-67 | different ids mean different texts |
| `TableSpec.NoViolation` | apps/storage/src/table.cpp:294-317 | validation passes exactly when no column has a violation |
| `TableSpec.ViolationSays` | apps/storage/src/table.cpp:294-317 | a column forbids a NULL that is not allowed, a value of the wrong type, and, with an index, a value of another row |
| `TableSpec.ReportedIsFirst` | apps/storage/src/table.cpp:294-317 | the violation reported is that of the first column that has one |
| `TableSpec.ValidationIsExact` | apps/storage/src/table.cpp:294-317 | a record is accepted if and only if the rows with it are well-typed, without forbidden nulls, and unique on indexed columns |
| `TableSpec.AcceptedIsTyped` | apps/storage/src/table.cpp:294-317 | what validation lets through has numbers and texts in the columns for them, and NULL only where it may be |
| `TableSpec.DefaultSuits` | apps/storage/src/table.cpp:277-292 | a default is no violation, unless there is none and NULL is forbidden |
| `TableSpec.KeptIsFirst` | apps/storage/src/journal.cpp:96-124 | with stamps that never go back, reverting stops just before the first operation stamped at or after the time |
| `TableSpec.HistoryGrows` | apps/storage/src/table.cpp:96-107 | an operation and its track extend a good history |
| `TableSpec.HistoryShrinks` | apps/storage/src/table.cpp:206-238 | undoing the last track leaves a good history |
| `BatchSpec.InsertAllIs` | apps/storage/src/table.cpp:109-116 | several rows inserted: the old rows stay, and the new ones follow under consecutive ids |
| `BatchSpec.UpdateAllIs` | apps/storage/src/table.cpp:178-190 | several rows updated one after the other: no row comes or goes, rows no change is for stay, and each change is made exactly if there is no error for it |
| `BatchSpec.ErrorOrTrack` | apps/storage/src/table.cpp:178-190 | each row of a batch leaves either an error or one journal track, and that holds what the row was before the batch |
| `TableSpec.EnteringOk` | apps/storage/src/index_set.cpp:104-115 | entering a row keeps a column index exactly the value-to-address map |
| `TableSpec.LeavingOk` | apps/storage/src/index_set.cpp:117-128 | taking a row out does too |
| `TableSpec.RowAdded` | apps/storage/src/table.cpp:96-107 | a new cell with its id entered adds exactly that row |
| `TableSpec.RowDropped` | apps/storage/src/table.cpp:192-198 | a deleted cell with its id taken out drops exactly that row |
| `IndexSet.IndexSet.Insert` | apps/storage/src/index_set.cpp:104-115 | every indexed column without null gets its key, and no other tree changes |
| `IndexSet.IndexSet.Remove` | apps/storage/src/index_set.cpp:117-128 | every indexed column without null loses its key |
| `IndexSet.IndexSet.Update` | apps/storage/src/index_set.cpp:130-158 | every indexed column moves from the old key to the new |
| `IndexSet.IndexSet.Find` | apps/storage/src/index_set.cpp:42-70 | the addresses of the value, or no answer exactly for columns without index, nulls and other types |
| `IndexSet.IndexSet.HasDuplicate` | apps/storage/src/index_set.cpp:72-102 | true exactly if another live row has the value |
| `Table.Table.constructor` | apps/storage/src/table.cpp:37-62 | a new table is empty, with counter 0 |
| `Table.Table.InsertRow` | apps/storage/src/table.cpp:96-107 | the next id gets the fields, all indexes follow and the journal can undo it; rejected exactly with the first violation and then unchanged; what an oversized record leaves behind |
| `Table.Table.InsertRecord` | apps/storage/src/table.cpp:96-107 | not made exactly when values, names and columns do not match; else the made fields are inserted, rejected or too large as InsertRow says |
| `Table.Table.UpdateRecord` | apps/storage/src/table.cpp:165-176 | the row gets the fields; rejected exactly with the first violation; an oversized record loses the row |
| `Table.Table.InsertMultiple` | apps/storage/src/table.cpp:109-116 | the rows are inserted in order up to the first that cannot be made, is rejected or is too large; those before it stay, each admitted by the rows there by then, each with its journal track and past state |
| `Table.Table.UpdateMultiple` | apps/storage/src/table.cpp:178-190 | each row is updated, with its journal track and past state, or listed with its first violation against the rows there by then; the counter stays; a record too large ends it, and its row is lost, which cannot happen with 814 columns or fewer |
| `Table.Table.DeleteRecord` | apps/storage/src/table.cpp:192-198 | exactly that row goes, and the journal can bring it back |
| `Table.Table.DeleteMultiple` | apps/storage/src/table.cpp:200-204 | exactly those rows go |
| `Table.Table.Undo` | apps/storage/src/table.cpp:209-234 | one track undone gives the state before it; the asserted sizes hold |
| `Table.Table.Revert` | apps/storage/src/table.cpp:206-238 | the table is in the state, rows and counter, just before the first operation of the tail stamped at or after the time, and the rest of the history stays undoable, also after a new branch is written |
| `Table.Table.MakeRecord` | apps/storage/src/table.cpp:240-262 | given values go to their columns, the last one winning; other columns get their default or null; the error cases |
| `Table.Table.ResolveColumnIndices` | apps/storage/src/table.cpp:264-275 | the places of the named columns, or an unknown name |
| `Table.Table.ApplyDefaults` | apps/storage/src/table.cpp:277-286 | columns not given get their default |
| `Table.UpdateColumns` | apps/storage/src/table.cpp:288-292 | each given value is stored, the last one winning |
| `Table.Table.ValidateRecord` | apps/storage/src/table.cpp:294-317 | the first violation in column order |
| `Table.Table.Records` | apps/storage/src/table.cpp:139-148 | all live rows, by ascending id, with their addresses |
| `Table.ListingIsComplete` | apps/storage/src/table.cpp:139-148 | the listing has exactly the live rows below the counter |
| `Table.Table.FindByIndex` | apps/storage/src/table.cpp:150-163 | exactly the live rows with the value, of which there is at most one |
| `Table.Table.Intern` | apps/storage/src/interner.cpp:46-67 | interning a text leaves the table as it is |
| `Table.Table.StoreRow` | apps/storage/src/table.cpp:211-213 | heap, column indexes and id index get the row together |
| `Table.Table.DropRow` | apps/storage/src/table.cpp:192-198 | heap, column indexes and id index lose the row together |
| `Table.Table.ReplaceRow` | apps/storage/src/table.cpp:165-176 | heap, column indexes and id index change the row together |
| `Table.TreesAfterInsert` | apps/storage/src/index_set.cpp:104-115 | after an insertion every column index is exactly the value-to-address map again |
| `Table.TreesAfterRemove` | apps/storage/src/index_set.cpp:117-128 | after a removal too |
| `Table.TreesAfterReplace` | apps/storage/src/index_set.cpp:130-158 | after an update too |
| `Executor.Executor.EvaluateCondition` | apps/storage/src/executor.cpp:79-145 | the truth value is that of the reference meaning, which knows no string ids; it fails exactly where the reference does |
| `Executor.Executor.ExpressionValue` | apps/storage/src/executor.cpp:39-61 | literals and columns stand for their reference values |
| `Executor.Executor.LiteralValue` | apps/storage/src/executor.cpp:25-37 | a literal stands for its reference value; integers out of range fail |
| `MeaningLaws.OrHolds` | apps/storage/src/executor.cpp:137-142 | OR has a truth value where both sides have; it is true where a side is, false where both are, else unknown |
| `MeaningLaws.AndHolds` | apps/storage/src/executor.cpp:131-136 | AND has a truth value where both sides have; it is true where both are, false where a side is, else unknown |
| `MeaningLaws.Compares` | apps/storage/src/executor.cpp:63-103 | numbers are compared as numbers, texts from the first byte where they differ; NULL gives unknown, a number with a text an error |
| `MeaningLaws.BetweenIsAnd` | apps/storage/src/executor.cpp:106-112 | off texts BETWEEN is the two comparisons with its bounds, both included |
| `MeaningLaws.BetweenHolds` | apps/storage/src/executor.cpp:106-112 | on numbers BETWEEN is the closed interval, on texts that of the order of ids |
| `MeaningLaws.LikeHolds` | apps/storage/src/executor.cpp:114-129 | LIKE is true exactly where the engine finds a match, false where it finds none, unknown for NULL, else an error |
| `MeaningLaws.ExpressionsStandFor` | apps/storage/src/executor.cpp:25-61 | a column stands for its field, digits for their number, a text for its bytes |
| `MeaningLaws.DefaultsStandFor` | apps/storage/src/table.cpp:277-292 | a column that is given no value holds its default, or NULL |
| `MeaningLaws.AssignStores` | apps/storage/src/executor.cpp:267-275 | an assignment stores its value in its column and leaves the others; it fails for an unknown column or an expression without value |
| `MeaningLaws.AssignInOrder` | apps/storage/src/executor.cpp:267-275 | later assignments see what earlier ones stored |
| `Executor.ValuesCompareAsData` | apps/storage/src/value.cpp:151-205 | comparing stored values is comparing what they stand for |
| `Executor.BoundAgrees` | apps/storage/src/executor.cpp:106-112 | the bounds of BETWEEN compare as the reference says; two strings by the order in which they got their ids |
| `Executor.IdOrderRanks` | apps/storage/src/value.cpp:184-186 | the ids known give such an order |
| `Executor.Executor.IndexedRecords` | apps/storage/src/executor.cpp:165-205 | the records found by an index are live and include every row the condition is true of |
| `Executor.Executor.EqualityNarrows` | apps/storage/src/executor.cpp:189-198 | a row where column == literal is true is found under the key of the literal, for integers and interned strings |
| `Executor.AndNarrows` | apps/storage/src/executor.cpp:169-177 | what narrows one side of AND narrows the whole |
| `Executor.NarrowFilter` | apps/storage/src/executor.cpp:219-234 | filtering such records gives what filtering the full listing gives |
| `Executor.CandidatesSuffice` | apps/storage/src/executor.cpp:207-234 | so the candidates suffice, whichever way they were found |
| `Executor.AnswersForAll` | apps/storage/src/executor.cpp:207-234 | and an answer for the candidates is one for the whole table, in every order of texts the ids follow |
| `Executor.Executor.RecordsFor` | apps/storage/src/executor.cpp:207-217 | the full listing or records that narrow the condition |
| `Executor.Executor.MatchingRecords` | apps/storage/src/executor.cpp:219-234 | the same record sequence as filtering the full scan by the reference meaning, whenever that raises no error; BETWEEN on strings included |
| `Executor.SumStep` | apps/storage/src/executor.cpp:395-415 | one row more adds its number to the sum, and one to the count unless it is NULL |
| `Executor.Executor.Accumulate` | apps/storage/src/executor.cpp:375-438 | SUM and COUNT are the mathematical sum and count of the non-null values, also where they are to be divided: the 64-bit accumulators never wrap |
| `Executor.Executor.Assign` | apps/storage/src/executor.cpp:267-275 | the assignments of UPDATE, each evaluated on the row as the earlier ones left it, give the values of the reference meaning; it fails exactly where the reference does |
| `Executor.AssignFails` | apps/storage/src/executor.cpp:267-275 | what fails for the first assignments fails for all |
| `Executor.Executor.UpdateWhere` | apps/storage/src/executor.cpp:262-287 | UPDATE touches nothing if an assignment cannot be evaluated on a row the condition is true of; else exactly these rows get their assigned values, as `UpdateMultiple` says, and the journal can undo it |
| `Executor.Executor.InsertRows` | apps/storage/src/executor.cpp:242-260 | INSERT touches nothing exactly if an integer of any row is out of range; else the values the literals stand for are inserted, as `InsertMultiple` says |
| `Executor.Executor.DeleteWhere` | apps/storage/src/executor.cpp:239-338 | DELETE takes out exactly the rows the condition is true of, all without one, and the journal can undo it |
| `Executor.FilterIds` | apps/storage/src/executor.cpp:219-234 | the ids of the filtered listing are those of the rows the condition is true of |
| `Ast.DigitsReadBack` | apps/server/src/ast.cpp:160-178 | printing a number and reading its digits gives the number |
| `Ast.DigitBehind` | apps/server/src/ast.cpp:160-178 | a digit behind others gives ten times their number, and the digit |
| `Ast.ZeroBefore` | apps/server/src/ast.cpp:160-178 | leading zeros change nothing |
| `Ast.StoiReads` | apps/storage/src/executor.cpp:33 | the digits of a number are read as the number up to 2^31 - 1, and nothing above; what is not digits is not read |
| `LexQuotes.LosslessIffEven` | apps/server/src/lexer.cpp:13-52 | the tokens of a text write it, up to white space and the case of keywords, if and only if its quotes are even in number |
| `LexQuotes.UnclosedIffOdd` | apps/server/src/lexer.cpp:108-124 | a string is left open if and only if the quotes are odd in number |
| `LexQuotes.AllButUnclosed` | apps/server/src/lexer.cpp:108-124 | a string left open comes last, and holds what is behind the last quote; every other token is told by its lexeme |
| `LexSpec.LexingSpells` | apps/server/src/lexer.cpp:13-52 | the tokens stand in order with white space between, each where its text is; the text of a string left open has the quote its token lacks |
| `LexSpec.LexJoined` | apps/server/src/lexer.cpp:98-176 | tokens told by their lexemes, printed with spaces between them, are lexed back, and nothing else |
| `LexQuotes.Relexing` | apps/server/src/lexer.cpp:98-176 | printing the tokens of a text and lexing that gives the same tokens if and only if the quotes are even in number or a single character that starts no token follows the last |
| `LexQuotes.UnclosedStringIsLossy` | apps/server/src/lexer.cpp:118-120 | the text of a quote and an a is not written by its tokens, and these are not lexed back |
| `LexSpec.LexedAreLexable` | apps/server/src/lexer.cpp:98-176 | every token of a text is invalid, the end, or one that some text has |
| `LexSpec.EndIsLast` | apps/server/src/lexer.cpp:43-52 | the end token comes once, last |
| `LexSpec.PlacesDiffer` | apps/server/src/lexer.cpp:87-96 | line and column grow with the position, so they name one place |
| `LexSigns.PlaceIs` | apps/server/src/lexer.cpp:87-96 | the line is told by the line feeds before the place, the column by the characters since the last |
| `LexSpec.KeywordIsWord` | apps/server/src/lexer.cpp:54-61 | every keyword is an upper-case word |
| `LexSigns.OneCharacter` | apps/server/src/lexer.cpp:13-30 | which characters separate tokens, and which token any other single character is |
| `LexSigns.KeywordInAnyCase` | apps/server/src/lexer.cpp:138-157 | a keyword in any mix of cases is that keyword |
| `LexSigns.NameAsWritten` | apps/server/src/lexer.cpp:138-157 | any other word of letters, digits and underscores is a name, as it is written |
| `StatementSentences.KeywordsAreUsed` | apps/server/src/lexer.cpp:54-61 | a word is a keyword exactly when some statement that can be written needs it |
| `Lexer.Lexer.Tokenize` | apps/server/src/lexer.cpp:43-52 | the tokens of the text, each with the line and column of its first character |
| `Lexer.Lexer.NextToken` | apps/server/src/lexer.cpp:13-30 | the next token and the position behind it |
| `Lexer.Lexer.HasNext` | apps/server/src/lexer.cpp:32-41 | true exactly if more than white space is left |
| `Lexer.Lexer.Advance` | apps/server/src/lexer.cpp:87-96 | line and column follow the position |
| `Lexer.Lexer.SkipWhitespace` | apps/server/src/lexer.cpp:98-102 | the position is at the end of the white space |
| `Lexer.Lexer.ScanStringLiteral` | apps/server/src/lexer.cpp:108-124 | a closed string, or an invalid token without its quote |
| `Lexer.Lexer.ScanNumber` | apps/server/src/lexer.cpp:126-136 | the longest run of digits |
| `Lexer.Lexer.ScanIdentifierOrKeyword` | apps/server/src/lexer.cpp:138-157 | the longest word, a keyword in any case |
| `Lexer.Lexer.ScanOperator` | apps/server/src/lexer.cpp:159-170 | two characters when the second is an equals sign |
| `ConditionGrammar.ParsedIffSpelled` | apps/server/src/parser.cpp:249-324 | the parser returns a condition exactly when the tokens spell a tree of the grammar followed by neither AND nor OR, and the condition is what that tree stands for |
| `ConditionGrammar.OrParses` | apps/server/src/parser.cpp:253-263 | whatever is spelled is parsed back, and exactly its tokens are used |
| `ConditionGrammar.OrSpelled` | apps/server/src/parser.cpp:253-263 | whatever is parsed was spelled |
| `ConditionGrammar.RenderMeans` | apps/server/src/parser.cpp:253-275 | rendering with brackets only where precedence or left associativity ask for them stands for the condition |
| `ConditionGrammar.RenderParses` | apps/server/src/parser.cpp:249-324 | parsing inverts rendering |
| `ConditionText.TextRoundTrip` | apps/server/src/parser.cpp:249-324 | a condition printed as text, lexed and parsed is the same condition |
| `Sentences.ConnectivesRendered` | apps/server/src/parser.cpp:253-275 | AND binds tighter than OR, both group to the left, and brackets stand where that asks for them |
| `Sentences.ConnectivesRead` | apps/server/src/parser.cpp:253-293 | two conditions with AND or OR between them are read as And or Or of the two |
| `Sentences.ComparisonsRead` | apps/server/src/parser.cpp:277-285 | what each of the six signs is read as |
| `Sentences.BetweenAndLikeRead` | apps/server/src/parser.cpp:295-313 | BETWEEN is read with value, lower and upper bound in this order, LIKE with value and pattern |
| `Sentences.OperatorsMean` | apps/server/src/parser.cpp:277-285 | a column that holds m, one of the six signs and digits for n: the truth of the text is that of m and n compared |
| `Sentences.BetweenMeans` | apps/server/src/parser.cpp:297-304 | a text with BETWEEN is true exactly from the lower to the upper bound |
| `Sentences.ConnectivesMean` | apps/server/src/parser.cpp:253-275 | a text with OR is true where a side is, one with AND where both are |
| `ConditionText.RenderedLexable` | apps/server/src/lexer.cpp:108-176 | the tokens of a printable condition are ones some text has |
| `StatementProofs.StatementParses` | apps/server/src/parser.cpp:12-46 | parsing inverts spelling, for every statement the parser can produce, and exactly its tokens are used |
| `StatementExact.ProgramExact` | apps/server/src/parser.cpp:12-46 | the parser accepts exactly the token lists that spell a statement up to the end or a semicolon there, with two liberties, and returns the statement spelled |
| `StatementTests.AcceptedInGrammar` | apps/server/src/parser.cpp:12-46 | a program is in the grammar if and only if it is accepted, no comma stands behind the VALUE of an INSERT, no literal before the FROM of a SELECT, and a semicolon ends it |
| `StatementTests.StatementInGrammar` | apps/server/src/parser.cpp:12-46 | the same for a statement, without the semicolon |
| `StatementTests.InsertInGrammar` | apps/server/src/parser.cpp:447-483 | an INSERT is in the grammar if and only if no comma stands behind its VALUE |
| `StatementTests.SelectInGrammar` | apps/server/src/parser.cpp:521-558 | a SELECT is in the grammar if and only if no literal stands before its FROM |
| `StatementTests.StatementClear` | apps/server/src/parser.cpp:12-46 | no statement has an end of tokens or a semicolon inside |
| `StatementExact.StatementSound` | apps/server/src/parser.cpp:12-46 | the tokens a parsed statement takes spell it |
| `StatementExact.StatementComplete` | apps/server/src/parser.cpp:12-46 | every spelled statement is parsed |
| `StatementExact.ListSound` | apps/server/src/parser.cpp:470-482 | a parsed list is its items with single commas between them, and no comma follows |
| `StatementExact.ListComplete` | apps/server/src/parser.cpp:470-482 | such a list is parsed |
| `StatementExact.RightsExact` | apps/server/src/parser.cpp:395-413 | GRANT and REVOKE are parsed exactly when spelled, with a scope of one or two parts |
| `StatementExact.CreateTableExact` | apps/server/src/parser.cpp:355-393 | CREATE TABLE is parsed exactly when spelled |
| `StatementExact.UpdateExact` | apps/server/src/parser.cpp:485-507 | UPDATE is parsed when spelled and only then |
| `StatementExact.DeleteExact` | apps/server/src/parser.cpp:509-519 | DELETE is parsed when spelled and only then |
| `StatementExact.RevertExact` | apps/server/src/parser.cpp:439-445 | REVERT is parsed exactly when spelled |
| `StatementExact.RowsOfInsert` | apps/server/src/parser.cpp:464-482 | the rows of INSERT are parsed when spelled, with or without a comma before the first |
| `StatementExact.TableExact` | apps/server/src/parser.cpp:116-126 | a table reference is parsed exactly when spelled |
| `StatementExact.TimestampExact` | apps/server/src/parser.cpp:160-198 | a time stamp is parsed exactly when spelled |
| `StatementProofs.ParsedIsOk` | apps/server/src/parser.cpp:12-46 | in a parsed statement no list is empty, permissions and time stamps have their form, conditions are the grammar's |
| `StatementProofs.ListParses` | apps/server/src/parser.cpp:470-482 | a list with commas is parsed back when its items are |
| `StatementProofs.CreateTableParses` | apps/server/src/parser.cpp:355-393 | CREATE TABLE is parsed back |
| `StatementProofs.InsertParses` | apps/server/src/parser.cpp:447-483 | INSERT is parsed back |
| `StatementProofs.UpdateParses` | apps/server/src/parser.cpp:485-507 | UPDATE is parsed back |
| `StatementProofs.DeleteParses` | apps/server/src/parser.cpp:509-519 | DELETE is parsed back |
| `StatementProofs.SelectParses` | apps/server/src/parser.cpp:521-558 | SELECT is parsed back |
| `StatementProofs.RevertParses` | apps/server/src/parser.cpp:439-445 | REVERT is parsed back |
| `StatementProofs.RightsStatementParses` | apps/server/src/parser.cpp:395-413 | GRANT and REVOKE are parsed back |
| `StatementProofs.TimestampParses` | apps/server/src/parser.cpp:160-198 | a time stamp of 23 characters is parsed back |
| `StatementProofs.ColumnParses` | apps/server/src/parser.cpp:326-353 | a column definition is parsed back with its optional parts |
| `StatementText.TextRoundTrip` | apps/server/src/parser.cpp:12-46 | a statement printed as text, with or without a semicolon, lexed and parsed is the same statement |
| `StatementPrint.StatementLexable` | apps/server/src/lexer.cpp:54-61 | the tokens of a statement whose names, numbers and texts can be written are ones the lexer makes |
| `TextPrint.TextsSayPrintables` | apps/server/src/parser.cpp:12-46 | a statement is what some text says exactly when it can be written, and then its own text says it |
| `StatementSentences.DatabasesRead` | apps/server/src/parser.cpp:355-437 | what CREATE DATABASE, DROP DATABASE and USE say, word by word |
| `StatementSentences.UserRead` | apps/server/src/parser.cpp:355-393 | what CREATE USER says |
| `StatementSentences.RightsRead` | apps/server/src/parser.cpp:395-413 | what GRANT and REVOKE say |
| `StatementSentences.RevertRead` | apps/server/src/parser.cpp:439-445 | what REVERT says: the time stamp is its seven numbers |
| `StatementSentences.CreateTableRead` | apps/server/src/parser.cpp:326-393 | what CREATE TABLE says, with INT, STRING, NOT_NULL, INDEXED and DEFAULT |
| `StatementSentences.DropTableRead` | apps/server/src/parser.cpp:415-431 | what DROP TABLE says |
| `StatementSentences.InsertRead` | apps/server/src/parser.cpp:447-483 | what INSERT says: names, then rows |
| `StatementSentences.UpdateRead` | apps/server/src/parser.cpp:485-507 | what UPDATE says |
| `StatementSentences.DeleteRead` | apps/server/src/parser.cpp:509-519 | what DELETE says |
| `StatementSentences.SelectRead` | apps/server/src/parser.cpp:521-558 | what SELECT with a star says |
| `StatementSentences.ItemsRead` | apps/server/src/parser.cpp:229-247 | what SUM, COUNT, AVG and AS say |
| `StatementText.TextIsShipped` | apps/server/src/ast.cpp:443-652 | every statement that comes from a text can be shipped if and only if its integers are in range, and arrives as itself up to leading zeros and a password |
| `StatementText.CommaBeforeRows` | apps/server/src/parser.cpp:464-469 | a program with a comma before the first row is accepted and is not in the grammar |
| `StatementText.LiteralSelected` | apps/server/src/parser.cpp:521-545 | a program that selects a literal is accepted and is not in the grammar |
| `Parser.Parser.ParseCondition` | apps/server/src/parser.cpp:249-251 | a condition is returned exactly when the tokens spell one, and the position is behind it; parsing ends on every token list |
| `Parser.Parser.ParseOrCondition` | apps/server/src/parser.cpp:253-263 | the OR level, left associative |
| `Parser.Parser.ParseAndCondition` | apps/server/src/parser.cpp:265-275 | the AND level, left associative |
| `Parser.Parser.ParsePredicate` | apps/server/src/parser.cpp:287-293 | brackets or a plain predicate |
| `Parser.Parser.ParsePlain` | apps/server/src/parser.cpp:295-324 | comparison, BETWEEN or LIKE |
| `Parser.Parser.ParseValue` | apps/server/src/parser.cpp:219-227 | a name or a literal |
| `Parser.Parser.ParseLiteral` | apps/server/src/parser.cpp:200-217 | a string, an integer or NULL |
| `Parser.Parser.ParseStatement` | apps/server/src/parser.cpp:12-46 | the statement the tokens spell, with nothing behind it but a semicolon; on every token list it ends |
| `Parser.Parser.ParseCreateStatement` | apps/server/src/parser.cpp:355-393 | CREATE DATABASE, CREATE USER or CREATE TABLE |
| `Parser.Parser.ParseDropStatement` | apps/server/src/parser.cpp:415-431 | DROP DATABASE or DROP TABLE |
| `Parser.Parser.ParseGrantStatement` | apps/server/src/parser.cpp:395-403 | GRANT |
| `Parser.Parser.ParseRevokeStatement` | apps/server/src/parser.cpp:405-413 | REVOKE |
| `Parser.Parser.ParseRevertStatement` | apps/server/src/parser.cpp:439-445 | REVERT |
| `Parser.Parser.ParseInsertStatement` | apps/server/src/parser.cpp:447-483 | INSERT, with the loops over columns, rows and literals |
| `Parser.Parser.ParseUpdateStatement` | apps/server/src/parser.cpp:485-507 | UPDATE, with the loop over assignments |
| `Parser.Parser.ParseDeleteStatement` | apps/server/src/parser.cpp:509-519 | DELETE |
| `Parser.Parser.ParseSelectStatement` | apps/server/src/parser.cpp:521-558 | SELECT, with the loop over items |
| `Parser.Parser.ParseColumnDefinition` | apps/server/src/parser.cpp:326-353 | name, type, NOT_NULL, INDEXED and DEFAULT, in this order |
| `Parser.Parser.ParseTableRef` | apps/server/src/parser.cpp:116-126 | a table, with or without its database |
| `Parser.Parser.ParseAccessScope` | apps/server/src/parser.cpp:128-143 | a scope with stars; one part alone means all its tables |
| `Parser.Parser.ParsePermissions` | apps/server/src/parser.cpp:145-158 | a list of permissions |
| `Parser.Parser.ParseTimestamp` | apps/server/src/parser.cpp:174-198 | seven numbers of fixed length with their punctuation |
| `Parser.Parser.ParseExpression` | apps/server/src/parser.cpp:236-247 | an aggregate or a value |
| `AstSerializer.SerializeAst` | apps/server/src/ast.cpp:443-554 | a parsed statement is serialized if and only if its integers are in range, and what is written is read back as the shipped statement |
| `AstSerializer.DeserializeAst` | apps/server/src/ast.cpp:556-652 | JSON that any parsed statement was serialized to is read as that statement, up to leading zeros and a password |
| `AstRoundTrip.LiteralRoundTrip` | apps/server/src/ast.cpp:172-178 | a literal survives exactly when its integer is in range, up to leading zeros |
| `AstRoundTrip.ExpressionRoundTrip` | apps/server/src/ast.cpp:198-218 | so does an expression |
| `AstRoundTrip.ConditionRoundTrip` | apps/server/src/ast.cpp:247-296 | so does a condition |
| `AstRoundTrip.ColumnRoundTrip` | apps/server/src/ast.cpp:306-324 | so does a column definition with its modifiers |
| `AstRoundTrip.ItemRoundTrip` | apps/server/src/ast.cpp:437-441 | so does a select item with its alias |
| `AstRoundTrip.TableRoundTrip` | apps/server/src/ast.cpp:326-336 | so does a table reference without dots in its names |
| `AstRoundTrip.StatementRoundTrip` | apps/server/src/ast.cpp:443-652 | a parsed statement can be shipped if and only if its integers are in range, and arrives as itself up to leading zeros; only a password is dropped |
| `ShippedMeaning.ConditionKeepsMeaning` | apps/storage/src/executor.cpp:79-145 | a shipped condition has the same meaning on every row |
| `ShippedMeaning.ExpressionKeepsMeaning` | apps/storage/src/executor.cpp:39-61 | so has an expression |
| `ShippedSpelling.StatementShips` | apps/server/src/ast.cpp:443-652 | what arrives is spelled with the same tokens, the integers without leading zeros, and it is shipped exactly when each integer token is in range; a REVERT arrives as it is, a user without the password |
| `TaskProtocol.TaskProtocolHolds` | libs/core/src/thread_pool.cpp:19-61 | over all interleavings: results are consistent, accepted jobs start first in first out and at most once, and when the first Stop returns all accepted jobs have finished with a terminal status |
| `TaskProtocol.RunKeepsInv` | apps/server/src/task_processor.cpp:16-54 | the invariant holds after every step of every run |
| `TaskProtocol.RunForward` | apps/server/src/task_processor.cpp:82-92 | along every run a terminal status never changes, and accepted, started and finished jobs only grow |
| `TaskProtocol.StopTerminates` | libs/core/src/thread_pool.cpp:31-45 | a stopped pool is never stuck before Stop can return, and every worker step leaves less to do |
| `TaskResults.ResultsHaveCauses` | apps/server/src/task_processor.cpp:16-54 | in every run a response is what the handler of this task answered, and an error says why it failed: thrown, cancelled or refused |
| `TaskResults.OutcomeIsShown` | apps/server/src/task_processor.cpp:24-31 | in every run, once the job has ended, the task shows the answer for good, or the error, unless it was cancelled |
| `TaskResults.RunningIsBegun` | apps/server/src/task_processor.cpp:24-25 | in every run a task that has not ended is shown as running exactly while a worker has begun its job, and as pending before |
| `TaskProcessor.TaskTable.Cancel` | apps/server/src/task_processor.cpp:45-54 | a task that is not completed becomes failed; the answer says whether |
| `TaskProcessor.ThreadPool.Take` | libs/core/src/thread_pool.cpp:47-61 | a worker gets the first job, or leaves when the pool is stopped and the queue empty |
| `TaskSteps.RunGoesOn` | libs/core/src/thread_pool.cpp:19-61 | a run goes on with any step that can be taken |
| `TaskSteps.Processor.constructor` | apps/server/src/task_processor.cpp:12-14 | the first state of a run |
| `TaskSteps.Processor.Register` | apps/server/src/task_processor.cpp:16-21 | entering a pending task is a step of the protocol |
| `TaskSteps.Processor.Offer` | apps/server/src/task_processor.cpp:24-31 | offering its job to the pool is a step; accepted unless stopped |
| `TaskSteps.Processor.Refuse` | apps/server/src/task_processor.cpp:32-34 | failing the task of a refused job is a step |
| `TaskSteps.Processor.Take` | libs/core/src/thread_pool.cpp:47-61 | a woken worker takes the first job or leaves, each a step |
| `TaskSteps.Processor.Begin` | apps/server/src/task_processor.cpp:24-25 | marking a task running is a step |
| `TaskSteps.Processor.Finish` | apps/server/src/task_processor.cpp:26-31 | storing the answer or the error is a step; the task shows just that, unless it was cancelled |
| `TaskSteps.Processor.Get` | apps/server/src/task_processor.cpp:39-43 | what is shown of a task, with its cause in the run |
| `TaskSteps.Processor.Cancel` | apps/server/src/task_processor.cpp:45-54 | cancelling is a step |
| `TaskSteps.Processor.Stop` | libs/core/src/thread_pool.cpp:31-45 | only the first call of Stop is a step |
| `TaskSteps.Processor.Joined` | libs/core/src/thread_pool.cpp:39-45 | when the workers have been joined every accepted job has a terminal, consistent result in the table |
| `TaskProcessor.ThreadPool.SetStopped` | libs/core/src/thread_pool.cpp:31-45 | only the first call goes on to join |
| `Catalog.KeysDiffer` | apps/server/src/router.cpp:139-141 | different tables of named databases have different keys |
| `Catalog.KeysWithTable` | apps/server/src/catalog.cpp:44-59 | creating a table adds exactly its key |
| `Catalog.KeysWithoutTable` | apps/server/src/catalog.cpp:61-71 | dropping a table removes exactly its key |
| `Catalog.KeysWithoutDatabase` | apps/server/src/catalog.cpp:25-38 | dropping a database removes exactly the keys of its tables |
| `Catalog.Catalog.CreateDatabase` | apps/server/src/catalog.cpp:15-23 | a new empty database, unless there is one of that name |
| `Catalog.Catalog.DropDatabase` | apps/server/src/catalog.cpp:25-38 | the database goes, and exactly its tables are returned |
| `Catalog.Catalog.CreateTable` | apps/server/src/catalog.cpp:44-59 | the table is entered with its JSON; refused exactly when the database is missing or the table there |
| `Catalog.Catalog.DropTable` | apps/server/src/catalog.cpp:61-71 | the table goes, if it is there |
| `Registry.Registry.CreateNode` | apps/server/src/registry.cpp:59-74 | a new node has a port no other node has; a failure leaves the nodes as they were |
| `Registry.Registry.UpdateNode` | apps/server/src/registry.cpp:94-104 | only the state of the node changes |
| `Registry.Registry.RestartNode` | apps/server/src/registry.cpp:106-121 | only the state of the node changes, to up or down with the outcome |
| `Registry.Registry.DropNode` | apps/server/src/registry.cpp:123-134 | exactly that node and its process go, and no other |
| `Router.Router.Route` | apps/server/src/router.cpp:19-97 | whatever the storages answer, node ids equal the keys of the catalog's tables and ports are distinct; a failed CREATE TABLE or DROP TABLE changes neither; what a success changes; USE answers whether the database is there; a statement on the rows of a known table goes to the node of its key and to no other, and its answer is the one returned |
| `Router.Router.CreateTable` | apps/server/src/router.cpp:47-66 | created in both places or in neither; a success is the new node's own answer to the statement |
| `Router.Router.DropTable` | apps/server/src/router.cpp:68-83 | dropped in both places or in neither; a success is the node's own answer |
| `Router.Router.DropDatabase` | apps/server/src/router.cpp:28-37 | the database and the nodes of its tables go, whatever the storages answer, each after a DROP TABLE as far as it can be reached |
| `Router.Router.SendToStorage` | apps/server/src/router.cpp:99-137 | one request to the node with the statement, and its answer or the lack of one is returned; or an error without a request: for an unknown node, one that is down or cannot be reached; an exception only for a statement that cannot be serialized |
| `Router.Router.SendData` | apps/server/src/router.cpp:85-97 | a statement without a table or with an unknown one is refused without a request; else it goes to the node of its table |

## Left out

- BStarPlusTree.BStarPlusTree.Insert: does not model a key that is already there, nor a root that overflows; rebalancing of inner nodes (b_star_plus_tree.h:479-629, 750-866, node.h:316-408) sets sizes off by one and copies a child that is not there, so trees of height three and more are covered by search only.
- TreeTheorems.InsertRefinesMap: keys are unique; duplicate keys and keys compared with `SearchCmp` are not modelled.
- rangeSearch, update_or_insert, clear, print and the integrity check of the tree: rangeSearch opens page -1 behind the last leaf, and update_or_insert never inserts once a leaf exists.
- Executor.Executor.MatchingRecords: makes no claim when evaluating the condition fails on some row, because the full scan raises an error there.
- The regular expressions of LIKE are a parameter that returns a truth value, or nothing for a pattern the library refuses.
- Executor.Executor.Accumulate: stops at sum and count; AVG divides them in floating point. The JSON of results, projections and aliases is left out too.
- Table.Table.UpdateMultiple: ends at a record too large for a page, where the source goes on with an id index that leads to a deleted cell; with 814 columns or fewer there is no such record.
- Records.FromBinary: a read past the end of the data counts as a failure.
- Files, fsync, crashes and torn writes: the pager is a growing sequence of pages, the journal and the string file are byte sequences.
- The schema file and the codecs of columns and schema; the constructors that open existing tables.
- Journal.Journal.RevertLast: time stamps are byte strings handed in; reading the clock is not part of the model.
- TaskProcessor.ThreadPool.Take: waiting on the condition variable is left to the precondition; exceptions that are not std::exception are not modelled.
- Task ids are fresh by assumption; the random generator is not part of this model.
- Router.Router.SendToStorage: connecting, sending and receiving are nondeterministic, as is the answer; of an answer only success and message are modelled.
- Catalog and registry files, process creation, telemetry, sockets and framing, configuration, logging, the client.
- Permissions, users, tokens and password hashing.
