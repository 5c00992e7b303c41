# Verification of the libdb B-tree and the literal matcher

A Dafny model of three parts of the source tagging system, with proofs:

* **The B-tree of `global/libdb`**, which stores every tag record: pages with an index array and an item heap,
  search with a parent stack, page division that climbs that stack, page removal that climbs it, overflow chains,
  the free list, the sorted-insert shortcut and the scan cursor.  What a caller sees is a finite map from byte
  strings to byte strings with an ordered scan over it.
* **The buffer pool `mpool.c`** below it, which is meant to look like an array of pages, and the byte-order
  conversion of pages on their way in and out.
* **The multi-word matcher `literal.c`**: a trie with failure links and the line scanner over it.

`dafny verify dfyconfig.toml` checks everything.  Every lemma carries `{:induction false}`: each inductive step is
written out, and none rests on a hypothesis the verifier adds by itself.

## How the B-tree proof is built

The page file is one sequence of pages, as the pool presents it.  A ghost *shape* gives every page of the tree the
range of keys it is responsible for (key ranks, an order embedding of byte strings into the reals) and its height.
The invariant (`Shape.Inv`) is a statement about each page and its neighbours, never about a whole subtree, so a
division, a root division or a removal is checked where it happens (`ShapeSplit`, `ShapeRoot`, `ShapeDelete`).
A page without room for a coming item is treated as if it held the item already; the physical page is that one
less the item.  Which page is whose is a ledger (`Space`): metadata, tree, free list, a chain, or in hand.

| file | part |
|---|---|
| `Keys`, `Layout`, `PageSplit`, `PageSearch` | key order and separators, sizes, division of one page, search in one page |
| `Shape`, `ShapeSplit`, `ShapeRoot`, `ShapeDelete`, `Contents` | the tree in the file, its changes, the records it holds |
| `Space`, `TreeState`, `Grow`, `Shrink` | ownership of pages, chains, what insertion and deletion keep |
| `Cursors`, `Scan`, `Carry`, `BTree` | the cursor, scan order, what divisions do to leaves and cursor, the access method as a class |
| `Runs`, `WholeFile` | whole runs against a map, and what the invariant says of the whole file |
| `RawPage`, `PageImage` | pages as bytes, the pages of the tree as such |
| `Turning`, `Convert`, `ShortKeys`, `Pool` | turning words round, byte order of a page, the pages on which that overlaps, the page cache |
| `Literal`, `AllFound` | the matcher, and on which words it misses none |

Where the source and its comments differ the model follows the source.  Five of its habits are stated exactly, each
with the condition on the input that decides it and an example:

* the division of a page goes wrong for one family of inputs, an open slot at the front for an item of exactly half
  a page (`PageSplit.PSplit`, `PageSplit.SecondHole`);
* an insertion takes the cursor of a scan off its record when the leaf has no room, the place of the new record is
  among the slots that stay left, and the cursor's record is in the last of these or behind (`BTreeAccess.BTree.Put`
  with `Carry.Strays`, known before, and `Carry.LeftBehind`, seen afterwards; `Carry.CursorLostInTree`);
* the conversion of a leaf item looks for the reference to its data as if the key were a reference too, and for a key
  under four bytes it shares a byte with the item behind: such a page comes back from the disk if and only if the
  bytes three to the left and to the right of each shared one are the same as that (`ShortKeys.LeafComesHome`,
  `ShortKeys.PageLost`);
* the trie loses a last word that is the beginning of another one when no line break follows it
  (`Literal.WrittenMarked`, `Literal.BeginningLost`);
* the failure state of a state is looked for below one failure state and below the root only, so words can be missed:
  every file is searched right if and only if, wherever a state and the rest of a word end in a word that began before
  the rest, the first word of that text, the state or one on its chain of failure states is the beginning of such a
  word; for a pattern with an empty line, if and only if all other words begin with one character that is a word too
  (`AllFound.PatternExactly`).  The one word `aabaaac` is missed in `aabaaabaaac`
  (`AllFound.WordMissed`).

## Model

| member | source | states |
|---|---|---|
| Keys.DefCmp | global/libdb/bt_utils.c:215-233 | the sign of the result is the lexicographic order of the strings, the shorter first when one begins the other |
| Keys.RankIsOrder | global/libdb/bt_utils.c:215-233 | key order is a dense linear order's: the rank of a key reflects the order both ways and tells keys apart |
| Keys.DefPfx | global/libdb/bt_utils.c:244-259 | for a below b, the result is the least n with a below the first n bytes of b, and that prefix is not above b |
| Layout.CutoffLeavesRoomForTwo | global/libdb/bt_open.c:318-322 | every record within the overflow cut-off takes at most half a page if and only if the requested keys per page leave 14 bytes each; below that the 16-bit subtraction wraps |
| Layout.CutoffIsLargest | global/libdb/bt_open.c:318-322 | the keys per page asked for fit on a page within the cut-off and do not four bytes above it; the cut-off does not go below 30 |
| Layout.ItemSizes | global/libdb/btree.h:119-204 | items take two numbers, flags, key and data, up to the next multiple of four |
| Layout.PlaceRecord | global/libdb/bt_put.c:128-154 | the overflow loop ends for all sizes with a pair within the cut-off; the key goes to a chain exactly when the pair is above the cut-off and key and reference are too, and the data exactly when the pair is above it and not saved by moving the key first |
| Layout.UsedInsert | global/libdb/btree.h:103-117 | an item takes its aligned size and one slot, wherever it goes on the page |
| PageSplit.FullPageHoldsTwo | global/libdb/bt_put.c:207-212 | a page without room for an item of at most half a page holds two items already |
| PageSplit.PSplit | global/libdb/bt_split.c:607-768 | left and right slots joined are the old items with the open slot in place, both pages are non-empty and fit, if and only if the open slot is not in front or the item is below half a page; otherwise the left page gets a hole alone and a second hole opens |
| PageSplit.SecondHole | global/libdb/bt_split.c:722-736 | a page of 512 bytes and an item that meet all the division asks for and open the second hole |
| PageSplit.FillLeft | global/libdb/bt_split.c:635-698 | exactly `LeftCount` slots go left, the fewest that take half a page but never the last old item, and one less if that would overfill the page; they are the first slots in order |
| PageSplit.LeftCountIs | global/libdb/bt_split.c:635-698 | what makes a number of slots the one that goes left: the last old item stays right, one slot less takes less than half a page, nothing behind the open slot overfills the page, and it takes half a page, or the next slot is due to the last old item, or would overfill the page |
| PageSplit.FillRight | global/libdb/bt_split.c:722-765 | the rest of the items, in order, with the hole if it has not been placed |
| PageSplit.DividedItems | global/libdb/bt_split.c:607-768 | with the open slot filled the two pages are the two halves of the old items with the new one inserted |
| PageSearch.CmpAt | global/libdb/bt_utils.c:153-202 | compares with the key at an index, except that the first key of the leftmost internal pages counts as below all |
| PageSearch.SearchPage | global/libdb/bt_search.c:81-127 | binary search finds the key on a leaf, or the only gap it fits in; on an internal page the last entry not above it |
| PageSearch.FirstKeyHasNoSay | global/libdb/bt_search.c:81-127 | the place found on an internal page does not depend on the key stored at index 0 |
| PageSearch.PlaceOnce | global/libdb/bt_search.c:81-127 | there is only one such place |
| ShapeSplit.CutKeepsInv | global/libdb/bt_split.c:154-299 | dividing a page and telling its parent keeps uniform depth, bounds, strictly increasing keys, sibling links and parents, for every separator above the left keys and not above the right ones |
| ShapeRoot.RootCutKeepsInv | global/libdb/bt_split.c:446-479 | so does dividing the root into two new pages below it |
| ShapeDelete.PruneKeepsInv | global/libdb/bt_delete.c:373-454 | so does removing an emptied leaf with every ancestor that had no other page below it |
| ShapeDelete.NothingElse | global/libdb/bt_delete.c:409-420 | when the chain of emptied ancestors reaches the root, the removed pages are all the rest of the tree |
| ShapeDelete.RelinkUnlinks | global/libdb/bt_delete.c:628-648 | unhooking one page after another from its level leaves exactly the neighbours a removal needs |
| Contents.CutHolds | global/libdb/bt_split.c:81-327 | a division loses, doubles and moves no record out of its range |
| Contents.RootCutHolds | global/libdb/bt_split.c:446-479 | nor does a root division |
| Contents.PruneHolds | global/libdb/bt_delete.c:373-454 | removing emptied pages removes no record |
| Contents.GapMeansAbsent | global/libdb/bt_search.c:63-133 | a key not on the leaf responsible for it is nowhere in the tree |
| Space.ChainPagesRoundUp | global/libdb/bt_overflow.c:154-178 | a chain has as many pages as the data fills, rounded up, and at least one |
| Space.PartialIsChain | global/libdb/bt_overflow.c:154-178 | pages linked one after the other with the pieces of the data are a chain of the data |
| Space.TakeFreeOwned | global/libdb/bt_page.c:79-94 | taking the head of the free list leaves a shorter free list, and the page had no other owner |
| Space.GiveFreeOwned | global/libdb/bt_page.c:55-68 | a page given back heads the free list, once |
| Space.DrawnPeak | global/libdb/bt_page.c:79-94 | pages taken come from the free list as long as it has any, so the file is as long as before, or as the pages in use then |
| TreeState.LocatedOnce | global/libdb/bt_search.c:63-133 | leaf, index and outcome of a search are determined by the key |
| TreeState.ViewUnused | global/libdb/bt_put.c:123-127 | a chain no record refers to changes nothing a caller sees |
| Grow.TellParent | global/libdb/bt_split.c:154-299 | a parent given the separator and the new page is good again, though perhaps over-full, and the rest of the stack is still its path |
| Grow.RootDivided | global/libdb/bt_split.c:290-299 | a divided root leaves a good tree with room on every page |
| Shrink.ClimbOn | global/libdb/bt_delete.c:396-424 | an ancestor with one entry goes along, and the climb can go on above it |
| Shrink.FinishClimb | global/libdb/bt_delete.c:425-446 | an ancestor with another entry ends the climb with a good tree and no empty page |
| Shrink.FinishAtRoot | global/libdb/bt_delete.c:409-420 | a root with one entry becomes an empty leaf, and the tree is empty |
| BTreeAccess.BTree.constructor | global/libdb/bt_open.c:290-400 | a new tree meets the invariant, holds nothing and leaks nothing |
| BTreeAccess.BTree.New | global/libdb/bt_page.c:79-94 | the head of the free list if it has any pages, and then the file is no longer; else a page at the end of the file; owned by nobody else, and no other page changes |
| BTreeAccess.BTree.Free | global/libdb/bt_page.c:55-68 | the page goes to the head of the free list |
| BTreeAccess.BTree.OvflPut | global/libdb/bt_overflow.c:138-180 | a new chain carries exactly the data, over the number of pages of psize - 20 bytes it fills, taken from the free list first; all other chains and the tree are as before |
| BTreeAccess.BTree.OvflGet | global/libdb/bt_overflow.c:81-127 | the bytes of the chain, whatever their number |
| BTreeAccess.BTree.OvflDelete | global/libdb/bt_overflow.c:190-226 | exactly the pages of the chain go to the free list, and no other chain or tree page changes |
| BTreeAccess.BTree.DivideItems | global/libdb/bt_split.c:607-768 | the items with the new one in place are cut after exactly `LeftCount` of them, both parts fit, and a cursor is on the item it was on unless the new item is left and its own the last there or behind, when it is one item further on |
| BTreeAccess.BTree.Halve | global/libdb/bt_split.c:385-431 | the items on the page and on its new neighbour, with the links between the three pages |
| BTreeAccess.BTree.DividePage | global/libdb/bt_split.c:342-431 | a page and its new right neighbour share the items in order, the links of both sides are right, and both fit; at the right edge the new item goes alone, else the cut is after `LeftCount` items; one page is taken |
| BTreeAccess.BTree.DivideRoot | global/libdb/bt_split.c:446-592 | two new pages share the items of the root in order, and the root leads to them |
| BTreeAccess.BTree.Separator | global/libdb/bt_split.c:168-208 | over leaves, but for the entry next to the leftmost of its level, the shortest beginning of the first key on the right that is above the last on the left, if that makes the entry smaller; else the whole key; it is above the last key on the left and not above the first on the right |
| BTreeAccess.BTree.TellUp | global/libdb/bt_split.c:154-216 | the parent of a divided page is to get an entry for the new one behind the one it came by, with that separator, and the tree is good as soon as it has |
| BTreeAccess.BTree.TakeEntry | global/libdb/bt_split.c:217-306 | the parent takes the entry, or is divided itself; records stay where they are and so does the cursor |
| BTreeAccess.BTree.Propagate | global/libdb/bt_split.c:154-306 | the climb ends with a good tree in which every page has room, the same records, and no page in hand; no leaf but the two halves has changed, and the cursor has not moved |
| BTreeAccess.BTree.Split | global/libdb/bt_split.c:81-327 | a record with no room on its leaf is added to the records, and only it; the tree is good and owns every page it took, and the file has grown by those the free list did not have; the leaf has become two, cut at a number known beforehand, and all others are what they were |
| BTreeAccess.BTree.Search | global/libdb/bt_search.c:63-133 | the search ends at the leaf responsible for the key, at its place there, with the true path on the stack |
| BTreeAccess.BTree.StepRight | global/libdb/bt_delete.c:179-217 | from the path to a leaf, popping and pushing gives the path to its right neighbour |
| BTreeAccess.BTree.StepLeft | global/libdb/bt_delete.c:234-272 | and likewise to its left neighbour |
| BTreeAccess.BTree.StkAcq | global/libdb/bt_delete.c:144-278 | from a search for any key the walk right and then left ends with the true path to the leaf of the cursor |
| BTreeAccess.BTree.Unhook | global/libdb/bt_delete.c:628-648 | a page leaves its level and goes to the free list; nothing else changes |
| BTreeAccess.BTree.DropAncestor | global/libdb/bt_delete.c:417-426 | an ancestor other than the root with one entry goes too: it is taken out of its level and freed, and the climb is where it was one level up |
| BTreeAccess.BTree.EmptyRoot | global/libdb/bt_delete.c:417-453 | a root with one entry turns back into an empty leaf, and nothing else of the tree is left |
| BTreeAccess.BTree.LeaveAncestor | global/libdb/bt_delete.c:427-453 | an ancestor with other entries loses the one, the leaf goes, and the tree is good |
| BTreeAccess.BTree.PDelete | global/libdb/bt_delete.c:373-454 | an emptied leaf and every ancestor it empties are freed, the tree is good, has no empty page but perhaps the root, and keeps its records; the file is as long as before |
| BTreeAccess.BTree.DLeaf | global/libdb/bt_delete.c:467-517 | exactly one record goes, its chain is freed, and the cursor is moved or keeps the key |
| BTreeAccess.BTree.BDelete | global/libdb/bt_delete.c:289-309 | the map loses the key, status says whether it was there, nothing leaks, the cursor stays with its key, and the file is as long as before |
| BTreeAccess.BTree.DeleteCursor | global/libdb/bt_delete.c:94-123 | the map loses the key under the cursor, which keeps it; otherwise the status says why not and nothing changes |
| BTreeAccess.BTree.Get | global/libdb/bt_get.c:60-102 | the data of the map, or RET_SPECIAL exactly when the key is absent |
| BTreeAccess.BTree.Ret | global/libdb/bt_utils.c:68-139 | the stored data, from the leaf or from its chain |
| BTreeAccess.BTree.Fast | global/libdb/bt_put.c:267-322 | the shortcut is taken exactly if the key is not before the last record of the tree, or not behind the first, where the last one went, and there is room; then page, index and outcome are those a search gives |
| BTreeAccess.BTree.Find | global/libdb/bt_put.c:164-173 | the place of the key: by the shortcut exactly if that can be taken, with room; else by a search with the path on the stack |
| BTreeAccess.BTree.PlaceData | global/libdb/bt_put.c:128-154 | what is stored carries the data; the map is unchanged, and only a chain of the data may be new |
| BTreeAccess.BTree.InsertHere | global/libdb/bt_put.c:214-244 | the record is added at its index, the cursor follows, and a hint is left exactly if the record is at an edge of the tree |
| BTreeAccess.BTree.NoteOrder | global/libdb/bt_put.c:230-244 | the hint is set exactly if the record is the last of the rightmost leaf, or the first of the leftmost, and is for that place |
| BTreeAccess.BTree.PutIn | global/libdb/bt_put.c:207-253 | the record goes in, with or without a division; the cursor stays with its record exactly unless the division loses its slot, and that is exactly unless its record is left behind; the pages taken are accounted for, and so is the hint |
| BTreeAccess.BTree.ClearPlace | global/libdb/bt_put.c:174-199 | a record with the key goes first, with its chain; the place for the new one is right and whether the cursor will stray is as it was before |
| BTreeAccess.BTree.Store | global/libdb/bt_put.c:174-253 | the map gets the key with the data, in place of what it had; the cursor stays with its key if and only if it does not stray, a condition on the state before |
| BTreeAccess.BTree.Put | global/libdb/bt_put.c:70-253 | the map gets the data unless it may not overwrite; status RET_SPECIAL exactly then, with a chain left behind exactly when the data needed one; the cursor stays with its key, through any divisions, if and only if it does not stray, that is, afterwards: if its record is not behind or the last of the left half of a divided leaf with the new record; the file is as long as before or as the most pages that were in use at one time; and which hint is left |
| BTreeAccess.BTree.HintIsFresh | global/libdb/bt_put.c:300-307 | whether the left-edge hint still leads to a leaf of the tree is whether its page holds any items |
| BTreeAccess.BTree.FrontFree | global/libdb/bt_split.c:722-736 | a search tells beforehand whether a division for the record would go wrong |
| Shrink.FrontHere | global/libdb/bt_split.c:722-736 | a division goes wrong for no other record than one of half a page whose place, the only one there is, is the front of a leaf without room |
| BTreeAccess.BTree.CursorStrays | global/libdb/bt_split.c:700-717 | a search tells beforehand whether the insertion will take the cursor off its record |
| BTreeAccess.BTree.First | global/libdb/bt_seq.c:337-426 | the record with the least key not below the given one, or none if there is none |
| BTreeAccess.BTree.SeqSet | global/libdb/bt_seq.c:149-221 | the first, the last or the keyed start of a scan, by the keys of the whole tree |
| BTreeAccess.BTree.SeqAdv | global/libdb/bt_seq.c:235-321 | the record with the next or previous key of the whole tree; from a deleted record, the least key not below it |
| BTreeAccess.BTree.Seq | global/libdb/bt_seq.c:76-133 | key and data of that record in the map, with the cursor on it; the end is reported exactly when there is none |
| Cursors.SplitCursorExactly | global/libdb/bt_split.c:700-717 | a division leaves the cursor on the slot of its record if and only if the open slot is on the right page or the record is before the last slot on the left; then that slot holds the record |
| Cursors.SplitCursorAstray | global/libdb/bt_split.c:700-717 | otherwise the cursor is on the record after its own, or behind the last item of the right page when it was on the last one |
| Cursors.SplitTakes | global/libdb/bt_split.c:700-717 | the same for the items of the two halves once the slot is filled |
| Cursors.CursorLost | global/libdb/bt_split.c:700-717 | a page of two records on which either cursor is lost, one to the other record and one to behind it |
| Carry.RidesSplit | global/libdb/bt_split.c:700-717 | over the whole file, a division of a leaf keeps the cursor with its key if and only if its slot is not lost |
| Carry.DividedBehind | global/libdb/bt_split.c:700-717 | the slot of a cursor is lost if and only if afterwards the new record is on the left half and the record of the cursor is the last there or behind |
| Carry.StraysHere | global/libdb/bt_split.c:700-717 | whether the cursor will stray is settled by the one place a search finds for the key |
| Carry.GrownDivides | global/libdb/bt_split.c:154-327 | after the climb the leaf is two leaves next to each other over its old range, and every other leaf is as it was |
| Carry.CursorLostInTree | global/libdb/bt_split.c:700-717 | a tree on which an insertion takes the cursor off its record |
| Cursors.DeleteKeepsRecord | global/libdb/bt_delete.c:509-514 | a deletion leaves the cursor on its record, or with its key |
| Cursors.InsertKeepsRecord | global/libdb/bt_put.c:224-228 | an insertion leaves the cursor on its record |
| Scan.NextIsLeast | global/libdb/bt_seq.c:273-291 | the item after a place, across the sibling link if need be, has the least greater key of the tree |
| Scan.PrevIsGreatest | global/libdb/bt_seq.c:292-315 | the item before it has the greatest smaller key |
| Scan.UpRight | global/libdb/bt_delete.c:184-197 | one step up the stack finds the next subtree of the same height, or a page that ends where this one does |
| Runs.Perform | global/libdb/bt_put.c:70-253 | each operation answers as the map with a cursor does, and leaves the cursor as that one has it if and only if it is not an insertion that makes it stray; only an insertion makes the file longer, and only to the most pages that were in use at one time |
| Runs.Stops | global/libdb/bt_split.c:700-736 | the three conditions on an insertion can be found out beforehand without changing the tree |
| Runs.Run | global/libdb/bt_put.c:70-253 | so does every run of insertions, deletions, lookups and scans in any order, with exactly one chain lost per refused insertion of big data, until an insertion would make the cursor stray, would divide a leaf wrongly, or meets a left-edge hint to a page that has left the tree |
| Runs.TraceOnce | global/libdb/bt_seq.c:76-133 | the map leaves no choice: two runs of the same operations have the same replies |
| Runs.ScanReturnsAll | global/libdb/bt_seq.c:76-133 | R_FIRST and then R_NEXT, or R_LAST and then R_PREV, returns every record once in strictly increasing or decreasing order, and then the end for good |
| Runs.DrainReturnsAll | global/libdb/bt_delete.c:94-123 | R_NEXT and deletion at the cursor in turn return every record in order and leave an empty map |
| WholeFile.EveryPageOneUse | global/libdb/bt_page.c:55-94 | every page is exactly one of: metadata, reached from the root, on the free list, on a chain |
| WholeFile.NoPageTwice | global/libdb/bt_page.c:55-94 | no page is twice on the free list or on the chains |
| WholeFile.FreeListEnds | global/libdb/bt_page.c:55-94 | the links of the free list visit its pages and end |
| WholeFile.NoLitterNoLeak | global/libdb/bt_put.c:123-127 | with no refused insertion every chain is the data of one record |
| WholeFile.LeadsOnce | global/libdb/bt_split.c:154-299 | one way leads from the root to a page |
| WholeFile.UniformDepth | global/libdb/bt_split.c:81-306 | the leaves are the pages at the full depth |
| WholeFile.EveryLevelLinked | global/libdb/bt_split.c:355-412 | every level of the tree is one list through the sibling links, both ways, each page once |
| WholeFile.LeavesListTheMap | global/libdb/bt_split.c:355-412 | the keys along the leaves are those of the map, in order |
| RawPage.ReadBack | global/libdb/btree.h:186-216 | an item written to a page is read back the same |
| RawPage.ItemMoved | global/libdb/bt_delete.c:495-499 | the same bytes elsewhere are the same item |
| RawPage.ItemsTileTheHeap | global/libdb/btree.h:103-113 | every byte above the free space belongs to exactly one item |
| RawPage.Inserted | global/libdb/bt_put.c:215-222 | the bytes after an insertion are those of the items with the new one in place, and the bounds fit |
| RawPage.Removed | global/libdb/bt_delete.c:495-508 | the bytes after a removal are those of the other items in order, and the bounds fit |
| RawPage.PageBuffer.Insert | global/libdb/bt_put.c:215-222 | the writes of an insertion in place insert the item and keep every other one |
| RawPage.PageBuffer.Delete | global/libdb/bt_delete.c:488-508 | moving the heap, fixing offsets and closing the index array removes the item and keeps every other one; the last item of a page is still to be found behind slot 0 |
| RawPage.PageBuffer.CloseSlots | global/libdb/bt_delete.c:501-508 | the offsets below the hole move with their items and those behind the index close up |
| RawPage.PageBuffer.Free | global/libdb/bt_put.c:207-208 | the free space by the bounds is the page less the items and slots |
| RawPage.PageBuffer.constructor | global/libdb/bt_open.c:388-396 | a page with its bounds set is empty |
| PageImage.TreePageEncodable | global/libdb/btree.h:135-217 | every page of a good tree that fits its size can be written to a buffer, as long as numbers fit 32 bits |
| PageImage.Image | global/libdb/bt_split.c:676-682 | filling an empty page with items one after the other yields a page that holds exactly them |
| PageImage.DivideBuffer | global/libdb/bt_split.c:607-768 | the division of a page carries over to its bytes: two buffers hold the two parts, cut at the same place |
| PageImage.StaleBackHint | global/libdb/bt_put.c:300-307 | a left-edge hint whose page was emptied and freed hits for every key not above the record that is gone, and the insertion puts a smaller one on the free page |
| Turning.TurnsOn | global/libdb/bt_conv.c:152-196 | a word turned round disturbs no other word of a disjoint set |
| Turning.ApplyPart | global/libdb/bt_conv.c:56-204 | what a run of swaps makes of a part of the page depends only on the words in that part and their order |
| Turning.OverlapUndone | global/libdb/bt_conv.c:56-121 | two words with one byte in common, swapped out and in in the same order, come back if and only if the two outer bytes are the same as the common one |
| Convert.PageWordsApart | global/libdb/bt_conv.c:133-204 | the words of a page are disjoint, and no flags byte is in any of them |
| Convert.PgOut | global/libdb/bt_conv.c:133-204 | the words of header, items and slots are swapped one after the other as the source does, overlapping or not; where they do not overlap exactly the words of the page are turned round, and the other machine reads what was there |
| Convert.AwayReads | global/libdb/bt_conv.c:133-204 | on a page that has gone out a machine of the other byte order reads the numbers of the header, of the slots, of the items and of their references as they were, and the bytes of items without references and of overflow pages are the same |
| Convert.PgIn | global/libdb/bt_conv.c:56-122 | the walk in finds the same words in its own order, though the page is turned round; where they do not overlap the original comes back, byte for byte |
| Convert.RoundTrip | global/libdb/bt_conv.c:56-204 | out and in again changes nothing on a convertible page, and makes of any other what the swaps one after the other make of it |
| Convert.MSwap | global/libdb/bt_conv.c:206-227 | six words of the metadata page are turned round, and the same call undoes it |
| Convert.ReferenceFound | global/libdb/bt_conv.c:98-121 | the words converted for big data are its reference if and only if the key has four bytes, and lie in the item if and only if it has at least four |
| Convert.TreePageConvertible | global/libdb/bt_conv.c:56-204 | a page of the tree meets the condition of the round trip if and only if every record with its data on a chain has a key of at least four bytes |
| ShortKeys.ShortKeyOverruns | global/libdb/bt_conv.c:110-120 | for a record with big data and a key under four bytes the words converted reach one byte off the page, or into the first word of another item |
| ShortKeys.ShortIs | global/libdb/bt_conv.c:56-204 | the records in question are, in terms of items, those with big data and a key under four bytes |
| ShortKeys.LeafComesHome | global/libdb/bt_conv.c:56-204 | every leaf page that is not written beyond its end comes back from the disk if and only if, for each such record, the three bytes at 17, 20 and 23 from its start are the same |
| ShortKeys.PageLost | global/libdb/bt_conv.c:56-204 | a page of 512 bytes with two records that does not come back |
| Pool.MPool.constructor | global/libdb/mpool.c:76-112 | a pool over a file shows the file |
| Pool.MPool.Get | global/libdb/mpool.c:179-269 | the bucket carries the page as last written, pinned and most recently used; no page changes for any holder; a cached page is found without touching anything else, and a page read in puts out one other at most, the one nobody holds that was not got for the longest time, and none below the limit |
| Pool.MPool.New | global/libdb/mpool.c:140-172 | one page more at the end, pinned, the others unchanged; what it puts out of the cache is as for a page read in |
| Pool.MPool.Put | global/libdb/mpool.c:276-299 | one pin less, no page changes |
| Pool.MPool.Write | global/libdb/mpool.c:271-299 | a holder's write shows on its page and no other |
| Pool.MPool.Sync | global/libdb/mpool.c:329-344 | no page changes, no bucket is dirty, and with nobody writing the file on disk is the array of pages |
| Pool.MPool.Bkt | global/libdb/mpool.c:352-405 | below the limit a new bucket, and every page stays cached; at the limit the least recently used one nobody holds, written back if and only if dirty, with nothing else written, and a new one only with every page pinned |
| Pool.MPool.WriteBack | global/libdb/mpool.c:413-442 | the page is on disk as it is seen, and no other page on disk is lost |
| Pool.MPool.Look | global/libdb/mpool.c:450-472 | the bucket of the page, or the page is not cached |
| Pool.HashSpreads | global/libdb/mpool.h:42 | pages share a hash chain exactly if their numbers are a multiple of 128 apart |
| Pool.Dequeued | global/libdb/mpool.c:379-382 | a bucket off its queues leaves every other on its own hash chain and once on the list of use |
| Pool.Enqueued | global/libdb/mpool.c:162-167 | and so does one put on them |
| Literal.Matcher.CGotoFn | global/global/literal.c:245-287 | the trie accepts exactly the accepted words, its states are the beginnings of the words, and it marks every word of the pattern if and only if none is lost; the table is full only for patterns of at least half its size |
| Literal.WrittenMarked | global/global/literal.c:245-287 | a trie that marks the accepted words marks all words of the pattern if and only if the last one is ended, repeated, or the beginning of no other |
| Literal.BeginningLost | global/global/literal.c:245-287 | a pattern that loses a word |
| Literal.OneWord | global/global/literal.c:89-105 | a pattern of one line is one accepted word |
| Literal.Matcher.FindFail | global/global/literal.c:325-341 | the walk ends and finds an alternative of the failure state if that has one, else of the root, else none |
| Literal.Matcher.SetFail | global/global/literal.c:329-334 | all entries of the state and no others get the link, and the mark of where it leads |
| Literal.Matcher.CFail | global/global/literal.c:289-346 | afterwards every entry of every state has the link to the head of its failure state, or none if it has none, and exactly the marks of the words and those handed on along the links; every link leads to a shorter end of the state |
| Literal.FailBelow | global/global/literal.c:325-341 | the failure state of a state is that of the one above it and one character on, if there is such a state, else that of the character alone, else none |
| Literal.Matcher.Compile | global/global/literal.c:89-105 | both together: the states of the pattern, their links and their marks, with no accepted word unmarked; every pattern of less than half the size of the table is accepted |
| Literal.Matcher.NextState | global/global/literal.c:168-190 | the jumps on one character end |
| Literal.NextIsSuffix | global/global/literal.c:168-190 | the state after a character stands for an end of what has been read |
| Literal.HitIsSound | global/global/literal.c:191-216 | a hit is a word of the text |
| Literal.Matcher.Search | global/global/literal.c:161-226 | the line numbers reported are those of the lines with a hit, or with Vflag of the others, by lines with their line breaks |
| Literal.ReportsPartition | global/global/literal.c:191-226 | with and without Vflag every line number is reported exactly once, in order |
| Literal.ReportsAreSound | global/global/literal.c:191-226 | every line reported without Vflag contains one of the words |
| Literal.LinesJoin | global/global/literal.c:161-226 | the lines put together are the text |
| AllFound.HitIsFound | global/global/literal.c:168-216 | the scan over entries, alternatives and links finds in every text what a walk over strings finds that knows of the words only which states there are |
| AllFound.HandsChain | global/global/literal.c:329-332 | a state is marked if and only if it or a state its links lead to is a word |
| AllFound.ChainGoes | global/global/literal.c:169-190 | an end of the text that a state stands for is not given up while it can go on: the next state has it, one character longer, at its end |
| AllFound.ChainCame | global/global/literal.c:325-341 | and none comes back: what the next state stands for, the state stood for with one character less |
| AllFound.KeptIsFound | global/global/literal.c:161-216 | if every state stands for the beginning of some word pending there, every text with a word is found |
| AllFound.NotKeptNotFound | global/global/literal.c:161-216 | if a state and the rest of a word are pending and it stands for no such beginning, the text of both has a word and is not found |
| AllFound.EmptyMissed | global/global/literal.c:178-191 | with an empty word some line of one character is missed unless all other words begin with one character that is a word |
| AllFound.ReportsExactly | global/global/literal.c:161-226 | the lines reported without Vflag are exactly those with a word, in every file, if and only if the words meet `Sees` |
| AllFound.PatternExactly | global/global/literal.c:89-105 | the same of the trie that the construction leaves for any pattern, empty lines and lost words included |
| AllFound.WordMissed | global/global/literal.c:325-341 | the trie of one word of seven characters misses it in a text of eleven |

## Left out

- BTreeAccess.BTree.constructor: a number of keys per page that leaves fewer than 14 bytes for each is excluded; the cut-off wraps around there (`Layout.CutoffLeavesRoomForTwo`), and records above half a page would be stored.
- BTreeAccess.BTree.Put: keys that do not stay on the page are excluded (`KeyStaysInline`): a key on a chain is searched by its eight-byte reference, and loses its flag in a root division.
- BTreeAccess.BTree.PlaceData: excludes the same keys.
- BTreeAccess.BTree.Put: a record of exactly half a page that would be the first of a full leaf is excluded (`FrontOk`), the one family of inputs on which the division itself goes wrong.
- BTreeAccess.BTree.DivideItems: excludes the same family (`SplitSafe`).
- BTreeAccess.BTree.DividePage: excludes the same family.
- BTreeAccess.BTree.DivideRoot: excludes the same family.
- BTreeAccess.BTree.Split: excludes the same family.
- BTreeAccess.BTree.PutIn: excludes the same family, and left-edge hints whose page has left the tree.
- BTreeAccess.BTree.Store: excludes the same family, and the same hints.
- PageImage.DivideBuffer: excludes the same family.
- BTreeAccess.BTree.Put: a left-edge hint whose page a deletion has freed is excluded (`HintFresh`), also where the shortcut would miss; what such a hint does while the page is free is `PageImage.StaleBackHint`.
- BTreeAccess.BTree.Fast: excludes the same hints.
- BTreeAccess.BTree.Find: excludes the same hints.
- BTreeAccess.BTree.DeleteCursor: a cursor that an insertion has taken behind the last item of a page is excluded (`CursorOk`); the source reads beyond the index array there.
- BTreeAccess.BTree.SeqAdv: excludes the same cursors.
- BTreeAccess.BTree.Seq: excludes the same cursors.
- Runs.Perform: an insertion that the conditions on `Put` exclude is excluded.
- Runs.Run: ends before an insertion that takes the cursor of a scan off its record (`Perform` states what such an insertion does, and nothing is stated of scans from the wrong record), and before one that the conditions on `Put` exclude.
- Duplicate keys, R_CURSOR and R_SETCURSOR insertions, and big keys: the source does not meet its own invariants there.
- The RECNO branches: nothing opens such a tree.
- I/O and allocation errors, read-only trees, pinned pages across calls, B_DB_LOCK, statistics: the operations are modelled where these do not occur.
- The 50-entry limit of the parent stack and 32-bit page numbers: stack and page numbers are unbounded.
- The limit on big keys per page in the division, and comparison or prefix functions given by the user.
- In the tree layer a page is a value of the page file that is replaced, not a buffer that is written to; `RawPage` and `PageImage` show for one page that the writes to the buffer have that effect on its items.
- That the tree keeps the discipline of the pool (no page got twice, every written page given back dirty) is not shown: the tree works on the pages as the pool shows them.
- ShortKeys.LeafComesHome: a page whose last record has big data and a key under four bytes is excluded (`Stays`); the source writes one byte behind the page there.
- In the pool a bucket is an element of a table and its address the position there; the file on disk is a sequence of pages, and the conversion filters are the identity.
- Pool.MPool.Get: a page somebody holds may not be got again; the pin is a flag, so the first to give it back would unpin it for both.
- Pool.MPool.Put: a page that is new or was written to must be given back as dirty, or the change is lost with the bucket.
- The bound of the queue in the construction of failure links, case folding, path-only output and the reading of the file.
