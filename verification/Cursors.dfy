/**
 The cursor of a sequential scan, and what insertions, deletions and page divisions do to it.
 */
module Cursors {
  import opened Keys
  import opened Layout
  import opened PageSplit

  /** No scan yet, on a record, or on a record deleted since, whose key was kept. */
  datatype Cursor = NoCursor | At(pg: PgNo, index: nat) | Acquire(key: Key)

  /** `__bt_dleaf` and `__bt_curdel`: the record `index` of page `h`, with this key, goes. */
  function AfterDelete(c: Cursor, h: PgNo, index: nat, key: Key): Cursor {
    if c == At(h, index) then Acquire(key)
    else if c.At? && c.pg == h && c.index > index then At(h, c.index - 1)
    else c
  }

  /** The two halves of it, before and after the record goes. */
  lemma {:induction false} DeletedUnder(c: Cursor, c1: Cursor, c2: Cursor, h: PgNo, index: nat, key: Key)
    requires c1 == if c == At(h, index) then Acquire(key) else c
    requires c2 == if c1.At? && c1.pg == h && c1.index > index then At(h, c1.index - 1) else c1
    ensures c2 == AfterDelete(c, h, index, key)
  {
  }

  /** `__bt_put`: a record comes in before index `index` of page `h`. */
  function AfterInsert(c: Cursor, h: PgNo, index: nat): Cursor {
    if c.At? && c.pg == h && c.index >= index then At(h, c.index + 1) else c
  }

  /** `bt_psplit`: page `h` is divided over `l` and `r`, `nxt` of its items going left. */
  function AfterSplit(c: Cursor, h: PgNo, l: PgNo, r: PgNo, skip: nat, nxt: nat): Cursor {
    if c.At? && c.pg == h then
      var slot := if c.index >= skip then c.index + 1 else c.index;
      if slot < nxt then At(l, slot) else At(r, slot - nxt)
    else c
  }

  /** A deletion leaves a cursor on another record of the page on that record. */
  lemma {:induction false} DeleteKeepsRecord(items: seq<Item>, h: PgNo, index: nat, i: nat)
    requires index < |items| && i < |items|
    ensures i == index ==> AfterDelete(At(h, i), h, index, items[index].key) == Acquire(items[i].key)
    ensures i != index ==>
              var c := AfterDelete(At(h, i), h, index, items[index].key);
              c.At? && c.pg == h && c.index < |items| - 1 && RemoveAt(items, index)[c.index] == items[i]
  {
  }

  /** So does an insertion. */
  lemma {:induction false} InsertKeepsRecord(items: seq<Item>, h: PgNo, index: nat, it: Item, i: nat)
    requires index <= |items| && i < |items|
    ensures var c := AfterInsert(At(h, i), h, index);
            c.At? && c.pg == h && c.index <= |items| && InsertAt(items, index, it)[c.index] == items[i]
  {
  }

  /** The cursor is on the slot of the divided page that the record of index `i` has come to. */
  ghost predicate OnItsSlot(c: Cursor, l: PgNo, r: PgNo, lsize: nat, skip: nat, i: nat) {
    && c.At?
    && var slot := if i >= skip then i + 1 else i;
       if slot < lsize then c == At(l, slot) else c == At(r, slot - lsize)
  }

  /**
   The code counts items where it should count slots: with the open slot among the `cut` slots that
   stay left, a record in the last of these or behind is missed by one.
   */
  predicate SlotLost(skip: nat, cut: nat, i: nat) {
    skip < cut && (if i >= skip then i + 1 else i) >= cut - 1
  }

  /** A division takes the cursor along exactly when the open slot is not among those that stay left, or
   the record is before the last of these; then its record is in the slot the cursor is on. */
  lemma {:induction false} SplitCursorExactly(items: seq<Item>, psize: nat, skip: nat, ilen: nat,
                                              ls: seq<Slot>, rs: seq<Slot>, onLeft: bool, pskip: nat, nxt: nat,
                                              h: PgNo, l: PgNo, r: PgNo, i: nat)
    requires skip <= |items| && i < |items| && l != r
    requires Divides(items, psize, skip, ilen, ls, rs, onLeft, pskip) && nxt == |ls| - if onLeft then 1 else 0
    requires |ls| == LeftCount(items, psize, skip, ilen)
    ensures var slot := if i >= skip then i + 1 else i;
            OnItsSlot(AfterSplit(At(h, i), h, l, r, skip, nxt), l, r, |ls|, skip, i)
            <==> |ls| <= skip || slot + 1 < |ls|
    ensures var c := AfterSplit(At(h, i), h, l, r, skip, nxt);
            OnItsSlot(c, l, r, |ls|, skip, i) ==>
              if c.pg == l then c.index < |ls| && ls[c.index] == Filled(items[i])
              else c.pg == r && c.index < |rs| && rs[c.index] == Filled(items[i])
  {
    hide SlotsUsed; hide LeftCount;
    assert |ls + rs| == |items| + 1;
    var slot := if i >= skip then i + 1 else i;
    assert (ls + rs)[slot] == if slot < |ls| then ls[slot] else rs[slot - |ls|];
  }

  /** The cursor is on an item of the left or of the right half. */
  predicate OnHalf(c: Cursor, l: PgNo, r: PgNo, left: seq<Item>, right: seq<Item>, it: Item) {
    && c.At?
    && if c.pg == l then c.index < |left| && left[c.index] == it
       else c.pg == r && c.index < |right| && right[c.index] == it
  }

  /**
   Page `h` with its items, and one more before index `skip`, has been divided over `l` and `r`: a
   cursor on record `i` is still on it, unless the new item is on the left and the record is the last
   one there or behind; then the cursor is one record further on.
   */
  ghost predicate Parted(c: Cursor, h: PgNo, items: seq<Item>, skip: nat, l: PgNo, r: PgNo, left: seq<Item>,
                        right: seq<Item>, c': Cursor) {
    if c.At? && c.pg == h then
      c.index < |items| ==>
        var slot := if c.index >= skip then c.index + 1 else c.index;
        if |left| <= skip || slot + 1 < |left| then OnHalf(c', l, r, left, right, items[c.index])
        else c' == At(r, slot + 1 - |left|)
    else c' == c
  }

  lemma {:induction false} SplitTakes(c: Cursor, h: PgNo, items: seq<Item>, skip: nat, it: Item, l: PgNo, r: PgNo,
                                      left: seq<Item>, right: seq<Item>, nxt: nat)
    requires skip <= |items| && 0 < |left| && l != r && left + right == InsertAt(items, skip, it)
    requires nxt == |left| - if skip < |left| then 1 else 0
    ensures Parted(c, h, items, skip, l, r, left, right, AfterSplit(c, h, l, r, skip, nxt))
  {
    if c.At? && c.pg == h && c.index < |items| {
      var slot := if c.index >= skip then c.index + 1 else c.index;
      assert (left + right)[slot] == items[c.index];
    }
  }

  /** A lost cursor is on the record after its own, or behind the right page when it was on the last one. */
  lemma {:induction false} SplitCursorAstray(items: seq<Item>, psize: nat, skip: nat, ilen: nat,
                                             ls: seq<Slot>, rs: seq<Slot>, onLeft: bool, pskip: nat, nxt: nat,
                                             h: PgNo, l: PgNo, r: PgNo, i: nat)
    requires skip <= |items| && i < |items|
    requires Divides(items, psize, skip, ilen, ls, rs, onLeft, pskip) && nxt == |ls| - if onLeft then 1 else 0
    requires skip < |ls| == LeftCount(items, psize, skip, ilen) && |ls| <= 1 + if i >= skip then i + 1 else i
    ensures var slot := if i >= skip then i + 1 else i;
            AfterSplit(At(h, i), h, l, r, skip, nxt) == At(r, slot + 1 - |ls|)
            && (slot + 1 - |ls| < |rs| <==> slot + 1 < |items| + 1)
            && (slot < |items| ==> rs[slot + 1 - |ls|] == Holed(items, skip)[slot + 1])
  {
    hide SlotsUsed; hide LeftCount;
    assert |ls + rs| == |items| + 1;
    var slot := if i >= skip then i + 1 else i;
    if slot < |items| { assert (ls + rs)[slot + 1] == rs[slot + 1 - |ls|]; }
  }

  /**
   A page of 512 bytes with two records of half a page, and a short record for the front of it.  One
   old record goes right; a cursor on the first ends on the second, one on the second behind it.
   */
  lemma {:induction false} CursorLost()
    ensures var items := [HalfPage(1), HalfPage(2)];
            && AllSmall(items, 512) && Fits(items, 512) && NoRoomFor(items, 512, 12) && SplitSafe(512, 0, 12)
            && LeftCount(items, 512, 0, 12) == 2 && Holed(items, 0)[2..] == [Filled(items[1])]
            && SlotLost(0, 2, 0) && SlotLost(0, 2, 1)
    ensures forall h, l, r ::
              AfterSplit(At(h, 0), h, l, r, 0, 1) == At(r, 0) && AfterSplit(At(h, 1), h, l, r, 0, 1) == At(r, 1)
  {
    TwoHalfPages();
    var items := [HalfPage(1), HalfPage(2)];
    var h := Holed(items, 0);
    assert h == [Hole, Filled(items[0]), Filled(items[1])];
    SlotsUsedNone(h, 12);
    SlotsUsedNext(h, 0, 12);
    SlotsUsedNext(h, 1, 12);
    hide SlotsUsed;
  }
}
