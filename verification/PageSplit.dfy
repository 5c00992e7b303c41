/**
 `bt_psplit`: dividing the items of a full page over a left and a right page while leaving one
 index slot open, on one of the two, for the item whose insertion caused the split.
 */
module PageSplit {
  import opened Keys
  import opened Layout

  /** An index slot during a split: open, or pointing at an item already copied. */
  datatype Slot = Hole | Filled(item: Item)

  /** The items of a page with an open slot before index `skip`. */
  function Holed(items: seq<Item>, skip: nat): (h: seq<Slot>)
    requires skip <= |items|
    ensures |h| == |items| + 1
  {
    seq(|items| + 1, j requires 0 <= j <= |items| =>
      if j < skip then Filled(items[j]) else if j == skip then Hole else Filled(items[j - 1]))
  }

  function SlotBytes(s: Slot, ilen: nat): nat {
    match s
    case Hole => ilen
    case Filled(it) => NBytes(it)
  }

  /** Bytes of a run of slots when the open one receives an item of `ilen` bytes. */
  function SlotsUsed(slots: seq<Slot>, ilen: nat): nat {
    if slots == [] then 0
    else SlotsUsed(slots[..|slots| - 1], ilen) + SlotBytes(slots[|slots| - 1], ilen) + SLOT
  }

  /** The items of a run of slots once `it` fills every open one. */
  function Fill(slots: seq<Slot>, it: Item): (items: seq<Item>)
    ensures |items| == |slots|
  {
    seq(|slots|, j requires 0 <= j < |slots| => if slots[j].Hole? then it else slots[j].item)
  }

  lemma {:induction false} FillHoled(items: seq<Item>, skip: nat, it: Item)
    requires skip <= |items|
    ensures Fill(Holed(items, skip), it) == InsertAt(items, skip, it)
  {
  }

  lemma {:induction false} FillUsed(slots: seq<Slot>, it: Item)
    ensures Used(Fill(slots, it)) == SlotsUsed(slots, NBytes(it))
  {
    if slots != [] {
      var front := slots[..|slots| - 1];
      FillUsed(front, it);
      assert Fill(slots, it)[..|slots| - 1] == Fill(front, it);
    }
  }

  lemma {:induction false} SlotsUsedSplit(slots: seq<Slot>, m: nat, ilen: nat)
    requires m <= |slots|
    ensures SlotsUsed(slots, ilen) == SlotsUsed(slots[..m], ilen) + SlotsUsed(slots[m..], ilen)
  {
    if m == |slots| {
      assert slots[..m] == slots && slots[m..] == [];
    } else {
      var front := slots[..|slots| - 1];
      SlotsUsedSplit(front, m, ilen);
      assert front[..m] == slots[..m];
      assert slots[m..][..|slots| - m - 1] == front[m..];
    }
  }

  /** The open slot adds the size of the coming item and nothing else. */
  lemma {:induction false} HoledUsed(items: seq<Item>, skip: nat, ilen: nat)
    requires skip <= |items|
    ensures SlotsUsed(Holed(items, skip), ilen) == Used(items) + ilen + SLOT
  {
    hide Used; hide SlotsUsed;
    var h := Holed(items, skip);
    SlotsUsedSplit(h, skip, ilen);
    SlotsUsedSplit(h[skip..], 1, ilen);
    SlotsUsedHole(ilen);
    assert h[skip..][..1] == [Hole];
    FilledUsed(items[..skip], ilen);
    FilledUsed(items[skip..], ilen);
    assert h[..skip] == AllFilled(items[..skip]);
    assert h[skip..][1..] == AllFilled(items[skip..]);
    UsedSplit(items, skip);
  }

  lemma {:induction false} SlotsUsedHole(ilen: nat)
    ensures SlotsUsed([Hole], ilen) == ilen + SLOT
  {
    assert [Hole][..0] == [];
  }

  function AllFilled(items: seq<Item>): (s: seq<Slot>)
    ensures |s| == |items|
  {
    seq(|items|, j requires 0 <= j < |items| => Filled(items[j]))
  }

  lemma {:induction false} FilledUsed(items: seq<Item>, ilen: nat)
    ensures SlotsUsed(AllFilled(items), ilen) == Used(items)
  {
    if items != [] {
      var front := items[..|items| - 1];
      FilledUsed(front, ilen);
      assert AllFilled(items)[..|items| - 1] == AllFilled(front);
    }
  }

  /** The page has too little free space for an item of `ilen` bytes and its index slot. */
  predicate NoRoomFor(items: seq<Item>, psize: nat, ilen: nat) {
    psize - BTDATAOFF - Used(items) < ilen + SLOT
  }

  lemma {:induction false} UsedByFew(items: seq<Item>)
    requires |items| < 2
    ensures Used(items) == if items == [] then 0 else NBytes(items[0]) + SLOT
  {
  }

  /** A page without room for an item of at most half a page already holds two. */
  lemma {:induction false} FullPageHoldsTwo(items: seq<Item>, psize: nat, ilen: nat)
    requires ValidPSize(psize) && AllSmall(items, psize) && ilen + SLOT <= HalfBytes(psize)
    requires NoRoomFor(items, psize, ilen)
    ensures |items| >= 2
  {
    if |items| < 2 { UsedByFew(items); }
  }

  /**
   The input on which the division is right: the open slot is not the first one, or the coming
   item with its slot stays strictly below half a page.
   */
  predicate SplitSafe(psize: nat, skip: nat, ilen: nat) {
    skip > 0 || ilen + SLOT < HalfBytes(psize)
  }

  /** What a division has to deliver: nothing lost, doubled or moved, and both halves fit. */
  ghost predicate Divides(items: seq<Item>, psize: nat, skip: nat, ilen: nat,
                          l: seq<Slot>, r: seq<Slot>, onLeft: bool, pskip: nat)
    requires skip <= |items|
  {
    && l + r == Holed(items, skip)
    && |l| > 0 && |r| > 0
    && SlotsUsed(l, ilen) <= FullBytes(psize) && SlotsUsed(r, ilen) <= FullBytes(psize)
    && (onLeft <==> skip < |l|)
    && pskip == (if onLeft then skip else skip - |l|)
  }

  /** How many slots go left: they reach half a page, or all but at most two of the slots. */
  ghost predicate LeftShare(items: seq<Item>, psize: nat, skip: nat, ilen: nat, m: nat)
    requires skip <= |items|
  {
    && 0 < m <= |items|
    && SlotsUsed(Holed(items, skip)[..m], ilen) <= FullBytes(psize)
    && (SlotsUsed(Holed(items, skip)[..m], ilen) >= HalfBytes(psize) || |items| + 1 - m <= 2)
    && (m == 1 && skip == 0 <==> !SplitSafe(psize, skip, ilen))
  }

  /** The first number of slots from `m` on that takes half a page, or all of them. */
  function FirstHalf(slots: seq<Slot>, half: nat, ilen: nat, m: nat): (n: nat)
    requires m <= |slots|
    ensures m <= n <= |slots| && (n < |slots| ==> SlotsUsed(slots[..n], ilen) >= half)
    ensures forall i :: m <= i < n ==> SlotsUsed(slots[..i], ilen) < half
    decreases |slots| - m
  {
    if m == |slots| || SlotsUsed(slots[..m], ilen) >= half then m else FirstHalf(slots, half, ilen, m + 1)
  }

  /**
   The number of slots that go left: as few as take half a page, but never the last old item, and
   one less if the last of them would overfill the page behind the open slot.
   */
  function LeftCount(items: seq<Item>, psize: nat, skip: nat, ilen: nat): nat
    requires skip <= |items| && items != []
  {
    var h := Holed(items, skip);
    var e := FirstHalf(h, HalfBytes(psize), ilen, 1);
    if e > MostLeft(items, skip) then MostLeft(items, skip)
    else if skip < e && SlotsUsed(h[..e], ilen) >= FullBytes(psize) then e - 1
    else e
  }

  function MostLeft(items: seq<Item>, skip: nat): nat
    requires items != []
  {
    if skip >= |items| - 1 then |items| - 1 else |items|
  }

  /** Bytes of the first `m` slots when the open one is filled. */
  function FirstUsed(items: seq<Item>, skip: nat, ilen: nat, m: nat): nat
    requires skip <= |items| && m <= |items| + 1
  {
    SlotsUsed(Holed(items, skip)[..m], ilen)
  }

  lemma {:induction false} FirstUsedGrows(items: seq<Item>, skip: nat, ilen: nat, m: nat, n: nat)
    requires skip <= |items| && m <= n <= |items| + 1
    ensures FirstUsed(items, skip, ilen, m) <= FirstUsed(items, skip, ilen, n)
    ensures m < n ==> FirstUsed(items, skip, ilen, m) < FirstUsed(items, skip, ilen, n)
  {
    hide SlotsUsed;
    if m < n {
      FirstUsedGrows(items, skip, ilen, m, n - 1);
      SlotsUsedNext(Holed(items, skip), n - 1, ilen);
    }
  }

  /**
   What makes a number of slots the one that goes left: the last old item stays right, one slot less
   would take less than half a page, no slot behind the open one overfills the page; and it takes
   half a page, or the next slot is where the last old item is due, or would overfill the page.
   */
  lemma {:induction false} LeftCountIs(items: seq<Item>, psize: nat, skip: nat, ilen: nat, m: nat)
    requires ValidPSize(psize) && AllSmall(items, psize) && ilen + SLOT <= HalfBytes(psize)
    requires skip <= |items| && |items| >= 2 && 0 < m <= |items|
    ensures m == LeftCount(items, psize, skip, ilen) <==>
            && (m < |items| || skip < |items| - 1)
            && FirstUsed(items, skip, ilen, m - 1) < (psize - BTDATAOFF) / 2
            && !(skip < m && FirstUsed(items, skip, ilen, m) >= psize - BTDATAOFF)
            && (|| FirstUsed(items, skip, ilen, m) >= (psize - BTDATAOFF) / 2
                || m == |items| || (m == |items| - 1 && skip >= |items| - 1)
                || (skip <= m && FirstUsed(items, skip, ilen, m + 1) >= psize - BTDATAOFF))
  {
    var h, half := Holed(items, skip), HalfBytes(psize);
    var e := FirstHalf(h, half, ilen, 1);
    hide SlotsUsed; hide FirstHalf; hide AllSmall; hide Holed;
    FirstOneSmall(items, psize, skip, ilen);
    FirstUsedGrows(items, skip, ilen, 0, m - 1);
    FirstUsedGrows(items, skip, ilen, m - 1, m);
    FirstUsedGrows(items, skip, ilen, m, m + 1);
    if e <= m {
      if e < m { FirstUsedGrows(items, skip, ilen, e, m - 1); }
    } else {
      if m < e - 1 { FirstUsedGrows(items, skip, ilen, m + 1, e - 1); }
    }
  }

  /** That number is a good share. */
  lemma {:induction false} CountIsShare(items: seq<Item>, psize: nat, skip: nat, ilen: nat, m: nat)
    requires ValidPSize(psize) && AllSmall(items, psize) && ilen + SLOT <= HalfBytes(psize)
    requires skip <= |items| && |items| >= 2 && 0 < m <= |items| && m == LeftCount(items, psize, skip, ilen)
    ensures LeftShare(items, psize, skip, ilen, m)
  {
    LeftCountIs(items, psize, skip, ilen, m);
    hide LeftCount; hide SlotsUsed; hide AllSmall; hide Holed;
    NextSlot(items, psize, skip, ilen, m - 1);
    NextSlot(items, psize, skip, ilen, m);
    NextSlot(items, psize, skip, ilen, 0);
    FirstOneSmall(items, psize, skip, ilen);
    FirstUsedGrows(items, skip, ilen, 1, m);
    if m > 1 { FirstUsedGrows(items, skip, ilen, 1, m - 1); }
  }

  lemma {:induction false} NextSlot(items: seq<Item>, psize: nat, skip: nat, ilen: nat, m: nat)
    requires AllSmall(items, psize) && ilen + SLOT <= HalfBytes(psize) && skip <= |items| && m <= |items|
    ensures var n := FirstUsed(items, skip, ilen, m + 1) - FirstUsed(items, skip, ilen, m);
            0 < n <= HalfBytes(psize) && (m == skip ==> n == ilen + SLOT)
  {
    SlotsUsedNext(Holed(items, skip), m, ilen);
    if m < skip { assert Small(items[m], psize); } else if m > skip { assert Small(items[m - 1], psize); }
    hide SlotsUsed;
  }

  lemma {:induction false} FirstOneSmall(items: seq<Item>, psize: nat, skip: nat, ilen: nat)
    requires ValidPSize(psize) && AllSmall(items, psize) && ilen + SLOT <= HalfBytes(psize)
    requires skip <= |items| && |items| >= 1
    ensures FirstUsed(items, skip, ilen, 0) == 0
    ensures FirstUsed(items, skip, ilen, 1) <= HalfBytes(psize) < psize - BTDATAOFF
  {
    var h := Holed(items, skip);
    SlotsUsedNone(h, ilen);
    SlotsUsedNext(h, 0, ilen);
    assert Small(items[0], psize);
    hide SlotsUsed;
  }

  /** The fill has come to slot `off` without taking half a page. */
  ghost predicate Filling(items: seq<Item>, psize: nat, skip: nat, ilen: nat, off: nat)
    requires skip <= |items| && items != []
  {
    var h := Holed(items, skip);
    && off <= MostLeft(items, skip)
    && SlotsUsed(h[..off], ilen) < HalfBytes(psize)
    && FirstHalf(h, HalfBytes(psize), ilen, 1) == FirstHalf(h, HalfBytes(psize), ilen, off + 1)
  }

  lemma {:induction false} FillGoesOn(items: seq<Item>, psize: nat, skip: nat, ilen: nat, off: nat)
    requires skip <= |items| && items != [] && Filling(items, psize, skip, ilen, off) && off < MostLeft(items, skip)
    ensures var used := SlotsUsed(Holed(items, skip)[..off + 1], ilen);
            if used < HalfBytes(psize) then Filling(items, psize, skip, ilen, off + 1)
            else LeftCount(items, psize, skip, ilen) == if skip <= off && used >= FullBytes(psize) then off else off + 1
  {
    hide SlotsUsed;
  }

  lemma {:induction false} FillEnds(items: seq<Item>, psize: nat, skip: nat, ilen: nat, off: nat)
    requires skip <= |items| && items != [] && Filling(items, psize, skip, ilen, off) && off == MostLeft(items, skip)
    ensures LeftCount(items, psize, skip, ilen) == off
  {
    hide SlotsUsed;
  }

  /** First pass of `bt_psplit`: fill the left page; `nxt` counts the old items that went there. */
  method FillLeft(items: seq<Item>, psize: nat, skip: nat, ilen: nat) returns (l: seq<Slot>, nxt: nat)
    requires ValidPSize(psize) && AllSmall(items, psize) && Fits(items, psize)
    requires skip <= |items| && ilen + SLOT <= HalfBytes(psize) && |items| >= 2
    ensures LeftShare(items, psize, skip, ilen, |l|) && |l| == LeftCount(items, psize, skip, ilen)
    ensures l == Holed(items, skip)[..|l|]
    ensures nxt == (if |l| <= skip then |l| else |l| - 1) < |items|
  {
    hide Used; hide SlotsUsed; hide LeftCount; hide FirstHalf; hide LeftShare; hide Fits;
    ghost var h := Holed(items, skip);
    var full := psize - BTDATAOFF;
    var half := full / 2;
    var used, off, top := 0, 0, |items|;
    nxt := 0;
    var linp := new Slot[top + 1](_ => Hole);
    SlotsUsedNone(h, ilen);
    while nxt < top
      invariant 0 <= off && 0 <= nxt < top
      invariant nxt == (if off <= skip then off else off - 1)
      invariant used == SlotsUsed(h[..off], ilen) < half
      invariant Filling(items, psize, skip, ilen, off)
      invariant forall j :: 0 <= j < off ==> linp[j] == h[j]
      invariant forall j :: off <= j <= top ==> linp[j] == Hole
      decreases top + 1 - off
    {
      var nbytes := if skip == off then ilen else NBytes(items[nxt]);
      assert skip != off ==> Small(items[nxt], psize);
      SlotsUsedNext(h, off, ilen);
      if nxt == top - 1 {
        FillEnds(items, psize, skip, ilen, off);
      } else {
        FillGoesOn(items, psize, skip, ilen, off);
      }
      hide Filling;
      if (skip <= off && used + nbytes + SLOT >= full) || nxt == top - 1 {
        off := off - 1;
        break;
      }
      if skip != off {
        linp[off] := Filled(items[nxt]);
        nxt := nxt + 1;
      }
      used := used + nbytes + SLOT;
      if used >= half {
        break;
      }
      off := off + 1;
    }
    l := linp[..off + 1];
    assert l == h[..off + 1];
    CountIsShare(items, psize, skip, ilen, off + 1);
  }

  /**
   Second pass of `bt_psplit`: the remaining items, from `nxt0` on, go to the right page.  `marker`
   is the slot still to be left open there, or 0 when it is already behind.
   */
  method FillRight(items: seq<Item>, nxt0: nat, marker: nat) returns (r: seq<Slot>)
    requires nxt0 < |items|
    requires marker == 0 || nxt0 <= marker <= |items|
    ensures marker > 0 ==> r == Holed(items, marker)[nxt0..]
    ensures marker == 0 && nxt0 > 0 ==> r == AllFilled(items)[nxt0..]
    ensures marker == 0 && nxt0 == 0 ==> r == [Hole] + AllFilled(items)
  {
    var nxt, off, top, skip := nxt0, 0, |items|, marker;
    var linp := new Slot[top + 1](_ => Hole);
    while nxt < top
      invariant nxt0 <= nxt <= top
      invariant skip == (if nxt > marker then 0 else marker)
      invariant off == nxt - nxt0 + if nxt > marker >= nxt0 then 1 else 0
      invariant forall j :: 0 <= j < off ==>
        linp[j] == (if marker >= nxt0 then Holed(items, marker)[nxt0 + j] else Filled(items[nxt0 + j]))
      invariant forall j :: off <= j <= top ==> linp[j] == Hole
    {
      if skip == nxt {
        off := off + 1;
        skip := 0;
      }
      linp[off] := Filled(items[nxt]);
      nxt := nxt + 1;
      off := off + 1;
    }
    if skip == top {
      off := off + 1;
    }
    r := linp[..off];
  }

  /**
   `bt_psplit`.  `nxt` is the number of old items that went left.  When the open slot is the first
   one and the item takes half a page, no old item goes left, and then the marker value 0 the code
   uses for "slot already passed" is mistaken for the slot: the right page gets a second hole.
   */
  method PSplit(items: seq<Item>, psize: nat, skip: nat, ilen: nat)
    returns (l: seq<Slot>, r: seq<Slot>, onLeft: bool, pskip: nat, nxt: nat)
    requires ValidPSize(psize) && AllSmall(items, psize) && Fits(items, psize)
    requires skip <= |items| && ilen + SLOT <= HalfBytes(psize)
    requires NoRoomFor(items, psize, ilen)
    ensures Divides(items, psize, skip, ilen, l, r, onLeft, pskip) <==> SplitSafe(psize, skip, ilen)
    ensures !SplitSafe(psize, skip, ilen) ==>
              l == [Hole] && r == [Hole] + AllFilled(items) && onLeft && pskip == 0
    ensures SplitSafe(psize, skip, ilen) ==> nxt == |l| - if onLeft then 1 else 0
    ensures |items| >= 2 && |l| == LeftCount(items, psize, skip, ilen)
  {
    FullPageHoldsTwo(items, psize, ilen);
    hide Used; hide SlotsUsed; hide LeftCount; hide NoRoomFor; hide Divides; hide Holed;
    l, nxt := FillLeft(items, psize, skip, ilen);
    onLeft := skip < |l|;
    pskip := if onLeft then skip else skip - nxt;
    r := FillRight(items, nxt, if onLeft then 0 else skip);
    if SplitSafe(psize, skip, ilen) {
      if onLeft { RestFilled(items, skip, |l|); }
      PartsDivide(items, psize, skip, ilen, l, r, onLeft, pskip);
    } else {
      TwoHoles(items, psize, skip, ilen, l, r, onLeft, pskip);
    }
  }

  /** The first slots and the rest are a proper division. */
  lemma {:induction false} PartsDivide(items: seq<Item>, psize: nat, skip: nat, ilen: nat,
                                       l: seq<Slot>, r: seq<Slot>, onLeft: bool, pskip: nat)
    requires ValidPSize(psize) && AllSmall(items, psize) && Fits(items, psize)
    requires skip <= |items| && ilen + SLOT <= HalfBytes(psize) && LeftShare(items, psize, skip, ilen, |l|)
    requires l == Holed(items, skip)[..|l|] && r == Holed(items, skip)[|l|..]
    requires (onLeft <==> skip < |l|) && pskip == (if onLeft then skip else skip - |l|)
    ensures Divides(items, psize, skip, ilen, l, r, onLeft, pskip)
  {
    hide Used; hide SlotsUsed; hide Small;
    RestFits(items, psize, skip, ilen, |l|);
    hide AllSmall; hide Fits; hide Holed;
    assert l + r == Holed(items, skip);
  }

  lemma {:induction false} TwoHoles(items: seq<Item>, psize: nat, skip: nat, ilen: nat,
                                    l: seq<Slot>, r: seq<Slot>, onLeft: bool, pskip: nat)
    requires skip <= |items| && l != [] && |r| == |items| + 1
    ensures !Divides(items, psize, skip, ilen, l, r, onLeft, pskip)
  {
    hide SlotsUsed;
    assert |l + r| != |Holed(items, skip)|;
  }

  /** A record that takes half a page of 512 bytes with its slot. */
  function HalfPage(b: byte): (r: Item)
    ensures r.Rec? && |r.key| == 232
  {
    Rec(seq(232, _ => b), Inline([]))
  }

  lemma {:induction false} TwoHalfPages()
    ensures var items := [HalfPage(1), HalfPage(2)];
            && ValidPSize(512) && NBytes(items[0]) == 244 && NBytes(items[1]) == 244
            && AllSmall(items, 512) && Fits(items, 512) && Used(items) == 492
  {
    var items := [HalfPage(1), HalfPage(2)];
    UsedByFew(items[..1]);
    assert items[..1][0] == items[0];
  }

  /** The division goes wrong for a third such record in front: two holes, although all `PSplit` asks for is met. */
  lemma {:induction false} SecondHole()
    ensures var items := [HalfPage(1), HalfPage(2)];
            && ValidPSize(512) && AllSmall(items, 512) && Fits(items, 512) && NBytes(HalfPage(0)) == 244
            && 244 + SLOT <= HalfBytes(512) && NoRoomFor(items, 512, 244) && !SplitSafe(512, 0, 244)
  {
    TwoHalfPages();
  }

  /** Behind the open slot there are the old items, one slot further on. */
  lemma {:induction false} RestFilled(items: seq<Item>, skip: nat, m: nat)
    requires skip < m <= |items|
    ensures Holed(items, skip)[m..] == AllFilled(items)[m - 1..]
  {
  }

  lemma {:induction false} SlotsUsedNone(slots: seq<Slot>, ilen: nat)
    ensures SlotsUsed(slots[..0], ilen) == 0
  {
  }

  lemma {:induction false} SlotsUsedNext(slots: seq<Slot>, off: nat, ilen: nat)
    requires off < |slots|
    ensures SlotsUsed(slots[..off + 1], ilen) == SlotsUsed(slots[..off], ilen) + SlotBytes(slots[off], ilen) + SLOT
  {
    assert slots[..off + 1][..off] == slots[..off];
  }

  /** What is left for the right page fits there: either half is gone, or at most two slots remain. */
  lemma {:induction false} RestFits(items: seq<Item>, psize: nat, skip: nat, ilen: nat, m: nat)
    requires ValidPSize(psize) && AllSmall(items, psize) && Fits(items, psize)
    requires skip <= |items| && ilen + SLOT <= HalfBytes(psize) && m <= |items| + 1
    requires SlotsUsed(Holed(items, skip)[..m], ilen) >= HalfBytes(psize) || |items| + 1 - m <= 2
    ensures SlotsUsed(Holed(items, skip)[m..], ilen) <= FullBytes(psize)
  {
    hide Used; hide SlotsUsed;
    var h := Holed(items, skip);
    HoledUsed(items, skip, ilen);
    SlotsUsedSplit(h, m, ilen);
    if |h| - m <= 2 {
      var rest := h[m..];
      forall j | m <= j < |h| ensures SlotBytes(h[j], ilen) + SLOT <= HalfBytes(psize) {
        assert j < skip ==> Small(items[j], psize);
        assert j > skip ==> Small(items[j - 1], psize);
      }
      SlotsUsedNone(rest, ilen);
      if |rest| >= 1 { SlotsUsedNext(rest, 0, ilen); }
      if |rest| >= 2 { SlotsUsedNext(rest, 1, ilen); }
      assert rest == rest[..|rest|];
    }
  }

  /** Once the open slot is filled the two pages hold the items of the page with the new one in place. */
  lemma {:induction false} DividedItems(items: seq<Item>, psize: nat, skip: nat, it: Item, l: seq<Slot>, r: seq<Slot>,
                                        onLeft: bool, pskip: nat)
    requires ValidPSize(psize) && skip <= |items|
    requires Divides(items, psize, skip, NBytes(it), l, r, onLeft, pskip)
    ensures 0 < |l| <= |items| && |r| == |items| + 1 - |l|
    ensures Fill(l, it) == InsertAt(items, skip, it)[..|l|] && Fill(r, it) == InsertAt(items, skip, it)[|l|..]
    ensures Fits(Fill(l, it), psize) && Fits(Fill(r, it), psize)
  {
    hide Used; hide SlotsUsed;
    var w := InsertAt(items, skip, it);
    assert |l + r| == |Holed(items, skip)|;
    FillHoled(items, skip, it);
    assert Fill(l + r, it) == Fill(l, it) + Fill(r, it);
    assert w == Fill(l, it) + Fill(r, it);
    assert w[..|l|] == Fill(l, it) && w[|l|..] == Fill(r, it);
    FillUsed(l, it);
    FillUsed(r, it);
  }
}
