/**
 The pages of the tree as buffers: each has an image in bytes that holds its items, and the division
 of a page carries over to the images.
 */
module PageImage {
  import opened Keys
  import opened Layout
  import opened PageSplit
  import opened Shape
  import opened TreeState
  import opened RawPage

  /** Page numbers and data sizes fit 32 bits. */
  predicate NumbersFit(it: Item) {
    match it
    case Rec(_, Inline(_)) => true
    case Rec(_, Big(head, size)) => head < TWO32 && size < TWO32
    case Ent(_, kid) => kid < TWO32
  }

  predicate AllEncodable(items: seq<Item>, leaf: bool) { forall i :: 0 <= i < |items| ==> Encodable(items[i], leaf) }

  /** The sizes of a page see to the rest. */
  lemma {:induction false} SmallEncodable(it: Item, psize: nat)
    requires ValidPSize(psize) && Small(it, psize) && NumbersFit(it)
    ensures Encodable(it, it.Rec?)
  {
  }

  /** Every page of the tree can be written down. */
  lemma {:induction false} TreePageEncodable(ps: seq<Page>, g: Shape, psize: nat, p: PgNo)
    requires ValidPSize(psize) && Inv(ps, g) && p in g && PageSized(ps[p], psize)
    requires forall it :: it in ps[p].items ==> NumbersFit(it)
    ensures AllEncodable(ps[p].items, ps[p].kind == BLeaf) && Fits(ps[p].items, psize)
  {
    KindOf(ps, g, p);
    hide Inv; hide Rank; hide LinkOk; hide Used; hide Encodable;
    forall i | 0 <= i < |ps[p].items| ensures Encodable(ps[p].items[i], ps[p].kind == BLeaf) {
      SmallEncodable(ps[p].items[i], psize);
      if g[p].ht > 0 { assert KidOk(ps[p], g[p], g, i); }
    }
  }

  lemma {:induction false} UsedPrefix(items: seq<Item>, i: nat)
    requires i < |items|
    ensures Used(items[..i]) + NBytes(items[i]) + SLOT <= Used(items)
  {
    UsedConcat(items[..i + 1], items[i + 1..]);
    assert items[..i + 1] + items[i + 1..] == items && items[..i + 1][..i] == items[..i];
    hide NBytes;
  }

  /** A page filled with items one after the other, as `bt_psplit` fills its two. */
  method Image(items: seq<Item>, psize: nat, leaf: bool) returns (p: PageBuffer)
    requires ValidPSize(psize) && Fits(items, psize) && AllEncodable(items, leaf)
    ensures fresh(p) && fresh(p.b) && p.Valid() && p.Contents() == items && p.leaf == leaf && p.b.Length == psize
  {
    hide Used; hide NBytes; hide Encodable; hide PageBuffer.Valid; hide PageBuffer.Contents;
    p := new PageBuffer(psize, leaf);
    var i := 0;
    assert items[..0] == [];
    while i < |items|
      invariant 0 <= i <= |items| && p.Valid() && p.Contents() == items[..i] && p.leaf == leaf && p.b.Length == psize
    {
      UsedPrefix(items, i);
      p.Insert(i, items[i]);
      assert InsertAt(items[..i], i, items[i]) == items[..i + 1];
      i := i + 1;
    }
    assert items[..i] == items;
  }

  /** What is read from a buffer can be written to another. */
  lemma {:induction false} ReadEncodable(s: seq<byte>, leaf: bool)
    requires SlotsOk(s, leaf)
    ensures AllEncodable(Items(s, leaf), leaf)
  {
    forall i | 0 <= i < |Items(s, leaf)| ensures Encodable(Items(s, leaf)[i], leaf) {
      ItemAtSlot(s, leaf, i);
      ParsedEncodable(s, leaf, RawPage.Slot(s, i));
    }
  }

  lemma {:induction false} ParsedEncodable(s: seq<byte>, leaf: bool, o: nat)
    requires ItemAt(s, leaf, o)
    ensures Encodable(ReadItem(s, leaf, o), leaf)
  {
  }

  /** The items of a buffer, read through its slots. */
  method Load(p: PageBuffer) returns (items: seq<Item>)
    requires p.Valid()
    ensures items == p.Contents()
  {
    var s := p.b[..];
    hide Used; hide ReadItem;
    items := [];
    var i, n := 0, Count(s);
    while i < n
      invariant 0 <= i <= n && items == p.Contents()[..i]
    {
      ItemAtSlot(s, p.leaf, i);
      items := items + [ReadItem(s, p.leaf, RawPage.Slot(s, i))];
      i := i + 1;
    }
  }

  /** The division of a page in bytes, with the coming item filled in: its image is divided as its items are. */
  method DivideBuffer(p: PageBuffer, skip: nat, it: Item) returns (l: PageBuffer, r: PageBuffer)
    requires p.Valid() && ValidPSize(p.b.Length) && AllSmall(p.Contents(), p.b.Length)
    requires skip <= |p.Contents()| && Small(it, p.b.Length) && Encodable(it, p.leaf)
    requires NoRoomFor(p.Contents(), p.b.Length, NBytes(it)) && SplitSafe(p.b.Length, skip, NBytes(it))
    ensures fresh(l) && fresh(r) && l.Valid() && r.Valid() && l.leaf == r.leaf == p.leaf
    ensures l.b.Length == r.b.Length == p.b.Length
    ensures var m := LeftCount(p.Contents(), p.b.Length, skip, NBytes(it));
            var w := InsertAt(p.Contents(), skip, it);
            && 0 < m < |w| && l.Contents() == w[..m] && r.Contents() == w[m..]
  {
    var psize := p.b.Length;
    var items := Load(p);
    BufferFits(p);
    hide Used; hide NBytes; hide SlotsUsed; hide Encodable; hide Fill; hide LeftCount; hide NoRoomFor; hide SplitSafe;
    hide PageBuffer.Valid; hide PageBuffer.Contents; hide InsertAt; hide Small;
    var ls, rs, onLeft, pskip, nxt := PSplit(items, psize, skip, NBytes(it));
    DividedItems(items, psize, skip, it, ls, rs, onLeft, pskip);
    HalvesEncodable(items, skip, it, |ls|, p.leaf);
    l := Image(Fill(ls, it), psize, p.leaf);
    r := Image(Fill(rs, it), psize, p.leaf);
  }

  lemma {:induction false} BufferFits(p: PageBuffer)
    requires p.Valid() && ValidPSize(p.b.Length)
    ensures Fits(p.Contents(), p.b.Length) && AllEncodable(p.Contents(), p.leaf)
  {
    Basics(p.b[..], p.leaf);
    ReadEncodable(p.b[..], p.leaf);
    hide Used; hide Items; hide Encodable; hide SlotsOk;
  }

  lemma {:induction false} HalvesEncodable(items: seq<Item>, skip: nat, it: Item, m: nat, leaf: bool)
    requires AllEncodable(items, leaf) && Encodable(it, leaf) && skip <= |items| && m <= |items| + 1
    ensures AllEncodable(InsertAt(items, skip, it)[..m], leaf) && AllEncodable(InsertAt(items, skip, it)[m..], leaf)
  {
    hide Encodable;
  }

  // ---------------------------------------------------------------- a hint that outlives its page

  /**
   The left-edge branch of `bt_fast`, and the insertion that follows a hit, on a page that a deletion
   has emptied and freed: `s` was the page before, with its only record.  The hint hits for every
   smaller key there is room for, and the record goes on the free page; for the old key itself the
   shortcut reports a record that is gone.
   */
  method StaleBackHint(p: PageBuffer, it: Item, ghost s: seq<byte>) returns (hit: bool, exact: bool)
    requires RawOk(s, true) && Count(s) == 1 && p.Valid() && p.leaf && p.Contents() == [] && Traces(s, p.b[..], true)
    requires it.Rec? && Encodable(it, true)
    modifies p.b
    ensures p.Valid()
    ensures var gone := Items(s, true)[0].key;
            && (hit <==> NBytes(it) + SLOT <= p.b.Length - BTDATAOFF && Rank(it.key) <= Rank(gone))
            && (hit ==> (exact <==> it.key == gone))
    ensures p.Contents() == if hit && !exact then [it] else []
  {
    hide Used; hide NBytes; hide ItemAt; hide Rank; hide Encodable; hide ReadItem;
    UsedNothing();
    hit, exact := false, false;
    var free := p.Free();
    if free < NBytes(it) + SLOT {
      return;
    }
    var old0 := ReadItem(p.b[..], true, RawPage.Slot(p.b[..], 0));
    var cmp := DefCmp(it.key, old0.key);
    RankIsOrder(it.key, old0.key);
    hit, exact := cmp <= 0, cmp == 0;
    if hit && !exact {
      p.Insert(0, it);
    }
  }

  lemma {:induction false} UsedNothing()
    ensures Used([]) == 0
  {
  }
}
