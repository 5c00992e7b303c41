/**
 The binary search on one page, with the rule that the first key of the leftmost internal page of
 a level counts as below every key.
 */
module PageSearch {
  import opened Keys
  import opened Layout

  /** `__bt_cmp`: a key against the item at `index` of a page. */
  method CmpAt(pg: Page, key: Key, index: nat) returns (cmp: int)
    requires index < |pg.items|
    ensures index == 0 && pg.prev == P_INVALID && pg.kind != BLeaf ==> cmp == 1
    ensures index > 0 || pg.prev != P_INVALID || pg.kind == BLeaf ==>
              (cmp < 0 <==> Rank(key) < Rank(pg.items[index].key))
              && (cmp == 0 <==> key == pg.items[index].key)
              && (cmp == 0 <==> Rank(key) == Rank(pg.items[index].key))
  {
    if index == 0 && pg.prev == P_INVALID && pg.kind != BLeaf {
      return 1;
    }
    cmp := DefCmp(key, pg.items[index].key);
    RankIsOrder(key, pg.items[index].key);
  }

  /** Keys from index `from` on strictly increase. */
  ghost predicate SortedFrom(items: seq<Item>, from: nat) {
    forall i, j :: from <= i < j < |items| ==> Rank(items[i].key) < Rank(items[j].key)
  }

  /** A position in a leaf where a key belongs, and the key is not there. */
  ghost predicate Gap(items: seq<Item>, index: nat, key: Key) {
    && index <= |items|
    && (forall j :: 0 <= j < index ==> Rank(items[j].key) < Rank(key))
    && (forall j :: index <= j < |items| ==> Rank(key) < Rank(items[j].key))
  }

  /** The place of a key in a leaf: an equal record, or the one gap that keeps the order. */
  ghost predicate LeafPlace(items: seq<Item>, key: Key, index: nat, exact: bool) {
    if exact then index < |items| && items[index].key == key
    else Gap(items, index, key)
  }

  /** The entry of an internal page a key belongs below; the key at index 0 has no say. */
  ghost predicate NodePlace(items: seq<Item>, key: Key, index: nat) {
    && index < |items|
    && (index > 0 ==> Rank(items[index].key) <= Rank(key))
    && (index + 1 < |items| ==> Rank(key) < Rank(items[index + 1].key))
  }

  /** The inner loop of `__bt_search` and the choice made after it. */
  method SearchPage(pg: Page, key: Key) returns (index: nat, exact: bool)
    requires pg.kind == BLeaf ==> SortedFrom(pg.items, 0)
    requires pg.kind != BLeaf ==> SortedFrom(pg.items, 1) && |pg.items| > 0
    ensures pg.kind == BLeaf ==> LeafPlace(pg.items, key, index, exact)
    ensures pg.kind != BLeaf ==> !exact && NodePlace(pg.items, key, index)
  {
    ghost var from := if pg.kind == BLeaf then 0 else 1;
    var base, lim := 0, |pg.items|;
    exact := false;
    while lim != 0
      invariant 0 <= base && 0 <= lim && base + lim <= |pg.items|
      invariant forall j :: from <= j < base ==> Rank(pg.items[j].key) < Rank(key)
      invariant forall j :: from <= j < |pg.items| && base + lim <= j ==> Rank(key) < Rank(pg.items[j].key)
      decreases lim
    {
      index := base + lim / 2;
      var cmp := CmpAt(pg, key, index);
      if cmp == 0 {
        exact := pg.kind == BLeaf;
        return;
      }
      if cmp > 0 {
        base := index + 1;
        lim := lim - 1;
      }
      lim := lim / 2;
    }
    index := if pg.kind == BLeaf || base == 0 then base else base - 1;
  }

  /** The entry chosen is the same whatever key the first entry carries. */
  lemma {:induction false} FirstKeyHasNoSay(items: seq<Item>, items': seq<Item>, key: Key, index: nat, index': nat)
    requires SortedFrom(items, 1) && |items| == |items'| > 0 && items[1..] == items'[1..]
    requires NodePlace(items, key, index) && NodePlace(items', key, index')
    ensures index == index'
  {
    forall j | 1 <= j < |items| ensures items[j] == items'[j] {
      assert items[j] == items[1..][j - 1] == items'[1..][j - 1] == items'[j];
    }
  }

  /** A leaf has one place for a key. */
  lemma {:induction false} PlaceOnce(items: seq<Item>, key: Key, index: nat, exact: bool, index': nat, exact': bool)
    requires SortedFrom(items, 0) && LeafPlace(items, key, index, exact) && LeafPlace(items, key, index', exact')
    ensures index == index' && exact == exact'
  {
    hide Rank;
    var it := if index < |items| then items[index].key else key;
    var it' := if index' < |items| then items[index'].key else key;
  }
}
