/**
 The proof of page deletion: from the leaf that lost its last record up to the page that keeps
 others below it, or to the root.
 */
module Shrink {
  import opened Keys
  import opened Layout
  import opened PageSplit
  import opened PageSearch
  import opened Shape
  import opened ShapeDelete
  import opened Contents
  import opened Space
  import opened TreeState
  import opened Grow

  /** The removed pages above the leaf, by level. */
  ghost function TakenAbove(dead: seq<PgNo>): Taken {
    map t: nat | 1 <= t < |dead| :: dead[t]
  }

  /** The removed pages but for the leaf. */
  ghost function AboveLeaf(dead: seq<PgNo>): set<PgNo>
    requires dead != []
  {
    set p | p in dead[1..]
  }

  /**
   Between two rounds: the pages of `dead` but for the leaf are out of the chains of their levels,
   the topmost one still hangs in its parent.  `vps` is the file with nothing removed yet.
   */
  ghost predicate Climbing(vps: seq<Page>, g: Shape, m: Records, dead: seq<PgNo>, ps: seq<Page>, stack: seq<Step>) {
    && Inv(vps, g) && Holds(vps, g, m)
    && DeadOk(vps, g, dead) && Occupied(vps, g, dead[0]) && vps[dead[0]].items == []
    && Unlinked(vps, g, TakenAbove(dead), ps)
    && Path(vps, g, stack, dead[|dead| - 1])
  }

  lemma {:induction false} StartClimbing(ps: seq<Page>, g: Shape, m: Records, h: PgNo, stack: seq<Step>)
    requires Inv(ps, g) && Holds(ps, g, m) && Occupied(ps, g, h) && Path(ps, g, stack, h)
    requires h in g && h != P_ROOT && h < |ps| && g[h].ht == 0 && ps[h].items == []
    ensures Climbing(ps, g, m, [h], ps, stack)
  {
    assert TakenAbove([h]) == map[];
    NothingUnlinked(ps, g);
    hide Holds; hide Inv; hide Occupied;
  }

  /** The parent on top of the stack has not been touched. */
  lemma {:induction false} ClimbParent(vps: seq<Page>, g: Shape, m: Records, dead: seq<PgNo>, ps: seq<Page>,
                                       stack: seq<Step>)
    requires Climbing(vps, g, m, dead, ps, stack)
    ensures |ps| == |vps| && |stack| > 0
    ensures var q := stack[|stack| - 1].pg;
            && q in g && q < |ps| && ps[q] == vps[q] && g[q].ht == |dead| && q !in dead
            && IsKid(vps[q], stack[|stack| - 1].index, dead[|dead| - 1])
            && stack[|stack| - 1].index < |ps[q].items|
            && Path(vps, g, stack[..|stack| - 1], q)
            && Beyond(g, dead, q, ps[q].next) && Beyond(g, dead, q, ps[q].prev)
  {
    hide Holds; hide Occupied; hide Rank; hide PageOk; hide Apart; hide Path; hide Bypassed;
    assert |stack| > 0 by { DeepPath(vps, g, stack, dead[|dead| - 1]); }
    PopPath(vps, g, stack, dead[|dead| - 1]);
    var q := stack[|stack| - 1].pg;
    KindOf(vps, g, q);
    UntouchedAbove(vps, g, dead, ps, q);
    hide Inv;
  }

  /** A neighbour of `q`, if there is one, is another page of the tree and not a removed one. */
  ghost predicate Beyond(g: Shape, dead: seq<PgNo>, q: PgNo, n: PgNo) {
    n != P_INVALID ==> n in g && n != q && n !in dead
  }

  lemma {:induction false} DeepPath(ps: seq<Page>, g: Shape, stack: seq<Step>, h: PgNo)
    requires Path(ps, g, stack, h) && h != P_ROOT
    ensures |stack| > 0
  {
  }

  lemma {:induction false} UntouchedAbove(vps: seq<Page>, g: Shape, dead: seq<PgNo>, ps: seq<Page>, q: PgNo)
    requires Unlinked(vps, g, TakenAbove(dead), ps) && q in g && q < |vps| && g[q].ht >= |dead|
    ensures ps[q] == vps[q]
  {
    assert Bypassed(vps, g, TakenAbove(dead), q, ps[q]);
  }

  lemma {:induction false} DeadGrows(ps: seq<Page>, g: Shape, dead: seq<PgNo>, q: PgNo)
    requires DeadOk(ps, g, dead) && q in g && q < |ps| && g[q].ht == |dead| && q != P_ROOT
    requires g[q].low == g[dead[|dead| - 1]].low && g[q].high == g[dead[|dead| - 1]].high
    ensures DeadOk(ps, g, dead + [q])
  {
    var dead': seq<PgNo> := dead + [q];
    forall t | 0 <= t < |dead'|
      ensures && dead'[t] in g && dead'[t] < |ps| && g[dead'[t]].ht == t && dead'[t] != P_ROOT
              && g[dead'[t]].low == g[dead'[0]].low && g[dead'[t]].high == g[dead'[0]].high
    {
      if t < |dead| { assert dead'[t] == dead[t]; }
    }
  }

  /** A parent with this one page below it goes too, unless it is the root. */
  lemma {:induction false} ClimbOn(vps: seq<Page>, g: Shape, m: Records, dead: seq<PgNo>, ps: seq<Page>,
                                   stack: seq<Step>, q: PgNo, rest: Page)
    requires Climbing(vps, g, m, dead, ps, stack)
    requires |stack| > 0 && q == stack[|stack| - 1].pg < |vps| && |vps[q].items| == 1 && q != P_ROOT
    ensures q < |ps| && ps[q].next < |ps| && ps[q].prev < |ps|
    ensures Climbing(vps, g, m, dead + [q], Relinked(ps, q)[q := rest], stack[..|stack| - 1])
  {
    ClimbParent(vps, g, m, dead, ps, stack);
    hide Holds; hide Occupied; hide Rank; hide Path; hide Bypassed; hide LinkOk; hide Apart; hide PageOk; hide KidOk;
    hide Pages; hide Links; hide Rooted; hide Relinked; hide Unlinked; hide DeadOk; hide TakenAbove;
    LoneKid(vps, g, q, dead[|dead| - 1]);
    RelinkUnlinks(vps, g, TakenAbove(dead), ps, q, rest);
    DeadGrows(vps, g, dead, q);
    TakenGrows(dead, q);
  }

  lemma {:induction false} TakenGrows(dead: seq<PgNo>, q: PgNo)
    requires |dead| > 0
    ensures TakenAbove(dead + [q]) == TakenAbove(dead)[|dead| := q] && |dead| !in TakenAbove(dead)
  {
  }

  lemma {:induction false} LoneKid(ps: seq<Page>, g: Shape, q: PgNo, k: PgNo)
    requires Sane(ps, g) && Pages(ps, g) && q in g && g[q].ht > 0 && |ps[q].items| == 1
    requires exists i: nat :: IsKid(ps[q], i, k)
    ensures k in g && g[k].low == g[q].low && g[k].high == g[q].high
  {
    assert PageOk(ps[q], g[q], g);
    assert KidOk(ps[q], g[q], g, 0);
  }

  /** The last level closed, the file is the pruned one. */
  lemma {:induction false} PruneReached(vps: seq<Page>, g: Shape, d: Prune, ps: seq<Page>, ps': seq<Page>)
    requires PruneOk(vps, g, d) && (forall p :: p in g ==> p < |vps|)
    requires Unlinked(vps, g, TakenAbove(d.dead)[0 := d.dead[0]], ps)
    requires ps' == ps[d.q := ps[d.q].(items := RemoveAt(vps[d.q].items, d.i))]
    ensures IsPrune(vps, g, d, ps')
  {
    var gone := TakenAbove(d.dead)[0 := d.dead[0]];
    hide Rank; hide RemoveAt; hide IsKid;
    assert forall t: nat :: t in gone <==> t < |d.dead|;
    assert forall t: nat :: t in gone ==> gone[t] == d.dead[t];
    forall x | x in g && x < |vps| && !Gone(g, d.dead, x)
      ensures ps'[x].kind == vps[x].kind
      ensures ps'[x].prev == PrevAround(vps, g, d.dead, x) && ps'[x].next == NextAround(vps, g, d.dead, x)
      ensures ps'[x].items == (if x == d.q then RemoveAt(vps[x].items, d.i) else vps[x].items)
    {
      assert Bypassed(vps, g, gone, x, ps[x]);
    }
  }

  /** Unhooking the leaf and shortening the page above come to the same in either order. */
  lemma {:induction false} RelinkElsewhere(ps: seq<Page>, h: PgNo, q: PgNo, items: seq<Item>, rest: Page)
    requires h < |ps| && q < |ps| && q != h && q != ps[h].next && q != ps[h].prev
    requires ps[h].next < |ps| && ps[h].prev < |ps|
    ensures Relinked(ps[q := ps[q].(items := items)], h)[h := rest]
            == Relinked(ps, h)[h := rest][q := Relinked(ps, h)[h := rest][q].(items := items)]
  {
  }

  /** The leaf is as it was, and its neighbours are other leaves. */
  lemma {:induction false} ClimbLeaf(vps: seq<Page>, g: Shape, m: Records, dead: seq<PgNo>, ps: seq<Page>,
                                     stack: seq<Step>)
    requires Climbing(vps, g, m, dead, ps, stack)
    ensures |dead| > 0 && dead[0] in g && dead[0] != P_ROOT && dead[0] < |ps| == |vps| && ps[dead[0]] == vps[dead[0]]
    ensures ps[dead[0]].items == []
    ensures g[dead[0]].ht == 0 && LinkOk(ps[dead[0]], g[dead[0]], g)
    ensures ps[dead[0]].next < |ps| && ps[dead[0]].prev < |ps| && dead[0] !in AboveLeaf(dead)
    ensures Beyond(g, dead[1..], dead[0], ps[dead[0]].next) && Beyond(g, dead[1..], dead[0], ps[dead[0]].prev)
  {
    hide Holds; hide Occupied; hide Path; hide Bypassed;
    LevelZero(dead);
    UntouchedLeaf(vps, g, dead, ps);
    KindOf(vps, g, dead[0]);
    LeafBelow(vps, g, dead);
    hide Inv;
  }

  lemma {:induction false} LeafBelow(ps: seq<Page>, g: Shape, dead: seq<PgNo>)
    requires DeadOk(ps, g, dead)
    ensures forall p :: p in dead[1..] ==> p in g && g[p].ht > 0
  {
    forall p | p in dead[1..] ensures p in g && g[p].ht > 0 {
      var i :| 0 <= i < |dead[1..]| && dead[1..][i] == p;
      assert dead[i + 1] == p;
    }
  }

  lemma {:induction false} UntouchedLeaf(vps: seq<Page>, g: Shape, dead: seq<PgNo>, ps: seq<Page>)
    requires DeadOk(vps, g, dead) && Unlinked(vps, g, TakenAbove(dead), ps)
    ensures ps[dead[0]] == vps[dead[0]]
  {
    assert Bypassed(vps, g, TakenAbove(dead), dead[0], ps[dead[0]]);
  }

  lemma {:induction false} LeafUnlinks(vps: seq<Page>, g: Shape, dead: seq<PgNo>, ps: seq<Page>, rest: Page)
    requires Inv(vps, g) && DeadOk(vps, g, dead) && Unlinked(vps, g, TakenAbove(dead), ps)
    ensures dead[0] < |ps| && ps[dead[0]].next < |ps| && ps[dead[0]].prev < |ps|
    ensures Unlinked(vps, g, TakenAbove(dead)[0 := dead[0]], Relinked(ps, dead[0])[dead[0] := rest])
  {
    hide Apart; hide Pages; hide Links; hide Rooted; hide Relinked; hide Rank;
    LevelZero(dead);
    UntouchedLeaf(vps, g, dead, ps);
    RelinkUnlinks(vps, g, TakenAbove(dead), ps, dead[0], rest);
  }

  /** A page that keeps others below it ends the climb. */
  lemma {:induction false} FinishClimb(vps: seq<Page>, g: Shape, m: Records, dead: seq<PgNo>, ps: seq<Page>,
                                       stack: seq<Step>, q: PgNo, i: nat, rest: Page, ps2: seq<Page>, psize: nat)
    requires Climbing(vps, g, m, dead, ps, stack) && (forall p :: p in g ==> p < |vps|) && Sized(vps, g, psize)
    requires |stack| > 0 && q == stack[|stack| - 1].pg < |vps| && i == stack[|stack| - 1].index
    requires |vps[q].items| >= 2 && q < |ps| && i < |ps[q].items| && dead != [] && dead[0] < |ps|
    requires var ps1 := ps[q := ps[q].(items := RemoveAt(ps[q].items, i))];
             && ps1[dead[0]].next < |ps| && ps1[dead[0]].prev < |ps|
             && ps2 == Relinked(ps1, dead[0])[dead[0] := rest]
    ensures PruneOk(vps, g, Prune(dead, q, i))
    ensures TreeOk(ps2, PruneShape(g, Prune(dead, q, i)), m, psize, P_INVALID)
  {
    ClimbParent(vps, g, m, dead, ps, stack);
    var h, d := dead[0], Prune(dead, q, i);
    hide Inv; hide Holds; hide Rank; hide Path; hide RemoveAt; hide LinkOk; hide TreeOk;
    hide Relinked; hide Unlinked; hide TakenAbove; hide IsKid; hide Occupied; hide Sized;
    DeadFacts(vps, g, dead);
    LeafUnlinks(vps, g, dead, ps, rest);
    LeafLinks(vps, g, dead, ps, q);
    hide DeadOk; hide Climbing; hide IsPrune;
    RelinkElsewhere(ps, h, q, RemoveAt(vps[q].items, i), rest);
    PruneReached(vps, g, d, Relinked(ps, h)[h := rest], ps2);
    PrunedTree(vps, g, m, d, ps2, psize);
  }

  lemma {:induction false} DeadFacts(ps: seq<Page>, g: Shape, dead: seq<PgNo>)
    requires DeadOk(ps, g, dead)
    ensures |dead| > 0 && dead[0] in g && dead[|dead| - 1] in g && dead[0] < |ps|
  {
  }

  lemma {:induction false} LevelZero(dead: seq<PgNo>)
    ensures 0 !in TakenAbove(dead)
  {
  }

  /** The neighbours of the leaf are leaves. */
  lemma {:induction false} LeafLinks(vps: seq<Page>, g: Shape, dead: seq<PgNo>, ps: seq<Page>, q: PgNo)
    requires Inv(vps, g) && DeadOk(vps, g, dead) && Unlinked(vps, g, TakenAbove(dead), ps)
    requires q in g && g[q].ht == |dead|
    ensures dead[0] < |ps| && ps[dead[0]] == vps[dead[0]] && q != dead[0]
    ensures vps[dead[0]].next != q && vps[dead[0]].prev != q
  {
    KindOf(vps, g, dead[0]);
    LevelZero(dead);
    assert Bypassed(vps, g, TakenAbove(dead), dead[0], ps[dead[0]]);
  }

  lemma {:induction false} PrunedTree(vps: seq<Page>, g: Shape, m: Records, d: Prune, ps2: seq<Page>, psize: nat)
    requires Inv(vps, g) && Holds(vps, g, m) && Sized(vps, g, psize)
    requires PruneOk(vps, g, d) && Occupied(vps, g, d.dead[0]) && vps[d.dead[0]].items == []
    requires IsPrune(vps, g, d, ps2)
    ensures TreeOk(ps2, PruneShape(g, d), m, psize, P_INVALID)
  {
    hide PageOk; hide LinkOk; hide Apart; hide Rooted; hide Pages; hide Links; hide Rank; hide Holds; hide IsKid;
    var g' := PruneShape(g, d);
    PruneKeepsInv(vps, g, d, ps2);
    InFile(ps2, g');
    PruneHolds(vps, g, d, ps2, m);
    hide Inv; hide PruneInfo;
    forall p | p in g' ensures PageSized(ps2[p], psize) && (p != P_ROOT ==> |ps2[p].items| > 0) {
      assert PageSized(vps[p], psize);
      PrunedItems(vps, g, d, ps2, p, psize);
    }
  }

  lemma {:induction false} PrunedItems(vps: seq<Page>, g: Shape, d: Prune, ps2: seq<Page>, p: PgNo, psize: nat)
    requires PruneOk(vps, g, d) && IsPrune(vps, g, d, ps2) && p in g && p < |vps| && !Gone(g, d.dead, p)
    requires PageSized(vps[p], psize) && (p != P_ROOT && p != d.dead[0] ==> |vps[p].items| > 0)
    ensures PageSized(ps2[p], psize) && (p != P_ROOT ==> |ps2[p].items| > 0)
  {
    hide Rank; hide Used; hide NBytes;
    if p == d.q {
      UsedRemove(vps[p].items, d.i);
      SmallRemove(vps[p].items, d.i, psize);
    }
  }

  lemma {:induction false} SmallRemove(items: seq<Item>, i: nat, psize: nat)
    requires AllSmall(items, psize) && i < |items|
    ensures AllSmall(RemoveAt(items, i), psize)
  {
  }

  /** A root left without pages below becomes an empty leaf, and the tree is empty. */
  lemma {:induction false} FinishAtRoot(vps: seq<Page>, g: Shape, m: Records, dead: seq<PgNo>, ps: seq<Page>,
                                        stack: seq<Step>, rest: Page, psize: nat)
    requires Climbing(vps, g, m, dead, ps, stack) && ValidPSize(psize)
    requires |stack| > 0 && stack[|stack| - 1].pg == P_ROOT < |vps| && |vps[P_ROOT].items| == 1
    ensures P_ROOT < |ps| && dead[0] < |ps| && dead[0] in g && dead[0] != P_ROOT
    ensures ps[dead[0]].next == P_INVALID && ps[dead[0]].prev == P_INVALID
    ensures (forall p :: p in g ==> p == P_ROOT || p in dead) && P_ROOT !in dead
    ensures TreeOk(ps[P_ROOT := ps[P_ROOT].(kind := BLeaf, items := [])][dead[0] := rest], RootLeafShape(), m, psize,
      P_INVALID)
  {
    ClimbParent(vps, g, m, dead, ps, stack);
    ClimbLeaf(vps, g, m, dead, ps, stack);
    hide Path; hide Rank; hide IsKid; hide Unlinked; hide KidOk; hide Occupied; hide Holds; hide LeafOk; hide NodeOk;
    OnlyDead(vps, g, dead);
    KindOf(vps, g, P_ROOT);
    InFile(vps, g);
    hide Inv; hide DeadOk; hide Climbing;
    EmptyLeaves(vps, g, m);
    var ps2 := ps[P_ROOT := ps[P_ROOT].(kind := BLeaf, items := [])][dead[0] := rest];
    RootLeafInv(ps2);
    RootLeafHolds(ps2, m);
  }

  lemma {:induction false} OnlyDead(vps: seq<Page>, g: Shape, dead: seq<PgNo>)
    requires Inv(vps, g) && DeadOk(vps, g, dead) && g[P_ROOT].ht == |dead|
    requires |vps[P_ROOT].items| == 1 && IsKid(vps[P_ROOT], 0, dead[|dead| - 1])
    ensures forall p :: p in g ==> p == P_ROOT || p in dead
    ensures forall p :: p in g && g[p].ht == 0 ==> p == dead[0]
    ensures g[dead[0]].low == NEG && g[dead[0]].high == POS
  {
    forall p | p in g ensures p == P_ROOT || (p in dead && Gone(g, dead, p)) {
      NothingElse(vps, g, dead, p);
      hide Pages; hide Apart; hide Links; hide Rooted;
    }
    LoneKid(vps, g, P_ROOT, dead[|dead| - 1]);
  }

  lemma {:induction false} RootMayBeEmpty(ps: seq<Page>, g: Shape, m: Records, psize: nat)
    requires TreeOk(ps, g, m, psize, P_ROOT)
    ensures TreeOk(ps, g, m, psize, P_INVALID)
  {
  }

  lemma {:induction false} AboveLeafGrows(dead: seq<PgNo>, q: PgNo)
    requires dead != []
    ensures AboveLeaf(dead + [q]) == AboveLeaf(dead) + {q}
  {
    assert (dead + [q])[1..] == dead[1..] + [q];
  }

  /** The pages that stay after a pruning are those not removed. */
  lemma {:induction false} PruneKeys(ps: seq<Page>, g: Shape, d: Prune)
    requires PruneOk(ps, g, d)
    ensures PruneShape(g, d).Keys == (g - AboveLeaf(d.dead) - {d.dead[0]}).Keys
  {
    hide IsKid;
    assert d.dead == [d.dead[0]] + d.dead[1..];
    forall p | p in g ensures Gone(g, d.dead, p) <==> p in d.dead {
      if p in d.dead {
        var i :| 0 <= i < |d.dead| && d.dead[i] == p;
      }
    }
  }

  lemma {:induction false} RootKeys(g: Shape, dead: seq<PgNo>)
    requires dead != [] && P_ROOT in g && (forall p :: p in g ==> p == P_ROOT || p in dead) && P_ROOT !in dead
    ensures RootLeafShape().Keys == (g - AboveLeaf(dead) - {dead[0]}).Keys
  {
    assert dead == [dead[0]] + dead[1..];
  }

  lemma {:induction false} NoNeighbours(ps: seq<Page>, h: PgNo)
    requires h < |ps| && ps[h].next == P_INVALID && ps[h].prev == P_INVALID
    ensures Relinked(ps, h) == ps
  {
  }

  // ---------------------------------------------------------------- one record

  /** The record at `index` goes out. */
  lemma {:induction false} RemoveRecord(ps: seq<Page>, g: Shape, m: Records, h: PgNo, index: nat, psize: nat)
    requires TreeOk(ps, g, m, psize, P_INVALID) && h in g && h < |ps| && g[h].ht == 0 && index < |ps[h].items|
    ensures var it := ps[h].items[index];
            && it.Rec? && it.key in m && m[it.key] == it.datum
            && g[h].low <= Rank(it.key) < g[h].high
            && TreeOk(ps[h := ps[h].(items := RemoveAt(ps[h].items, index))], g, m - {it.key}, psize, h)
            && Gap(RemoveAt(ps[h].items, index), index, it.key)
  {
    hide Rank; hide Apart; hide NodeOk; hide LinkOk; hide Used; hide NBytes; hide Rooted;
    var it := ps[h].items[index];
    KindOf(ps, g, h);
    InFile(ps, g);
    RemoveSorted(ps[h], g[h], index);
    LeafChange(ps, g, h, RemoveAt(ps[h].items, index));
    RemoveHolds(ps, g, m, h, index);
    RemoveSized(ps, g, h, index, psize);
    hide Inv; hide Holds; hide LeafOk; hide RemoveAt; hide Sized;
  }

  lemma {:induction false} RemoveSorted(pg: Page, info: Info, index: nat)
    requires LeafOk(pg, info) && index < |pg.items|
    ensures LeafOk(pg.(items := RemoveAt(pg.items, index)), info)
    ensures Gap(RemoveAt(pg.items, index), index, pg.items[index].key)
  {
    hide Rank;
  }

  lemma {:induction false} RemoveHolds(ps: seq<Page>, g: Shape, m: Records, h: PgNo, index: nat)
    requires Inv(ps, g) && Holds(ps, g, m) && h in g && h < |ps| && g[h].ht == 0 && index < |ps[h].items|
    ensures var it := ps[h].items[index];
            && it.Rec? && it.key in m && m[it.key] == it.datum
            && Holds(ps[h := ps[h].(items := RemoveAt(ps[h].items, index))], g, m - {it.key})
  {
    var it, items := ps[h].items[index], RemoveAt(ps[h].items, index);
    KindOf(ps, g, h);
    assert LeafIn(m, ps[h]);
    RemovedMembers(ps[h], g[h], index);
    hide Inv; hide Holds; hide LeafOk; hide Rank; hide RemoveAt;
    assert m - {it.key} - {it.key} == m - {it.key};
    InFile(ps, g);
    LeafChangeHolds(ps, g, m, h, items, it.key, m - {it.key});
  }

  lemma {:induction false} RemovedMembers(pg: Page, info: Info, index: nat)
    requires LeafOk(pg, info) && index < |pg.items|
    ensures forall x :: x in RemoveAt(pg.items, index) ==> x in pg.items && x.key != pg.items[index].key
    ensures forall x :: x in pg.items && x.key != pg.items[index].key ==> x in RemoveAt(pg.items, index)
  {
    var items := RemoveAt(pg.items, index);
    hide Rank;
    assert forall j :: 0 <= j < |items| ==> items[j] == pg.items[if j < index then j else j + 1];
    forall x | x in pg.items && x.key != pg.items[index].key ensures x in items {
      var j :| 0 <= j < |pg.items| && pg.items[j] == x;
      assert items[if j < index then j else j - 1] == x;
    }
  }

  lemma {:induction false} RemoveSized(ps: seq<Page>, g: Shape, h: PgNo, index: nat, psize: nat)
    requires (forall p :: p in g ==> p < |ps|) && Sized(ps, g, psize) && h in g && index < |ps[h].items|
    ensures Sized(ps[h := ps[h].(items := RemoveAt(ps[h].items, index))], g, psize)
  {
    hide Used; hide NBytes;
    var ps' := ps[h := ps[h].(items := RemoveAt(ps[h].items, index))];
    UsedRemove(ps[h].items, index);
    forall p | p in g ensures PageSized(ps'[p], psize) {
      assert PageSized(ps[p], psize);
      if p == h { SmallRemove(ps[h].items, index, psize); }
    }
  }

  /** Without the record of `k`, and without the chain it used, every other record is as it was. */
  lemma {:induction false} ViewWithout(m: Records, chains: map<PgNo, Chain>, k: Key)
    requires Referenced(m, chains) && k in m
    ensures var chains' := if m[k].Big? then chains - {m[k].head} else chains;
            && Referenced(m - {k}, chains')
            && View(m - {k}, chains') == View(m, chains) - {k} && Litter(chains') == Litter(chains)
  {
    var chains' := if m[k].Big? then chains - {m[k].head} else chains;
    forall k' | k' in m - {k} && (m - {k})[k'].Big?
      ensures (m - {k})[k'].head in chains' && chains'[(m - {k})[k'].head] == chains[m[k'].head]
    {
      assert k' in m && m[k'] == (m - {k})[k'];
    }
    assert forall k' :: k' in View(m - {k}, chains') ==> View(m - {k}, chains')[k'] == View(m, chains)[k'];
  }

  lemma {:induction false} ChainOfRecord(m: Records, chains: map<PgNo, Chain>, k: Key)
    requires Referenced(m, chains) && k in m && m[k].Big?
    ensures m[k].head in chains && |chains[m[k].head].data| == m[k].size
  {
  }

  lemma {:induction false} NotEmptied(ps: seq<Page>, g: Shape, m: Records, psize: nat, h: PgNo)
    requires TreeOk(ps, g, m, psize, h) && h < |ps| && ps[h].items != []
    ensures TreeOk(ps, g, m, psize, P_INVALID)
  {
  }

  // ---------------------------------------------------------------- the sorted-insert hint

  lemma {:induction false} RelinkedItems(ps: seq<Page>, p: PgNo)
    requires p < |ps| && ps[p].next < |ps| && ps[p].prev < |ps|
    ensures SameItems(ps, Relinked(ps, p))
  {
  }

  lemma {:induction false} HintsPruned(vps: seq<Page>, g: Shape, d: Prune, ps: seq<Page>)
    requires PruneOk(vps, g, d) && vps[d.dead[0]].items == [] && |ps| == |vps|
    requires forall p :: 0 <= p < |ps| && p != d.q ==> ps[p].items == vps[p].items
    ensures HintsKept(vps, g, ps, PruneShape(g, d)) && LeavesStay(vps, g, ps, PruneShape(g, d))
  {
    hide IsKid;
  }

  lemma {:induction false} HintsAtRoot(vps: seq<Page>, g: Shape, m: Records, dead: seq<PgNo>, ps0: seq<Page>,
                                       stack: seq<Step>, ps: seq<Page>)
    requires Climbing(vps, g, m, dead, ps0, stack) && |ps| == |vps| && P_ROOT in g && g[P_ROOT].ht > 0
    requires forall p :: p in g ==> p == P_ROOT || p in dead
    requires forall p :: 0 <= p < |ps| && p != P_ROOT ==> ps[p].items == vps[p].items
    ensures HintsKept(vps, g, ps, RootLeafShape()) && LeavesStay(vps, g, ps, RootLeafShape())
  {
    hide Inv; hide Holds; hide Occupied; hide Unlinked; hide Path;
    forall p | HintAt(vps, g, p) ensures HintAt(ps, RootLeafShape(), p) {
      if p in dead {
        var i :| 0 <= i < |dead| && dead[i] == p;
      }
    }
    forall p ensures LeafStays(vps, g, ps, RootLeafShape(), p) {
      if p in dead {
        var i :| 0 <= i < |dead| && dead[i] == p;
      }
    }
  }

  lemma {:induction false} HintsRelinked(ps: seq<Page>, g: Shape, ps1: seq<Page>, g1: Shape, ps2: seq<Page>)
    requires HintsKept(ps, g, ps1, g1) && LeavesStay(ps, g, ps1, g1) && SameItems(ps1, ps2)
    ensures HintsKept(ps, g, ps2, g1) && LeavesStay(ps, g, ps2, g1)
  {
    forall p ensures LeafStays(ps, g, ps2, g1, p) { assert LeafStays(ps, g, ps1, g1, p); }
    forall p | HintAt(ps, g, p) ensures HintAt(ps2, g1, p) { assert HintAt(ps1, g1, p); }
  }

  /** Room on a leaf for a record that goes in at an index, in place of the one there if that has its key. */
  ghost function RoomAt(pg: Page, index: nat, exact: bool, psize: nat): int
    requires exact ==> index < |pg.items|
  {
    Room(pg, psize) + if exact then NBytes(pg.items[index]) + SLOT else 0
  }

  lemma {:induction false} RoomEnough(pg: Page, index: nat, exact: bool, psize: nat)
    requires exact ==> index < |pg.items|
    ensures Room(pg, psize) <= RoomAt(pg, index, exact, psize)
  {
  }

  /**
   The one case in which a division goes wrong does not arise: the record is strictly below half
   a page, or it would not be the first of its leaf, or the leaf has room for it.
   */
  ghost predicate FrontOk(ps: seq<Page>, g: Shape, key: Key, dsize: nat, psize: nat) {
    || NBLeafDbt(|key|, dsize) + SLOT < HalfBytes(psize)
    || forall h: PgNo, index: nat, exact: bool :: Located(ps, g, key, h, index, exact) ==>
         index > 0 || ((exact ==> index < |ps[h].items|)
           && RoomAt(ps[h], index, exact, psize) >= NBLeafDbt(|key|, dsize) + SLOT)
  }

  /** Only one place is in question. */
  lemma {:induction false} FrontHere(ps: seq<Page>, g: Shape, key: Key, dsize: nat, psize: nat, h: PgNo, index: nat,
                                     exact: bool)
    requires Inv(ps, g) && Located(ps, g, key, h, index, exact)
    ensures FrontOk(ps, g, key, dsize, psize)
            <==> || NBLeafDbt(|key|, dsize) + SLOT < HalfBytes(psize)
                 || index > 0 || RoomAt(ps[h], index, exact, psize) >= NBLeafDbt(|key|, dsize) + SLOT
  {
    assert exact ==> index < |ps[h].items|;
    hide Inv; hide LeafPlace; hide RoomAt; hide HalfBytes; hide Located;
    forall h': PgNo, index': nat, exact': bool | Located(ps, g, key, h', index', exact')
      ensures h' == h && index' == index && exact' == exact
    {
      LocatedOnce(ps, g, key, h, index, exact, h', index', exact');
    }
  }

  /** Writing outside the tree makes no difference to that. */
  lemma {:induction false} FrontFrame(ps: seq<Page>, ps': seq<Page>, g: Shape, key: Key, dsize: nat, psize: nat)
    requires FrontOk(ps, g, key, dsize, psize) && |ps| <= |ps'| && (forall p :: p in g ==> p < |ps|)
    requires forall p :: p in g && p < |ps| ==> ps'[p] == ps[p]
    ensures FrontOk(ps', g, key, dsize, psize)
  {
    forall h: PgNo, index: nat, exact: bool | Located(ps', g, key, h, index, exact)
      ensures Located(ps, g, key, h, index, exact)
    {}
    hide LeafPlace; hide RoomAt; hide HalfBytes;
  }

  lemma {:induction false} FrontAt(ps: seq<Page>, ps': seq<Page>, g: Shape, key: Key, datum: Datum, psize: nat,
                                   h: PgNo, index: nat, exact: bool)
    requires FrontOk(ps, g, key, DSize(datum), psize) && h < |ps| && h < |ps'| && ps'[h] == ps[h]
    requires Located(ps', g, key, h, index, exact) && (exact ==> index < |ps'[h].items|)
    ensures SplitSafe(psize, index, NBytes(Rec(key, datum)))
      || RoomAt(ps'[h], index, exact, psize) >= NBytes(Rec(key, datum)) + SLOT
  {
    assert Located(ps, g, key, h, index, exact);
    hide Located; hide Used;
  }

  lemma {:induction false} RoomGained(pg: Page, index: nat, psize: nat)
    requires index < |pg.items|
    ensures Room(pg.(items := RemoveAt(pg.items, index)), psize) == RoomAt(pg, index, true, psize) >= Room(pg, psize)
  {
    UsedRemove(pg.items, index);
    hide Used;
  }

  lemma {:induction false} OccupiedBut(ps: seq<Page>, g: Shape, m: Records, psize: nat, h: PgNo)
    requires TreeOk(ps, g, m, psize, P_INVALID)
    ensures TreeOk(ps, g, m, psize, h)
  {
    InFile(ps, g);
  }
}
