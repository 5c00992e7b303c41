/**
 Whole runs of the access method against a finite map with a cursor: every reply of every run is
 the one the map gives, and what scans and drains of the map return.
 */
module Runs {
  import opened Keys
  import opened Layout
  import opened Cursors
  import opened Shape
  import opened Contents
  import opened Space
  import opened TreeState
  import opened Scan
  import opened Shrink
  import opened Carry
  import opened BTreeAccess

  datatype Op =
    | Put(key: Key, data: seq<byte>, noOverwrite: bool)
    | Delete(key: Key)
    | DeleteAtCursor
    | Get(key: Key)
    | Seq(flag: SeqFlag, key: Key)

  datatype Reply = Reply(status: Status, key: Key, data: seq<byte>)

  /** Where a scan stands: not begun, on the record of a key, or where that record was before it went. */
  datatype Where = Nowhere | On(key: Key) | Behind(key: Key)

  /** What a client of the tree knows. */
  datatype Client = Client(map_: map<Key, seq<byte>>, at: Where)

  /** The place of a scan, as `AdvAt` needs it. */
  function Advancing(c: Client, flag: SeqFlag): bool { (flag == R_NEXT || flag == R_PREV) && c.at != Nowhere }

  ghost predicate SeqFinds(c: Client, flag: SeqFlag, key: Key, k: Key) {
    if Advancing(c, flag) then AdvAt(c.map_.Keys, c.at.key, c.at.On?, flag, k) else SetAt(c.map_.Keys, key, flag, k)
  }

  ghost predicate SeqEnds(c: Client, flag: SeqFlag, key: Key) {
    if Advancing(c, flag) then AdvEnd(c.map_.Keys, c.at.key, c.at.On?, flag)
    else if flag == R_CURSOR then NoneFrom(c.map_.Keys, key) else c.map_ == map[]
  }

  /** The reply of the map to one operation, and the map after it. */
  ghost predicate Answers(c: Client, op: Op, r: Reply, c': Client) {
    match op
    case Put(k, d, noOverwrite) =>
      && r.status == (if noOverwrite && k in c.map_ then RET_SPECIAL else RET_SUCCESS)
      && c' == if r.status == RET_SUCCESS then Client(c.map_[k := d], if c.at == On(k) then Behind(k) else c.at) else c
    case Delete(k) =>
      && r.status == (if k in c.map_ then RET_SUCCESS else RET_SPECIAL)
      && c' == Client(c.map_ - {k}, if c.at == On(k) then Behind(k) else c.at)
    case DeleteAtCursor =>
      && r.status == (if c.at.On? then RET_SUCCESS else if c.at.Behind? then RET_SPECIAL else RET_ERROR)
      && c' == if c.at.On? then Client(c.map_ - {c.at.key}, Behind(c.at.key)) else c
    case Get(k) =>
      && r.status == (if k in c.map_ then RET_SUCCESS else RET_SPECIAL)
      && (k in c.map_ ==> r.data == c.map_[k])
      && c' == c
    case Seq(flag, k) =>
      && (r.status == RET_ERROR <==> flag == R_CURSOR && k == [])
      && (r.status == RET_SUCCESS ==>
            && SeqFinds(c, flag, k, r.key) && r.key in c.map_ && r.data == c.map_[r.key]
            && c' == c.(at := On(r.key)))
      && (r.status == RET_SPECIAL ==> SeqEnds(c, flag, k))
      && (r.status != RET_SUCCESS ==> c' == c)
  }

  /** The tree is in the state the client knows of. */
  ghost predicate Shows(t: BTree, c: Client)
    reads t
  {
    && t.Valid() && t.CursorOk() && c.map_ == t.Map()
    && match t.cur case NoCursor => c.at == Nowhere case At(_, _) => c.at ==
       On(t.CursorKey()) case Acquire(k) => c.at == Behind(k)
  }

  /** The tree holds what the client knows of, wherever its cursor is. */
  ghost predicate HoldsMap(t: BTree, c: Client)
    reads t
  {
    t.Valid() && c.map_ == t.Map()
  }

  /** A record whose key stays on the page. */
  predicate Storable(op: Op, ovflsize: nat) { op.Put? ==> KeyStaysInline(|op.key|, |op.data|, ovflsize) }

  /** An insertion refused after its data went to a chain, which nothing frees. */
  function LostBy(op: Op, r: Reply, ovflsize: nat): nat {
    if op.Put? && r.status == RET_SPECIAL && |op.key| + |op.data| > ovflsize then 1 else 0
  }

  function Lost(ops: seq<Op>, rs: seq<Reply>, ovflsize: nat): nat
    requires |ops| == |rs|
  {
    if ops == [] then 0
    else Lost(ops[..|ops| - 1], rs[..|ops| - 1], ovflsize) + LostBy(ops[|ops| - 1], rs[|ops| - 1], ovflsize)
  }

  lemma {:induction false} LitterGrows(chains: map<PgNo, Chain>, more: set<PgNo>)
    requires more !! chains.Keys
    ensures |Litter(chains) + more| == |Litter(chains)| + |more|
  {
    assert Litter(chains) !! more;
  }

  /** A scan on a record is on one of the map. */
  ghost predicate Placed(c: Client) { c.at.On? ==> c.at.key in c.map_ }

  lemma {:induction false} ShownPlaced(t: BTree, c: Client)
    requires Shows(t, c)
    ensures Placed(c)
  {
    hide Rank; hide Inv; hide Holds; hide SpaceOk; hide Sized; hide Occupied;
    ViewKeys(t.m, t.s.chains);
    if t.cur.At? { Stored(t.ps, t.g, t.m, t.cur.pg, t.cur.index); }
  }

  /** A scan of the client is where the cursor says. */
  lemma {:induction false} ShownOnKey(t: BTree, c: Client)
    requires Shows(t, c)
    ensures c.at == Nowhere || OnKey(t.ps, t.g, t.cur, c.at.key)
    ensures c.at == Nowhere <==> t.cur.NoCursor?
    ensures c.at.On? <==> t.cur.At?
  {
    hide BTree.Valid; hide BTree.Map;
  }

  /** The cursor after an insertion shows where the client's scan is, or it has strayed. */
  lemma {:induction false} RidesShown(ps: seq<Page>, g: Shape, cur: Cursor, at: Where, t: BTree, gone: set<Key>,
                                      at': Where, strays: bool)
    requires at == Nowhere <==> cur.NoCursor?
    requires at.On? <==> cur.At?
    requires at == Nowhere || OnKey(ps, g, cur, at.key)
    requires t.Valid() && Rides(ps, g, cur, t.ps, t.g, t.cur, gone, strays)
    requires at' == if at.On? && at.key in gone then Behind(at.key) else at
    requires strays ==> at.On? && at.key !in gone
    ensures Shows(t, Client(t.Map(), at')) <==> !strays
  {
    hide BTree.Map; hide BTree.Valid;
  }

  lemma {:induction false} ShownHolds(t: BTree, c: Client)
    requires Shows(t, c)
    ensures HoldsMap(t, c) && t.CursorOk()
  {
    hide BTree.Valid; hide BTree.Map;
  }

  /** A record written over is not one a cursor strays from. */
  lemma {:induction false} StraysFrom(t: BTree, c: Client, key: Key, dsize: nat)
    requires Shows(t, c) && Strays(t.ps, t.g, t.cur, t.psize, key, dsize)
    ensures c.at.On? && c.at.key != key
  {
    hide Rank; hide Inv; hide Holds; hide SpaceOk; hide Sized; hide Occupied; hide Referenced; hide HintAt;
    hide Settled;
    hide BTree.Map;
    var ps, g, c := t.ps, t.g, t.cur;
    var index, exact :| Located(ps, g, key, c.pg, index, exact)
      && PageStrays(c.pg, ps[c.pg], t.psize, index, exact, NBLeafDbt(|key|, dsize), c.index);
    hide SlotLost; hide WentLeft;
    if t.CursorKey() == key {
      PlaceOf(ps, g, key, c.pg, index, exact, c.index);
      assert false;
    }
  }

  /** The place of a stored key is its record. */
  lemma {:induction false} PlaceOf(ps: seq<Page>, g: Shape, key: Key, h: PgNo, index: nat, exact: bool, i: nat)
    requires Inv(ps, g) && Located(ps, g, key, h, index, exact) && i < |ps[h].items| && ps[h].items[i].key == key
    ensures exact && index == i
  {
    hide Inv; hide Rank;
    LocatedOnce(ps, g, key, h, index, exact, h, i, true);
  }

  /** Whether an operation takes the cursor off its record. */
  ghost predicate LosesCursor(t: BTree, c: Client, op: Op)
    reads t
  {
    && op.Put? && !(op.noOverwrite && op.key in c.map_)
    && Strays(t.ps, t.g, t.cur, t.psize, op.key, t.StoredSize(op.key, op.data))
  }

  /** Whether the place for a record is one where a division would go wrong. */
  ghost predicate PlaceOk(t: BTree, op: Op)
    reads t
  {
    op.Put? ==> FrontOk(t.ps, t.g, op.key, t.StoredSize(op.key, op.data), t.psize)
  }

  /** An insertion, whatever the client's scan is at. */
  method PerformPut(t: BTree, op: Op, ghost c: Client) returns (r: Reply, ghost c': Client)
    requires Shows(t, c) && Storable(op, t.ovflsize) && PlaceOk(t, op) && op.Put? && t.HintFresh()
    modifies t
    ensures HoldsMap(t, c') && Answers(c, op, r, c') && t.HintFresh()
    ensures Shows(t, c') <==> !old(LosesCursor(t, c, op))
    ensures |Litter(t.s.chains)| == old(|Litter(t.s.chains)|) + LostBy(op, r, t.ovflsize)
    ensures |t.ps| == Larger(old(|t.ps|), Larger(old(t.InUse()) + t.PagesFor(op.key, op.data), t.InUse()))
  {
    hide StraysBehind;
    hide Rides; hide Strays; hide FrontOk; hide OnKey; hide BTree.Map; hide BTree.Valid; hide Litter; hide Shows;
    hide BTree.HintFresh; hide KeyStaysInline;
    ghost var chains0, ps0, g0, cur0 := t.s.chains, t.ps, t.g, t.cur;
    ghost var strays := Strays(ps0, g0, cur0, t.psize, op.key, t.StoredSize(op.key, op.data));
    ShownPlaced(t, c);
    ShownOnKey(t, c);
    ShownHolds(t, c);
    if strays { StraysFrom(t, c, op.key, t.StoredSize(op.key, op.data)); }
    var status := t.Put(op.key, op.data, op.noOverwrite);
    LitterGrows(chains0, t.s.chains.Keys - chains0.Keys);
    ghost var at := if status == RET_SUCCESS && c.at == On(op.key) then Behind(op.key) else c.at;
    r, c' := Reply(status, [], []), Client(t.Map(), at);
    ghost var gone := if status == RET_SUCCESS && op.key in c.map_ then {op.key} else {};
    RidesShown(ps0, g0, cur0, c.at, t, gone, at, status == RET_SUCCESS && strays);
  }

  /** A deletion by key. */
  method PerformDelete(t: BTree, op: Op, ghost c: Client) returns (r: Reply, ghost c': Client)
    requires Shows(t, c) && op.Delete?
    modifies t
    ensures Shows(t, c') && Answers(c, op, r, c')
    ensures |Litter(t.s.chains)| == old(|Litter(t.s.chains)|) && |t.ps| == old(|t.ps|)
  {
    hide Rides; hide OnKey; hide BTree.Map; hide BTree.Valid; hide Litter; hide Shows; hide Follows;
    ghost var ps0, g0, cur0 := t.ps, t.g, t.cur;
    ShownOnKey(t, c);
    ShownHolds(t, c);
    var status := t.BDelete(op.key);
    ghost var at := if c.at == On(op.key) then Behind(op.key) else c.at;
    r, c' := Reply(status, [], []), Client(t.Map(), at);
    FollowsRides(ps0, g0, cur0, t.ps, t.g, t.cur, {op.key});
    RidesShown(ps0, g0, cur0, c.at, t, {op.key}, at, false);
  }

  /** One operation.  Only an insertion can lose the cursor of a scan, and exactly when `Strays` says so beforehand. */
  method Perform(t: BTree, op: Op, ghost c: Client) returns (r: Reply, ghost c': Client)
    requires Shows(t, c) && Storable(op, t.ovflsize)
    requires PlaceOk(t, op) && (op.Put? ==> t.HintFresh())
    modifies t
    ensures HoldsMap(t, c') && Answers(c, op, r, c')
    ensures Shows(t, c') <==> !old(LosesCursor(t, c, op))
    ensures !(op.Delete? || op.DeleteAtCursor?) && old(t.HintFresh()) ==> t.HintFresh()
    ensures op.Put? ==> t.HintFresh()
    ensures |Litter(t.s.chains)| == old(|Litter(t.s.chains)|) + LostBy(op, r, t.ovflsize)
    ensures |t.ps|
            == if op.Put? then Larger(old(|t.ps|), Larger(old(t.InUse()) + t.PagesFor(op.key, op.data), t.InUse()))
               else old(|t.ps|)
  {
    hide BTree.PagesFor;
    hide SetAt; hide AdvAt; hide AdvEnd; hide NoneFrom; hide Strays; hide FrontOk; hide OnKey;
    hide BTree.Map; hide BTree.Valid; hide Litter;
    match op
    case Put(_, _, _) =>
      r, c' := PerformPut(t, op, c);
    case Delete(_) =>
      r, c' := PerformDelete(t, op, c);
    case DeleteAtCursor =>
      var status := t.DeleteCursor();
      r, c' := Reply(status, [], []), if c.at.On? then Client(c.map_ - {c.at.key}, Behind(c.at.key)) else c;
    case Get(k) =>
      var status, data := t.Get(k);
      r, c' := Reply(status, [], data), c;
    case Seq(flag, k) =>
      var status, key, data := t.Seq(k, flag);
      r, c' := Reply(status, key, data), if status == RET_SUCCESS then c.(at := On(key)) else c;
  }

  ghost predicate Trace(cs: seq<Client>, ops: seq<Op>, rs: seq<Reply>) {
    |cs| == |ops| + 1 && |rs| == |ops| && forall i :: 0 <= i < |ops| ==> Answers(cs[i], ops[i], rs[i], cs[i + 1])
  }

  /** What keeps `Perform` from doing an operation right, found out beforehand; the reads leave the tree as it is. */
  method Stops(t: BTree, op: Op, ghost c: Client) returns (stops: bool)
    requires Shows(t, c) && Storable(op, t.ovflsize)
    modifies t`stack
    ensures Shows(t, c)
    ensures stops == (op.Put? && (!t.HintFresh() || !PlaceOk(t, op) || LosesCursor(t, c, op)))
  {
    hide BTree.Map; hide BTree.Valid; hide Strays; hide FrontOk;
    stops := false;
    if op.Put? {
      var dsize := t.StoredSize(op.key, op.data);
      var unspoilt := t.HintIsFresh();
      var front := t.FrontFree(op.key, dsize);
      var strays := t.CursorStrays(op.key, dsize);
      var present, _ := t.Get(op.key);
      stops := !unspoilt || !front || (strays && !(op.noOverwrite && present == RET_SUCCESS));
    }
  }

  /**
   Any run of operations.  It goes on to the end unless an insertion comes that would take the
   cursor of a scan off its record, or that would divide a leaf in the way that goes wrong, or that
   comes while the sorted-insert hint is for a left edge that has left the tree.
   */
  method Run(t: BTree, ops: seq<Op>, ghost c: Client) returns (rs: seq<Reply>, ghost cs: seq<Client>)
    requires Shows(t, c) && forall op :: op in ops ==> Storable(op, t.ovflsize)
    modifies t
    ensures |rs| <= |ops| && |cs| == |rs| + 1 && Trace(cs, ops[..|rs|], rs) && cs[0] == c && Shows(t, cs[|rs|])
    ensures |Litter(t.s.chains)| == old(|Litter(t.s.chains)|) + Lost(ops[..|rs|], rs, t.ovflsize)
    ensures |rs| < |ops| ==>
              && ops[|rs|].Put?
              && (!t.HintFresh() || !PlaceOk(t, ops[|rs|]) || LosesCursor(t, cs[|rs|], ops[|rs|]))
  {
    hide Answers; hide Shows; hide Storable; hide Litter; hide LostBy; hide LosesCursor; hide PlaceOk;
    hide Trace; hide Lost; hide HoldsMap; hide BTree.Valid; hide BTree.Map; hide BTree.HintFresh;
    TraceBegins(ops, c, t.ovflsize);
    rs, cs := [], [c];
    while |rs| < |ops|
      invariant |rs| <= |ops| && |cs| == |rs| + 1 && Trace(cs, ops[..|rs|], rs) && cs[0] == c && Shows(t, cs[|rs|])
      invariant |Litter(t.s.chains)| == old(|Litter(t.s.chains)|) + Lost(ops[..|rs|], rs, t.ovflsize)
    {
      var op := ops[|rs|];
      var stops := Stops(t, op, cs[|rs|]);
      OnlyInsertionsStop(t, cs[|rs|], op);
      if stops {
        return;
      }
      var r, c' := Perform(t, op, cs[|rs|]);
      TraceGrows(ops, rs, cs, r, c', t.ovflsize);
      rs, cs := rs + [r], cs + [c'];
    }
  }

  lemma {:induction false} TraceBegins(ops: seq<Op>, c: Client, ovflsize: nat)
    ensures Trace([c], ops[..0], []) && Lost(ops[..0], [], ovflsize) == 0
  {
  }

  lemma {:induction false} TraceGrows(ops: seq<Op>, rs: seq<Reply>, cs: seq<Client>, r: Reply, c: Client, ovflsize: nat)
    requires |rs| < |ops| && Trace(cs, ops[..|rs|], rs) && Answers(cs[|rs|], ops[|rs|], r, c)
    ensures ops[..|rs| + 1] == ops[..|rs|] + [ops[|rs|]]
    ensures Trace(cs + [c], ops[..|rs| + 1], rs + [r])
    ensures Lost(ops[..|rs| + 1], rs + [r], ovflsize) == Lost(ops[..|rs|], rs, ovflsize)
      + LostBy(ops[|rs|], r, ovflsize)
  {
    hide Answers; hide LostBy;
    assert ops[..|rs| + 1][..|rs|] == ops[..|rs|] && (rs + [r])[..|rs|] == rs;
  }

  lemma {:induction false} OnlyInsertionsStop(t: BTree, c: Client, op: Op)
    ensures !op.Put? ==> PlaceOk(t, op) && !LosesCursor(t, c, op)
  {
  }

  // ---------------------------------------------------------------- what runs return

  lemma {:induction false} OneRank(a: Key, b: Key)
    requires Rank(a) <= Rank(b) <= Rank(a)
    ensures a == b
  {
    RankIsOrder(a, b);
  }

  /** Two replies say the same. */
  predicate Agree(op: Op, r: Reply, r': Reply) {
    && r.status == r'.status
    && (r.status == RET_SUCCESS && op.Get? ==> r.data == r'.data)
    && (r.status == RET_SUCCESS && op.Seq? ==> r.key == r'.key && r.data == r'.data)
  }

  /** The map leaves no choice for the reply. */
  lemma {:induction false} AnswersOnce(c: Client, op: Op, r: Reply, c1: Client, r': Reply, c2: Client)
    requires Answers(c, op, r, c1) && Answers(c, op, r', c2)
    ensures Agree(op, r, r') && c1 == c2
  {
    hide Rank;
    if op.Seq? && r.status == RET_SUCCESS && r'.status == RET_SUCCESS {
      OneRank(r.key, r'.key);
    }
  }

  /** Nor for the replies of a whole run. */
  lemma {:induction false} TraceOnce(cs: seq<Client>, rs: seq<Reply>, cs': seq<Client>, rs': seq<Reply>, ops: seq<Op>,
                                     n: nat)
    requires Trace(cs, ops, rs) && Trace(cs', ops, rs') && cs[0] == cs'[0] && n <= |ops|
    ensures cs[..n + 1] == cs'[..n + 1] && forall i :: 0 <= i < n ==> Agree(ops[i], rs[i], rs'[i])
  {
    hide Answers; hide Agree;
    if n > 0 {
      TraceOnce(cs, rs, cs', rs', ops, n - 1);
      assert cs[n - 1] == cs[..n][n - 1] == cs'[..n][n - 1];
      AnswersOnce(cs[n - 1], ops[n - 1], rs[n - 1], cs[n], rs'[n - 1], cs'[n]);
      assert cs[..n + 1] == cs[..n] + [cs[n]] && cs'[..n + 1] == cs'[..n] + [cs'[n]];
    }
  }

  /** The next key above a point between two keys of the list. */
  lemma {:induction false} NextListed(s: seq<Key>, ks: set<Key>, i: nat, x: real)
    requires Lists(s, ks) && i <= |s|
    requires (i > 0 ==> Rank(s[i - 1]) <= x) && (i < |s| ==> x < Rank(s[i]))
    ensures NoneAbove(ks, x) <==> i == |s|
    ensures forall k :: LeastAbove(ks, x, k) ==> i < |s| && k == s[i]
  {
    hide Rank;
    assert i < |s| ==> s[i] in ks;
    forall k | k in ks ensures exists j :: 0 <= j < |s| && s[j] == k && (x < Rank(k) <==> i <= j) {
      var j :| 0 <= j < |s| && s[j] == k;
    }
    forall k | LeastAbove(ks, x, k) ensures i < |s| && k == s[i] {
      OneRank(k, s[i]);
    }
  }

  lemma {:induction false} PrevListed(s: seq<Key>, ks: set<Key>, i: nat, x: real)
    requires Lists(s, ks) && i <= |s|
    requires (i > 0 ==> Rank(s[i - 1]) < x) && (i < |s| ==> x <= Rank(s[i]))
    ensures NoneBelow(ks, x) <==> i == 0
    ensures forall k :: GreatestBelow(ks, x, k) ==> i > 0 && k == s[i - 1]
  {
    hide Rank;
    assert i > 0 ==> s[i - 1] in ks;
    forall k | k in ks ensures exists j :: 0 <= j < |s| && s[j] == k && (Rank(k) < x <==> j < i) {
      var j :| 0 <= j < |s| && s[j] == k;
    }
    forall k | GreatestBelow(ks, x, k) ensures i > 0 && k == s[i - 1] {
      OneRank(k, s[i - 1]);
    }
  }

  /** The next key from a key on that is just below its place in the list. */
  lemma {:induction false} FromListed(s: seq<Key>, ks: set<Key>, i: nat, k0: Key)
    requires Lists(s, ks) && i <= |s|
    requires (i > 0 ==> Rank(s[i - 1]) < Rank(k0)) && (i < |s| ==> Rank(k0) <= Rank(s[i]))
    ensures NoneFrom(ks, k0) <==> i == |s|
    ensures forall k :: LeastFrom(ks, k0, k) ==> i < |s| && k == s[i]
  {
    hide Rank;
    assert i < |s| ==> s[i] in ks;
    forall k | k in ks ensures exists j :: 0 <= j < |s| && s[j] == k && (Rank(k0) <= Rank(k) <==> i <= j) {
      var j :| 0 <= j < |s| && s[j] == k;
    }
    forall k | LeastFrom(ks, k0, k) ensures i < |s| && k == s[i] {
      OneRank(k, s[i]);
    }
  }

  /** The `i`-th key of a scan over the list in one direction. */
  function Nth(s: seq<Key>, back: bool, i: nat): Key
    requires i < |s|
  {
    if back then s[|s| - 1 - i] else s[i]
  }

  /** A scan of one direction: R_FIRST and R_NEXT, or R_LAST and R_PREV. */
  ghost predicate IsScan(ops: seq<Op>, back: bool) {
    forall i :: 0 <= i < |ops| ==>
      ops[i].Seq? && ops[i].flag == if i == 0 then (if back then R_LAST else R_FIRST)
        else (if back then R_PREV else R_NEXT)
  }

  /** Step `i` of a scan. */
  ghost predicate ScanStep(c: Client, r: Reply, c': Client, s: seq<Key>, back: bool, i: nat) {
    && c'.map_ == c.map_
    && if i < |s| then
         r.status == RET_SUCCESS && r.key == Nth(s, back, i) && r.key in c.map_ && r.data == c.map_[r.key]
           && c'.at == On(r.key)
       else
         r.status == RET_SPECIAL && c'.at == c.at
  }

  /** The first step. */
  lemma {:induction false} ScanBegins(c: Client, op: Op, r: Reply, c': Client, s: seq<Key>, back: bool)
    requires Answers(c, op, r, c') && op.Seq? && op.flag == (if back then R_LAST else R_FIRST)
    requires Lists(s, c.map_.Keys)
    ensures ScanStep(c, r, c', s, back, 0)
  {
    RanksBelowPos(c.map_.Keys);
    assert s != [] ==> s[0] in c.map_ && s[|s| - 1] in c.map_;
    if back { PrevListed(s, c.map_.Keys, |s|, POS); } else { NextListed(s, c.map_.Keys, 0, NEG); }
  }

  /** A later step, from the record the one before returned. */
  lemma {:induction false} ScanAdvances(c: Client, op: Op, r: Reply, c': Client, s: seq<Key>, back: bool, i: nat)
    requires Answers(c, op, r, c') && op.Seq? && op.flag == (if back then R_PREV else R_NEXT)
    requires Lists(s, c.map_.Keys) && i > 0
      && (s != [] ==> c.at == On(Nth(s, back, if i < |s| then i - 1 else |s| - 1)))
    ensures ScanStep(c, r, c', s, back, i)
  {
    hide Rank; hide LeastAbove; hide NoneAbove; hide GreatestBelow; hide NoneBelow; hide LeastFrom; hide NoneFrom;
    hide SetAt;
    if s == [] {
      assert c.map_.Keys == {};
    } else {
      var j := if i < |s| then i - 1 else |s| - 1;
      var x := if back then |s| - 1 - j else j;
      OnList(s, c.map_.Keys, x);
      hide Lists;
    }
  }

  /** From a key of the list the next and the previous one are its neighbours there. */
  lemma {:induction false} OnList(s: seq<Key>, ks: set<Key>, j: nat)
    requires Lists(s, ks) && j < |s|
    ensures s[j] in ks
    ensures (NoneAbove(ks, Rank(s[j])) <==> j + 1 == |s|) && (NoneBelow(ks, Rank(s[j])) <==> j == 0)
    ensures forall k :: LeastAbove(ks, Rank(s[j]), k) ==> j + 1 < |s| && k == s[j + 1]
    ensures forall k :: GreatestBelow(ks, Rank(s[j]), k) ==> j > 0 && k == s[j - 1]
  {
    hide Rank; hide LeastAbove; hide NoneAbove; hide GreatestBelow; hide NoneBelow;
    NextListed(s, ks, j + 1, Rank(s[j]));
    PrevListed(s, ks, j, Rank(s[j]));
  }

  /**
   A scan returns every record once, in strictly increasing or decreasing order of the keys, and
   then reports the end for good.
   */
  lemma {:induction false} ScanReturnsAll(cs: seq<Client>, ops: seq<Op>, rs: seq<Reply>, s: seq<Key>, back: bool,
                                          n: nat)
    requires Trace(cs, ops, rs) && IsScan(ops, back) && Lists(s, cs[0].map_.Keys) && n <= |ops|
    ensures forall i :: 0 <= i < n ==> ScanStep(cs[i], rs[i], cs[i + 1], s, back, i)
    ensures cs[n].map_ == cs[0].map_
    ensures n > 0 && s != [] ==> cs[n].at == On(Nth(s, back, if n <= |s| then n - 1 else |s| - 1))
  {
    hide Answers; hide Lists;
    if n > 0 {
      ScanReturnsAll(cs, ops, rs, s, back, n - 1);
      var i := n - 1;
      assert Answers(cs[i], ops[i], rs[i], cs[i + 1]);
      if i == 0 {
        ScanBegins(cs[i], ops[i], rs[i], cs[i + 1], s, back);
      } else {
        ScanAdvances(cs[i], ops[i], rs[i], cs[i + 1], s, back, i);
      }
    }
  }

  /** R_NEXT and a deletion of the record it returns, over and over. */
  ghost predicate IsDrain(ops: seq<Op>) {
    forall i :: 0 <= i < |ops| ==> if i % 2 == 0 then ops[i].Seq? && ops[i].flag == R_NEXT else ops[i].DeleteAtCursor?
  }

  function KeysOf(s: seq<Key>): set<Key> { set k | k in s }

  /** The state before round `i` of a drain. */
  ghost predicate Drained(m0: map<Key, seq<byte>>, s: seq<Key>, i: nat, c: Client) {
    var n := if i < |s| then i else |s|;
    && c.map_ == m0 - KeysOf(s[..n])
    && if n == 0 then c.at == Nowhere else c.at == Behind(s[n - 1])
  }

  /** What round `i` returns. */
  ghost predicate DrainStep(m0: map<Key, seq<byte>>, s: seq<Key>, i: nat, next: Reply, del: Reply) {
    if i < |s| then
      next.status == RET_SUCCESS && next.key == s[i] && s[i] in m0 && next.data == m0[s[i]] && del.status == RET_SUCCESS
    else
      next.status == RET_SPECIAL && del.status == if s == [] then RET_ERROR else RET_SPECIAL
  }

  /** The rest of the list after some rounds. */
  lemma {:induction false} ListsRest(s: seq<Key>, ks: set<Key>, n: nat)
    requires Lists(s, ks) && n <= |s|
    ensures Lists(s[n..], ks - KeysOf(s[..n]))
  {
    hide Rank;
    forall i, j | 0 <= i < n <= j < |s| ensures s[i] != s[j] { assert Rank(s[i]) < Rank(s[j]); }
    forall k ensures k in ks - KeysOf(s[..n]) <==> k in s[n..] {
      assert s == s[..n] + s[n..];
    }
  }

  /** The state after a round in which a record was returned and deleted. */
  lemma {:induction false} DrainedOne(m0: map<Key, seq<byte>>, s: seq<Key>, i: nat, c: Client, c2: Client)
    requires Lists(s, m0.Keys) && Drained(m0, s, i, c) && i < |s|
    requires c2 == Client(c.map_ - {s[i]}, Behind(s[i]))
    ensures Drained(m0, s, i + 1, c2)
  {
    assert s[..i + 1] == s[..i] + [s[i]];
  }

  /** The first of the rest of the list is the next key for the scan. */
  lemma {:induction false} DrainFinds(m0: map<Key, seq<byte>>, s: seq<Key>, i: nat, c: Client)
    requires Lists(s, m0.Keys) && Drained(m0, s, i, c)
    ensures i < |s| ==> s[i] in c.map_ && c.map_[s[i]] == m0[s[i]]
    ensures i >= |s| ==> c.map_ == map[]
    ensures forall key, k :: SeqFinds(c, R_NEXT, key, k) ==> i < |s| && k == s[i]
    ensures forall key :: SeqEnds(c, R_NEXT, key) ==> i >= |s|
  {
    var n := if i < |s| then i else |s|;
    var ks := c.map_.Keys;
    assert ks == m0.Keys - KeysOf(s[..n]);
    ListsRest(s, m0.Keys, n);
    RanksBelowPos(KeysOf(s));
    assert i < |s| ==> s[n..][0] == s[i] && s[i] in KeysOf(s);
    hide Rank;
    if n == 0 {
      NextListed(s[n..], ks, 0, NEG);
    } else {
      FromListed(s[n..], ks, 0, s[n - 1]);
    }
    assert i < |s| ==> s[i] in s[n..];
    hide LeastFrom; hide LeastAbove; hide NoneFrom;
  }

  lemma {:induction false} DrainRound(m0: map<Key, seq<byte>>, s: seq<Key>, i: nat, c: Client, next: Op, r: Reply,
                                      c1: Client, r1: Reply, c2: Client)
    requires Lists(s, m0.Keys) && Drained(m0, s, i, c)
    requires next.Seq? && next.flag == R_NEXT && Answers(c, next, r, c1) && Answers(c1, DeleteAtCursor, r1, c2)
    ensures DrainStep(m0, s, i, r, r1) && Drained(m0, s, i + 1, c2)
  {
    hide SeqFinds; hide SeqEnds; hide Lists;
    DrainFinds(m0, s, i, c);
    if i < |s| {
      DrainedOne(m0, s, i, c, c2);
    }
  }

  /**
   Draining a tree by deleting each record a scan returns yields the records in increasing order of
   their keys and leaves nothing.
   */
  lemma {:induction false} DrainReturnsAll(cs: seq<Client>, ops: seq<Op>, rs: seq<Reply>, s: seq<Key>, n: nat)
    requires Trace(cs, ops, rs) && IsDrain(ops) && Lists(s, cs[0].map_.Keys) && cs[0].at == Nowhere && 2 * n <= |ops|
    ensures forall i :: 0 <= i < n ==> DrainStep(cs[0].map_, s, i, rs[2 * i], rs[2 * i + 1])
    ensures Drained(cs[0].map_, s, n, cs[2 * n])
    ensures n >= |s| ==> cs[2 * n].map_ == map[]
  {
    hide Answers; hide Lists; hide DrainStep;
    if n > 0 {
      DrainReturnsAll(cs, ops, rs, s, n - 1);
      var i := 2 * (n - 1);
      assert Answers(cs[i], ops[i], rs[i], cs[i + 1]) && Answers(cs[i + 1], ops[i + 1], rs[i + 1], cs[i + 2]);
      DrainRound(cs[0].map_, s, n - 1, cs[i], ops[i], rs[i], cs[i + 1], rs[i + 1], cs[i + 2]);
    }
    if n >= |s| {
      DrainedAll(cs[0].map_, s, n, cs[2 * n]);
    }
  }

  lemma {:induction false} DrainedAll(m0: map<Key, seq<byte>>, s: seq<Key>, n: nat, c: Client)
    requires Lists(s, m0.Keys) && Drained(m0, s, n, c) && n >= |s|
    ensures c.map_ == map[]
  {
    assert s[..|s|] == s;
    assert m0.Keys - KeysOf(s) == {};
  }
}
