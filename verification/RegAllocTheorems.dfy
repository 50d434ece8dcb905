/** Conservation of the pool, freedom from interference, and exactly when allocation succeeds. */
module RegAllocTheorems {
  import opened Liveness
  import opened RegAlloc

  function Regs(active: seq<Active>): seq<nat> {
    if active == [] then [] else Regs(active[..|active| - 1]) + [active[|active| - 1].p]
  }

  // ---------- Conservation ----------

  lemma {:induction false} ExpireSplits(active: seq<Active>, cur: nat)
    ensures multiset(Regs(active)) == multiset(Regs(Kept(active, cur))) + multiset(Freed(active, cur))
    decreases |active|
  {
    if active != [] {
      var n := |active| - 1;
      ExpireSplits(active[..n], cur);
      var kept := Kept(active[..n], cur);
      assert (kept + [active[n]])[..|kept|] == kept;
      assert kept + [] == kept;
    }
  }

  lemma {:induction false} TakeConserves(e: State, it: Item)
    requires e.pool != []
    ensures multiset(Take(e, it).pool) + multiset(Regs(Take(e, it).active))
      == multiset(e.pool) + multiset(Regs(e.active))
  {
    var n := |e.pool| - 1;
    assert e.pool == e.pool[..n] + [e.pool[n]];
    var t := Take(e, it);
    assert t.active[..|t.active| - 1] == e.active;
  }

  /** Pool and active registers are together a permutation of the initial pool, after every
      step. */
  lemma {:induction false} PoolIsConserved(items: seq<Item>)
    requires ScanAll(items).Scanning?
    ensures multiset(ScanAll(items).st.pool) + multiset(Regs(ScanAll(items).st.active)) == multiset(POOL)
    decreases |items|
  {
    hide Kept, Freed, POOL, Take;
    if items != [] {
      var n := |items| - 1;
      PoolIsConserved(items[..n]);
      var st := ScanAll(items[..n]).st;
      ExpireSplits(st.active, items[n].lr.start);
      TakeConserves(Expired(st, items[n].lr.start), items[n]);
    }
  }

  lemma {:induction false} PoolAt(i: nat)
    requires i < |POOL|
    ensures |POOL| == 25
    ensures POOL[i] == if i <= 16 then i + 2 else if i == 17 then 20 else i + 4
  {
    assert |POOL| == 25;
    assert POOL[0] == 2 && POOL[1] == 3 && POOL[2] == 4 && POOL[3] == 5 && POOL[4] == 6;
    assert POOL[5] == 7 && POOL[6] == 8 && POOL[7] == 9 && POOL[8] == 10 && POOL[9] == 11;
    assert POOL[10] == 12 && POOL[11] == 13 && POOL[12] == 14 && POOL[13] == 15 && POOL[14] == 16;
    assert POOL[15] == 17 && POOL[16] == 18 && POOL[17] == 20 && POOL[18] == 22 && POOL[19] == 23;
    assert POOL[20] == 24 && POOL[21] == 25 && POOL[22] == 26 && POOL[23] == 27 && POOL[24] == 28;
  }

  lemma {:induction false} DistinctOnce(s: seq<nat>, p: nat)
    requires forall i, j :: 0 <= i < j < |s| ==> s[i] != s[j]
    ensures multiset(s)[p] <= 1
    decreases |s|
  {
    if s != [] {
      var n := |s| - 1;
      DistinctOnce(s[..n], p);
      assert s == s[..n] + [s[n]];
    }
  }

  /** The pool names each register once and none of the reserved ones. */
  lemma {:induction false} PoolHasNoRepeats(p: nat)
    ensures multiset(POOL)[p] <= 1
    ensures p in POOL ==> 2 <= p <= 28 && p != 19 && p != 21
  {
    hide POOL;
    forall i, j | 0 <= i < j < |POOL| ensures POOL[i] != POOL[j] {
      PoolAt(i);
      PoolAt(j);
    }
    DistinctOnce(POOL, p);
    if p in POOL {
      var i :| 0 <= i < |POOL| && POOL[i] == p;
      PoolAt(i);
    }
  }

  // ---------- Who is active ----------

  /** The items still alive after position cur, in order. */
  function Alive(items: seq<Item>, cur: nat): seq<Item> {
    if items == [] then []
    else
      var last := items[|items| - 1];
      Alive(items[..|items| - 1], cur) + if last.lr.end <= cur then [] else [last]
  }

  function ItemsOf(active: seq<Active>): seq<Item> {
    if active == [] then []
    else ItemsOf(active[..|active| - 1]) + [Item(active[|active| - 1].v, active[|active| - 1].lr)]
  }

  predicate Ordered(items: seq<Item>) {
    forall i, j :: 0 <= i < j < |items| ==> items[i].lr.start <= items[j].lr.start
  }

  lemma {:induction false} KeptItems(active: seq<Active>, cur: nat)
    ensures ItemsOf(Kept(active, cur)) == Alive(ItemsOf(active), cur)
    decreases |active|
  {
    if active != [] {
      var n := |active| - 1;
      KeptItems(active[..n], cur);
      var kept := Kept(active[..n], cur);
      assert (kept + [active[n]])[..|kept|] == kept;
      assert kept + [] == kept;
      var items := ItemsOf(active);
      assert items[..|items| - 1] == ItemsOf(active[..n]);
    }
  }

  lemma {:induction false} AliveSnoc(items: seq<Item>, it: Item, cur: nat)
    ensures Alive(items + [it], cur) == Alive(items, cur) + if it.lr.end <= cur then [] else [it]
  {
    assert (items + [it])[..|items|] == items;
  }

  lemma {:induction false} AliveTwice(items: seq<Item>, cur: nat, later: nat)
    requires cur <= later
    ensures Alive(Alive(items, cur), later) == Alive(items, later)
    decreases |items|
  {
    if items != [] {
      var n := |items| - 1;
      AliveTwice(items[..n], cur, later);
      AliveSnoc(Alive(items[..n], cur), items[n], later);
      assert Alive(items[..n], cur) + [] == Alive(items[..n], cur);
      assert Alive(items[..n], later) + [] == Alive(items[..n], later);
    }
  }

  lemma {:induction false} TakenItems(e: State, it: Item)
    requires e.pool != []
    ensures ItemsOf(Take(e, it).active) == ItemsOf(e.active) + [it]
  {
    var t := Take(e, it);
    assert t.active[..|t.active| - 1] == e.active;
  }

  /** From the last start on, the active list shows exactly the items still alive. */
  lemma {:induction false} ActiveIsAlive(items: seq<Item>, cur: nat)
    requires ScanAll(items).Scanning? && Ordered(items)
    requires items != [] ==> items[|items| - 1].lr.start <= cur
    ensures Alive(ItemsOf(ScanAll(items).st.active), cur) == Alive(items, cur)
    decreases |items|
  {
    hide Kept, Freed, Alive, POOL, Take;
    if items != [] {
      var n := |items| - 1;
      var st := ScanAll(items[..n]).st;
      var start := items[n].lr.start;
      ActiveIsAlive(items[..n], start);
      KeptItems(st.active, start);
      var e := Expired(st, start);
      TakenItems(e, items[n]);
      AliveSnoc(ItemsOf(e.active), items[n], cur);
      AliveTwice(items[..n], start, cur);
      assert items == items[..n] + [items[n]];
      AliveSnoc(items[..n], items[n], cur);
    }
  }

  lemma {:induction false} AliveHas(items: seq<Item>, cur: nat, i: nat)
    requires i < |items| && items[i].lr.end > cur
    ensures items[i] in Alive(items, cur)
    decreases |items|
  {
    if i < |items| - 1 {
      AliveHas(items[..|items| - 1], cur, i);
    }
  }

  // ---------- In which order ----------

  ghost predicate Rising(at: seq<nat>) {
    forall i, j :: 0 <= i < j < |at| ==> at[i] < at[j]
  }

  /** The positions of the entries of an active list that have, or have not, ended by cur. */
  ghost predicate Picks(active: seq<Active>, cur: nat, ended: bool, at: seq<nat>) {
    && Rising(at)
    && (forall i :: 0 <= i < |at| ==> at[i] < |active|)
    && forall k: nat :: k in at <==> k < |active| && (active[k].lr.end <= cur) == ended
  }

  lemma {:induction false} PicksNext(active: seq<Active>, cur: nat, ended: bool, at: seq<nat>)
    requires active != [] && Picks(active[..|active| - 1], cur, ended, at)
    ensures
      var n := |active| - 1;
      Picks(active, cur, ended, if (active[n].lr.end <= cur) == ended then at + [n] else at)
  {
    var n := |active| - 1;
    var next := if (active[n].lr.end <= cur) == ended then at + [n] else at;
    forall k: nat ensures k in next <==> k < |active| && (active[k].lr.end <= cur) == ended {
      assert k in next <==> k in at || (k == n && next != at);
      assert k < n ==> active[..n][k] == active[k];
    }
  }

  lemma {:induction false} PicksInside(active: seq<Active>, cur: nat, ended: bool, at: seq<nat>)
    requires Picks(active, cur, ended, at)
    ensures forall i :: 0 <= i < |at| ==> at[i] < |active|
  {
  }

  lemma {:induction false} NothingPicked(cur: nat, ended: bool)
    ensures Picks([], cur, ended, [])
  {
  }

  lemma {:induction false} ExpireStep(active: seq<Active>, cur: nat)
    ensures active == [] ==> Freed(active, cur) == [] && Kept(active, cur) == []
    ensures active != [] ==>
      var n := |active| - 1;
      && Freed(active, cur) == Freed(active[..n], cur) + (if active[n].lr.end <= cur then [active[n].p] else [])
      && Kept(active, cur) == Kept(active[..n], cur) + (if active[n].lr.end <= cur then [] else [active[n]])
  {
  }

  /** The registers that return to the pool are those of the ended entries, in the order of the active
      list. */
  lemma {:induction false} FreedInOrder(active: seq<Active>, cur: nat) returns (at: seq<nat>)
    ensures Picks(active, cur, true, at) && |Freed(active, cur)| == |at|
    ensures forall i :: 0 <= i < |at| ==> Freed(active, cur)[i] == active[at[i]].p
    decreases |active|
  {
    hide Picks, Freed, Kept;
    at := [];
    ExpireStep(active, cur);
    if active == [] {
      NothingPicked(cur, true);
    } else {
      var n := |active| - 1;
      var before := FreedInOrder(active[..n], cur);
      PicksNext(active, cur, true, before);
      PicksInside(active[..n], cur, true, before);
      at := if active[n].lr.end <= cur then before + [n] else before;
    }
  }

  /** The entries that stay are those that have not ended, in the same order. */
  lemma {:induction false} KeptInOrder(active: seq<Active>, cur: nat) returns (at: seq<nat>)
    ensures Picks(active, cur, false, at) && |Kept(active, cur)| == |at|
    ensures forall i :: 0 <= i < |at| ==> Kept(active, cur)[i] == active[at[i]]
    decreases |active|
  {
    hide Picks, Freed, Kept;
    at := [];
    ExpireStep(active, cur);
    if active == [] {
      NothingPicked(cur, false);
    } else {
      var n := |active| - 1;
      var before := KeptInOrder(active[..n], cur);
      PicksNext(active, cur, false, before);
      PicksInside(active[..n], cur, false, before);
      at := if active[n].lr.end <= cur then before else before + [n];
    }
  }

  /** The last entry of the active list that has ended. */
  predicate LastEnded(active: seq<Active>, cur: nat, k: nat) {
    k < |active| && active[k].lr.end <= cur && forall j :: k < j < |active| ==> active[j].lr.end > cur
  }

  lemma {:induction false} LastFreed(active: seq<Active>, cur: nat)
    ensures Freed(active, cur) == [] <==> forall k :: 0 <= k < |active| ==> active[k].lr.end > cur
    ensures Freed(active, cur) != [] ==> exists k: nat :: LastEnded(active, cur, k)
    ensures forall k: nat :: LastEnded(active, cur, k) ==>
      Freed(active, cur) != [] && Freed(active, cur)[|Freed(active, cur)| - 1] == active[k].p
  {
    hide Freed;
    var at := FreedInOrder(active, cur);
    forall k: nat | LastEnded(active, cur, k)
      ensures Freed(active, cur) != [] && Freed(active, cur)[|Freed(active, cur)| - 1] == active[k].p
    {
      assert k in at;
      assert at[|at| - 1] in at;
    }
    if at != [] {
      assert at[|at| - 1] in at;
      assert LastEnded(active, cur, at[|at| - 1]);
    } else {
      assert forall k: nat :: k < |active| ==> k !in at;
    }
  }

  /** Which register an item takes: when an entry has ended by its start, that of the last such entry in
      the active list; otherwise the one at the end of the pool. The others stay in their order. */
  lemma {:induction false} TakesLast(items: seq<Item>)
    requires items != [] && ScanAll(items).Scanning?
    ensures ScanAll(items[..|items| - 1]).Scanning?
    ensures
      var it := items[|items| - 1];
      var before, after := ScanAll(items[..|items| - 1]).st, ScanAll(items).st;
      var cur := it.lr.start;
      && it.v in after.v2p && after.v2p == before.v2p[it.v := after.v2p[it.v]]
      && var p := after.v2p[it.v];
      && (forall k: nat :: LastEnded(before.active, cur, k) ==> p == before.active[k].p)
      && ((forall k :: 0 <= k < |before.active| ==> before.active[k].lr.end > cur) ==>
            before.pool != [] && p == before.pool[|before.pool| - 1])
      && after.pool + [p] == before.pool + Freed(before.active, cur)
      && after.active == Kept(before.active, cur) + [Active(p, it.lr, it.v)]
  {
    hide Kept, Freed, POOL;
    var it := items[|items| - 1];
    var before := ScanAll(items[..|items| - 1]).st;
    LastFreed(before.active, it.lr.start);
  }

  predicate DistinctItems(items: seq<Item>) {
    forall i, j :: 0 <= i < j < |items| ==> items[i].v != items[j].v
  }

  /** What the active list holds after the items: at is the increasing list of the items among them
      that had not ended when the last one started, itself included, each with the register it was given. */
  ghost predicate Occupies(items: seq<Item>, st: State, at: seq<nat>) {
    && Rising(at) && |at| == |st.active|
    && (forall i :: 0 <= i < |at| ==> at[i] < |items|)
    && (forall k: nat :: k in at <==>
          k < |items| && (k == |items| - 1 || items[k].lr.end > items[|items| - 1].lr.start))
    && forall i :: 0 <= i < |at| ==>
         items[at[i]].v in st.v2p && st.active[i] == Active(st.v2p[items[at[i]].v], items[at[i]].lr, items[at[i]].v)
  }

  lemma {:induction false} StillThere(items: seq<Item>, before: State, at: seq<nat>, kept: seq<nat>, next: seq<nat>,
                                      k: nat)
    requires items != [] && Ordered(items) && k < |items| - 1
    requires Occupies(items[..|items| - 1], before, at)
    requires Picks(before.active, items[|items| - 1].lr.start, false, kept)
    requires |next| == |kept| + 1 && next[|kept|] == |items| - 1
    requires forall i :: 0 <= i < |kept| ==> kept[i] < |at| && next[i] == at[kept[i]]
    ensures k in next <==> items[k].lr.end > items[|items| - 1].lr.start
  {
    var n := |items| - 1;
    var cur := items[n].lr.start;
    assert items[..n][k] == items[k];
    if k in next {
      var i :| 0 <= i < |next| && next[i] == k;
      assert kept[i] in kept;
      assert before.active[kept[i]].lr == items[..n][k].lr;
    }
    if items[k].lr.end > cur {
      assert k in at;
      var j :| 0 <= j < |at| && at[j] == k;
      assert before.active[j].lr == items[..n][k].lr;
      assert j in kept;
      var i :| 0 <= i < |kept| && kept[i] == j;
      assert next[i] == k;
    }
  }

  lemma {:induction false} OccupiesNext(items: seq<Item>, at: seq<nat>, kept: seq<nat>, next: seq<nat>)
    requires items != [] && ScanAll(items).Scanning? && Ordered(items) && DistinctItems(items)
    requires ScanAll(items[..|items| - 1]).Scanning?
    requires Occupies(items[..|items| - 1], ScanAll(items[..|items| - 1]).st, at)
    requires
      var active, cur := ScanAll(items[..|items| - 1]).st.active, items[|items| - 1].lr.start;
      && Picks(active, cur, false, kept) && |Kept(active, cur)| == |kept|
      && (forall i :: 0 <= i < |kept| ==> Kept(active, cur)[i] == active[kept[i]])
    requires |next| == |kept| + 1 && next[|kept|] == |items| - 1
    requires forall i :: 0 <= i < |kept| ==> kept[i] < |at| && next[i] == at[kept[i]]
    ensures Occupies(items, ScanAll(items).st, next)
  {
    hide Kept, Freed, POOL, ScanAll, LastEnded;
    TakesLast(items);
    var n := |items| - 1;
    var cur := items[n].lr.start;
    var before, st := ScanAll(items[..n]).st, ScanAll(items).st;
    forall k: nat | k < n ensures k in next <==> items[k].lr.end > cur {
      StillThere(items, before, at, kept, next, k);
    }
    assert forall i :: 0 <= i < |kept| ==> next[i] < n && next[i] == at[kept[i]];
    assert n in next by { assert next[|kept|] == n; }
    forall i | 0 <= i < |next|
      ensures items[next[i]].v in st.v2p
      ensures st.active[i] == Active(st.v2p[items[next[i]].v], items[next[i]].lr, items[next[i]].v)
    {
      if i < |kept| {
        assert items[..n][next[i]] == items[next[i]];
        assert st.active[i] == before.active[kept[i]];
      }
    }
  }

  /** After any number of items the active list holds, in the order of the items, exactly those that
      had not ended when the last one started, each with its register. */
  lemma {:induction false} ActiveInOrder(items: seq<Item>) returns (at: seq<nat>)
    requires ScanAll(items).Scanning? && Ordered(items) && DistinctItems(items)
    ensures Occupies(items, ScanAll(items).st, at)
    decreases |items|
  {
    hide Kept, Freed, POOL, LastEnded, Picks;
    at := [];
    if items != [] {
      var n := |items| - 1;
      TakesLast(items);
      var before := ActiveInOrder(items[..n]);
      var active, cur := ScanAll(items[..n]).st.active, items[n].lr.start;
      var kept := KeptInOrder(active, cur);
      PicksInside(active, cur, false, kept);
      at := seq(|kept|, i requires 0 <= i < |kept| => before[kept[i]]) + [n];
      OccupiesNext(items, before, kept, at);
    }
  }

  /** Item i is the last one before item n, in the order of the scan, that still held its register
      after item n - 1 and has ended when n starts. */
  predicate LastToEnd(items: seq<Item>, i: nat) {
    var n := |items| - 1;
    && i < n && items[i].lr.end <= items[n].lr.start
    && (i == n - 1 || items[i].lr.end > items[n - 1].lr.start)
    && forall j :: i < j < n && items[j].lr.end <= items[n].lr.start ==>
         j != n - 1 && items[j].lr.end <= items[n - 1].lr.start
  }

  /** The last item takes over the register of that one. */
  lemma {:induction false} TakesOver(items: seq<Item>, i: nat)
    requires ScanAll(items).Scanning? && Ordered(items) && DistinctItems(items) && LastToEnd(items, i)
    ensures items[i].v in ScanAll(items).st.v2p && items[|items| - 1].v in ScanAll(items).st.v2p
    ensures ScanAll(items).st.v2p[items[|items| - 1].v] == ScanAll(items).st.v2p[items[i].v]
  {
    hide Kept, Freed, POOL, ScanAll;
    var n := |items| - 1;
    TakesLast(items);
    var at := ActiveInOrder(items[..n]);
    var st := ScanAll(items[..n]).st;
    assert items[..n][i] == items[i];
    assert i in at;
    var k :| 0 <= k < |at| && at[k] == i;
    assert LastEnded(st.active, items[n].lr.start, k) by {
      forall j | k < j < |st.active| ensures st.active[j].lr.end > items[n].lr.start {
        assert items[..n][at[j]] == items[at[j]];
        assert at[j] in at;
      }
    }
  }

  // ---------- Interference ----------

  /** Every active register is the one its item was given. */
  lemma {:induction false} ActiveIsAssigned(items: seq<Item>, i: nat)
    requires ScanAll(items).Scanning?
    requires forall i, j :: 0 <= i < j < |items| ==> items[i].v != items[j].v
    requires i < |ScanAll(items).st.active|
    ensures
      var st := ScanAll(items).st;
      var a := st.active[i];
      a.v in st.v2p && st.v2p[a.v] == a.p && exists k :: 0 <= k < |items| && items[k].v == a.v
    decreases |items|
  {
    hide Kept, Freed, POOL;
    if items != [] {
      var n := |items| - 1;
      var before := ScanAll(items[..n]).st;
      var st := ScanAll(items).st;
      var e := Expired(before, items[n].lr.start);
      if i < |e.active| {
        assert st.active[i] == e.active[i];
        var k := KeptFrom(before.active, items[n].lr.start, i);
        ActiveIsAssigned(items[..n], k);
        var q :| 0 <= q < n && items[..n][q].v == e.active[i].v;
        assert items[q].v == e.active[i].v;
      } else {
        assert items[n].v == st.active[i].v;
      }
    }
  }

  lemma {:induction false} KeptFrom(active: seq<Active>, cur: nat, i: nat) returns (k: nat)
    requires i < |Kept(active, cur)|
    ensures k < |active| && active[k] == Kept(active, cur)[i] && active[k].lr.end > cur
    decreases |active|
  {
    var n := |active| - 1;
    var kept := Kept(active[..n], cur);
    if i < |kept| {
      k := KeptFrom(active[..n], cur, i);
    } else {
      k := n;
    }
  }

  lemma {:induction false} RegsHas(active: seq<Active>, i: nat)
    requires i < |active|
    ensures active[i].p in Regs(active)
    decreases |active|
  {
    if i < |active| - 1 {
      RegsHas(active[..|active| - 1], i);
    }
  }

  lemma {:induction false} ItemsOfFrom(active: seq<Active>, it: Item) returns (k: nat)
    requires it in ItemsOf(active)
    ensures k < |active| && active[k].v == it.v && active[k].lr == it.lr
    decreases |active|
  {
    var n := |active| - 1;
    if it in ItemsOf(active[..n]) {
      k := ItemsOfFrom(active[..n], it);
    } else {
      k := n;
    }
  }

  /** What is popped from the pool is not in use. */
  lemma {:induction false} PoppedIsFree(items: seq<Item>, cur: nat)
    requires ScanAll(items).Scanning? && Expired(ScanAll(items).st, cur).pool != []
    ensures
      var e := Expired(ScanAll(items).st, cur);
      var p := e.pool[|e.pool| - 1];
      p in POOL && p !in Regs(e.active)
  {
    hide Kept, Freed, POOL, Regs, ScanAll;
    var st := ScanAll(items).st;
    ExpireSplits(st.active, cur);
    PoolIsConserved(items);
    var e := Expired(st, cur);
    var p := e.pool[|e.pool| - 1];
    PoolHasNoRepeats(p);
    assert multiset(e.pool)[p] + multiset(Regs(e.active))[p] == multiset(POOL)[p];
    assert p in e.pool;
  }

  /** The register taken for an item differs from that of every earlier item still alive. */
  lemma {:induction false} TakenIsFree(items: seq<Item>, i: nat)
    requires ScanAll(items).Scanning? && Ordered(items) && i < |items| - 1
    requires forall i, j :: 0 <= i < j < |items| ==> items[i].v != items[j].v
    requires items[i].lr.end > items[|items| - 1].lr.start
    ensures items[i].v in ScanAll(items).st.v2p && items[|items| - 1].v in ScanAll(items).st.v2p
    ensures ScanAll(items).st.v2p[items[i].v] != ScanAll(items).st.v2p[items[|items| - 1].v]
  {
    hide Kept, Freed, POOL, Alive, ItemsOf, Regs;
    var n := |items| - 1;
    var st := ScanAll(items[..n]).st;
    var start := items[n].lr.start;
    ActiveIsAlive(items[..n], start);
    AliveHas(items[..n], start, i);
    KeptItems(st.active, start);
    var e := Expired(st, start);
    var k := ItemsOfFrom(e.active, items[i]);
    var q := KeptFrom(st.active, start, k);
    ActiveIsAssigned(items[..n], q);
    RegsHas(e.active, k);
    PoppedIsFree(items[..n], start);
    var v2p := ScanAll(items).st.v2p;
    assert v2p[items[n].v] == e.pool[|e.pool| - 1];
    assert v2p[items[i].v] == st.v2p[items[i].v];
    assert st.v2p[items[i].v] in Regs(e.active);
  }

  lemma {:induction false} AssignmentKeeps(items: seq<Item>, n: nat, v: nat)
    requires n <= |items| && ScanAll(items).Scanning?
    requires forall k :: n <= k < |items| ==> items[k].v != v
    ensures ScanAll(items[..n]).Scanning?
    ensures v in ScanAll(items[..n]).st.v2p ==>
      v in ScanAll(items).st.v2p && ScanAll(items).st.v2p[v] == ScanAll(items[..n]).st.v2p[v]
    decreases |items| - n
  {
    hide Kept, Freed, POOL;
    if n == |items| {
      assert items[..n] == items;
    } else {
      var m := |items| - 1;
      AssignmentKeeps(items[..m], n, v);
      assert items[..m][..n] == items[..n];
    }
  }

  /** Two intervals meet: each starts before the other ends. */
  predicate Interferes(a: LiveRange, b: LiveRange) {
    a.start < b.end && b.start < a.end
  }

  lemma {:induction false} IndexOf(live: LiveMap, items: seq<Item>, v: nat) returns (i: nat)
    requires IsSorting(live, items) && v in live
    ensures i < |items| && items[i].v == v && items[i].lr == live[v]
  {
    i :| 0 <= i < |items| && items[i].v == v;
  }

  /** Registers whose intervals interfere are given different physical registers, whatever the
      live map and the order of equal starts. */
  lemma {:induction false} NoInterference(live: LiveMap, items: seq<Item>, v: nat, w: nat)
    requires IsSorting(live, items) && Allocated(items).Assigned?
    requires v in live && w in live && v != w && Interferes(live[v], live[w])
    ensures v in Allocated(items).v2p && w in Allocated(items).v2p
    ensures Allocated(items).v2p[v] != Allocated(items).v2p[w]
  {
    hide ScanAll;
    var i := IndexOf(live, items, v);
    var j := IndexOf(live, items, w);
    var lo, hi := if i < j then i else j, if i < j then j else i;
    AssignmentKeeps(items, hi + 1, v);
    AssignmentKeeps(items, hi + 1, w);
    TakenIsFree(items[..hi + 1], lo);
  }

  /** Every register of the map is assigned one of the pool. */
  lemma {:induction false} AssignedFromPool(items: seq<Item>)
    requires ScanAll(items).Scanning?
    ensures forall i :: 0 <= i < |items| ==> items[i].v in ScanAll(items).st.v2p
    ensures forall v :: v in ScanAll(items).st.v2p ==> ScanAll(items).st.v2p[v] in POOL
    decreases |items|
  {
    hide Kept, Freed, POOL, Regs;
    if items != [] {
      var n := |items| - 1;
      AssignedFromPool(items[..n]);
      assert forall i :: 0 <= i < n ==> items[..n][i] == items[i];
      PoppedIsFree(items[..n], items[n].lr.start);
    }
  }

  // ---------- Success ----------

  lemma {:induction false} RegsLength(active: seq<Active>)
    ensures |Regs(active)| == |active| && |ItemsOf(active)| == |active|
    decreases |active|
  {
    if active != [] {
      RegsLength(active[..|active| - 1]);
    }
  }

  /** At every item fewer than 25 earlier ones are still alive. */
  ghost predicate NeverFull(items: seq<Item>) {
    forall n :: 0 <= n < |items| ==> |Alive(items[..n], items[n].lr.start)| < 25
  }

  lemma PoolSize()
    ensures |multiset(POOL)| == 25
  {
  }

  lemma {:induction false} PoolEmptiesAt25(items: seq<Item>, cur: nat)
    requires ScanAll(items).Scanning? && Ordered(items)
    requires items != [] ==> items[|items| - 1].lr.start <= cur
    ensures Expired(ScanAll(items).st, cur).pool == [] <==> |Alive(items, cur)| == 25
    ensures |Alive(items, cur)| <= 25
  {
    hide Kept, Freed, POOL, Alive, ItemsOf, Regs, ScanAll;
    var st := ScanAll(items).st;
    var e := Expired(st, cur);
    ActiveIsAlive(items, cur);
    KeptItems(st.active, cur);
    RegsLength(e.active);
    ExpireSplits(st.active, cur);
    PoolIsConserved(items);
    PoolSize();
    assert multiset(e.pool) + multiset(Regs(e.active)) == multiset(POOL);
    assert |multiset(e.pool) + multiset(Regs(e.active))| == |e.pool| + |Regs(e.active)|;
  }

  /** Allocation completes if and only if never 25 earlier intervals are alive at a start. */
  lemma {:induction false} AllocatesExactly(items: seq<Item>)
    requires Ordered(items)
    ensures ScanAll(items).Scanning? <==> NeverFull(items)
    decreases |items|
  {
    hide Kept, Freed, POOL, Alive;
    if items != [] {
      var n := |items| - 1;
      AllocatesExactly(items[..n]);
      assert forall k :: 0 <= k < n ==> items[..n][k] == items[k] && items[..n][..k] == items[..k];
      if ScanAll(items[..n]).Scanning? {
        PoolEmptiesAt25(items[..n], items[n].lr.start);
      }
    }
  }

  // ---------- Independence of the order ----------

  ghost predicate DistinctStarts(live: LiveMap) {
    forall v, w :: v in live && w in live && v != w ==> live[v].start != live[w].start
  }

  /** Two sortings that agree below n agree at n. */
  lemma {:induction false} NextIsSame(live: LiveMap, items: seq<Item>, others: seq<Item>, n: nat)
    requires IsSorting(live, items) && IsSorting(live, others) && n < |items| && n <= |others|
    requires items[..n] == others[..n]
    ensures n < |others| && items[n].lr.start >= others[n].lr.start
  {
    forall q | 0 <= q < n ensures others[q].v != items[n].v {
      assert items[..n][q] == others[..n][q];
    }
    var j := IndexOf(live, others, items[n].v);
    assert others[j].lr == items[n].lr;
  }

  lemma {:induction false} SameStartSameItem(live: LiveMap, items: seq<Item>, others: seq<Item>, n: nat)
    requires IsSorting(live, items) && IsSorting(live, others) && DistinctStarts(live)
    requires n < |items| && n < |others| && items[n].lr.start == others[n].lr.start
    ensures items[n] == others[n]
  {
    assert items[n].v in live && others[n].v in live;
  }

  lemma {:induction false} SortedPrefix(live: LiveMap, items: seq<Item>, others: seq<Item>, n: nat)
    requires IsSorting(live, items) && IsSorting(live, others) && DistinctStarts(live) && n <= |items|
    ensures n <= |others| && items[..n] == others[..n]
    decreases n
  {
    hide IsSorting, DistinctStarts;
    if n > 0 {
      SortedPrefix(live, items, others, n - 1);
      NextIsSame(live, items, others, n - 1);
      NextIsSame(live, others, items, n - 1);
      SameStartSameItem(live, items, others, n - 1);
      assert items[..n] == items[..n - 1] + [items[n - 1]];
      assert others[..n] == others[..n - 1] + [others[n - 1]];
    }
  }

  /** With distinct starts there is only one sorting, so the assignment does not depend on the
      order in which the map is traversed or on the stability of the sort. */
  lemma {:induction false} SortingIsUnique(live: LiveMap, items: seq<Item>, others: seq<Item>)
    requires IsSorting(live, items) && IsSorting(live, others) && DistinctStarts(live)
    ensures items == others
  {
    SortedPrefix(live, items, others, |items|);
    SortedPrefix(live, others, items, |others|);
  }
}
