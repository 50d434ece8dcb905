/** Linear-scan register allocation over a pool of 25 registers, without spilling. */
module RegAlloc {
  import opened Liveness

  datatype Item = Item(v: nat, lr: LiveRange)

  datatype Active = Active(p: nat, lr: LiveRange, v: nat)

  /** Source x0 (state), x1 (jump target), x19 (saved link), x21 (memory base), x29 and x30 are
      not in the pool. */
  const POOL: seq<nat> := [2, 3, 4, 5, 6, 7, 8, 9, 10, 11, 12, 13, 14,
                           15, 16, 17, 18, 20, 22, 23, 24, 25, 26, 27, 28]

  /** Free registers, occupied registers and the assignment so far. */
  datatype State = State(pool: seq<nat>, active: seq<Active>, v2p: map<nat, nat>)

  datatype Outcome = Assigned(v2p: map<nat, nat>) | OutOfRegisters(v: nat)

  // ---------- The scan ----------

  function Kept(active: seq<Active>, cur: nat): seq<Active> {
    if active == [] then []
    else
      var last := active[|active| - 1];
      Kept(active[..|active| - 1], cur) + if last.lr.end <= cur then [] else [last]
  }

  function Freed(active: seq<Active>, cur: nat): seq<nat> {
    if active == [] then []
    else
      var last := active[|active| - 1];
      Freed(active[..|active| - 1], cur) + if last.lr.end <= cur then [last.p] else []
  }

  function Expired(st: State, cur: nat): State {
    State(st.pool + Freed(st.active, cur), Kept(st.active, cur), st.v2p)
  }

  /** Takes the register at the end of the pool. */
  function Take(st: State, it: Item): State
    requires st.pool != []
  {
    var n := |st.pool| - 1;
    State(st.pool[..n], st.active + [Active(st.pool[n], it.lr, it.v)], st.v2p[it.v := st.pool[n]])
  }

  datatype Scan = Scanning(st: State) | Failed(v: nat)

  /** The allocator after the given items. */
  function ScanAll(items: seq<Item>): Scan {
    if items == [] then Scanning(State(POOL, [], map[]))
    else
      var it := items[|items| - 1];
      match ScanAll(items[..|items| - 1])
      case Failed(v) => Failed(v)
      case Scanning(st) =>
        var e := Expired(st, it.lr.start);
        if e.pool == [] then Failed(it.v) else Scanning(Take(e, it))
  }

  function Allocated(items: seq<Item>): Outcome {
    match ScanAll(items)
    case Failed(v) => OutOfRegisters(v)
    case Scanning(st) => Assigned(st.v2p)
  }

  /** The intervals of the map, in some order of their starts: any tie order of the sort. */
  ghost predicate IsSorting(live: LiveMap, items: seq<Item>) {
    && (forall i :: 0 <= i < |items| ==> items[i].v in live && live[items[i].v] == items[i].lr)
    && (forall v :: v in live ==> exists i :: 0 <= i < |items| && items[i].v == v)
    && (forall i, j :: 0 <= i < j < |items| ==> items[i].v != items[j].v)
    && (forall i, j :: 0 <= i < j < |items| ==> items[i].lr.start <= items[j].lr.start)
  }

  method Expire(pool: seq<nat>, active: seq<Active>, cur: nat) returns (pool': seq<nat>, active': seq<Active>)
    ensures pool' == pool + Freed(active, cur) && active' == Kept(active, cur)
  {
    var freed: seq<nat> := [];
    active' := [];
    for i := 0 to |active|
      invariant active' == Kept(active[..i], cur) && freed == Freed(active[..i], cur)
    {
      assert active[..i + 1][..i] == active[..i];
      if active[i].lr.end <= cur {
        freed := freed + [active[i].p];
      } else {
        active' := active' + [active[i]];
      }
    }
    assert active[..|active|] == active;
    pool' := pool + freed;
  }

  method Allocate(live: LiveMap, items: seq<Item>) returns (outcome: Outcome)
    requires IsSorting(live, items)
    ensures outcome == Allocated(items)
  {
    hide Kept, Freed, IsSorting;
    var pool: seq<nat> := POOL;
    var active: seq<Active> := [];
    var v2p: map<nat, nat> := map[];
    for k := 0 to |items|
      invariant ScanAll(items[..k]) == Scanning(State(pool, active, v2p))
    {
      var it := items[k];
      assert items[..k + 1][..k] == items[..k];
      pool, active := Expire(pool, active, it.lr.start);
      if pool == [] {
        FailureStays(items, k + 1);
        return OutOfRegisters(it.v);
      }
      var p := pool[|pool| - 1];
      pool := pool[..|pool| - 1];
      v2p := v2p[it.v := p];
      active := active + [Active(p, it.lr, it.v)];
    }
    assert items[..|items|] == items;
    outcome := Assigned(v2p);
  }

  lemma {:induction false} FailureStays(items: seq<Item>, k: nat)
    requires k <= |items| && ScanAll(items[..k]).Failed?
    ensures ScanAll(items) == ScanAll(items[..k])
    decreases |items| - k
  {
    hide Kept, Freed;
    if k < |items| {
      assert items[..k + 1][..k] == items[..k];
      FailureStays(items, k + 1);
    } else {
      assert items[..k] == items;
    }
  }
}
