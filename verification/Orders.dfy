/** Sorting: the block addresses, and the intervals of a live map by their starts. */
module Orders {
  import opened Words
  import opened Liveness
  import opened RegAlloc

  predicate Increasing(addrs: seq<Word>) {
    forall i, j :: 0 <= i < j < |addrs| ==> addrs[i] < addrs[j]
  }

  // ---------- Addresses ----------

  /** The keys of the index in increasing order. */
  ghost predicate AddressOrder(addrs: seq<Word>, keys: set<Word>) {
    Increasing(addrs) && forall a :: a in addrs <==> a in keys
  }

  ghost predicate IsLeast(a: Word, s: set<Word>) {
    a in s && forall b :: b in s ==> a <= b
  }

  lemma {:induction false} LeastExists(s: set<Word>) returns (least: Word)
    requires s != {}
    ensures IsLeast(least, s)
    decreases |s|
  {
    least :| least in s;
    var rest := s - {least};
    if rest != {} {
      var a := LeastExists(rest);
      LeastOfTwo(least, a, s);
      if a < least { least := a; }
    } else {
      assert forall b :: b in s ==> b in rest || b == least;
    }
  }

  lemma {:induction false} LeastOfTwo(c: Word, a: Word, s: set<Word>)
    requires c in s && IsLeast(a, s - {c})
    ensures IsLeast(if a < c then a else c, s)
  {
    forall b | b in s ensures (if a < c then a else c) <= b {
      if b != c { assert b in s - {c}; }
    }
  }

  /** A part of the keys has been listed, all smaller than the rest. */
  ghost predicate Listed(addrs: seq<Word>, keys: set<Word>, todo: set<Word>) {
    && todo <= keys && Increasing(addrs)
    && (forall a :: a in keys <==> a in addrs || a in todo)
    && (forall i, b :: 0 <= i < |addrs| && b in todo ==> addrs[i] < b)
  }

  lemma {:induction false} ListOne(addrs: seq<Word>, keys: set<Word>, todo: set<Word>, a: Word)
    requires Listed(addrs, keys, todo) && IsLeast(a, todo)
    ensures Listed(addrs + [a], keys, todo - {a})
  {
    var more := addrs + [a];
    forall c ensures c in keys <==> c in more || c in todo - {a} {
      assert c in more <==> c in addrs || c == a;
    }
    forall i, b | 0 <= i < |more| && b in todo - {a} ensures more[i] < b {
      assert a <= b && a != b;
    }
    assert Increasing(more);
  }

  lemma {:induction false} AllListed(addrs: seq<Word>, keys: set<Word>)
    ensures Listed([], keys, keys)
    ensures Listed(addrs, keys, {}) ==> AddressOrder(addrs, keys)
  {
  }

  method SortAddresses(keys: set<Word>) returns (addrs: seq<Word>)
    ensures AddressOrder(addrs, keys)
  {
    hide IsLeast, Listed, AddressOrder;
    addrs := [];
    var todo := keys;
    AllListed(addrs, keys);
    while todo != {}
      invariant Listed(addrs, keys, todo)
      decreases |todo|
    {
      ghost var least := LeastExists(todo);
      LeastBounds(least, todo);
      var a :| a in todo && forall b :: b in todo ==> a <= b;
      LeastMeans(a, todo);
      ListOne(addrs, keys, todo, a);
      addrs := addrs + [a];
      todo := todo - {a};
    }
    AllListed(addrs, keys);
  }

  lemma {:induction false} LeastBounds(a: Word, s: set<Word>)
    requires IsLeast(a, s)
    ensures a in s && forall b :: b in s ==> a <= b
  {
  }

  lemma {:induction false} LeastMeans(a: Word, s: set<Word>)
    requires a in s && forall b :: b in s ==> a <= b
    ensures IsLeast(a, s)
  {
  }

  /** Only one sequence lists a set of keys in increasing order. */
  lemma {:induction false} AddressOrderIsUnique(s: seq<Word>, t: seq<Word>, keys: set<Word>)
    requires AddressOrder(s, keys) && AddressOrder(t, keys)
    ensures s == t
    decreases |s|
  {
    if s == [] || t == [] {
      OneIsEmpty(s, t, keys);
    } else {
      var a := s[|s| - 1];
      var b := t[|t| - 1];
      LastIsGreatest(s, a);
      LastIsGreatest(t, b);
      assert a in s && b in t;
      DropLast(s, keys);
      DropLast(t, keys);
      AddressOrderIsUnique(s[..|s| - 1], t[..|t| - 1], keys - {a});
      assert s == s[..|s| - 1] + [a] && t == t[..|t| - 1] + [b];
    }
  }

  lemma {:induction false} OneIsEmpty(s: seq<Word>, t: seq<Word>, keys: set<Word>)
    requires AddressOrder(s, keys) && AddressOrder(t, keys)
    ensures s == [] <==> t == []
  {
    hide Increasing;
    assert s != [] <==> exists a :: a in s by { NonEmptyHas(s); }
    assert t != [] <==> exists a :: a in t by { NonEmptyHas(t); }
  }

  lemma {:induction false} NonEmptyHas(s: seq<Word>)
    ensures s != [] <==> exists a :: a in s
  {
    if s != [] { assert s[0] in s; }
  }

  lemma {:induction false} LastIsGreatest(s: seq<Word>, a: Word)
    requires Increasing(s) && s != [] && a == s[|s| - 1]
    ensures forall b :: b in s ==> b <= a
  {
  }

  lemma {:induction false} DropLast(s: seq<Word>, keys: set<Word>)
    requires AddressOrder(s, keys) && s != []
    ensures AddressOrder(s[..|s| - 1], keys - {s[|s| - 1]})
  {
    var n := |s| - 1;
    forall a ensures a in s[..n] <==> a in keys - {s[n]} {
      assert s == s[..n] + [s[n]];
    }
  }

  // ---------- Intervals ----------

  ghost predicate SomeOf(live: LiveMap, items: seq<Item>, todo: set<nat>) {
    && (forall i :: 0 <= i < |items| ==> items[i].v in live && live[items[i].v] == items[i].lr && items[i].v !in todo)
    && (forall v :: v in live ==> v in todo || exists i :: 0 <= i < |items| && items[i].v == v)
    && (forall i, j :: 0 <= i < j < |items| ==> items[i].v != items[j].v)
    && (forall i, j :: 0 <= i < j < |items| ==> items[i].lr.start <= items[j].lr.start)
    && (forall i, v :: 0 <= i < |items| && v in todo && v in live ==> items[i].lr.start <= live[v].start)
  }

  ghost predicate IsEarliest(live: LiveMap, v: nat, s: set<nat>)
    requires s <= live.Keys
  {
    v in s && forall w :: w in s ==> live[v].start <= live[w].start
  }

  lemma {:induction false} EarliestExists(live: LiveMap, s: set<nat>) returns (first: nat)
    requires s != {} && s <= live.Keys
    ensures IsEarliest(live, first, s)
    decreases |s|
  {
    first :| first in s;
    var rest := s - {first};
    if rest != {} {
      var v := EarliestExists(live, rest);
      EarliestOfTwo(live, first, v, s);
      if live[v].start < live[first].start { first := v; }
    } else {
      assert forall w :: w in s ==> w in rest || w == first;
    }
  }

  lemma {:induction false} EarliestOfTwo(live: LiveMap, c: nat, v: nat, s: set<nat>)
    requires s <= live.Keys && c in s && IsEarliest(live, v, s - {c})
    ensures IsEarliest(live, if live[v].start < live[c].start then v else c, s)
  {
    forall w | w in s ensures live[if live[v].start < live[c].start then v else c].start <= live[w].start {
      if w != c { assert w in s - {c}; }
    }
  }

  lemma {:induction false} OneMore(live: LiveMap, items: seq<Item>, todo: set<nat>, v: nat)
    requires SomeOf(live, items, todo) && todo <= live.Keys
    requires v in todo && forall w :: w in todo ==> live[v].start <= live[w].start
    ensures SomeOf(live, items + [Item(v, live[v])], todo - {v})
  {
    var more := items + [Item(v, live[v])];
    forall w | w in live ensures w in todo - {v} || exists i :: 0 <= i < |more| && more[i].v == w {
      if w == v {
        assert more[|items|].v == w;
      } else if w !in todo {
        var i :| 0 <= i < |items| && items[i].v == w;
        assert more[i].v == w;
      }
    }
  }

  /** The intervals sorted by start; ties in an arbitrary order. */
  method SortItems(live: LiveMap) returns (items: seq<Item>)
    ensures IsSorting(live, items)
  {
    items := [];
    var todo := live.Keys;
    while todo != {}
      invariant todo <= live.Keys && SomeOf(live, items, todo)
      decreases |todo|
    {
      ghost var first := EarliestExists(live, todo);
      var v :| v in todo && forall w :: w in todo ==> live[v].start <= live[w].start;
      OneMore(live, items, todo, v);
      items := items + [Item(v, live[v])];
      todo := todo - {v};
    }
  }

  lemma {:induction false} SortRest(live: LiveMap, items: seq<Item>, todo: set<nat>) returns (all: seq<Item>)
    requires todo <= live.Keys && SomeOf(live, items, todo)
    ensures IsSorting(live, all)
    decreases |todo|
  {
    if todo == {} {
      all := items;
    } else {
      var v := EarliestExists(live, todo);
      OneMore(live, items, todo, v);
      all := SortRest(live, items + [Item(v, live[v])], todo - {v});
    }
  }

  /** Every live map can be sorted. */
  lemma {:induction false} SortingExists(live: LiveMap) returns (all: seq<Item>)
    ensures IsSorting(live, all)
  {
    all := SortRest(live, [], live.Keys);
  }
}
