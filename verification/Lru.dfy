/** The recency list of the connection pool (litestreampp/connection_pool.go). */
module Lru {
  import opened Sequences

  // ----- Recency as a sequence of keys, most recent first

  function Without(s: seq<string>, k: string): (r: seq<string>)
    ensures forall x :: x in r <==> x in s && x != k
  {
    if s == [] then [] else (if s[0] == k then [] else [s[0]]) + Without(s[1..], k)
  }

  datatype Op = Added(key: string) | Touched(key: string) | Removed(key: string) | Evicted

  function Apply(s: seq<string>, op: Op): seq<string> {
    match op
    case Added(k) => [k] + Without(s, k)
    case Touched(k) => if k in s then [k] + Without(s, k) else s
    case Removed(k) => Without(s, k)
    case Evicted => if s == [] then [] else s[..|s| - 1]
  }

  /** The recency sequence after a series of calls. */
  function Recency(ops: seq<Op>): seq<string> {
    if ops == [] then [] else Apply(Recency(ops[..|ops| - 1]), ops[|ops| - 1])
  }

  /** The call that last added or touched a key, or -1. */
  function LastUse(ops: seq<Op>, k: string): (r: int)
    ensures -1 <= r < |ops|
  {
    if ops == [] then -1
    else
      var op := ops[|ops| - 1];
      if op == Added(k) || op == Touched(k) then |ops| - 1 else LastUse(ops[..|ops| - 1], k)
  }

  lemma {:induction false} WithoutNone(s: seq<string>, k: string)
    requires k !in s
    ensures Without(s, k) == s
  {
    if s != [] { WithoutNone(s[1..], k); }
  }

  lemma DistinctTail(s: seq<string>)
    requires Distinct(s) && s != []
    ensures Distinct(s[1..]) && s[0] !in s[1..]
  {
  }

  lemma SpliceTail(s: seq<string>, i: nat)
    requires 0 < i < |s|
    ensures [s[0]] + (s[1..][..i - 1] + s[1..][i..]) == s[..i] + s[i + 1..]
  {
  }

  lemma {:induction false} WithoutAt(s: seq<string>, i: nat)
    requires Distinct(s) && i < |s|
    ensures Without(s, s[i]) == s[..i] + s[i + 1..]
  {
    hide Distinct;
    DistinctTail(s);
    if i == 0 {
      WithoutNone(s[1..], s[0]);
    } else {
      assert s[1..][i - 1] == s[i];
      WithoutAt(s[1..], i - 1);
      SpliceTail(s, i);
    }
  }

  lemma {:induction false} WithoutKeepsOrder(s: seq<string>, k: string, p: string, q: string)
    ensures Precedes(Without(s, k), p, q) <==> Precedes(s, p, q) && p != k && q != k
  {
    if s != [] {
      hide Precedes;
      WithoutKeepsOrder(s[1..], k, p, q);
      assert s == [s[0]] + s[1..];
      PrecedesCons(s[0], s[1..], p, q);
      PrecedesCons(s[0], Without(s[1..], k), p, q);
      assert [] + Without(s[1..], k) == Without(s[1..], k);
    }
  }

  lemma FrontKeepsOrder(s: seq<string>, p: string, q: string)
    requires Distinct(s) && s != []
    ensures Precedes(s[..|s| - 1], p, q) <==> Precedes(s, p, q) && q != s[|s| - 1]
  {
    var r := s[..|s| - 1];
    if Precedes(s, p, q) && q != s[|s| - 1] {
      var i, j :| 0 <= i < j < |s| && s[i] == p && s[j] == q;
      assert r[i] == p && r[j] == q;
    }
    if Precedes(r, p, q) {
      var i, j :| 0 <= i < j < |r| && r[i] == p && r[j] == q;
      assert s[i] == p && s[j] == q;
    }
  }

  /** What each call does to the keys and their order: adding and touching put a key before all
      others, a touch of an unknown key does nothing, removing and evicting take out that key
      or the last one, and the order of the other keys stays. */
  lemma {:induction false} ApplyKeeps(s: seq<string>, op: Op, p: string, q: string)
    requires Distinct(s)
    ensures var r := Apply(s, op);
            match op
            case Added(k) =>
              && (p in r <==> p in s || p == k)
              && (Precedes(r, p, q) <==> (p == k && q != k && q in s) || (Precedes(s, p, q) && p != k && q != k))
            case Touched(k) =>
              && (p in r <==> p in s)
              && (Precedes(r, p, q) <==>
                    if k in s then (p == k && q != k && q in s) || (Precedes(s, p, q) && p != k && q != k)
                    else Precedes(s, p, q))
            case Removed(k) =>
              (p in r <==> p in s && p != k) && (Precedes(r, p, q) <==> Precedes(s, p, q) && p != k && q != k)
            case Evicted =>
              && (p in r <==> p in s && p != s[|s| - 1])
              && (Precedes(r, p, q) <==> Precedes(s, p, q) && q != s[|s| - 1])
  {
    hide Precedes, Without;
    match op
    case Added(k) => WithoutKeepsOrder(s, k, p, q); PrecedesCons(k, Without(s, k), p, q);
    case Touched(k) => WithoutKeepsOrder(s, k, p, q); PrecedesCons(k, Without(s, k), p, q);
    case Removed(k) => WithoutKeepsOrder(s, k, p, q);
    case Evicted =>
      if s != [] {
        FrontKeepsOrder(s, p, q);
        LastNotInFront(s, p);
      } else {
        PrecedesIn(s, p, q);
        PrecedesIn(Apply(s, Evicted), p, q);
      }
  }

  lemma LastNotInFront(s: seq<string>, p: string)
    requires Distinct(s) && s != []
    ensures p in s[..|s| - 1] <==> p in s && p != s[|s| - 1]
  {
    var r := s[..|s| - 1];
    if p in s && p != s[|s| - 1] {
      var i :| 0 <= i < |s| && s[i] == p;
      assert r[i] == p;
    }
  }

  /** Keys in order of their last use, latest first. */
  ghost predicate ByUse(ops: seq<Op>, s: seq<string>) {
    && Distinct(s)
    && (forall i :: 0 <= i < |s| ==> LastUse(ops, s[i]) >= 0)
    && (forall i, j :: 0 <= i < j < |s| ==> LastUse(ops, s[i]) > LastUse(ops, s[j]))
  }

  lemma {:induction false} ByUseSplice(ops: seq<Op>, s: seq<string>, n: nat)
    requires ByUse(ops, s) && n < |s|
    ensures ByUse(ops, s[..n] + s[n + 1..])
  {
    hide LastUse;
    var r := s[..n] + s[n + 1..];
    forall i | 0 <= i < |r| ensures r[i] == s[if i < n then i else i + 1] { }
  }

  lemma {:induction false} ByUseWithout(ops: seq<Op>, s: seq<string>, k: string)
    requires ByUse(ops, s)
    ensures ByUse(ops, Without(s, k))
  {
    hide LastUse, Without;
    if k in s {
      var n :| 0 <= n < |s| && s[n] == k;
      WithoutAt(s, n);
      ByUseSplice(ops, s, n);
    } else {
      WithoutNone(s, k);
    }
  }

  lemma UseStep(ops: seq<Op>, op: Op, k: string)
    ensures LastUse(ops + [op], k) == if op == Added(k) || op == Touched(k) then |ops| else LastUse(ops, k)
  {
    assert (ops + [op])[..|ops|] == ops;
  }

  /** A call that uses no key leaves the order alone. */
  lemma {:induction false} ByUseLater(ops: seq<Op>, op: Op, s: seq<string>)
    requires ByUse(ops, s) && forall i :: 0 <= i < |s| ==> op != Added(s[i]) && op != Touched(s[i])
    ensures ByUse(ops + [op], s)
  {
    forall i | 0 <= i < |s| ensures LastUse(ops + [op], s[i]) == LastUse(ops, s[i]) { UseStep(ops, op, s[i]); }
  }

  lemma {:induction false} ByUseFront(ops: seq<Op>, op: Op, s: seq<string>, k: string)
    requires ByUse(ops + [op], s) && k !in s && (op == Added(k) || op == Touched(k))
    requires forall i :: 0 <= i < |s| ==> LastUse(ops + [op], s[i]) < |ops|
    ensures ByUse(ops + [op], [k] + s)
  {
    UseStep(ops, op, k);
    var r := [k] + s;
    forall i, j | 0 <= i < j < |r| ensures LastUse(ops + [op], r[i]) > LastUse(ops + [op], r[j]) && r[i] != r[j] {
      assert r[j] == s[j - 1];
      if i > 0 { assert r[i] == s[i - 1]; }
    }
  }

  lemma {:induction false} UseKeepsOrder(ops: seq<Op>, op: Op, s: seq<string>, k: string)
    requires ByUse(ops, s) && (op == Added(k) || op == Touched(k))
    ensures ByUse(ops + [op], [k] + Without(s, k))
  {
    var r := Without(s, k);
    ByUseWithout(ops, s, k);
    forall i | 0 <= i < |r| ensures r[i] != k && LastUse(ops + [op], r[i]) < |ops| {
      assert r[i] in r;
      UseStep(ops, op, r[i]);
    }
    ByUseLater(ops, op, r);
    ByUseFront(ops, op, r, k);
  }

  /** After any series of calls the sequence is duplicate-free and lists the keys in order
      of their last use. So the key that the next eviction returns, the last one, is the
      least recently used. */
  lemma {:induction false} RecencyIsByUse(ops: seq<Op>)
    ensures ByUse(ops, Recency(ops))
  {
    hide ByUse, Without, LastUse;
    if ops == [] {
      NoUse();
    } else {
      var front, op := ops[..|ops| - 1], ops[|ops| - 1];
      assert ops == front + [op];
      var s := Recency(front);
      RecencyIsByUse(front);
      match op {
        case Added(k) => UseKeepsOrder(front, op, s, k);
        case Touched(k) =>
          if k in s { UseKeepsOrder(front, op, s, k); } else { ByUseLater(front, op, s); }
        case Removed(k) =>
          ByUseWithout(front, s, k);
          ByUseLater(front, op, Without(s, k));
        case Evicted =>
          ByUseFrontPart(front, s);
          ByUseLater(front, op, Apply(s, op));
      }
    }
  }

  lemma NoUse()
    ensures ByUse([], [])
  {
  }

  lemma ByUseFrontPart(ops: seq<Op>, s: seq<string>)
    requires ByUse(ops, s)
    ensures ByUse(ops, Apply(s, Evicted))
  {
    hide LastUse;
  }

  // ----- The list

  class LruItem {
    const key: string
    var prev: LruItem?
    var next: LruItem?

    constructor (k: string)
      ensures key == k && prev == null && next == null
    {
      key, prev, next := k, null, null;
    }
  }

  function KeysOf(list: seq<LruItem>): (r: seq<string>)
    ensures |r| == |list|
    ensures forall i :: 0 <= i < |list| ==> r[i] == list[i].key
  {
    seq(|list|, i requires 0 <= i < |list| => list[i].key)
  }

  /** The map finds exactly the items of the list. */
  ghost predicate IndexOk(items: map<string, LruItem>, list: seq<LruItem>) {
    && (forall i, j :: 0 <= i < j < |list| ==> list[i] != list[j])
    && (forall i :: 0 <= i < |list| ==> list[i].key in items && items[list[i].key] == list[i])
    && (forall k :: k in items ==> items[k] in list && items[k].key == k)
  }

  function Unlinked(list: seq<LruItem>, i: nat): seq<LruItem>
    requires i < |list|
  {
    list[..i] + list[i + 1..]
  }

  lemma IndexKeys(items: map<string, LruItem>, list: seq<LruItem>)
    requires IndexOk(items, list)
    ensures Distinct(KeysOf(list)) && forall k :: k in items <==> k in KeysOf(list)
  {
    forall k | k in items ensures k in KeysOf(list) {
      var i :| 0 <= i < |list| && list[i] == items[k];
      assert KeysOf(list)[i] == k;
    }
    forall k | k in KeysOf(list) ensures k in items {
      var i :| 0 <= i < |list| && KeysOf(list)[i] == k;
    }
  }

  lemma UnlinkedMembers(list: seq<LruItem>, i: nat, x: LruItem)
    requires i < |list| && forall a, b :: 0 <= a < b < |list| ==> list[a] != list[b]
    ensures x in Unlinked(list, i) <==> x in list && x != list[i]
  {
    if x in list && x != list[i] {
      var j :| 0 <= j < |list| && list[j] == x;
      if j < i { assert Unlinked(list, i)[j] == x; } else { assert Unlinked(list, i)[j - 1] == x; }
    }
  }

  lemma UnlinkedDistinct(list: seq<LruItem>, i: nat)
    requires i < |list| && forall a, b :: 0 <= a < b < |list| ==> list[a] != list[b]
    ensures var r := Unlinked(list, i);
            forall a, b :: 0 <= a < b < |r| ==> r[a] != r[b]
  {
    var r := Unlinked(list, i);
    forall a | 0 <= a < |r| ensures r[a] == list[if a < i then a else a + 1] { }
  }

  lemma UnlinkedKeys(list: seq<LruItem>, i: nat)
    requires i < |list|
    ensures KeysOf(Unlinked(list, i)) == KeysOf(list)[..i] + KeysOf(list)[i + 1..]
  {
  }

  lemma {:induction false} UnlinkedIndex(items: map<string, LruItem>, list: seq<LruItem>, i: nat)
    requires IndexOk(items, list) && i < |list|
    ensures IndexOk(items - {list[i].key}, Unlinked(list, i))
  {
    var r, rest := Unlinked(list, i), items - {list[i].key};
    UnlinkedDistinct(list, i);
    hide Unlinked;
    forall x: LruItem ensures x in r <==> x in list && x != list[i] { UnlinkedMembers(list, i, x); }
    forall a | 0 <= a < |r| ensures r[a].key in rest && rest[r[a].key] == r[a] {
      assert r[a] in r;
      var b :| 0 <= b < |list| && list[b] == r[a];
    }
  }

  lemma {:induction false} UnlinkKeeps(items: map<string, LruItem>, list: seq<LruItem>, i: nat)
    requires IndexOk(items, list) && i < |list|
    ensures IndexOk(items - {list[i].key}, Unlinked(list, i))
    ensures KeysOf(Unlinked(list, i)) == Without(KeysOf(list), list[i].key)
  {
    hide Without, Unlinked, IndexOk;
    IndexKeys(items, list);
    WithoutAt(KeysOf(list), i);
    UnlinkedKeys(list, i);
    UnlinkedIndex(items, list, i);
  }

  lemma {:induction false} FrontKeeps(items: map<string, LruItem>, list: seq<LruItem>, item: LruItem)
    requires IndexOk(items, list) && item.key !in items
    ensures IndexOk(items[item.key := item], [item] + list)
    ensures KeysOf([item] + list) == [item.key] + KeysOf(list)
  {
    var r := [item] + list;
    forall x | x in list ensures x in r { var i :| 0 <= i < |list| && list[i] == x; assert r[i + 1] == x; }
    assert r[0] == item;
  }

  class LRUCache {
    var items: map<string, LruItem>
    var head: LruItem?
    var tail: LruItem?
    ghost var list: seq<LruItem>
    ghost var nodes: set<LruItem>

    /** The pointers form one list, from `head` to `tail` and back. */
    ghost predicate Chain()
      reads this`head, this`tail, this`list, this`nodes, nodes
    {
      && (forall i :: 0 <= i < |list| ==> list[i] in nodes)
      && (forall i, j :: 0 <= i < j < |list| ==> list[i] != list[j])
      && head == (if list == [] then null else list[0])
      && tail == (if list == [] then null else list[|list| - 1])
      && (list != [] ==> list[0].prev == null && list[|list| - 1].next == null)
      && (forall i, j :: 0 <= i < j < |list| && j == i + 1 ==> list[i].next == list[j] && list[j].prev == list[i])
    }

    ghost predicate Valid()
      reads this, nodes
    {
      Chain() && IndexOk(items, list)
    }

    /** The keys, most recently used first. */
    ghost function Keys(): (r: seq<string>)
      reads this`list
    {
      KeysOf(list)
    }

    lemma Ends()
      requires Chain()
      ensures (tail == null <==> list == []) && (list != [] ==> tail == list[|list| - 1])
    {
    }

    constructor ()
      ensures Valid() && Keys() == [] && nodes == {}
    {
      items, head, tail, list, nodes := map[], null, null, [], {};
    }

    /** Unlinks the item at position `i`. */
    method RemoveItem(item: LruItem, ghost i: nat)
      requires Chain() && i < |list| && list[i] == item
      modifies this`head, this`tail, this`list, nodes
      ensures list == old(list)[..i] + old(list)[i + 1..]
      ensures Chain()
    {
      ghost var l := list;
      assert i > 0 ==> l[i - 1].next == item && item.prev == l[i - 1];
      assert i < |l| - 1 ==> l[i + 1].prev == item && item.next == l[i + 1];
      if item.prev != null { item.prev.next := item.next; } else { head := item.next; }
      if item.next != null { item.next.prev := item.prev; } else { tail := item.prev; }
      list := list[..i] + list[i + 1..];
      forall a | 0 <= a < |list| ensures list[a] == l[if a < i then a else a + 1] { }
      forall a, b | 0 <= a < b < |list| && b == a + 1 ensures list[a].next == list[b] && list[b].prev == list[a] {
        if b != i { assert old(l[if a < i then a else a + 1].next == l[if b < i then b else b + 1]); }
      }
    }

    method MoveToFront(item: LruItem, ghost i: nat)
      requires Chain() && i < |list| && list[i] == item
      modifies this`head, this`tail, this`list, nodes
      ensures list == [item] + Unlinked(old(list), i)
      ensures Chain()
    {
      if item == head {
        assert i == 0;
        return;
      }
      UnlinkedMembers(list, i, item);
      RemoveItem(item, i);
      item.prev := null;
      item.next := head;
      head.prev := item;
      head := item;
      list := [item] + list;
    }

    method Touch(key: string)
      requires Valid()
      modifies this`head, this`tail, this`list, nodes
      ensures Valid()
      ensures Keys() == Apply(old(Keys()), Touched(key))
    {
      hide Chain, IndexOk, Unlinked, Without;
      IndexKeys(items, list);
      if key in items {
        ghost var before := list;
        ghost var i := Position(items, list, key);
        MoveToFront(items[key], i);
        MovedKeeps(items, before, i);
      }
    }

    method Add(key: string)
      requires Valid()
      modifies this, nodes
      ensures Valid() && Keys() == Apply(old(Keys()), Added(key))
      ensures fresh(nodes - old(nodes))
    {
      hide IndexOk, Without, Chain;
      IndexKeys(items, list);
      if key in items {
        Touch(key);
        return;
      }
      WithoutNone(Keys(), key);
      var item := new LruItem(key);
      FrontKeeps(items, list, item);
      items := items[key := item];
      PushFront(item);
    }

    /** Links a new item. */
    method PushFront(item: LruItem)
      requires Chain() && item !in nodes && item.prev == null && item.next == null
      modifies this`head, this`tail, this`list, this`nodes, nodes, item
      ensures list == [item] + old(list) && nodes == old(nodes) + {item}
      ensures Chain()
    {
      nodes := nodes + {item};
      if head == null {
        head := item;
        tail := item;
      } else {
        item.next := head;
        head.prev := item;
        head := item;
      }
      list := [item] + list;
    }

    method Remove(key: string)
      requires Valid()
      modifies this, nodes
      ensures Valid() && Keys() == Apply(old(Keys()), Removed(key)) && nodes == old(nodes)
    {
      hide Chain, IndexOk, Without;
      IndexKeys(items, list);
      if key in items {
        ghost var i := Position(items, list, key);
        UnlinkKeeps(items, list, i);
        RemoveItem(items[key], i);
        assert list == Unlinked(old(list), i);
        items := items - {key};
      } else {
        WithoutNone(Keys(), key);
      }
    }

    /** Removes the least recently used key and returns it; "" if there is none. */
    method Evict() returns (key: string)
      requires Valid()
      modifies this, nodes
      ensures Valid() && Keys() == Apply(old(Keys()), Evicted) && nodes == old(nodes)
      ensures key == if old(Keys()) == [] then "" else old(Keys())[|old(Keys())| - 1]
    {
      hide IndexOk, Without, Chain;
      Ends();
      if tail == null { return ""; }
      key := tail.key;
      UnlinkKeeps(items, list, |list| - 1);
      IndexKeys(items, list);
      WithoutAt(Keys(), |list| - 1);
      RemoveItem(tail, |list| - 1);
      items := items - {key};
    }
  }

  /** Where the list has a key. */
  lemma Position(items: map<string, LruItem>, list: seq<LruItem>, key: string) returns (i: nat)
    requires IndexOk(items, list) && key in items
    ensures i < |list| && list[i] == items[key] && list[i].key == key == KeysOf(list)[i]
  {
    i :| 0 <= i < |list| && list[i] == items[key];
  }

  lemma {:induction false} MovedKeeps(items: map<string, LruItem>, list: seq<LruItem>, i: nat)
    requires IndexOk(items, list) && i < |list|
    ensures IndexOk(items, [list[i]] + Unlinked(list, i))
    ensures KeysOf([list[i]] + Unlinked(list, i)) == [list[i].key] + Without(KeysOf(list), list[i].key)
    ensures forall x :: x in [list[i]] + Unlinked(list, i) <==> x in list
  {
    hide Without, Unlinked;
    UnlinkKeeps(items, list, i);
    FrontKeeps(items - {list[i].key}, Unlinked(list, i), list[i]);
    assert (items - {list[i].key})[list[i].key := list[i]] == items;
    forall x: LruItem ensures x in Unlinked(list, i) <==> x in list && x != list[i] { UnlinkedMembers(list, i, x); }
  }
}
