/** The cache as the source keeps it: a hash map pointing into a doubly linked recency list.

    The list is a ring through a sentinel `root`, as in Go's container/list: `root.next` is the most
    recently used element and `root.prev` the least.  Every method is proved to do to the list of
    entries exactly what `LruModel.Step` says.  The clock is the parameter `now`. */
module LruCache {
  import opened LruModel
  import opened Options

  class Element<T> {
    var next: Element?<T>
    var prev: Element?<T>
    var payload: Option<Entry<T>>

    constructor (payload: Option<Entry<T>>)
      ensures this.payload == payload && next == null && prev == null
    {
      this.payload := payload;
      next, prev := null, null;
    }
  }

  /** The `i`-th element and its successor in `ring` point at each other. */
  ghost predicate Link<T>(ring: seq<Element<T>>, i: int)
    requires 0 <= i < |ring| - 1
    reads ring`next, ring`prev
  {
    ring[i].next == ring[i + 1] && ring[i + 1].prev == ring[i]
  }

  ghost predicate Linked<T>(ring: seq<Element<T>>)
    reads ring`next, ring`prev
  {
    forall i {:trigger Link(ring, i)} :: 0 <= i < |ring| - 1 ==> Link(ring, i)
  }

  predicate Apart<T>(els: seq<Element<T>>, i: int, j: int)
    requires 0 <= i < |els| && 0 <= j < |els|
  {
    els[i] != els[j]
  }

  ghost predicate AllApart<T>(els: seq<Element<T>>) {
    forall i: int, j: int {:trigger Apart(els, i, j)} :: 0 <= i < j < |els| ==> Apart(els, i, j)
  }

  lemma AreApart<T>(els: seq<Element<T>>, i: int, j: int)
    requires AllApart(els) && 0 <= i < |els| && 0 <= j < |els| && i != j
    ensures els[i] != els[j]
  {
    assert if i < j then Apart(els, i, j) else Apart(els, j, i);
  }

  // ---------------------------------------------------------------- the lookup map

  ghost predicate Listed<T>(m: map<string, Element<T>>, key: string, els: seq<Element<T>>, es: seq<Entry<T>>)
    requires key in m
  {
    exists i {:trigger Slot(els, es, i)} :: Slot(els, es, i) == Some((m[key], key))
  }

  /** The element and the key at position `i`. */
  function Slot<T>(els: seq<Element<T>>, es: seq<Entry<T>>, i: int): Option<(Element<T>, string)> {
    if 0 <= i < |els| && i < |es| then Some((els[i], es[i].key)) else None
  }

  predicate Points<T>(m: map<string, Element<T>>, els: seq<Element<T>>, es: seq<Entry<T>>, i: int)
    requires 0 <= i < |els| && i < |es|
  {
    es[i].key in m && m[es[i].key] == els[i]
  }

  /** The map points at exactly the listed elements, each under its entry's key. */
  ghost predicate Indexed<T>(m: map<string, Element<T>>, els: seq<Element<T>>, es: seq<Entry<T>>) {
    && |m| == |els| == |es|
    && (forall i {:trigger Points(m, els, es, i)} :: 0 <= i < |els| ==> Points(m, els, es, i))
    && (forall k {:trigger Listed(m, k, els, es)} :: k in m ==> Listed(m, k, els, es))
  }

  /** The elements of `els` carry the entries of `es`. */
  ghost predicate Holds<T>(els: seq<Element<T>>, es: seq<Entry<T>>)
    reads els`payload
  {
    |els| == |es| && forall i {:trigger Carries(els, es, i)} :: 0 <= i < |els| ==> Carries(els, es, i)
  }

  ghost predicate Carries<T>(els: seq<Element<T>>, es: seq<Entry<T>>, i: int)
    requires 0 <= i < |els| && i < |es|
    reads els`payload
  {
    els[i].payload == Some(es[i])
  }

  lemma IndexedDistinct<T>(m: map<string, Element<T>>, els: seq<Element<T>>, es: seq<Entry<T>>)
    requires Indexed(m, els, es) && AllApart(els)
    ensures Distinct(es)
  {
    forall i, j | 0 <= i < j < |es| ensures es[i].key != es[j].key {
      AreApart(els, i, j);
      assert Points(m, els, es, i) && Points(m, els, es, j);
    }
  }

  function RemoveAt<X>(s: seq<X>, i: nat): seq<X>
    requires i < |s|
  {
    s[..i] + s[i + 1..]
  }

  lemma WithoutElement<T>(m: map<string, Element<T>>, els: seq<Element<T>>, es: seq<Entry<T>>, i: nat)
    requires Indexed(m, els, es) && Holds(els, es) && AllApart(els) && i < |els|
    ensures Indexed(m - {es[i].key}, RemoveAt(els, i), RemoveAt(es, i))
    ensures Holds(RemoveAt(els, i), RemoveAt(es, i))
  {
    var m', els', es' := m - {es[i].key}, RemoveAt(els, i), RemoveAt(es, i);
    IndexedDistinct(m, els, es);
    assert Points(m, els, es, i);
    assert m'.Keys == m.Keys - {es[i].key};
    forall j | 0 <= j < |els'| ensures Points(m', els', es', j) && Carries(els', es', j) {
      var j' := if j < i then j else j + 1;
      assert Points(m, els, es, j') && Carries(els, es, j');
    }
    forall k | k in m' ensures Listed(m', k, els', es') {
      assert Listed(m, k, els, es);
      var j :| Slot(els, es, j) == Some((m[k], k));
      assert Slot(els', es', if j < i then j else j - 1) == Some((m'[k], k));
    }
  }

  lemma FrontElement<T>(m: map<string, Element<T>>, els: seq<Element<T>>, es: seq<Entry<T>>, i: nat)
    requires Indexed(m, els, es) && Holds(els, es) && i < |els|
    ensures Indexed(m, [els[i]] + RemoveAt(els, i), [es[i]] + RemoveAt(es, i))
    ensures Holds([els[i]] + RemoveAt(els, i), [es[i]] + RemoveAt(es, i))
  {
    var els', es' := [els[i]] + RemoveAt(els, i), [es[i]] + RemoveAt(es, i);
    forall j | 0 <= j < |els'| ensures Points(m, els', es', j) && Carries(els', es', j) {
      var j' := if j == 0 then i else if j <= i then j - 1 else j;
      assert Points(m, els, es, j') && Carries(els, es, j');
    }
    forall k | k in m ensures Listed(m, k, els', es') {
      assert Listed(m, k, els, es);
      var j :| Slot(els, es, j) == Some((m[k], k));
      assert Slot(els', es', if j < i then j + 1 else if j == i then 0 else j) == Some((m[k], k));
    }
  }

  lemma PushElement<T>(m: map<string, Element<T>>, els: seq<Element<T>>, es: seq<Entry<T>>, el: Element<T>, e: Entry<T>)
    requires Indexed(m, els, es) && Holds(els, es)
    requires e.key !in m && el.payload == Some(e)
    ensures Indexed(m[e.key := el], [el] + els, [e] + es)
    ensures Holds([el] + els, [e] + es)
  {
    var m', els', es' := m[e.key := el], [el] + els, [e] + es;
    forall j | 0 <= j < |els'| ensures Points(m', els', es', j) && Carries(els', es', j) {
      if j > 0 { assert Points(m, els, es, j - 1) && Carries(els, es, j - 1); }
    }
    forall k | k in m' ensures Listed(m', k, els', es') {
      if k == e.key {
        assert Slot(els', es', 0) == Some((m'[k], k));
      } else {
        assert Listed(m, k, els, es);
        var j :| Slot(els, es, j) == Some((m[k], k));
        assert Slot(els', es', j + 1) == Some((m'[k], k));
      }
    }
  }

  lemma UpdateElement<T>(m: map<string, Element<T>>, els: seq<Element<T>>, es: seq<Entry<T>>, i: nat, e: Entry<T>)
    requires Indexed(m, els, es) && i < |es| && e.key == es[i].key
    ensures Indexed(m, els, es[i := e])
  {
    var es' := es[i := e];
    forall j | 0 <= j < |els| ensures Points(m, els, es', j) {
      assert Points(m, els, es, j);
    }
    forall k | k in m ensures Listed(m, k, els, es') {
      assert Listed(m, k, els, es);
      var j :| Slot(els, es, j) == Some((m[k], k));
      assert Slot(els, es', j) == Some((m[k], k));
    }
  }

  // ---------------------------------------------------------------- the cache

  class Cache<T> {
    var data: map<string, Element<T>>
    const root: Element<T>
    const ttl: int
    const maxEntries: int
    ghost var spine: seq<Element<T>>
    ghost var entries: seq<Entry<T>>
    ghost var repr: set<Element<T>>  // every element ever linked

    ghost predicate Valid()
      reads this, root, spine
    {
      && Chain(spine)
      && Holds(spine, entries)
      && Indexed(data, spine, entries)
      && (maxEntries > 0 ==> |entries| <= maxEntries)
    }

    /** The elements of `els`, in order, form the ring through `root`. */
    ghost predicate Chain(els: seq<Element<T>>)
      reads this`repr, root`next, root`prev, els`next, els`prev
    {
      && root in repr && (forall e :: e in els ==> e in repr)
      && AllApart([root] + els)
      && AllApart(els + [root])
      && Linked([root] + els + [root])
    }

    constructor (ttl: int, maxEntries: int)
      ensures Valid() && fresh(repr) && entries == []
      ensures this.ttl == ttl && this.maxEntries == maxEntries
    {
      var sentinel := new Element<T>(None);
      sentinel.next, sentinel.prev := sentinel, sentinel;
      data, root, spine, entries, repr := map[], sentinel, [], [], {sentinel};
      this.ttl, this.maxEntries := ttl, maxEntries;
    }

    // ------------------------------------------------------------ list primitives

    /** Takes the element at ghost position `i` out of the ring. */
    method Unlink(el: Element<T>, ghost i: nat)
      requires Chain(spine) && i < |spine| && spine[i] == el
      modifies this`spine, repr`next, repr`prev
      ensures spine == old(RemoveAt(spine, i))
      ensures Chain(spine) && el != root && el !in spine
    {
      ghost var els := spine;
      assert Link([root] + els + [root], i) && Link([root] + els + [root], i + 1);
      ApartWithout(els, i);
      RingApart(els, i);
      el.prev.next := el.next;
      el.next.prev := el.prev;
      el.next, el.prev := null, null;
      spine := RemoveAt(spine, i);
      ghost var ring, ring' := [root] + els + [root], [root] + spine + [root];
      forall k | 0 <= k < |ring'| - 1 ensures Link(ring', k) {
        var l := if k <= i then k else k + 1;
        assert ring'[k] == ring[l] && ring'[k + 1] == ring[if k < i then k + 1 else k + 2];
        assert k != i ==> old(Link(ring, l));
      }
    }

    lemma ApartWithout(els: seq<Element<T>>, i: nat)
      requires AllApart([root] + els) && AllApart(els + [root]) && i < |els|
      ensures AllApart([root] + RemoveAt(els, i)) && AllApart(RemoveAt(els, i) + [root])
      ensures els[i] != root && els[i] !in RemoveAt(els, i)
    {
      StillApart([root] + els, i + 1, [root] + RemoveAt(els, i));
      StillApart(els + [root], i, RemoveAt(els, i) + [root]);
      AreApart([root] + els, 0, i + 1);
      forall k | 0 <= k < |els| - 1 ensures RemoveAt(els, i)[k] != els[i] {
        AreApart(els + [root], i, if k < i then k else k + 1);
      }
    }

    /** In a ring only the sentinel occurs twice, at the ends. */
    lemma RingApart(els: seq<Element<T>>, i: nat)
      requires AllApart([root] + els) && AllApart(els + [root]) && i < |els|
      ensures var ring := [root] + els + [root];
        && (forall k {:trigger ring[k]} :: 0 <= k <= |els| && k != i ==> ring[k] != ring[i])
        && (forall k {:trigger ring[k]} :: 0 <= k <= |els| && k != i + 1 ==> ring[k] != ring[i + 1])
        && (forall k {:trigger ring[k]} :: 0 < k < |ring| && k != i + 1 ==> ring[k] != ring[i + 1])
        && (forall k {:trigger ring[k]} :: 0 < k < |ring| && k != i + 2 ==> ring[k] != ring[i + 2])
    {
      var ring := [root] + els + [root];
      forall k | 0 <= k <= |els|
        ensures (k != i ==> ring[k] != ring[i]) && (k != i + 1 ==> ring[k] != ring[i + 1])
      {
        if k != i { AreApart([root] + els, k, i); }
        if k != i + 1 { AreApart([root] + els, k, i + 1); }
      }
      forall k | 0 < k < |ring|
        ensures (k != i + 1 ==> ring[k] != ring[i + 1]) && (k != i + 2 ==> ring[k] != ring[i + 2])
      {
        if k != i + 1 { AreApart(els + [root], k - 1, i); }
        if k != i + 2 { AreApart(els + [root], k - 1, i + 1); }
      }
    }

    static lemma StillApart(els: seq<Element<T>>, i: nat, rest: seq<Element<T>>)
      requires AllApart(els) && i < |els| && rest == RemoveAt(els, i)
      ensures AllApart(rest)
    {
      forall j, k | 0 <= j < k < |rest| ensures Apart(rest, j, k) {
        AreApart(els, if j < i then j else j + 1, if k < i then k else k + 1);
      }
    }

    static lemma AlsoApart(el: Element<T>, els: seq<Element<T>>)
      requires AllApart(els) && el !in els
      ensures AllApart([el] + els)
    {
      forall j, k | 0 <= j < k < |els| + 1 ensures Apart([el] + els, j, k) {
        if j > 0 { AreApart(els, j - 1, k - 1); }
      }
    }

    /** Puts `el` right behind the sentinel. */
    method LinkFront(el: Element<T>)
      requires Chain(spine) && el in repr && el != root && el !in spine
      modifies this`spine, repr`next, repr`prev
      ensures spine == [el] + old(spine)
      ensures Chain(spine)
    {
      ghost var els := spine;
      ghost var ring := [root] + els + [root];
      assert Link(ring, 0);
      ApartWith(el, els);
      var first := root.next;
      el.prev, el.next := root, first;
      root.next := el;
      first.prev := el;
      spine := [el] + spine;
      ghost var ring' := [root] + spine + [root];
      forall k | 0 <= k < |ring'| - 1 ensures Link(ring', k) {
        if k > 1 {
          assert old(Link(ring, k - 1)) && ring'[k] == ring[k - 1] && ring'[k + 1] == ring[k];
          AreApart([root] + els, 0, k - 1);
          AreApart(els + [root], 0, k - 1);
        }
      }
    }

    lemma ApartWith(el: Element<T>, els: seq<Element<T>>)
      requires AllApart([root] + els) && AllApart(els + [root]) && el != root && el !in els
      ensures AllApart([root] + ([el] + els)) && AllApart([el] + els + [root])
    {
      forall k | 0 <= k < |els| ensures els[k] != root {
        AreApart([root] + els, k + 1, 0);
      }
      StillApart([root] + els, 0, els);
      AlsoApart(el, els);
      AlsoApart(root, [el] + els);
      AlsoApart(el, els + [root]);
      assert [el] + els + [root] == [el] + (els + [root]);
    }

    lemma Ends()
      requires Chain(spine)
      ensures root.next == ([root] + spine + [root])[1]
      ensures root.prev == ([root] + spine)[|spine|]
    {
      var ring := [root] + spine + [root];
      assert Link(ring, 0) && Link(ring, |spine|);
    }

    // ------------------------------------------------------------ facts about a valid cache

    lemma KeysDistinct()
      requires Valid()
      ensures AllApart(spine) && Distinct(entries)
    {
      assert ([root] + spine)[..0] + ([root] + spine)[1..] == spine;
      StillApart([root] + spine, 0, spine);
      IndexedDistinct(data, spine, entries);
    }

    /** The element the map holds for `key` is the listed one. */
    lemma Position(key: string) returns (i: nat)
      requires Valid() && key in data
      ensures i < |spine| && spine[i] == data[key] && entries[i].key == key
      ensures data[key].payload == Some(entries[i])
      ensures Lookup(entries, key) == Some(entries[i])
    {
      assert Listed(data, key, spine, entries);
      i :| Slot(spine, entries, i) == Some((data[key], key));
      assert Carries(spine, entries, i);
      KeysDistinct();
      LookupAt(entries, i);
    }

    lemma InData(key: string)
      requires Valid()
      ensures key in data <==> Lookup(entries, key).Some?
    {
      if key in data {
        var i := Position(key);
      } else {
        forall e | e in entries ensures e.key != key {
          var i :| 0 <= i < |entries| && entries[i] == e;
          assert Points(data, spine, entries, i);
        }
      }
    }

    // ------------------------------------------------------------ internal operations

    method RemoveElement(el: Element<T>, ghost i: nat)
      requires Valid() && i < |spine| && spine[i] == el
      modifies this`data, this`spine, this`entries, repr`next, repr`prev
      ensures Valid()
      ensures entries == old(RemoveAt(entries, i))
      ensures spine == old(RemoveAt(spine, i))
      ensures entries == Without(old(entries), old(entries[i].key))
    {
      KeysDistinct();
      WithoutAt(entries, i);
      WithoutElement(data, spine, entries, i);
      assert Carries(spine, entries, i);
      Unlink(el, i);
      data := data - {el.payload.value.key};
      entries := RemoveAt(entries, i);
    }

    method MoveToFront(el: Element<T>, ghost i: nat)
      requires Valid() && i < |spine| && spine[i] == el
      modifies this`spine, this`entries, repr`next, repr`prev
      ensures Valid()
      ensures entries == old([entries[i]] + Without(entries, entries[i].key))
      ensures spine == old([spine[i]] + (RemoveAt(spine, i)))
    {
      KeysDistinct();
      WithoutAt(entries, i);
      FrontElement(data, spine, entries, i);
      ghost var els, es := [el] + RemoveAt(spine, i), [entries[i]] + RemoveAt(entries, i);
      Unlink(el, i);
      assert Holds(els, es);
      LinkFront(el);
      assert Holds(els, es);
      entries := es;
    }

    method EvictOldest()
      requires Valid()
      modifies this`data, this`spine, this`entries, repr`next, repr`prev
      ensures Valid()
      ensures entries == if old(entries) == [] then [] else old(entries[..|entries| - 1])
    {
      var oldest := root.prev;
      Ends();
      if |spine| > 0 { AreApart([root] + spine, 0, |spine|); }
      if oldest != root {
        RemoveElement(oldest, |spine| - 1);
      }
    }

    // ------------------------------------------------------------ operations

    /** Returns the value under `key` if there is one that has not expired, and marks it most
        recently used; an expired one is removed. */
    method Get(key: string, now: int) returns (found: Option<T>)
      requires Valid()
      modifies this`data, this`spine, this`entries, repr`next, repr`prev
      ensures Valid()
      ensures (entries, found) == Step(old(entries), maxEntries, now, Op.Get(key))
    {
      if key !in data {
        InData(key);
        return None;
      }
      var el := data[key];
      ghost var i := Position(key);
      var e := el.payload.value;
      if now > e.expiration {
        RemoveElement(el, i);
        return None;
      }
      if root.next != el {
        MoveToFront(el, i);
      } else {
        Ends();
        if i > 0 { AreApart(spine + [root], 0, i); }
        KeysDistinct();
        WithoutAt(entries, 0);
        assert entries == [entries[0]] + RemoveAt(entries, 0);
      }
      return Some(e.value);
    }

    /** Stores `value` under `key` for `ttl`; a full cache first drops its least recently used entry. */
    method SetWithTTL(key: string, value: T, ttl: int, now: int)
      requires Valid()
      modifies this`data, this`spine, this`entries, this`repr, repr`next, repr`prev, repr`payload
      ensures Valid() && fresh(repr - old(repr))
      ensures entries == Step(old(entries), maxEntries, now, Op.Set(key, value, ttl)).0
    {
      var item := Entry(key, value, now + ttl);
      if key in data {
        ghost var i := Position(key);
        KeysDistinct();
        WithoutUpdated(entries, i, item);
        Overwrite(data[key], i, item);
        MoveToFront(data[key], i);
        return;
      }
      InData(key);
      if maxEntries > 0 && |data| >= maxEntries {
        EvictOldest();
      }
      PushFront(item);
    }

    /** Overwrites the entry of a listed element. */
    method Overwrite(el: Element<T>, ghost i: nat, item: Entry<T>)
      requires Valid() && i < |spine| && spine[i] == el && entries[i].key == item.key
      modifies this`entries, el`payload
      ensures Valid() && entries == old(entries)[i := item]
    {
      KeysDistinct();
      UpdateElement(data, spine, entries, i, item);
      el.payload := Some(item);
      entries := entries[i := item];
      ghost var es := entries;
      forall j | 0 <= j < |spine| ensures Carries(spine, es, j) {
        assert old(Carries(spine, entries, j));
        if j != i { AreApart(spine, j, i); }
      }
    }

    method PushFront(item: Entry<T>)
      requires Valid() && (maxEntries > 0 ==> |entries| < maxEntries)
      requires Lookup(entries, item.key).None?
      modifies this`data, this`spine, this`entries, this`repr, repr`next, repr`prev
      ensures Valid() && fresh(repr - old(repr))
      ensures entries == [item] + old(entries)
    {
      var el := new Element<T>(Some(item));
      AddFront(el, item);
    }

    /** Puts a new element with its entry and key in front. */
    method AddFront(el: Element<T>, item: Entry<T>)
      requires Valid() && (maxEntries > 0 ==> |entries| < maxEntries)
      requires Lookup(entries, item.key).None? && el !in repr && el.payload == Some(item)
      modifies this`data, this`spine, this`entries, this`repr, repr`next, repr`prev, el`next, el`prev
      ensures Valid() && repr == old(repr) + {el}
      ensures entries == [item] + old(entries)
    {
      InData(item.key);
      PushElement(data, spine, entries, el, item);
      data := data[item.key := el];
      entries, repr := [item] + entries, repr + {el};
      LinkFront(el);
    }

    method Set(key: string, value: T, now: int)
      requires Valid()
      modifies this`data, this`spine, this`entries, this`repr, repr`next, repr`prev, repr`payload
      ensures Valid() && fresh(repr - old(repr))
      ensures entries == Step(old(entries), maxEntries, now, Op.Set(key, value, ttl)).0
    {
      SetWithTTL(key, value, ttl, now);
    }

    method Delete(key: string)
      requires Valid()
      modifies this`data, this`spine, this`entries, repr`next, repr`prev
      ensures Valid()
      ensures entries == Step(old(entries), maxEntries, 0, Op<T>.Delete(key)).0
    {
      if key in data {
        ghost var i := Position(key);
        RemoveElement(data[key], i);
      } else {
        InData(key);
        KeysDistinct();
        WithoutDistinct(entries, key);
      }
    }

    method Clear()
      requires Valid()
      modifies this`data, this`spine, this`entries, root`next, root`prev
      ensures Valid()
      ensures entries == []
    {
      data := map[];
      root.next, root.prev := root, root;
      spine, entries := [], [];
    }

    method Size() returns (n: int)
      requires Valid()
      ensures n == |entries|
    {
      n := |data|;
    }

    /** Removes every entry that had expired at `now`, walking from the least recently used end and
        unlinking as it goes. */
    method EvictExpired(now: int)
      requires Valid()
      modifies this`data, this`spine, this`entries, repr`next, repr`prev
      ensures Valid()
      ensures entries == Step(old(entries), maxEntries, now, Op<T>.Sweep(now)).0
    {
      ghost var before, n := entries, |entries|;
      var el := root.prev;
      ghost var i := n;  // the entries still to be visited are before[..i]
      Ends();
      assert entries == before[..n] + Live(before[n..], now);
      while el != root
        invariant Valid() && 0 <= i <= n && i <= |spine|
        invariant entries == before[..i] + Live(before[i..], now)
        invariant el == ([root] + spine)[i]
        decreases i
      {
        SweepOne(before, i - 1, now);
        i := i - 1;
        el := SweepElement(el, i, now);
      }
      if i > 0 { AreApart([root] + spine, 0, i); }
      assert before[0..] == before;
    }

    /** Removes an element if it has expired, and steps to the one before it. */
    method SweepElement(el: Element<T>, ghost i: nat, now: int) returns (prev: Element<T>)
      requires Valid() && i < |spine| && spine[i] == el
      modifies this`data, this`spine, this`entries, repr`next, repr`prev
      ensures Valid() && i <= |spine| && prev == ([root] + spine)[i]
      ensures entries == if Expired(old(entries)[i], now) then RemoveAt(old(entries), i) else old(entries)
    {
      assert Link([root] + spine + [root], i);
      assert Carries(spine, entries, i);
      prev := el.prev;
      if now > el.payload.value.expiration {
        RemoveElement(el, i);
      }
    }
  }

  // ---------------------------------------------------------------- lists addressed by position

  /** One turn of the backward sweep. */
  lemma SweepOne<T>(s: seq<Entry<T>>, i: nat, now: int)
    requires i < |s|
    ensures var done := s[..i + 1] + Live(s[i + 1..], now);
            s[..i] + Live(s[i..], now) == if Expired(s[i], now) then RemoveAt(done, i) else done
  {
    assert s[i..][0] == s[i] && s[i..][1..] == s[i + 1..];
  }

  lemma {:induction false} LookupAt<T>(s: seq<Entry<T>>, i: nat)
    requires Distinct(s) && i < |s|
    ensures Lookup(s, s[i].key) == Some(s[i])
  {
    var found := Lookup(s, s[i].key);
    assert s[i] in s;
    var j :| 0 <= j < |s| && s[j] == found.value;
  }

  lemma {:induction false} WithoutAt<T>(s: seq<Entry<T>>, i: nat)
    requires Distinct(s) && i < |s|
    ensures Without(s, s[i].key) == RemoveAt(s, i)
  {
    if i == 0 {
      assert Lookup(s[1..], s[0].key).None?;
      WithoutDistinct(s[1..], s[0].key);
    } else {
      WithoutAt(s[1..], i - 1);
      assert s[1..][i - 1] == s[i];
      assert [s[0]] + (s[1..][..i - 1] + s[1..][i..]) == s[..i] + s[i + 1..];
    }
  }

  /** Overwriting an entry in place does not show once its key is taken out. */
  lemma WithoutUpdated<T>(s: seq<Entry<T>>, i: nat, e: Entry<T>)
    requires Distinct(s) && i < |s| && e.key == s[i].key
    ensures Distinct(s[i := e]) && Without(s[i := e], e.key) == Without(s, e.key)
  {
    WithoutAt(s, i);
    WithoutAt(s[i := e], i);
  }
}
