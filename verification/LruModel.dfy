/** The bounded least-recently-used cache with expiry of `src/core/cache/cache.go`, as values.

    A cache is the list of its entries, most recently used first.  `Step` says what one
    locked operation does to that list and what it answers; a run folds `Step` over a trace of
    timed operations.  The class in LruCache.dfy is proved to do exactly `Step`; this file proves
    what `Step` means over whole runs. */
module LruModel {
  import opened Options

  datatype Entry<T> = Entry(key: string, value: T, expiration: int)

  /** A sweep carries its own clock reading: `evictExpired` reads the time before it takes the lock. */
  datatype Op<T> =
    | Get(key: string)
    | Set(key: string, value: T, ttl: int)
    | Delete(key: string)
    | Clear
    | Sweep(clock: int)

  datatype Timed<T> = Timed(now: int, op: Op<T>)

  // ---------------------------------------------------------------- lists of entries

  ghost predicate Distinct<T>(s: seq<Entry<T>>) {
    forall i, j :: 0 <= i < j < |s| ==> s[i].key != s[j].key
  }

  function Lookup<T>(s: seq<Entry<T>>, key: string): (r: Option<Entry<T>>)
    ensures r.Some? ==> r.value in s && r.value.key == key
    ensures r.None? ==> forall e :: e in s ==> e.key != key
  {
    if s == [] then None
    else if s[0].key == key then Some(s[0])
    else Lookup(s[1..], key)
  }

  /** The entries other than those under `key`, in order. */
  function Without<T>(s: seq<Entry<T>>, key: string): (r: seq<Entry<T>>)
    ensures |r| <= |s|
  {
    if s == [] then []
    else if s[0].key == key then Without(s[1..], key)
    else [s[0]] + Without(s[1..], key)
  }

  predicate Expired<T>(e: Entry<T>, now: int) {
    now > e.expiration
  }

  /** The entries not yet expired at `now`, in order. */
  function Live<T>(s: seq<Entry<T>>, now: int): (r: seq<Entry<T>>)
    ensures |r| <= |s|
  {
    if s == [] then []
    else if Expired(s[0], now) then Live(s[1..], now)
    else [s[0]] + Live(s[1..], now)
  }

  lemma {:induction false} WithoutMembers<T>(s: seq<Entry<T>>, key: string)
    ensures forall e :: e in Without(s, key) ==> e in s && e.key != key
    ensures forall e :: e in s && e.key != key ==> e in Without(s, key)
  {
    if s != [] {
      WithoutMembers(s[1..], key);
    }
  }

  lemma {:induction false} LiveMembers<T>(s: seq<Entry<T>>, now: int)
    ensures forall e :: e in Live(s, now) ==> e in s && !Expired(e, now)
    ensures forall e :: e in s && !Expired(e, now) ==> e in Live(s, now)
  {
    if s != [] {
      LiveMembers(s[1..], now);
    }
  }

  // ---------------------------------------------------------------- one operation

  /** What one operation leaves and answers.  `capacity <= 0` means unbounded, as in the source. */
  function Step<T>(s: seq<Entry<T>>, capacity: int, now: int, op: Op<T>): (seq<Entry<T>>, Option<T>) {
    match op
    case Get(key) =>
      var found := Lookup(s, key);
      if found.None? then (s, None)
      else if Expired(found.value, now) then (Without(s, key), None)
      else ([found.value] + Without(s, key), Some(found.value.value))
    case Set(key, value, ttl) => (Put(s, capacity, Entry(key, value, now + ttl)), None)
    case Delete(key) => (Without(s, key), None)
    case Clear => ([], None)
    case Sweep(clock) => (Live(s, clock), None)
  }

  function Put<T>(s: seq<Entry<T>>, capacity: int, e: Entry<T>): seq<Entry<T>> {
    if Lookup(s, e.key).Some? then [e] + Without(s, e.key)
    else if capacity > 0 && |s| >= capacity then [e] + s[..|s| - 1]
    else [e] + s
  }

  // ---------------------------------------------------------------- runs

  /** The list left by a whole trace, from an empty cache. */
  function Run<T>(trace: seq<Timed<T>>, capacity: int): seq<Entry<T>> {
    if trace == [] then []
    else
      var last := trace[|trace| - 1];
      Step(Run(trace[..|trace| - 1], capacity), capacity, last.now, last.op).0
  }

  /** What the `i`-th operation of the trace answers. */
  function Answer<T>(trace: seq<Timed<T>>, capacity: int, i: nat): Option<T>
    requires i < |trace|
  {
    Step(Run(trace[..i], capacity), capacity, trace[i].now, trace[i].op).1
  }

  /** A clock that never goes back, and sweeps whose reading is not ahead of it. */
  ghost predicate Monotone<T>(trace: seq<Timed<T>>) {
    && (forall i, j :: 0 <= i < j < |trace| ==> trace[i].now <= trace[j].now)
    && (forall i :: 0 <= i < |trace| && trace[i].op.Sweep? ==> trace[i].op.clock <= trace[i].now)
  }

  // ---------------------------------------------------------------- well-formedness

  lemma TailDistinct<T>(s: seq<Entry<T>>)
    requires s != [] && Distinct(s)
    ensures Distinct(s[1..]) && forall e :: e in s[1..] ==> e.key != s[0].key
  {
    forall e | e in s[1..] ensures e.key != s[0].key {
      var i :| 0 <= i < |s[1..]| && s[1..][i] == e;
      assert s[i + 1] == e;
    }
  }

  lemma ConsDistinct<T>(e: Entry<T>, s: seq<Entry<T>>)
    requires Distinct(s) && forall x :: x in s ==> x.key != e.key
    ensures Distinct([e] + s)
  {
  }

  lemma {:induction false} WithoutDistinct<T>(s: seq<Entry<T>>, key: string)
    requires Distinct(s)
    ensures Distinct(Without(s, key))
    ensures Lookup(s, key).Some? ==> |Without(s, key)| == |s| - 1
    ensures Lookup(s, key).None? ==> Without(s, key) == s
  {
    if s != [] {
      WithoutDistinct(s[1..], key);
      WithoutMembers(s[1..], key);
      TailDistinct(s);
      if s[0].key != key {
        ConsDistinct(s[0], Without(s[1..], key));
      }
    }
  }

  lemma FrontDistinct<T>(s: seq<Entry<T>>, e: Entry<T>)
    requires Distinct(s)
    ensures Distinct([e] + Without(s, e.key)) && Distinct(Without(s, e.key))
    ensures Lookup(s, e.key).Some? ==> |Without(s, e.key)| == |s| - 1
    ensures Lookup(s, e.key).None? ==> Without(s, e.key) == s
  {
    WithoutDistinct(s, e.key);
    WithoutMembers(s, e.key);
    ConsDistinct(e, Without(s, e.key));
  }

  lemma {:induction false} LiveDistinct<T>(s: seq<Entry<T>>, now: int)
    requires Distinct(s)
    ensures Distinct(Live(s, now))
  {
    if s != [] {
      LiveDistinct(s[1..], now);
      LiveMembers(s[1..], now);
      TailDistinct(s);
      ConsDistinct(s[0], Live(s[1..], now));
    }
  }

  lemma PutWellFormed<T>(s: seq<Entry<T>>, capacity: int, e: Entry<T>)
    requires Distinct(s)
    requires capacity > 0 ==> |s| <= capacity
    ensures Distinct(Put(s, capacity, e))
    ensures capacity > 0 ==> |Put(s, capacity, e)| <= capacity
  {
    FrontDistinct(s, e);
    if Lookup(s, e.key).None? && capacity > 0 && |s| >= capacity {
      ConsDistinct(e, s[..|s| - 1]);
    }
  }

  /** Every operation keeps the keys distinct and a bounded cache within its bound. */
  lemma StepWellFormed<T>(s: seq<Entry<T>>, capacity: int, now: int, op: Op<T>)
    requires Distinct(s)
    requires capacity > 0 ==> |s| <= capacity
    ensures Distinct(Step(s, capacity, now, op).0)
    ensures capacity > 0 ==> |Step(s, capacity, now, op).0| <= capacity
  {
    match op
    case Get(key) =>
      if Lookup(s, key).Some? { FrontDistinct(s, Lookup(s, key).value); }
    case Set(key, value, ttl) => PutWellFormed(s, capacity, Entry(key, value, now + ttl));
    case Delete(key) => WithoutDistinct(s, key);
    case Clear =>
    case Sweep(clock) => LiveDistinct(s, clock);
  }

  lemma {:induction false} RunWellFormed<T>(trace: seq<Timed<T>>, capacity: int)
    ensures Distinct(Run(trace, capacity))
    ensures capacity > 0 ==> |Run(trace, capacity)| <= capacity
  {
    if trace != [] {
      var last := trace[|trace| - 1];
      RunWellFormed(trace[..|trace| - 1], capacity);
      StepWellFormed(Run(trace[..|trace| - 1], capacity), capacity, last.now, last.op);
    }
  }

  // ---------------------------------------------------------------- inclusion across capacities

  /** `s` is a subsequence of `l`: the same entries, in the same order, with gaps. */
  ghost predicate Embeds<T>(s: seq<Entry<T>>, l: seq<Entry<T>>) {
    if s == [] then true
    else if l == [] then false
    else if s[0] == l[0] then Embeds(s[1..], l[1..])
    else Embeds(s, l[1..])
  }

  lemma {:induction false} EmbedsMember<T>(s: seq<Entry<T>>, l: seq<Entry<T>>)
    requires Embeds(s, l)
    ensures forall e :: e in s ==> e in l
    ensures |s| <= |l|
    ensures |s| == |l| ==> s == l
  {
    if s != [] {
      if s[0] == l[0] {
        EmbedsMember(s[1..], l[1..]);
        assert s == [s[0]] + s[1..] && l == [l[0]] + l[1..];
      } else {
        EmbedsMember(s, l[1..]);
      }
    }
  }

  lemma {:induction false} EmbedsDrop<T>(s: seq<Entry<T>>, l: seq<Entry<T>>)
    requires s != [] && Embeds(s, l)
    ensures Embeds(s[1..], l[1..])
    decreases |l|, 0
  {
    if s[0] != l[0] {
      EmbedsDrop(s, l[1..]);
      EmbedsWiden(s[1..], l[1], l[1..][1..]);
      assert l[1..] == [l[1]] + l[1..][1..];
    }
  }

  lemma {:induction false} EmbedsWiden<T>(s: seq<Entry<T>>, e: Entry<T>, l: seq<Entry<T>>)
    requires Embeds(s, l)
    ensures Embeds(s, [e] + l)
    decreases |l|, 1
  {
    assert ([e] + l)[1..] == l;
    if s != [] && s[0] == e {
      EmbedsDrop(s, l);
      EmbedsWiden(s[1..], l[0], l[1..]);
      assert l == [l[0]] + l[1..];
    }
  }

  lemma EmbedsCons<T>(e: Entry<T>, s: seq<Entry<T>>, l: seq<Entry<T>>)
    requires Embeds(s, l)
    ensures Embeds([e] + s, [e] + l)
  {
    assert ([e] + s)[1..] == s && ([e] + l)[1..] == l;
  }

  lemma {:induction false} EmbedsWithout<T>(s: seq<Entry<T>>, l: seq<Entry<T>>, key: string)
    requires Embeds(s, l)
    ensures Embeds(Without(s, key), Without(l, key))
  {
    if s != [] {
      if s[0] == l[0] {
        EmbedsWithout(s[1..], l[1..], key);
        if s[0].key != key {
          EmbedsCons(s[0], Without(s[1..], key), Without(l[1..], key));
        }
      } else {
        EmbedsWithout(s, l[1..], key);
        if l[0].key != key {
          EmbedsWiden(Without(s, key), l[0], Without(l[1..], key));
        }
      }
    }
  }

  lemma {:induction false} EmbedsLive<T>(s: seq<Entry<T>>, l: seq<Entry<T>>, now: int)
    requires Embeds(s, l)
    ensures Embeds(Live(s, now), Live(l, now))
  {
    if s != [] {
      if s[0] == l[0] {
        EmbedsLive(s[1..], l[1..], now);
        if !Expired(s[0], now) {
          EmbedsCons(s[0], Live(s[1..], now), Live(l[1..], now));
        }
      } else {
        EmbedsLive(s, l[1..], now);
        if !Expired(l[0], now) {
          EmbedsWiden(Live(s, now), l[0], Live(l[1..], now));
        }
      }
    }
  }

  /** Dropping the last entry of the shorter list, or of both, keeps the embedding. */
  lemma {:induction false} EmbedsInit<T>(s: seq<Entry<T>>, l: seq<Entry<T>>)
    requires s != [] && Embeds(s, l)
    ensures l != [] && Embeds(s[..|s| - 1], l) && Embeds(s[..|s| - 1], l[..|l| - 1])
  {
    if |s| > 1 {
      if s[0] == l[0] {
        EmbedsInit(s[1..], l[1..]);
        assert l[1..] != [];
        assert s[..|s| - 1][1..] == s[1..][..|s| - 2];
      } else {
        EmbedsInit(s, l[1..]);
        assert l[1..] != [];
      }
      assert |l| >= 2;
      assert l[..|l| - 1][1..] == l[1..][..|l| - 2];
    }
  }

  lemma EmbedsLookup<T>(s: seq<Entry<T>>, l: seq<Entry<T>>, key: string)
    requires Embeds(s, l) && Distinct(l)
    requires Lookup(s, key).Some?
    ensures Lookup(l, key) == Lookup(s, key)
  {
    EmbedsMember(s, l);
  }

  /** What one step needs and keeps: the smaller list embeds in the larger, and a bounded larger
      cache is never more than `n - m` entries ahead. */
  ghost predicate Included<T>(s: seq<Entry<T>>, m: int, l: seq<Entry<T>>, n: int) {
    && Distinct(s) && Distinct(l)
    && |s| <= m && (n > 0 ==> |l| <= n && |l| - |s| <= n - m)
    && Embeds(s, l)
  }

  lemma StepIncluded<T>(s: seq<Entry<T>>, m: int, l: seq<Entry<T>>, n: int, now: int, op: Op<T>)
    requires 0 < m && (n <= 0 || m <= n)
    requires Included(s, m, l, n)
    ensures Included(Step(s, m, now, op).0, m, Step(l, n, now, op).0, n)
    ensures Step(s, m, now, op).1.Some? ==> Step(l, n, now, op).1 == Step(s, m, now, op).1
  {
    StepWellFormed(s, m, now, op);
    StepWellFormed(l, n, now, op);
    match op
    case Get(key) => GetIncluded(s, m, l, n, now, key);
    case Set(key, value, ttl) => PutIncluded(s, m, l, n, Entry(key, value, now + ttl));
    case Delete(key) => DeleteIncluded(s, m, l, n, key);
    case Clear =>
    case Sweep(clock) => SweepIncluded(s, l, clock);
  }

  lemma DeleteIncluded<T>(s: seq<Entry<T>>, m: int, l: seq<Entry<T>>, n: int, key: string)
    requires Included(s, m, l, n)
    ensures Embeds(Without(s, key), Without(l, key))
    ensures Lookup(s, key).Some? ==> Lookup(l, key) == Lookup(s, key)
    ensures n > 0 ==> |Without(l, key)| - |Without(s, key)| <= n - m
  {
    EmbedsWithout(s, l, key);
    WithoutDistinct(s, key);
    WithoutDistinct(l, key);
    if Lookup(s, key).Some? {
      EmbedsLookup(s, l, key);
    }
  }

  lemma GetIncluded<T>(s: seq<Entry<T>>, m: int, l: seq<Entry<T>>, n: int, now: int, key: string)
    requires 0 < m && (n <= 0 || m <= n)
    requires Included(s, m, l, n)
    ensures Embeds(Step(s, m, now, Get(key)).0, Step(l, n, now, Get(key)).0)
    ensures n > 0 ==> |Step(l, n, now, Get(key)).0| - |Step(s, m, now, Get(key)).0| <= n - m
    ensures Lookup(s, key).Some? ==> Lookup(l, key) == Lookup(s, key)
  {
    DeleteIncluded(s, m, l, n, key);
    WithoutDistinct(s, key);
    WithoutDistinct(l, key);
    if Lookup(s, key).Some? {
      EmbedsCons(Lookup(s, key).value, Without(s, key), Without(l, key));
    } else if Lookup(l, key).Some? {
      EmbedsWiden(s, Lookup(l, key).value, Without(l, key));
    }
  }

  lemma PutIncluded<T>(s: seq<Entry<T>>, m: int, l: seq<Entry<T>>, n: int, e: Entry<T>)
    requires 0 < m && (n <= 0 || m <= n)
    requires Included(s, m, l, n)
    ensures Embeds(Put(s, m, e), Put(l, n, e))
    ensures n > 0 ==> |Put(l, n, e)| - |Put(s, m, e)| <= n - m
  {
    EmbedsWithout(s, l, e.key);
    WithoutDistinct(s, e.key);
    WithoutDistinct(l, e.key);
    if Lookup(s, e.key).Some? {
      EmbedsLookup(s, l, e.key);
      EmbedsCons(e, Without(s, e.key), Without(l, e.key));
    } else {
      var small := if |s| >= m then s[..|s| - 1] else s;
      if Lookup(l, e.key).Some? {
        if |s| >= m { EmbedsInit(s, Without(l, e.key)); }
        EmbedsCons(e, small, Without(l, e.key));
      } else {
        var large := if n > 0 && |l| >= n then l[..|l| - 1] else l;
        if |s| >= m { EmbedsInit(s, l); }
        EmbedsCons(e, small, large);
      }
    }
  }

  /** A sweep shortens the larger list by at least as much as the smaller one. */
  lemma {:induction false} SweepIncluded<T>(s: seq<Entry<T>>, l: seq<Entry<T>>, clock: int)
    requires Embeds(s, l)
    ensures Embeds(Live(s, clock), Live(l, clock))
    ensures |Live(l, clock)| - |Live(s, clock)| <= |l| - |s|
  {
    EmbedsLive(s, l, clock);
    if s != [] {
      if s[0] == l[0] {
        SweepIncluded(s[1..], l[1..], clock);
      } else {
        SweepIncluded(s, l[1..], clock);
      }
    }
  }

  /** LRU inclusion: on one trace, whatever its clock does, a cache of capacity `m` always holds a
      subsequence of what a cache of capacity `n >= m` (or an unbounded one) holds. */
  lemma {:induction false} Inclusion<T>(trace: seq<Timed<T>>, m: int, n: int)
    requires 0 < m && (n <= 0 || m <= n)
    ensures Included(Run(trace, m), m, Run(trace, n), n)
  {
    if trace != [] {
      var prefix, last := trace[..|trace| - 1], trace[|trace| - 1];
      Inclusion(prefix, m, n);
      StepIncluded(Run(prefix, m), m, Run(prefix, n), n, last.now, last.op);
    }
  }

  /** Every hit in the smaller cache is the same hit in the larger one. */
  lemma HitInclusion<T>(trace: seq<Timed<T>>, m: int, n: int, i: nat)
    requires 0 < m && (n <= 0 || m <= n)
    requires i < |trace|
    ensures Answer(trace, m, i).Some? ==> Answer(trace, n, i) == Answer(trace, m, i)
  {
    Inclusion(trace[..i], m, n);
    StepIncluded(Run(trace[..i], m), m, Run(trace[..i], n), n, trace[i].now, trace[i].op);
  }

  // ---------------------------------------------------------------- the plain map with expiry

  /** The map after one more operation: it never drops anything by itself. */
  function MapStep<T>(m: map<string, Entry<T>>, next: Timed<T>): map<string, Entry<T>> {
    match next.op
    case Set(key, value, ttl) => m[key := Entry(key, value, next.now + ttl)]
    case Delete(key) => m - {key}
    case Clear => map[]
    case _ => m
  }

  function MapLookup<T>(m: map<string, Entry<T>>, next: Timed<T>): Option<T> {
    if next.op.Get? && next.op.key in m && !Expired(m[next.op.key], next.now)
    then Some(m[next.op.key].value)
    else None
  }

  function MapRun<T>(trace: seq<Timed<T>>): map<string, Entry<T>> {
    if trace == [] then map[] else MapStep(MapRun(trace[..|trace| - 1]), trace[|trace| - 1])
  }

  /** What the `i`-th operation answers on the plain map with expiry. */
  function MapAnswer<T>(trace: seq<Timed<T>>, i: nat): Option<T>
    requires i < |trace|
  {
    MapLookup(MapRun(trace[..i]), trace[i])
  }

  /** The cache knows nothing the map does not, and misses only what has expired by `clock`. */
  ghost predicate Agrees<T>(s: seq<Entry<T>>, m: map<string, Entry<T>>, clock: int) {
    && (forall e :: e in s ==> e.key in m && m[e.key] == e)
    && (forall k :: k in m ==> m[k].key == k && (m[k] in s || Expired(m[k], clock)))
  }

  lemma PutAgrees<T>(s: seq<Entry<T>>, m: map<string, Entry<T>>, clock: int, e: Entry<T>)
    requires Agrees(s, m, clock) && Distinct(s)
    ensures Agrees(Put(s, 0, e), m[e.key := e], clock)
  {
    WithoutDistinct(s, e.key);
    WithoutMembers(s, e.key);
  }

  lemma GetAgrees<T>(s: seq<Entry<T>>, m: map<string, Entry<T>>, clock: int, now: int, key: string)
    requires Agrees(s, m, clock) && Distinct(s) && clock <= now
    ensures Agrees(Step(s, 0, now, Get(key)).0, m, now)
    ensures Step(s, 0, now, Get(key)).1 == MapLookup(m, Timed(now, Get(key)))
  {
    WithoutMembers(s, key);
    if Lookup(s, key).None? && key in m {
      assert m[key] !in s;
    }
  }

  lemma DeleteAgrees<T>(s: seq<Entry<T>>, m: map<string, Entry<T>>, clock: int, key: string)
    requires Agrees(s, m, clock)
    ensures Agrees(Without(s, key), m - {key}, clock)
  {
    WithoutMembers(s, key);
  }

  lemma SweepAgrees<T>(s: seq<Entry<T>>, m: map<string, Entry<T>>, clock: int, now: int, at: int)
    requires Agrees(s, m, clock) && clock <= now && at <= now
    ensures Agrees(Live(s, at), m, now)
  {
    LiveMembers(s, at);
  }

  lemma StepAgrees<T>(s: seq<Entry<T>>, m: map<string, Entry<T>>, clock: int, next: Timed<T>)
    requires Agrees(s, m, clock) && Distinct(s) && clock <= next.now
    requires next.op.Sweep? ==> next.op.clock <= next.now
    ensures Agrees(Step(s, 0, next.now, next.op).0, MapStep(m, next), next.now)
    ensures Step(s, 0, next.now, next.op).1 == MapLookup(m, next)
  {
    match next.op
    case Get(key) => GetAgrees(s, m, clock, next.now, key);
    case Set(key, value, ttl) => PutAgrees(s, m, next.now, Entry(key, value, next.now + ttl));
    case Delete(key) => DeleteAgrees(s, m, next.now, key);
    case Clear =>
    case Sweep(at) => SweepAgrees(s, m, clock, next.now, at);
  }

  lemma {:induction false} RunAgrees<T>(trace: seq<Timed<T>>)
    requires Monotone(trace)
    ensures Agrees(Run(trace, 0), MapRun(trace), if trace == [] then 0 else trace[|trace| - 1].now)
  {
    if trace != [] {
      var prefix, last := trace[..|trace| - 1], trace[|trace| - 1];
      RunAgrees(prefix);
      RunWellFormed(prefix, 0);
      if prefix == [] {
        StepAgrees(Run(prefix, 0), MapRun(prefix), last.now, last);
      } else {
        StepAgrees(Run(prefix, 0), MapRun(prefix), prefix[|prefix| - 1].now, last);
      }
    }
  }

  /** An unbounded cache answers exactly as the plain map with expiry does. */
  lemma UnboundedIsMap<T>(trace: seq<Timed<T>>, i: nat)
    requires Monotone(trace) && i < |trace|
    ensures Answer(trace, 0, i) == MapAnswer(trace, i)
  {
    RunAgrees(trace[..i]);
    RunWellFormed(trace[..i], 0);
    var clock := if i == 0 then trace[0].now else trace[i - 1].now;
    StepAgrees(Run(trace[..i], 0), MapRun(trace[..i]), clock, trace[i]);
  }

  /** A hit in a bounded cache is what the plain map would have answered. */
  lemma BoundedHitIsMap<T>(trace: seq<Timed<T>>, capacity: int, i: nat)
    requires Monotone(trace) && i < |trace|
    ensures Answer(trace, capacity, i).Some? ==> Answer(trace, capacity, i) == MapAnswer(trace, i)
  {
    UnboundedIsMap(trace, i);
    if capacity > 0 {
      HitInclusion(trace, capacity, 0, i);
    } else {
      UnboundedAlike(trace[..i], capacity);
    }
  }

  /** Any capacity that is not positive means "unbounded". */
  lemma {:induction false} UnboundedAlike<T>(trace: seq<Timed<T>>, capacity: int)
    requires capacity <= 0
    ensures Run(trace, capacity) == Run(trace, 0)
  {
    if trace != [] {
      UnboundedAlike(trace[..|trace| - 1], capacity);
    }
  }

  // ---------------------------------------------------------------- what a lookup answers

  /** Operation `j` is the last one before `i` that decides about `key`, and it stores a value. */
  ghost predicate LastSet<T>(trace: seq<Timed<T>>, i: nat, key: string, j: int)
    requires i <= |trace|
  {
    && 0 <= j < i && trace[j].op.Set? && trace[j].op.key == key
    && forall m :: j < m < i ==>
         !trace[m].op.Clear? && !((trace[m].op.Set? || trace[m].op.Delete?) && trace[m].op.key == key)
  }

  lemma {:induction false} MapIsLastSet<T>(trace: seq<Timed<T>>, key: string)
    ensures key in MapRun(trace) <==> exists j :: LastSet(trace, |trace|, key, j)
    ensures forall j :: LastSet(trace, |trace|, key, j) ==>
              key in MapRun(trace)
              && MapRun(trace)[key] == Entry(key, trace[j].op.value, trace[j].now + trace[j].op.ttl)
  {
    if trace != [] {
      var n := |trace| - 1;
      var op := trace[n].op;
      MapIsLastSet(trace[..n], key);
      if op.Clear? || ((op.Set? || op.Delete?) && op.key == key) {
        if op.Set? { assert LastSet(trace, |trace|, key, n); }
      } else {
        forall j ensures LastSet(trace, |trace|, key, j) <==> LastSet(trace[..n], n, key, j) {
          if LastSet(trace[..n], n, key, j) {
            assert forall m :: j < m < n ==> trace[..n][m] == trace[m];
          }
          if LastSet(trace, |trace|, key, j) {
            assert forall m :: j < m < n ==> trace[..n][m] == trace[m];
          }
        }
      }
    }
  }

  /** A lookup in an unbounded cache answers `v` exactly if the last operation that decided about the
      key stored `v` and its time to live has not passed. */
  lemma LookupAnswers<T>(trace: seq<Timed<T>>, i: nat, v: T)
    requires Monotone(trace) && i < |trace| && trace[i].op.Get?
    ensures Answer(trace, 0, i) == Some(v) <==>
            exists j :: LastSet(trace, i, trace[i].op.key, j) && trace[j].op.value == v
                        && trace[i].now <= trace[j].now + trace[j].op.ttl
  {
    var key := trace[i].op.key;
    UnboundedIsMap(trace, i);
    MapIsLastSet(trace[..i], key);
    forall j ensures LastSet(trace, i, key, j) <==> LastSet(trace[..i], i, key, j) {
      SamePrefix(trace, i, key, j);
    }
  }

  lemma SamePrefix<T>(trace: seq<Timed<T>>, i: nat, key: string, j: int)
    requires i <= |trace|
    ensures LastSet(trace, i, key, j) <==> LastSet(trace[..i], i, key, j)
  {
    assert forall m :: 0 <= m < i ==> trace[..i][m] == trace[m];
  }

  /** A bounded cache answers nothing else: it may only have dropped the entry. */
  lemma BoundedLookupAnswers<T>(trace: seq<Timed<T>>, capacity: int, i: nat, v: T)
    requires Monotone(trace) && i < |trace| && trace[i].op.Get?
    requires Answer(trace, capacity, i) == Some(v)
    ensures exists j :: LastSet(trace, i, trace[i].op.key, j) && trace[j].op.value == v
                        && trace[i].now <= trace[j].now + trace[j].op.ttl
  {
    BoundedHitIsMap(trace, capacity, i);
    UnboundedIsMap(trace, i);
    LookupAnswers(trace, i, v);
  }

  /** A sweep keeps an entry exactly if the clock reading is not past its expiration. */
  lemma SweepKeeps<T>(s: seq<Entry<T>>, capacity: int, now: int, clock: int, e: Entry<T>)
    ensures e in Step(s, capacity, now, Op<T>.Sweep(clock)).0 <==> e in s && !(clock > e.expiration)
  {
    LiveMembers(s, clock);
  }

  ghost function KeysSet<T>(trace: seq<Timed<T>>): set<string> {
    set t | t in trace && t.op.Set? :: t.op.key
  }

  lemma {:induction false} KeysCount<T>(s: seq<Entry<T>>, keys: set<string>)
    requires Distinct(s) && forall e :: e in s ==> e.key in keys
    ensures |s| <= |keys|
  {
    if s != [] {
      TailDistinct(s);
      KeysCount(s[1..], keys - {s[0].key});
    }
  }

  lemma {:induction false} OnlySetKeys<T>(trace: seq<Timed<T>>, capacity: int)
    ensures forall e :: e in Run(trace, capacity) ==> e.key in KeysSet(trace)
  {
    if trace != [] {
      var n := |trace| - 1;
      var s, op := Run(trace[..n], capacity), trace[n].op;
      OnlySetKeys(trace[..n], capacity);
      assert trace == trace[..n] + [trace[n]];
      if op.Get? || op.Set? || op.Delete? { WithoutMembers(s, op.key); }
      if op.Sweep? { LiveMembers(s, op.clock); }
    }
  }

  /** A cache never evicts before it has to: with room for every key ever stored it holds and answers
      what an unbounded one does. */
  lemma {:induction false} EnoughRoom<T>(trace: seq<Timed<T>>, capacity: int)
    requires |KeysSet(trace)| <= capacity
    ensures Run(trace, capacity) == Run(trace, 0)
  {
    if trace != [] {
      var n := |trace| - 1;
      var s, op := Run(trace[..n], capacity), trace[n].op;
      assert trace == trace[..n] + [trace[n]];
      assert KeysSet(trace[..n]) <= KeysSet(trace);
      SubsetSize(KeysSet(trace[..n]), KeysSet(trace));
      EnoughRoom(trace[..n], capacity);
      if op.Set? && Lookup(s, op.key).None? {
        RunWellFormed(trace[..n], capacity);
        OnlySetKeys(trace[..n], capacity);
        KeysCount(s, KeysSet(trace) - {op.key});
        assert op.key in KeysSet(trace);
      }
    }
  }

  lemma {:induction false} SubsetSize(a: set<string>, b: set<string>)
    requires a <= b
    ensures |a| <= |b|
  {
    if a != {} {
      var x :| x in a;
      SubsetSize(a - {x}, b - {x});
    }
  }

  // ---------------------------------------------------------------- sweeps cannot be seen

  function StripSweeps<T>(trace: seq<Timed<T>>): seq<Timed<T>> {
    if trace == [] then []
    else
      var before, last := StripSweeps(trace[..|trace| - 1]), trace[|trace| - 1];
      if last.op.Sweep? then before else before + [last]
  }

  /** The answers of the operations that are not sweeps, in order. */
  function Answers<T>(trace: seq<Timed<T>>, capacity: int): seq<Option<T>> {
    if trace == [] then []
    else
      var n := |trace| - 1;
      var before := Answers(trace[..n], capacity);
      if trace[n].op.Sweep? then before
      else before + [Step(Run(trace[..n], capacity), capacity, trace[n].now, trace[n].op).1]
  }

  lemma {:induction false} StripMap<T>(trace: seq<Timed<T>>)
    ensures MapRun(StripSweeps(trace)) == MapRun(trace)
  {
    if trace != [] {
      var prefix, last := trace[..|trace| - 1], trace[|trace| - 1];
      StripMap(prefix);
      var kept := StripSweeps(prefix);
      assert (kept + [last])[..|kept|] == kept;
    }
  }

  lemma {:induction false} StripMonotone<T>(trace: seq<Timed<T>>)
    requires Monotone(trace)
    ensures Monotone(StripSweeps(trace))
    ensures forall t :: t in StripSweeps(trace) ==> !t.op.Sweep? && t.now <= trace[|trace| - 1].now
  {
    if |trace| > 1 {
      StripMonotone(trace[..|trace| - 1]);
      assert trace[|trace| - 2].now <= trace[|trace| - 1].now;
    }
  }

  /** Sweeps, wherever they run and however stale their clock reading, change no answer of an
      unbounded cache. */
  lemma {:induction false} SweepsInvisible<T>(trace: seq<Timed<T>>)
    requires Monotone(trace)
    ensures Answers(trace, 0) == Answers(StripSweeps(trace), 0)
  {
    if trace != [] {
      var n := |trace| - 1;
      var prefix, last := trace[..n], trace[n];
      SweepsInvisible(prefix);
      if !last.op.Sweep? {
        StripMonotone(trace);
        StripMap(prefix);
        var kept := StripSweeps(prefix);
        var stripped := kept + [last];
        assert stripped[..|kept|] == kept;
        UnboundedIsMap(trace, n);
        UnboundedIsMap(stripped, |kept|);
      }
    }
  }

  // ---------------------------------------------------------------- recency

  /** The index of the last operation that stored `key` or hit it, or -1. */
  function LastTouch<T>(trace: seq<Timed<T>>, capacity: int, key: string): (r: int)
    ensures -1 <= r < |trace|
  {
    if trace == [] then -1
    else if Touches(trace, capacity, |trace| - 1, key) then |trace| - 1
    else LastTouch(trace[..|trace| - 1], capacity, key)
  }

  predicate Touches<T>(trace: seq<Timed<T>>, capacity: int, i: nat, key: string)
    requires i < |trace|
  {
    match trace[i].op
    case Set(k, _, _) => k == key
    case Get(k) => k == key && Answer(trace, capacity, i).Some?
    case _ => false
  }

  ghost predicate ByRecency<T>(s: seq<Entry<T>>, trace: seq<Timed<T>>, capacity: int) {
    forall i, j :: 0 <= i < j < |s| ==>
      LastTouch(trace, capacity, s[i].key) > LastTouch(trace, capacity, s[j].key)
  }

  lemma TailOrdered<T>(s: seq<Entry<T>>, trace: seq<Timed<T>>, capacity: int)
    requires s != [] && ByRecency(s, trace, capacity)
    ensures ByRecency(s[1..], trace, capacity)
    ensures forall e :: e in s[1..] ==> LastTouch(trace, capacity, s[0].key) > LastTouch(trace, capacity, e.key)
  {
    forall e | e in s[1..]
      ensures LastTouch(trace, capacity, s[0].key) > LastTouch(trace, capacity, e.key)
    {
      var i :| 0 <= i < |s[1..]| && s[1..][i] == e;
      assert s[i + 1] == e;
    }
  }

  lemma ConsOrdered<T>(e: Entry<T>, s: seq<Entry<T>>, trace: seq<Timed<T>>, capacity: int)
    requires ByRecency(s, trace, capacity)
    requires forall x :: x in s ==> LastTouch(trace, capacity, e.key) > LastTouch(trace, capacity, x.key)
    ensures ByRecency([e] + s, trace, capacity)
  {
  }

  lemma {:induction false} WithoutOrdered<T>(s: seq<Entry<T>>, key: string, trace: seq<Timed<T>>, capacity: int)
    requires ByRecency(s, trace, capacity)
    ensures ByRecency(Without(s, key), trace, capacity)
  {
    if s != [] {
      TailOrdered(s, trace, capacity);
      WithoutOrdered(s[1..], key, trace, capacity);
      WithoutMembers(s[1..], key);
      ConsOrdered(s[0], Without(s[1..], key), trace, capacity);
    }
  }

  lemma {:induction false} LiveOrdered<T>(s: seq<Entry<T>>, now: int, trace: seq<Timed<T>>, capacity: int)
    requires ByRecency(s, trace, capacity)
    ensures ByRecency(Live(s, now), trace, capacity)
  {
    if s != [] {
      TailOrdered(s, trace, capacity);
      LiveOrdered(s[1..], now, trace, capacity);
      LiveMembers(s[1..], now);
      ConsOrdered(s[0], Live(s[1..], now), trace, capacity);
    }
  }

  /** The entries the next operation leaves untouched. */
  function Untouched<T>(s: seq<Entry<T>>, capacity: int, now: int, op: Op<T>): seq<Entry<T>> {
    var (after, answer) := Step(s, capacity, now, op);
    match op
    case Get(key) => if answer.Some? then Without(s, key) else after
    case Set(_, _, _) => after[1..]
    case _ => after
  }

  lemma UntouchedOrdered<T>(s: seq<Entry<T>>, capacity: int, now: int, op: Op<T>, trace: seq<Timed<T>>)
    requires ByRecency(s, trace, capacity)
    ensures ByRecency(Untouched(s, capacity, now, op), trace, capacity)
  {
    match op
    case Get(key) => WithoutOrdered(s, key, trace, capacity);
    case Set(key, value, ttl) =>
      WithoutOrdered(s, key, trace, capacity);
      var after := Put(s, capacity, Entry(key, value, now + ttl));
      assert after[1..] == if Lookup(s, key).Some? then Without(s, key) else s[..|after| - 1];
    case Delete(key) => WithoutOrdered(s, key, trace, capacity);
    case Clear =>
    case Sweep(clock) => LiveOrdered(s, clock, trace, capacity);
  }

  /** A step touches at most the entry it puts in front. */
  lemma {:induction false} StepTouches<T>(trace: seq<Timed<T>>, capacity: int)
    requires trace != []
    ensures var n := |trace| - 1;
            var rest := Untouched(Run(trace[..n], capacity), capacity, trace[n].now, trace[n].op);
            && (forall e :: e in rest ==> !Touches(trace, capacity, n, e.key))
            && var after := Run(trace, capacity);
               || after == rest
               || (after != [] && after == [after[0]] + rest && Touches(trace, capacity, n, after[0].key))
  {
    var n := |trace| - 1;
    var s, op := Run(trace[..n], capacity), trace[n].op;
    if op.Set? || op.Get? { WithoutMembers(s, op.key); }
    if op.Set? {
      var after := Put(s, capacity, Entry(op.key, op.value, trace[n].now + op.ttl));
      assert after[1..] == if Lookup(s, op.key).Some? then Without(s, op.key) else s[..|after| - 1];
    }
  }

  /** The list is always in strictly descending order of last touch. */
  lemma {:induction false} RecencyOrder<T>(trace: seq<Timed<T>>, capacity: int)
    ensures ByRecency(Run(trace, capacity), trace, capacity)
  {
    if trace != [] {
      var n := |trace| - 1;
      var after := Run(trace, capacity);
      var rest := Untouched(Run(trace[..n], capacity), capacity, trace[n].now, trace[n].op);
      RecencyOrder(trace[..n], capacity);
      UntouchedOrdered(Run(trace[..n], capacity), capacity, trace[n].now, trace[n].op, trace[..n]);
      StepTouches(trace, capacity);
      assert ByRecency(rest, trace, capacity) by {
        forall i, j | 0 <= i < j < |rest|
          ensures LastTouch(trace, capacity, rest[i].key) > LastTouch(trace, capacity, rest[j].key)
        {
          assert rest[i] in rest && rest[j] in rest;
          assert LastTouch(trace[..n], capacity, rest[i].key) > LastTouch(trace[..n], capacity, rest[j].key);
        }
      }
      if after != rest {
        forall x | x in rest ensures LastTouch(trace, capacity, x.key) < n {
          assert !Touches(trace, capacity, n, x.key);
        }
        ConsOrdered(after[0], rest, trace, capacity);
      }
    }
  }

  /** The last entry occurs nowhere else, and every other entry comes before it. */
  lemma LastApart<T>(s: seq<Entry<T>>)
    requires Distinct(s) && s != []
    ensures s[|s| - 1] !in s[..|s| - 1]
    ensures forall x :: x in s && x != s[|s| - 1] ==> x in s[..|s| - 1]
  {
    var kept, victim := s[..|s| - 1], s[|s| - 1];
    forall i | 0 <= i < |kept| ensures kept[i] != victim {
      assert s[i].key != victim.key;
    }
    assert s == kept + [victim];
  }

  lemma LastIsOldest<T>(s: seq<Entry<T>>, trace: seq<Timed<T>>, capacity: int)
    requires ByRecency(s, trace, capacity) && s != []
    ensures forall x :: x in s[..|s| - 1] ==>
              LastTouch(trace, capacity, s[|s| - 1].key) < LastTouch(trace, capacity, x.key)
  {
    forall x | x in s[..|s| - 1]
      ensures LastTouch(trace, capacity, s[|s| - 1].key) < LastTouch(trace, capacity, x.key)
    {
      var i :| 0 <= i < |s| - 1 && s[..|s| - 1][i] == x;
      assert s[i] == x;
    }
  }

  /** Storing a new key in a full cache drops one entry, the one touched longest ago, and no other. */
  lemma {:induction false} EvictsLeastRecent<T>(trace: seq<Timed<T>>, capacity: int, e: Entry<T>)
    requires 0 < capacity == |Run(trace, capacity)|
    requires Lookup(Run(trace, capacity), e.key).None?
    ensures var s := Run(trace, capacity);
            exists victim :: victim in s && victim !in Put(s, capacity, e)
              && (forall x :: x in s && x != victim ==>
                    x in Put(s, capacity, e)
                    && LastTouch(trace, capacity, victim.key) < LastTouch(trace, capacity, x.key))
  {
    var s := Run(trace, capacity);
    RecencyOrder(trace, capacity);
    RunWellFormed(trace, capacity);
    LastApart(s);
    LastIsOldest(s, trace, capacity);
    FullPut(s, capacity, e);
  }

  lemma FullPut<T>(s: seq<Entry<T>>, capacity: int, e: Entry<T>)
    requires 0 < capacity == |s| && Lookup(s, e.key).None?
    ensures Put(s, capacity, e) == [e] + s[..|s| - 1] && e !in s
  {
  }

  // ---------------------------------------------------------------- what other code may assume

  /** To every other component a cache is a lossy map: an operation may drop entries, but the only
      entry it can add or change is the one it sets. */
  lemma StepIsLossOrSet<T>(s: seq<Entry<T>>, capacity: int, now: int, op: Op<T>, key: string)
    requires Distinct(s)
    ensures var after := Lookup(Step(s, capacity, now, op).0, key);
            if op.Set? && op.key == key then after == Some(Entry(key, op.value, now + op.ttl))
            else after == None || after == Lookup(s, key)
  {
    var t := Step(s, capacity, now, op).0;
    if op.Get? || op.Set? || op.Delete? { WithoutMembers(s, op.key); }
    if op.Sweep? { LiveMembers(s, op.clock); }
    if Lookup(t, key).Some? && !(op.Set? && op.key == key) {
      assert Lookup(t, key).value in s;
    }
  }

  /** Exactly which entry an operation loses, whatever the order: an expired one that is looked up or
      swept, a deleted one, all when the cache is cleared, and the last one when a new key is stored in
      a full cache. */
  lemma KeptExactly<T>(s: seq<Entry<T>>, capacity: int, now: int, op: Op<T>, key: string)
    requires Distinct(s) && Lookup(s, key).Some?
    ensures var before, after := Lookup(s, key), Lookup(Step(s, capacity, now, op).0, key);
            match op
            case Get(k) => after == if k == key && now > before.value.expiration then None else before
            case Set(k, value, ttl) =>
              if k == key then after == Some(Entry(key, value, now + ttl))
              else if capacity > 0 && |s| >= capacity && Lookup(s, k).None? && s[|s| - 1].key == key then after == None
              else after == before
            case Delete(k) => after == if k == key then None else before
            case Clear => after == None
            case Sweep(clock) => after == if clock > before.value.expiration then None else before
  {
    var t := Step(s, capacity, now, op).0;
    StepIsLossOrSet(s, capacity, now, op, key);
    var e := Lookup(s, key).value;
    if op.Get? || op.Set? || op.Delete? { WithoutMembers(s, op.key); }
    if op.Sweep? { LiveMembers(s, op.clock); }
    if op.Set? && op.key != key && Lookup(s, op.key).None? && capacity > 0 && |s| >= capacity {
      LastApart(s);
    }
    assert Lookup(t, key).Some? ==> Lookup(t, key).value in t;
  }
}
