/** The queue viewer's view algebra: `internal/queue/sorting.go`, `filters.go`, `pagination.go` and
    the button resolution of `callbacks.go`.

    A queued track is taken as a snapshot: its identity (the pointer the source compares) and the
    fields that sorting and filtering read.  Case folding is a parameter, so every result holds for
    whatever `strings.ToLower` and `strings.EqualFold` compute. */
module QueueView {
  import opened Options
  import Queues = QueueModel

  datatype Track = Track(
    ref: nat, name: string, user: string, platform: string, duration: int, isVideo: bool)

  datatype Folding = Folding(lower: string -> string, equalFold: (string, string) -> bool)

  const PAGE_SIZE := 10

  // ---------------------------------------------------------------- ordering

  /** Go's `<` on strings. */
  predicate LexLess(a: string, b: string) {
    if b == [] then false
    else if a == [] then true
    else if a[0] != b[0] then a[0] < b[0]
    else LexLess(a[1..], b[1..])
  }

  /** A string is less if it ends where the other goes on, or has the smaller character where they
      first differ. */
  lemma {:induction false} FirstDifference(a: string, b: string)
    ensures LexLess(a, b) <==> exists n :: DiffersAt(a, b, n)
  {
    if a != [] && b != [] && a[0] == b[0] {
      FirstDifference(a[1..], b[1..]);
      if LexLess(a, b) {
        var n :| DiffersAt(a[1..], b[1..], n);
        assert a[..n + 1] == [a[0]] + a[1..][..n] && b[..n + 1] == [b[0]] + b[1..][..n];
        assert DiffersAt(a, b, n + 1);
      }
      if n :| DiffersAt(a, b, n) {
        assert n > 0 && a[1..][..n - 1] == a[..n][1..] && b[1..][..n - 1] == b[..n][1..];
        assert DiffersAt(a[1..], b[1..], n - 1);
      }
    } else {
      assert b != [] && (a == [] || a[0] < b[0]) ==> DiffersAt(a, b, 0);
      forall n | DiffersAt(a, b, n) ensures n == 0 {
        if n > 0 { HeadsAgree(a, b, n); }
      }
    }
  }

  lemma HeadsAgree(a: string, b: string, n: int)
    requires 0 < n <= |a| && n <= |b| && a[..n] == b[..n]
    ensures a[0] == b[0]
  {
    assert a[..n][0] == b[..n][0];
  }

  /** The first `n` characters agree, and then `a` is over or has the smaller one. */
  predicate DiffersAt(a: string, b: string, n: int) {
    0 <= n <= |a| && n < |b| && a[..n] == b[..n] && (n < |a| ==> a[n] < b[n])
  }

  lemma {:induction false} LexAsymmetric(a: string, b: string)
    ensures !(LexLess(a, b) && LexLess(b, a))
    ensures a != b ==> LexLess(a, b) || LexLess(b, a)
  {
    if a != [] && b != [] && a[0] == b[0] {
      LexAsymmetric(a[1..], b[1..]);
      assert a == [a[0]] + a[1..] && b == [b[0]] + b[1..];
    }
  }

  lemma {:induction false} LexTransitive(a: string, b: string, c: string)
    requires LexLess(a, b) && LexLess(b, c)
    ensures LexLess(a, c)
  {
    if a != [] && a[0] == b[0] && b[0] == c[0] {
      LexTransitive(a[1..], b[1..], c[1..]);
    }
  }

  predicate IsSortKey(sortBy: string) {
    sortBy == "alpha" || sortBy == "dur" || sortBy == "req" || sortBy == "src"
  }

  /** The text a sort key compares, already folded. */
  function SortText(f: Folding, sortBy: string, t: Track): string {
    if sortBy == "alpha" then f.lower(t.name)
    else if sortBy == "req" then f.lower(t.user)
    else f.lower(t.platform)
  }

  /** The strict order the sort functions compare by. */
  predicate Before(f: Folding, sortBy: string, a: Track, b: Track) {
    if sortBy == "dur" then a.duration < b.duration
    else LexLess(SortText(f, sortBy, a), SortText(f, sortBy, b))
  }

  lemma BeforeIsWeakOrder(f: Folding, sortBy: string, a: Track, b: Track, c: Track)
    ensures !(Before(f, sortBy, a, b) && Before(f, sortBy, b, a))
    ensures !Before(f, sortBy, b, a) && !Before(f, sortBy, c, b) ==> !Before(f, sortBy, c, a)
  {
    if sortBy != "dur" {
      var x, y, z := SortText(f, sortBy, a), SortText(f, sortBy, b), SortText(f, sortBy, c);
      LexAsymmetric(x, y);
      if LexLess(z, x) && LexLess(x, y) {
        LexTransitive(z, x, y);
      }
    }
  }

  // ---------------------------------------------------------------- stable sorting

  /** Puts `x` in front of the first track that must not precede it. */
  function InsertSorted(f: Folding, sortBy: string, x: Track, s: seq<Track>): seq<Track> {
    if s == [] || !Before(f, sortBy, s[0], x) then [x] + s
    else [s[0]] + InsertSorted(f, sortBy, x, s[1..])
  }

  /** What sort.SliceStable leaves; `StableSortUnique` shows that its contract allows nothing else. */
  function StableSort(f: Folding, sortBy: string, s: seq<Track>): seq<Track> {
    if s == [] then [] else InsertSorted(f, sortBy, s[0], StableSort(f, sortBy, s[1..]))
  }

  /** No track comes after one it should precede. */
  ghost predicate Ordered(f: Folding, sortBy: string, s: seq<Track>) {
    s == [] || ((forall t :: t in s[1..] ==> !Before(f, sortBy, t, s[0])) && Ordered(f, sortBy, s[1..]))
  }

  predicate Ties(f: Folding, sortBy: string, a: Track, b: Track) {
    !Before(f, sortBy, a, b) && !Before(f, sortBy, b, a)
  }

  /** The tracks of `s` that tie with `x`, in order. */
  function Class(f: Folding, sortBy: string, s: seq<Track>, x: Track): seq<Track> {
    if s == [] then []
    else if Ties(f, sortBy, s[0], x) then [s[0]] + Class(f, sortBy, s[1..], x)
    else Class(f, sortBy, s[1..], x)
  }

  lemma {:induction false} InsertMembers(f: Folding, sortBy: string, x: Track, s: seq<Track>)
    ensures multiset(InsertSorted(f, sortBy, x, s)) == multiset(s) + multiset{x}
    ensures forall t :: t in InsertSorted(f, sortBy, x, s) <==> t == x || t in s
  {
    if s != [] && Before(f, sortBy, s[0], x) {
      InsertMembers(f, sortBy, x, s[1..]);
      assert s == [s[0]] + s[1..];
    }
  }

  lemma {:induction false} InsertOrdered(f: Folding, sortBy: string, x: Track, s: seq<Track>)
    requires Ordered(f, sortBy, s)
    ensures Ordered(f, sortBy, InsertSorted(f, sortBy, x, s))
  {
    if s == [] {
    } else if !Before(f, sortBy, s[0], x) {
      forall t | t in s[1..] ensures !Before(f, sortBy, t, x) {
        BeforeIsWeakOrder(f, sortBy, x, s[0], t);
      }
    } else {
      InsertOrdered(f, sortBy, x, s[1..]);
      InsertMembers(f, sortBy, x, s[1..]);
      BeforeIsWeakOrder(f, sortBy, s[0], x, x);
    }
  }

  lemma {:induction false} InsertClass(f: Folding, sortBy: string, x: Track, s: seq<Track>, y: Track)
    requires Ordered(f, sortBy, s)
    ensures Class(f, sortBy, InsertSorted(f, sortBy, x, s), y) == Class(f, sortBy, [x] + s, y)
  {
    assert ([x] + s)[1..] == s;
    if s != [] && Before(f, sortBy, s[0], x) {
      InsertClass(f, sortBy, x, s[1..], y);
      assert ([x] + s[1..])[1..] == s[1..];
      // s[0] and x do not tie with the same track
      BeforeIsWeakOrder(f, sortBy, x, y, s[0]);
    }
  }

  /** Sorting orders the tracks, keeps every one, and keeps ties in their original order. */
  lemma {:induction false} StableSortCorrect(f: Folding, sortBy: string, s: seq<Track>, y: Track)
    ensures Ordered(f, sortBy, StableSort(f, sortBy, s))
    ensures multiset(StableSort(f, sortBy, s)) == multiset(s)
    ensures Class(f, sortBy, StableSort(f, sortBy, s), y) == Class(f, sortBy, s, y)
  {
    if s != [] {
      var rest := StableSort(f, sortBy, s[1..]);
      StableSortCorrect(f, sortBy, s[1..], y);
      InsertOrdered(f, sortBy, s[0], rest);
      InsertMembers(f, sortBy, s[0], rest);
      InsertClass(f, sortBy, s[0], rest, y);
      ClassCons(f, sortBy, s[0], rest, s[1..], y);
      assert s == [s[0]] + s[1..];
    }
  }

  lemma ClassCons(f: Folding, sortBy: string, x: Track, a: seq<Track>, b: seq<Track>, y: Track)
    requires Class(f, sortBy, a, y) == Class(f, sortBy, b, y)
    ensures Class(f, sortBy, [x] + a, y) == Class(f, sortBy, [x] + b, y)
  {
    assert ([x] + a)[1..] == a && ([x] + b)[1..] == b;
  }

  lemma {:induction false} ClassMembers(f: Folding, sortBy: string, s: seq<Track>, x: Track)
    ensures forall t :: t in Class(f, sortBy, s, x) ==> t in s
    ensures x in s ==> x in Class(f, sortBy, s, x)
    ensures forall t :: t in Class(f, sortBy, s, x) ==> Ties(f, sortBy, t, x)
  {
    if s != [] {
      ClassMembers(f, sortBy, s[1..], x);
      BeforeIsWeakOrder(f, sortBy, x, x, x);
    }
  }

  /** Two ordered lists whose ties agree class by class are the same list: the contract of a stable
      sort has exactly one answer. */
  lemma {:induction false} StableSortUnique(f: Folding, sortBy: string, r: seq<Track>, s: seq<Track>)
    requires Ordered(f, sortBy, r) && Ordered(f, sortBy, s)
    requires forall x :: Class(f, sortBy, r, x) == Class(f, sortBy, s, x)
    ensures r == s
  {
    if r == [] || s == [] {
      if r != [] { ClassMembers(f, sortBy, r, r[0]); }
      if s != [] { ClassMembers(f, sortBy, s, s[0]); }
    } else {
      FirstsAgree(f, sortBy, r, s);
      forall x ensures Class(f, sortBy, r[1..], x) == Class(f, sortBy, s[1..], x) {
        var head := if Ties(f, sortBy, r[0], x) then [r[0]] else [];
        assert Class(f, sortBy, r, x) == head + Class(f, sortBy, r[1..], x);
        assert Class(f, sortBy, s, x) == head + Class(f, sortBy, s[1..], x);
        assert Class(f, sortBy, r, x)[|head|..] == Class(f, sortBy, r[1..], x);
        assert Class(f, sortBy, s, x)[|head|..] == Class(f, sortBy, s[1..], x);
      }
      StableSortUnique(f, sortBy, r[1..], s[1..]);
      assert r == [r[0]] + r[1..] && s == [s[0]] + s[1..];
    }
  }

  lemma FirstsAgree(f: Folding, sortBy: string, r: seq<Track>, s: seq<Track>)
    requires r != [] && s != [] && Ordered(f, sortBy, r) && Ordered(f, sortBy, s)
    requires forall x :: Class(f, sortBy, r, x) == Class(f, sortBy, s, x)
    ensures r[0] == s[0]
  {
    ClassMembers(f, sortBy, r, r[0]);
    ClassMembers(f, sortBy, s, r[0]);
    ClassMembers(f, sortBy, s, s[0]);
    ClassMembers(f, sortBy, r, s[0]);
    assert r[0] in s && s[0] in r;
    BeforeIsWeakOrder(f, sortBy, r[0], s[0], s[0]);
    BeforeIsWeakOrder(f, sortBy, s[0], r[0], r[0]);
    assert Ties(f, sortBy, r[0], s[0]);
    assert Class(f, sortBy, r, r[0])[0] == r[0];
    assert Class(f, sortBy, s, r[0])[0] == s[0];
  }

  // ---------------------------------------------------------------- ApplySort

  /** The sorted view: "up next" sorted or reversed behind the playing track; an unknown key keeps
      the order, like the oldest-first key. */
  function SortedView(f: Folding, tracks: seq<Track>, sortBy: string): seq<Track> {
    if |tracks| <= 1 then tracks
    else if IsSortKey(sortBy) then [tracks[0]] + StableSort(f, sortBy, tracks[1..])
    else if sortBy == "new" then [tracks[0]] + Queues.Rev(tracks[1..])
    else tracks
  }

  /** Works on a copy of "up next"; the queue itself is a value and stays as it is. */
  method ApplySort(f: Folding, tracks: seq<Track>, sortBy: string) returns (result: seq<Track>)
    ensures result == SortedView(f, tracks, sortBy)
  {
    if |tracks| <= 1 || sortBy == "" {
      return tracks;
    }
    var tail := new Track[|tracks| - 1](i requires 0 <= i < |tracks| - 1 => tracks[i + 1]);
    assert tail[..] == tracks[1..];
    if IsSortKey(sortBy) {
      SliceStable(f, sortBy, tail);
    } else if sortBy == "new" {
      ReverseTail(tail);
    }
    result := [tracks[0]] + tail[..];
  }

  /** Go's sort.SliceStable, by its contract. */
  method SliceStable(f: Folding, sortBy: string, tail: array<Track>)
    modifies tail
    ensures tail[..] == StableSort(f, sortBy, old(tail[..]))
  {
    var sorted := StableSort(f, sortBy, tail[..]);
    StableSortLength(f, sortBy, tail[..]);
    forall i | 0 <= i < tail.Length {
      tail[i] := sorted[i];
    }
  }

  lemma StableSortLength(f: Folding, sortBy: string, s: seq<Track>)
    ensures |StableSort(f, sortBy, s)| == |s|
  {
    if s != [] {
      StableSortCorrect(f, sortBy, s, s[0]);
      assert |StableSort(f, sortBy, s)| == |multiset(s)|;
    }
  }

  /** Swaps the outermost pair, then the next one inwards. */
  method ReverseTail(tail: array<Track>)
    modifies tail
    ensures tail[..] == Queues.Rev(old(tail[..]))
  {
    ghost var copied := tail[..];
    var n := tail.Length;
    var i, j := 0, n - 1;
    while i < j
      invariant 0 <= i <= j + 1 && j == n - 1 - i
      invariant forall k {:trigger tail[k]} :: 0 <= k < i || j < k < n ==> tail[k] == copied[n - 1 - k]
      invariant forall k {:trigger tail[k]} :: i <= k <= j ==> tail[k] == copied[k]
    {
      tail[i], tail[j] := tail[j], tail[i];
      i, j := i + 1, j - 1;
    }
    forall k | 0 <= k < n ensures tail[k] == Queues.Rev(copied)[k] {
      Queues.RevAt(copied, k);
    }
  }

  /** A sorted view is a rearrangement of "up next" behind the same playing track. */
  lemma SortRearranges(f: Folding, tracks: seq<Track>, sortBy: string)
    requires tracks != []
    ensures SortedView(f, tracks, sortBy) != [] && SortedView(f, tracks, sortBy)[0] == tracks[0]
    ensures multiset(SortedView(f, tracks, sortBy)[1..]) == multiset(tracks[1..])
    ensures |SortedView(f, tracks, sortBy)| == |tracks|
  {
    var head, tail := tracks[0], tracks[1..];
    var sorted :=
      if IsSortKey(sortBy) then StableSort(f, sortBy, tail)
      else if sortBy == "new" then Queues.Rev(tail)
      else tail;
    StableSortCorrect(f, sortBy, tail, head);
    Queues.RevMultiset(tail);
    assert SortedView(f, tracks, sortBy) == [head] + sorted;
    assert ([head] + sorted)[1..] == sorted;
    assert |sorted| == |multiset(tail)|;
  }

  lemma {:induction false} OrderedPair(f: Folding, sortBy: string, s: seq<Track>, i: nat, j: nat)
    requires Ordered(f, sortBy, s) && i < j < |s|
    ensures !Before(f, sortBy, s[j], s[i])
  {
    if i == 0 {
      assert s[j] == s[1..][j - 1];
    } else {
      OrderedPair(f, sortBy, s[1..], i - 1, j - 1);
    }
  }

  /** What each sort key does to "up next": entries `i` and `j` of the view are in ascending order of
      duration, or of the folded name, requester or platform; the newest come first; any other key
      leaves the queue as it is. */
  lemma SortOrders(f: Folding, tracks: seq<Track>, sortBy: string, i: nat, j: nat)
    requires 1 <= i < j < |tracks|
    ensures var view := SortedView(f, tracks, sortBy);
            && |view| == |tracks|
            && (sortBy == "dur" ==> view[i].duration <= view[j].duration)
            && (sortBy == "alpha" ==> !LexLess(f.lower(view[j].name), f.lower(view[i].name)))
            && (sortBy == "req" ==> !LexLess(f.lower(view[j].user), f.lower(view[i].user)))
            && (sortBy == "src" ==> !LexLess(f.lower(view[j].platform), f.lower(view[i].platform)))
            && (sortBy == "new" ==> view[i] == tracks[|tracks| - i])
            && (sortBy !in {"dur", "alpha", "req", "src", "new"} ==> view == tracks)
  {
    SortRearranges(f, tracks, sortBy);
    if IsSortKey(sortBy) {
      SortedPair(f, tracks, sortBy, i, j);
    } else if sortBy == "new" {
      Queues.RevAt(tracks[1..], i - 1);
    }
  }

  lemma SortedPair(f: Folding, tracks: seq<Track>, sortBy: string, i: nat, j: nat)
    requires 1 <= i < j < |tracks| && IsSortKey(sortBy)
    ensures |SortedView(f, tracks, sortBy)| == |tracks|
    ensures !Before(f, sortBy, SortedView(f, tracks, sortBy)[j], SortedView(f, tracks, sortBy)[i])
  {
    var tail := tracks[1..];
    StableSortCorrect(f, sortBy, tail, tail[0]);
    StableSortLength(f, sortBy, tail);
    OrderedBehind(f, sortBy, tracks[0], StableSort(f, sortBy, tail), i, j);
  }

  lemma OrderedBehind(f: Folding, sortBy: string, head: Track, s: seq<Track>, i: nat, j: nat)
    requires Ordered(f, sortBy, s) && 1 <= i < j <= |s|
    ensures !Before(f, sortBy, ([head] + s)[j], ([head] + s)[i])
  {
    OrderedPair(f, sortBy, s, i - 1, j - 1);
    assert ([head] + s)[i] == s[i - 1] && ([head] + s)[j] == s[j - 1];
  }

  /** The elements with property `p`, in order. */
  function Where(s: seq<Track>, p: Track -> bool): seq<Track> {
    if s == [] then [] else if p(s[0]) then [s[0]] + Where(s[1..], p) else Where(s[1..], p)
  }

  lemma {:induction false} WhereConcat(a: seq<Track>, b: seq<Track>, p: Track -> bool)
    ensures Where(a + b, p) == Where(a, p) + Where(b, p)
  {
    if a == [] {
      assert a + b == b;
    } else {
      WhereConcat(a[1..], b, p);
      assert (a + b)[1..] == a[1..] + b;
    }
  }

  /** What `Where` takes: a single element exactly if `p` holds of it, and of two parts what it takes of
      each, in order.  No other function does that. */
  lemma WhereTakes(a: seq<Track>, b: seq<Track>, t: Track, p: Track -> bool)
    ensures Where([], p) == []
    ensures Where([t], p) == if p(t) then [t] else []
    ensures Where(a + b, p) == Where(a, p) + Where(b, p)
  {
    WhereConcat(a, b, p);
  }

  lemma {:induction false} ClassIsWhere(f: Folding, sortBy: string, s: seq<Track>, x: Track, p: Track -> bool)
    requires forall t :: p(t) <==> Ties(f, sortBy, t, x)
    ensures Class(f, sortBy, s, x) == Where(s, p)
  {
    if s != [] {
      ClassIsWhere(f, sortBy, s[1..], x, p);
    }
  }

  /** The tracks `p` holds of are those with the same sort key as `x`. */
  ghost predicate SameKey(f: Folding, sortBy: string, x: Track, p: Track -> bool) {
    || (sortBy == "dur" && forall t :: p(t) <==> t.duration == x.duration)
    || (sortBy == "alpha" && forall t :: p(t) <==> f.lower(t.name) == f.lower(x.name))
    || (sortBy == "req" && forall t :: p(t) <==> f.lower(t.user) == f.lower(x.user))
    || (sortBy == "src" && forall t :: p(t) <==> f.lower(t.platform) == f.lower(x.platform))
  }

  /** Tracks with the same sort key stay in the order of the queue. */
  lemma SortKeepsTies(f: Folding, tracks: seq<Track>, sortBy: string, x: Track, p: Track -> bool)
    requires tracks != [] && SameKey(f, sortBy, x, p)
    ensures SortedView(f, tracks, sortBy) != []
    ensures Where(SortedView(f, tracks, sortBy)[1..], p) == Where(tracks[1..], p)
  {
    forall t ensures p(t) <==> Ties(f, sortBy, t, x) {
      LexAsymmetric(SortText(f, sortBy, t), SortText(f, sortBy, x));
    }
    var tail := tracks[1..];
    var sorted := StableSort(f, sortBy, tail);
    StableSortCorrect(f, sortBy, tail, x);
    ClassIsWhere(f, sortBy, tail, x, p);
    ClassIsWhere(f, sortBy, sorted, x, p);
    assert ([tracks[0]] + sorted)[1..] == sorted;
  }

  // ---------------------------------------------------------------- ApplyFilter

  predicate MatchFilter(f: Folding, t: Track, filter: string) {
    if filter == "yt" then f.equalFold(t.platform, "youtube")
    else if filter == "sp" then f.equalFold(t.platform, "spotify")
    else if filter == "tg" then f.equalFold(t.platform, "telegram")
    else if filter == "vid" then t.isVideo
    else if filter == "aud" then !t.isVideo
    else true
  }

  /** The matching tracks, in order. */
  function Keep(f: Folding, s: seq<Track>, filter: string): seq<Track> {
    if s == [] then []
    else if MatchFilter(f, s[0], filter) then [s[0]] + Keep(f, s[1..], filter)
    else Keep(f, s[1..], filter)
  }

  /** The filtered view: the playing track is kept whether or not it matches. */
  function FilteredView(f: Folding, tracks: seq<Track>, filter: string): seq<Track> {
    if tracks == [] then [] else [tracks[0]] + Keep(f, tracks[1..], filter)
  }

  method ApplyFilter(f: Folding, tracks: seq<Track>, filter: string) returns (out: seq<Track>)
    ensures out == FilteredView(f, tracks, filter)
  {
    if |tracks| == 0 || filter == "" {
      KeepAll(f, if tracks == [] then [] else tracks[1..]);
      return tracks;
    }
    out := [tracks[0]];
    for i := 1 to |tracks|
      invariant out + Keep(f, tracks[i..], filter) == FilteredView(f, tracks, filter)
    {
      if MatchFilter(f, tracks[i], filter) {
        out := out + [tracks[i]];
      }
      assert tracks[i..][1..] == tracks[i + 1..];
    }
  }

  lemma {:induction false} KeepAll(f: Folding, s: seq<Track>)
    ensures Keep(f, s, "") == s
  {
    if s != [] {
      KeepAll(f, s[1..]);
    }
  }

  /** What the filter keys mean. */
  ghost predicate Selects(f: Folding, filter: string, p: Track -> bool) {
    && (filter == "yt" ==> forall t :: p(t) <==> f.equalFold(t.platform, "youtube"))
    && (filter == "sp" ==> forall t :: p(t) <==> f.equalFold(t.platform, "spotify"))
    && (filter == "tg" ==> forall t :: p(t) <==> f.equalFold(t.platform, "telegram"))
    && (filter == "vid" ==> forall t :: p(t) <==> t.isVideo)
    && (filter == "aud" ==> forall t :: p(t) <==> !t.isVideo)
    && (filter !in {"yt", "sp", "tg", "vid", "aud"} ==> forall t :: p(t))
  }

  /** What each filter key keeps of "up next": by platform, by kind, or for any other key everything. */
  lemma FilterKeeps(f: Folding, tracks: seq<Track>, filter: string, p: Track -> bool)
    requires tracks != [] && Selects(f, filter, p)
    ensures FilteredView(f, tracks, filter) == [tracks[0]] + Where(tracks[1..], p)
  {
    KeepIsWhere(f, tracks[1..], filter, p);
  }

  lemma {:induction false} KeepIsWhere(f: Folding, s: seq<Track>, filter: string, p: Track -> bool)
    requires forall t :: p(t) <==> MatchFilter(f, t, filter)
    ensures Keep(f, s, filter) == Where(s, p)
  {
    if s != [] {
      KeepIsWhere(f, s[1..], filter, p);
    }
  }

  // ---------------------------------------------------------------- sorting and filtering commute

  lemma {:induction false} KeepConcat(f: Folding, a: seq<Track>, b: seq<Track>, filter: string)
    ensures Keep(f, a + b, filter) == Keep(f, a, filter) + Keep(f, b, filter)
  {
    if a == [] {
      assert a + b == b;
    } else {
      KeepConcat(f, a[1..], b, filter);
      assert (a + b)[1..] == a[1..] + b;
    }
  }

  lemma {:induction false} KeepRev(f: Folding, s: seq<Track>, filter: string)
    ensures Keep(f, Queues.Rev(s), filter) == Queues.Rev(Keep(f, s, filter))
  {
    if s != [] {
      KeepRev(f, s[1..], filter);
      KeepConcat(f, Queues.Rev(s[1..]), [s[0]], filter);
      assert ([s[0]] + Keep(f, s[1..], filter))[1..] == Keep(f, s[1..], filter);
    }
  }

  lemma {:induction false} KeepMembers(f: Folding, s: seq<Track>, filter: string)
    ensures forall t :: t in Keep(f, s, filter) <==> t in s && MatchFilter(f, t, filter)
  {
    if s != [] {
      KeepMembers(f, s[1..], filter);
    }
  }

  lemma {:induction false} KeepInsert(f: Folding, sortBy: string, x: Track, s: seq<Track>, filter: string)
    requires Ordered(f, sortBy, s)
    ensures Keep(f, InsertSorted(f, sortBy, x, s), filter) ==
            if MatchFilter(f, x, filter) then InsertSorted(f, sortBy, x, Keep(f, s, filter)) else Keep(f, s, filter)
  {
    if s == [] || !Before(f, sortBy, s[0], x) {
      assert ([x] + s)[1..] == s;
      KeepMembers(f, s, filter);
      var kept := Keep(f, s, filter);
      if kept != [] {
        BeforeIsWeakOrder(f, sortBy, x, s[0], kept[0]);
        assert kept[0] in s;
        BeforeIsWeakOrder(f, sortBy, s[0], s[0], s[0]);
      }
    } else {
      KeepInsert(f, sortBy, x, s[1..], filter);
      assert ([s[0]] + Keep(f, s[1..], filter))[1..] == Keep(f, s[1..], filter);
    }
  }

  lemma {:induction false} KeepSort(f: Folding, sortBy: string, s: seq<Track>, filter: string)
    ensures Keep(f, StableSort(f, sortBy, s), filter) == StableSort(f, sortBy, Keep(f, s, filter))
  {
    if s != [] {
      KeepSort(f, sortBy, s[1..], filter);
      StableSortCorrect(f, sortBy, s[1..], s[0]);
      KeepInsert(f, sortBy, s[0], StableSort(f, sortBy, s[1..]), filter);
      assert ([s[0]] + Keep(f, s[1..], filter))[1..] == Keep(f, s[1..], filter);
    }
  }

  /** Filtering a sorted queue is sorting a filtered one, for every queue, sort key and filter key. */
  lemma SortFilterCommute(f: Folding, tracks: seq<Track>, sortBy: string, filter: string)
    ensures FilteredView(f, SortedView(f, tracks, sortBy), filter) ==
            SortedView(f, FilteredView(f, tracks, filter), sortBy)
  {
    if |tracks| > 1 {
      var head, tail := tracks[0], tracks[1..];
      var kept := Keep(f, tail, filter);
      assert ([head] + kept)[1..] == kept;
      if IsSortKey(sortBy) {
        KeepSort(f, sortBy, tail, filter);
        assert ([head] + StableSort(f, sortBy, tail))[1..] == StableSort(f, sortBy, tail);
      } else if sortBy == "new" {
        KeepRev(f, tail, filter);
        assert ([head] + Queues.Rev(tail))[1..] == Queues.Rev(tail);
      }
    }
  }

  // ---------------------------------------------------------------- pages

  function PageCount(queueLen: int): int {
    if queueLen <= 0 then 0
    else if queueLen == 1 then 1
    else (queueLen - 1 + PAGE_SIZE - 1) / PAGE_SIZE
  }

  function ClampPage(page: int, queueLen: int): int {
    var total := PageCount(queueLen);
    if total <= 0 || page < 1 then 1
    else if page > total then total
    else page
  }

  /** The window of "up next" on a page.  The source slices at `(page - 1) * PAGE_SIZE`, so pages
      start at 1. */
  function PageSlice(tracks: seq<Track>, page: int): seq<Track>
    requires page >= 1
  {
    var start := (page - 1) * PAGE_SIZE;
    if |tracks| <= 1 || start >= |tracks| - 1 then []
    else if start + PAGE_SIZE > |tracks| - 1 then tracks[1 + start..]
    else tracks[1 + start..1 + start + PAGE_SIZE]
  }

  function QueueOffset(page: int): int {
    (page - 1) * PAGE_SIZE + 1
  }

  /** An empty queue has no pages, and page 1 is shown. */
  lemma {:induction false} ClampInRange(page: int, queueLen: int)
    ensures queueLen <= 0 ==> PageCount(queueLen) == 0 && ClampPage(page, queueLen) == 1
    ensures queueLen == 1 ==> PageCount(queueLen) == 1
    ensures queueLen > 0 ==> 1 <= ClampPage(page, queueLen) <= PageCount(queueLen)
    ensures queueLen > 0 ==> (ClampPage(page, queueLen) == page <==> 1 <= page <= PageCount(queueLen))
    ensures queueLen > 0 && page < 1 ==> ClampPage(page, queueLen) == 1
    ensures queueLen > 0 && page > PageCount(queueLen) ==> ClampPage(page, queueLen) == PageCount(queueLen)
    ensures ClampPage(ClampPage(page, queueLen), queueLen) == ClampPage(page, queueLen)
  {
  }

  /** The number printed beside the `i`-th entry of a page is its index in the view. */
  lemma {:induction false} PageEntry(view: seq<Track>, page: int, i: nat)
    requires page >= 1 && i < |PageSlice(view, page)|
    ensures 1 <= QueueOffset(page) + i < |view| && view[QueueOffset(page) + i] == PageSlice(view, page)[i]
    ensures page <= PageCount(|view|)
  {
  }

  /** Every "up next" entry is on a page. */
  lemma {:induction false} OnPage(view: seq<Track>, i: nat)
    requires 1 <= i < |view|
    ensures var page, n := (i - 1) / PAGE_SIZE + 1, (i - 1) % PAGE_SIZE + 1;
            1 <= page <= PageCount(|view|) && n <= |PageSlice(view, page)| && PageSlice(view, page)[n - 1] == view[i]
  {
  }

  /** Pages 1 to `n`, end to end. */
  function Pages(view: seq<Track>, n: nat): seq<Track> {
    if n == 0 then [] else Pages(view, n - 1) + PageSlice(view, n)
  }

  /** Where page `n` ends in the view. */
  function PageEnd(view: seq<Track>, n: nat): (end: nat)
    requires view != []
    ensures 1 <= end <= |view|
  {
    if n * PAGE_SIZE < |view| then n * PAGE_SIZE + 1 else |view|
  }

  lemma PageIsWindow(view: seq<Track>, n: nat)
    requires view != [] && n >= 1
    ensures PageEnd(view, n - 1) <= PageEnd(view, n)
    ensures PageSlice(view, n) == view[PageEnd(view, n - 1)..PageEnd(view, n)]
  {
  }

  lemma {:induction false} PagesPrefix(view: seq<Track>, n: nat)
    requires view != []
    ensures Pages(view, n) == view[1..PageEnd(view, n)]
  {
    if n > 0 {
      PagesPrefix(view, n - 1);
      PageIsWindow(view, n);
      JoinWindows(view, 1, PageEnd(view, n - 1), PageEnd(view, n));
    }
  }

  lemma JoinWindows(s: seq<Track>, i: nat, j: nat, k: nat)
    requires i <= j <= k <= |s|
    ensures s[i..j] + s[j..k] == s[i..k]
  {
  }

  /** Ten tracks on every page but the last, and at least one there. */
  lemma {:induction false} PagesAreFull(view: seq<Track>, page: int)
    requires |view| > 1 && 1 <= page <= PageCount(|view|)
    ensures if page < PageCount(|view|) then |PageSlice(view, page)| == 10
            else 1 <= |PageSlice(view, page)| == |view| - 1 - 10 * (page - 1) <= 10
  {
  }

  /** All pages, end to end, are exactly "up next". */
  lemma {:induction false} PagesCover(view: seq<Track>)
    requires view != []
    ensures Pages(view, PageCount(|view|)) == view[1..]
  {
    PagesPrefix(view, PageCount(|view|));
  }

  // ---------------------------------------------------------------- detail buttons

  function View(f: Folding, raw: seq<Track>, sortBy: string, filter: string): seq<Track> {
    FilteredView(f, SortedView(f, raw, sortBy), filter)
  }

  /** The first raw index holding the same track object, or -1. */
  method FindRaw(raw: seq<Track>, selected: Track) returns (rawIdx: int)
    ensures -1 <= rawIdx < |raw|
    ensures rawIdx >= 0 ==> raw[rawIdx].ref == selected.ref
    ensures forall i :: 0 <= i < (if rawIdx < 0 then |raw| else rawIdx) ==> raw[i].ref != selected.ref
    ensures rawIdx == RawIndex(raw, selected)
  {
    rawIdx := -1;
    for i := 0 to |raw|
      invariant forall k :: 0 <= k < i ==> raw[k].ref != selected.ref
      invariant RawIndex(raw, selected) ==
                if RawIndex(raw[i..], selected) < 0 then -1 else i + RawIndex(raw[i..], selected)
    {
      assert raw[i..][1..] == raw[i + 1..];
      if raw[i].ref == selected.ref {
        return i;
      }
    }
  }

  function RawIndex(raw: seq<Track>, selected: Track): (r: int)
    ensures -1 <= r < |raw|
  {
    if raw == [] then -1
    else if raw[0].ref == selected.ref then 0
    else
      var r := RawIndex(raw[1..], selected);
      if r < 0 then -1 else 1 + r
  }

  /** What pressing detail button `n` answers: the raw index it targets, or nothing. */
  function Resolve(f: Folding, raw: seq<Track>, storedPage: int, sortBy: string, filter: string, n: int): Option<nat>
    requires storedPage >= 1
  {
    var upNext := PageSlice(View(f, raw, sortBy, filter), storedPage);
    if n < 1 || n > |upNext| then None
    else
      var rawIdx := RawIndex(raw, upNext[n - 1]);
      if rawIdx < 1 then None else Some(rawIdx)
  }

  /** Queued tracks are distinct objects. */
  ghost predicate DistinctRefs(raw: seq<Track>) {
    forall i, j :: 0 <= i < j < |raw| ==> raw[i].ref != raw[j].ref
  }

  lemma DistinctCount(s: seq<Track>, t: Track)
    requires DistinctRefs(s)
    ensures multiset(s)[t] <= 1
  {
    if t in s {
      var i :| 0 <= i < |s| && s[i] == t;
      assert s == s[..i] + [t] + s[i + 1..];
      assert t !in s[..i] && t !in s[i + 1..];
    }
  }

  lemma TwiceCounted(s: seq<Track>, a: nat, b: nat)
    requires a < b < |s| && s[a] == s[b]
    ensures multiset(s)[s[a]] >= 2
  {
    assert s == s[..a + 1] + s[a + 1..];
    assert s[..a + 1][a] == s[a] && s[a + 1..][b - a - 1] == s[b];
  }

  lemma {:induction false} KeepCount(f: Folding, s: seq<Track>, filter: string, t: Track)
    ensures multiset(Keep(f, s, filter))[t] <= multiset(s)[t]
  {
    if s != [] {
      KeepCount(f, s[1..], filter, t);
      assert s == [s[0]] + s[1..];
    }
  }

  /** The view shows the playing track first, then exactly the matching tracks. */
  lemma ViewContents(f: Folding, raw: seq<Track>, sortBy: string, filter: string)
    requires raw != []
    ensures View(f, raw, sortBy, filter) != [] && View(f, raw, sortBy, filter)[0] == raw[0]
    ensures multiset(View(f, raw, sortBy, filter)[1..]) == multiset(Keep(f, raw[1..], filter))
  {
    var filtered := FilteredView(f, raw, filter);
    SortFilterCommute(f, raw, sortBy, filter);
    SortRearranges(f, filtered, sortBy);
    assert filtered[1..] == Keep(f, raw[1..], filter);
  }

  lemma UpNextMember(view: seq<Track>, kept: seq<Track>, t: Track)
    requires view != [] && multiset(view[1..]) == multiset(kept)
    ensures t in kept <==> exists i :: 1 <= i < |view| && view[i] == t
  {
    assert t in kept <==> t in multiset(view[1..]);
    if t in view[1..] {
      var i :| 0 <= i < |view[1..]| && view[1..][i] == t;
      assert view[i + 1] == t;
    }
    if i :| 1 <= i < |view| && view[i] == t {
      assert view[1..][i - 1] == t;
    }
  }

  /** Where a matching queued track appears in the view. */
  lemma RawInView(f: Folding, raw: seq<Track>, sortBy: string, filter: string, j: nat) returns (i: nat)
    requires 1 <= j < |raw| && MatchFilter(f, raw[j], filter)
    ensures 1 <= i < |View(f, raw, sortBy, filter)| && View(f, raw, sortBy, filter)[i] == raw[j]
  {
    ViewContents(f, raw, sortBy, filter);
    KeepMembers(f, raw[1..], filter);
    assert raw[1..][j - 1] == raw[j];
    UpNextMember(View(f, raw, sortBy, filter), Keep(f, raw[1..], filter), raw[j]);
    i :| 1 <= i < |View(f, raw, sortBy, filter)| && View(f, raw, sortBy, filter)[i] == raw[j];
  }

  /** Which queued track an "up next" entry of the view is. */
  lemma ViewInRaw(f: Folding, raw: seq<Track>, sortBy: string, filter: string, i: nat) returns (j: nat)
    requires raw != [] && 1 <= i < |View(f, raw, sortBy, filter)|
    ensures 1 <= j < |raw| && raw[j] == View(f, raw, sortBy, filter)[i]
    ensures MatchFilter(f, raw[j], filter)
  {
    var t := View(f, raw, sortBy, filter)[i];
    ViewContents(f, raw, sortBy, filter);
    UpNextMember(View(f, raw, sortBy, filter), Keep(f, raw[1..], filter), t);
    KeepMembers(f, raw[1..], filter);
    var k :| 0 <= k < |raw[1..]| && raw[1..][k] == t;
    j := k + 1;
  }

  lemma TwiceUpNext(view: seq<Track>, a: nat, b: nat)
    requires 1 <= a < b < |view| && view[a] == view[b]
    ensures multiset(view[1..])[view[a]] >= 2
  {
    var upNext := view[1..];
    assert upNext[a - 1] == view[a] && upNext[b - 1] == view[b];
    TwiceCounted(upNext, a - 1, b - 1);
  }

  lemma ViewDistinct(f: Folding, raw: seq<Track>, sortBy: string, filter: string, a: nat, b: nat)
    requires raw != [] && DistinctRefs(raw)
    requires 1 <= a < b < |View(f, raw, sortBy, filter)|
    ensures View(f, raw, sortBy, filter)[a] != View(f, raw, sortBy, filter)[b]
  {
    var view := View(f, raw, sortBy, filter);
    ViewContents(f, raw, sortBy, filter);
    if view[a] == view[b] {
      TwiceUpNext(view, a, b);
      KeepCount(f, raw[1..], filter, view[a]);
      DistinctCount(raw[1..], view[a]);
    }
  }

  lemma {:induction false} RawIndexIs(raw: seq<Track>, j: nat)
    requires DistinctRefs(raw) && j < |raw|
    ensures RawIndex(raw, raw[j]) == j
  {
    if j > 0 {
      RawIndexIs(raw[1..], j - 1);
    }
  }

  /** The index in the view of entry `n` of a page. */
  function ViewIndex(page: int, n: int): int {
    QueueOffset(page) + n - 1
  }

  lemma ResolvesTo(f: Folding, raw: seq<Track>, page: int, sortBy: string, filter: string, n: int, j: nat)
    requires DistinctRefs(raw) && page >= 1 && 1 <= j < |raw|
    requires 1 <= n <= |PageSlice(View(f, raw, sortBy, filter), page)|
    requires PageSlice(View(f, raw, sortBy, filter), page)[n - 1] == raw[j]
    ensures Resolve(f, raw, page, sortBy, filter, n) == Some(j)
  {
    RawIndexIs(raw, j);
  }

  /** Detail button `n` of page `p` targets the raw index of the `n`-th track shown there, never the
      playing track. */
  lemma ButtonTargets(f: Folding, raw: seq<Track>, page: int, sortBy: string, filter: string, n: int)
    returns (j: nat)
    requires raw != [] && DistinctRefs(raw) && page >= 1
    requires 1 <= n <= |PageSlice(View(f, raw, sortBy, filter), page)|
    ensures Resolve(f, raw, page, sortBy, filter, n) == Some(j)
    ensures 1 <= j < |raw| && raw[j] == PageSlice(View(f, raw, sortBy, filter), page)[n - 1]
    ensures 1 <= ViewIndex(page, n) < |View(f, raw, sortBy, filter)|
    ensures raw[j] == View(f, raw, sortBy, filter)[ViewIndex(page, n)]
  {
    PageEntry(View(f, raw, sortBy, filter), page, n - 1);
    j := ViewInRaw(f, raw, sortBy, filter, ViewIndex(page, n));
    ResolvesTo(f, raw, page, sortBy, filter, n, j);
  }

  /** Two different buttons, on any pages, target different raw indices. */
  lemma {:induction false} ButtonsDiffer(f: Folding, raw: seq<Track>, sortBy: string, filter: string,
                                         page: int, n: int, page': int, n': int)
    requires raw != [] && DistinctRefs(raw) && page >= 1 && page' >= 1
    requires 1 <= n <= |PageSlice(View(f, raw, sortBy, filter), page)|
    requires 1 <= n' <= |PageSlice(View(f, raw, sortBy, filter), page')|
    requires page != page' || n != n'
    ensures Resolve(f, raw, page, sortBy, filter, n) != Resolve(f, raw, page', sortBy, filter, n')
  {
    var j := ButtonTargets(f, raw, page, sortBy, filter, n);
    var j' := ButtonTargets(f, raw, page', sortBy, filter, n');
    var a, b := ViewIndex(page, n), ViewIndex(page', n');
    assert a != b;
    if a < b {
      ViewDistinct(f, raw, sortBy, filter, a, b);
    } else {
      ViewDistinct(f, raw, sortBy, filter, b, a);
    }
  }

  /** Every matching queued track has a button on some page. */
  lemma ButtonsCover(f: Folding, raw: seq<Track>, sortBy: string, filter: string, j: nat)
    returns (page: int, n: int)
    requires DistinctRefs(raw) && 1 <= j < |raw| && MatchFilter(f, raw[j], filter)
    ensures 1 <= page <= PageCount(|View(f, raw, sortBy, filter)|)
    ensures 1 <= n <= |PageSlice(View(f, raw, sortBy, filter), page)|
    ensures Resolve(f, raw, page, sortBy, filter, n) == Some(j)
  {
    var i := RawInView(f, raw, sortBy, filter, j);
    page, n := (i - 1) / PAGE_SIZE + 1, (i - 1) % PAGE_SIZE + 1;
    OnPage(View(f, raw, sortBy, filter), i);
    ResolvesTo(f, raw, page, sortBy, filter, n, j);
  }

  /** The viewer stores the page clamped to the raw queue but shows it clamped to the filtered view.
      A shown button therefore works exactly when the stored page exists in the view; otherwise
      every button answers "not found". */
  lemma ShownButtonWorks(f: Folding, raw: seq<Track>, asked: int, sortBy: string, filter: string, n: int)
    requires raw != [] && DistinctRefs(raw)
    requires var view := View(f, raw, sortBy, filter);
             var shown := ClampPage(ClampPage(asked, |raw|), |view|);
             shown >= 1 && 1 <= n <= |PageSlice(view, shown)|
    ensures var view := View(f, raw, sortBy, filter);
            var stored := ClampPage(asked, |raw|);
            && stored >= 1
            && (Resolve(f, raw, stored, sortBy, filter, n).Some? <==> stored <= PageCount(|view|))
            && (stored <= PageCount(|view|) ==> ClampPage(stored, |view|) == stored)
  {
    var view := View(f, raw, sortBy, filter);
    var stored := ClampPage(asked, |raw|);
    ViewContents(f, raw, sortBy, filter);
    ClampInRange(asked, |raw|);
    ClampInRange(stored, |view|);
    if stored <= PageCount(|view|) {
      var j := ButtonTargets(f, raw, stored, sortBy, filter, n);
    } else {
      assert PageSlice(view, stored) == [];
    }
  }

  /** Queued videos with references 1 to `n`. */
  function Clips(n: nat): (tracks: seq<Track>)
    ensures |tracks| == n && forall i :: 0 <= i < n ==> tracks[i] == Track(i + 1, "", "", "", 0, true)
  {
    if n == 0 then [] else Clips(n - 1) + [Track(n, "", "", "", 0, true)]
  }

  /** A playing track, `n` videos and a song. */
  function ClipsAndSong(n: nat): seq<Track> {
    [Track(0, "", "", "", 0, false)] + Clips(n) + [Track(100, "", "", "", 0, false)]
  }

  lemma {:induction false} KeepClips(f: Folding, s: seq<Track>)
    requires forall t :: t in s ==> t.isVideo
    ensures Keep(f, s, "vid") == s
  {
    if s != [] {
      KeepClips(f, s[1..]);
    }
  }

  lemma ClipsDistinct(n: nat)
    requires n <= 11
    ensures DistinctRefs(ClipsAndSong(n))
  {
  }

  lemma ClipsView(f: Folding, n: nat)
    ensures View(f, ClipsAndSong(n), "", "vid") == [ClipsAndSong(n)[0]] + Clips(n)
  {
    var raw, song := ClipsAndSong(n), [Track(100, "", "", "", 0, false)];
    assert SortedView(f, raw, "") == raw;
    assert raw[1..] == Clips(n) + song;
    KeepConcat(f, Clips(n), song, "vid");
    KeepClips(f, Clips(n));
    KeepSong(f, song[0]);
    assert Clips(n) + [] == Clips(n);
  }

  lemma KeepSong(f: Folding, t: Track)
    requires !t.isVideo
    ensures Keep(f, [t], "vid") == []
  {
  }

  /** How a stored page becomes stale.  Of twelve tracks waiting, eleven are videos; filtered to videos,
      the second page exists and is stored.  Once the last video is removed, ten videos fill one page,
      which is shown, but the raw queue still has two: the stored page stays 2, and none of the ten
      buttons works. */
  lemma StalePageWitness(f: Folding)
    ensures var before, after := ClipsAndSong(11), Queues.After(ClipsAndSong(11), Queues.Remove(11));
            var stored := ClampPage(2, |View(f, before, "", "vid")|);
            && DistinctRefs(before) && stored == 2 && ClampPage(stored, |before|) == 2
            && ClampPage(stored, |after|) == 2
            && ClampPage(stored, |View(f, after, "", "vid")|) == 1
            && |PageSlice(View(f, after, "", "vid"), 1)| == 10
            && forall n :: Resolve(f, after, stored, "", "vid", n) == None
  {
    ClipsDistinct(11);
    ClipsView(f, 11);
    ClipsView(f, 10);
    assert Queues.After(ClipsAndSong(11), Queues.Remove(11)) == ClipsAndSong(10);
  }
}
