/** What `PlayNext` of `src/vc/helpers.go` does to a chat's queue, and what a whole session plays.

    The outside world decides how each attempt to play a track ends; an event records that.  Given
    the events, the queue is determined: `PlayNextDoes` says how one sequential call moves it. */
module PlaybackModel {
  import opened Options

  /** A queued track with its loop counter and file path. */
  datatype Item<T> = Item(track: T, loop: int, path: string)

  datatype Result =
    | SendFailed                   // the status message could not be sent
    | DownloadFailed
    | MediaFailed(cleared: bool)   // PlayMedia gave up
    | Played(cleared: bool)        // it plays; `cleared` if an earlier assistant had failed

  /** One attempt: the track, how it ended, and the track's file path before and afterwards. */
  datatype Event<T> = Event(track: T, result: Result, had: string, path: string)

  function Pos(n: int): nat {
    if n > 0 then n else 0
  }

  /** The queue once PlayNext has picked a track, and the track, which is then in front. */
  function Advance<T>(q: seq<Item<T>>): (r: (seq<Item<T>>, Option<Item<T>>))
    ensures r.1.Some? ==> r.0 != [] && r.0[0] == r.1.value
  {
    if q != [] && q[0].loop > 0 then
      var current := q[0].(loop := q[0].loop - 1);
      ([current] + q[1..], Some(current))
    else if |q| >= 2 then (q[1..], Some(q[1]))
    else ([], None)
  }

  /** A track that has a file is not downloaded; a failed download leaves it without one. */
  predicate PathOk<T>(item: Item<T>, e: Event<T>) {
    match e.result
    case SendFailed => e.path == item.path
    case DownloadFailed => item.path == "" && e.path == ""
    case _ => item.path != "" ==> e.path == item.path
  }

  predicate Clears<T>(e: Event<T>) {
    (e.result.MediaFailed? || e.result.Played?) && e.result.cleared
  }

  function Effect<T>(q: seq<Item<T>>, e: Event<T>): seq<Item<T>>
    requires q != []
  {
    if Clears(e) then [] else [q[0].(path := e.path)] + q[1..]
  }

  /** One call on queue `q` makes the attempts `evs` and leaves `q'`; an exhausted queue ends empty. */
  predicate PlayNextDoes<T(==)>(q: seq<Item<T>>, evs: seq<Event<T>>, q': seq<Item<T>>)
    decreases |evs|, 1
  {
    var (picked, item) := Advance(q);
    if item.None? then evs == [] && q' == [] else PlaySongDoes(picked, evs, q')
  }

  /** An attempt at the track in front: only a failed download goes on to the next track. */
  predicate PlaySongDoes<T(==)>(q: seq<Item<T>>, evs: seq<Event<T>>, q': seq<Item<T>>)
    requires q != []
    decreases |evs|, 0
  {
    && evs != [] && evs[0].track == q[0].track && evs[0].had == q[0].path && PathOk(q[0], evs[0])
    && if evs[0].result.DownloadFailed? then PlayNextDoes(Effect(q, evs[0]), evs[1..], q')
       else evs[1..] == [] && q' == Effect(q, evs[0])
  }

  // ---------------------------------------------------------------- the schedule

  function Repeat<T>(t: T, n: nat): seq<T> {
    if n == 0 then [] else [t] + Repeat(t, n - 1)
  }

  /** Each waiting track once and then as often as its loop counter says. */
  function Upcoming<T>(q: seq<Item<T>>): seq<T> {
    if q == [] then [] else Repeat(q[0].track, 1 + Pos(q[0].loop)) + Upcoming(q[1..])
  }

  /** What is still to be attempted: the current track's repeats, then the waiting tracks. */
  function Schedule<T>(q: seq<Item<T>>): seq<T> {
    if q == [] then [] else Repeat(q[0].track, Pos(q[0].loop)) + Upcoming(q[1..])
  }

  function Measure<T>(q: seq<Item<T>>): nat {
    if q == [] then 0 else 1 + Pos(q[0].loop) + Measure(q[1..])
  }

  lemma {:induction false} RepeatIs<T>(t: T, n: nat)
    ensures |Repeat(t, n)| == n && forall i :: 0 <= i < n ==> Repeat(t, n)[i] == t
  {
    if n > 0 {
      RepeatIs(t, n - 1);
    }
  }

  /** How often a track is scheduled: the current one as often as its loop counter says, a waiting one
      once more than that; then come the tracks behind it. */
  lemma ScheduledTimes<T>(item: Item<T>, rest: seq<Item<T>>)
    ensures var n, q := if item.loop > 0 then item.loop else 0, [item] + rest;
            && |Schedule(q)| == n + |Upcoming(rest)| && Schedule(q)[n..] == Upcoming(rest)
            && (forall i :: 0 <= i < n ==> Schedule(q)[i] == item.track)
            && |Upcoming(q)| == n + 1 + |Upcoming(rest)| && Upcoming(q)[n + 1..] == Upcoming(rest)
            && (forall i :: 0 <= i < n + 1 ==> Upcoming(q)[i] == item.track)
  {
    var n := Pos(item.loop);
    assert ([item] + rest)[1..] == rest;
    RepeatIs(item.track, n);
    RepeatIs(item.track, n + 1);
  }

  lemma RepeatOne<T>(t: T, n: nat, rest: seq<T>)
    ensures Repeat(t, n + 1) + rest == [t] + (Repeat(t, n) + rest)
  {
  }

  lemma {:induction false} ReplaySchedule<T>(q: seq<Item<T>>)
    requires q != [] && q[0].loop > 0
    ensures Schedule(q) == [q[0].track] + Schedule(Advance(q).0) && Measure(q) == Measure(Advance(q).0) + 1
  {
    var picked := Advance(q).0;
    assert picked[1..] == q[1..];
    RepeatOne(q[0].track, q[0].loop - 1, Upcoming(q[1..]));
  }

  lemma {:induction false} NextSchedule<T>(q: seq<Item<T>>)
    requires |q| >= 2 && q[0].loop <= 0
    ensures Schedule(q) == [q[1].track] + Schedule(q[1..]) && Measure(q) == Measure(q[1..]) + 1
  {
    var rest := q[1..];
    assert Schedule(q) == Upcoming(rest);
    RepeatOne(rest[0].track, Pos(rest[0].loop), Upcoming(rest[1..]));
  }

  /** Picking a track takes exactly the first one off the schedule, and the measure drops by one. */
  lemma {:induction false} AdvanceSchedule<T>(q: seq<Item<T>>)
    ensures var (picked, item) := Advance(q);
            if item.None? then Schedule(q) == [] && picked == []
            else Schedule(q) == [item.value.track] + Schedule(picked) && Measure(q) == Measure(picked) + 1
  {
    if q != [] && q[0].loop > 0 {
      ReplaySchedule(q);
    } else if |q| >= 2 {
      NextSchedule(q);
    } else if |q| == 1 {
      assert q[1..] == [];
    }
  }

  /** Only clearing the queue changes what is still to come. */
  lemma EffectSchedule<T>(q: seq<Item<T>>, e: Event<T>)
    requires q != []
    ensures if Clears(e) then Effect(q, e) == []
            else Schedule(Effect(q, e)) == Schedule(q) && Measure(Effect(q, e)) == Measure(q)
  {
    assert ([q[0].(path := e.path)] + q[1..])[1..] == q[1..];
  }

  function Tracks<T>(evs: seq<Event<T>>): (r: seq<T>)
    ensures |r| == |evs|
  {
    if evs == [] then [] else [evs[0].track] + Tracks(evs[1..])
  }

  predicate NoneClears<T>(evs: seq<Event<T>>) {
    evs == [] || (!Clears(evs[0]) && NoneClears(evs[1..]))
  }

  lemma {:induction false} CallAttemptsPrefix<T>(q: seq<Item<T>>, evs: seq<Event<T>>, q': seq<Item<T>>)
    requires PlayNextDoes(q, evs, q')
    ensures Tracks(evs) <= Schedule(q)
    ensures q != [] ==> Measure(q') < Measure(q)
    decreases |evs|
  {
    var (picked, item) := Advance(q);
    AdvanceSchedule(q);
    if item.Some? {
      EffectSchedule(picked, evs[0]);
      if evs[0].result.DownloadFailed? {
        CallAttemptsPrefix(Effect(picked, evs[0]), evs[1..], q');
      }
    }
  }

  lemma Regroup<T>(a: seq<T>, b: seq<T>, c: seq<T>)
    ensures a + (b + c) == (a + b) + c
  {
  }

  lemma {:induction false} CallLeavesRest<T>(q: seq<Item<T>>, evs: seq<Event<T>>, q': seq<Item<T>>)
    requires PlayNextDoes(q, evs, q') && NoneClears(evs)
    ensures Schedule(q) == Tracks(evs) + Schedule(q')
    decreases |evs|
  {
    var (picked, item) := Advance(q);
    AdvanceSchedule(q);
    if item.Some? {
      var track, rest := evs[0].track, evs[1..];
      EffectSchedule(picked, evs[0]);
      if evs[0].result.DownloadFailed? {
        CallLeavesRest(Effect(picked, evs[0]), rest, q');
      } else {
        assert Tracks(rest) == [] && [] + Schedule(q') == Schedule(q');
      }
      assert Schedule(picked) == Tracks(rest) + Schedule(q');
      Regroup([track], Tracks(rest), Schedule(q'));
    }
  }

  lemma {:induction false} ClearedIsEmpty<T>(q: seq<Item<T>>, evs: seq<Event<T>>, q': seq<Item<T>>)
    requires PlayNextDoes(q, evs, q') && !NoneClears(evs)
    ensures q' == []
    decreases |evs|
  {
    if evs[0].result.DownloadFailed? {
      ClearedIsEmpty(Effect(Advance(q).0, evs[0]), evs[1..], q');
    } else {
      assert NoneClears(evs[1..]);
    }
  }

  /** One call attempts the next tracks of the schedule, in order.  What it leaves is the rest of the
      schedule, unless a failing attempt cleared the queue: then nothing is left. */
  lemma {:induction false} CallFollowsSchedule<T>(q: seq<Item<T>>, evs: seq<Event<T>>, q': seq<Item<T>>)
    requires PlayNextDoes(q, evs, q')
    ensures Tracks(evs) <= Schedule(q)
    ensures NoneClears(evs) ==> Schedule(q) == Tracks(evs) + Schedule(q')
    ensures !NoneClears(evs) ==> q' == []
    ensures q != [] ==> Measure(q') < Measure(q)
  {
    CallAttemptsPrefix(q, evs, q');
    if NoneClears(evs) {
      CallLeavesRest(q, evs, q');
    } else {
      ClearedIsEmpty(q, evs, q');
    }
  }

  /** One call plays at most one track: only its last attempt can end otherwise than in a failed
      download. */
  lemma {:induction false} OnlyLastPlays<T>(q: seq<Item<T>>, evs: seq<Event<T>>, q': seq<Item<T>>, i: nat)
    requires PlayNextDoes(q, evs, q') && i < |evs| - 1
    ensures evs[i].result.DownloadFailed?
    decreases |evs|
  {
    if i > 0 {
      OnlyLastPlays(Effect(Advance(q).0, evs[0]), evs[1..], q', i - 1);
    }
  }

  /** The tracks of a queue, in order. */
  function Queued<T>(q: seq<Item<T>>): (r: seq<T>)
    ensures |r| == |q| && forall i :: 0 <= i < |q| ==> r[i] == q[i].track
  {
    if q == [] then [] else [q[0].track] + Queued(q[1..])
  }

  predicate Suffix<T(==)>(a: seq<T>, b: seq<T>) {
    |a| <= |b| && a == b[|b| - |a|..]
  }

  lemma AdvanceSuffix<T>(q: seq<Item<T>>)
    ensures Suffix(Queued(Advance(q).0), Queued(q))
  {
    var r := Queued(Advance(q).0);
    var k := |q| - |r|;
    forall i | 0 <= i < |r| ensures r[i] == Queued(q)[k..][i] {
    }
  }

  lemma EffectSuffix<T>(q: seq<Item<T>>, e: Event<T>)
    requires q != []
    ensures Suffix(Queued(Effect(q, e)), Queued(q))
  {
    if !Clears(e) {
      assert Effect(q, e)[1..] == q[1..];
    }
  }

  lemma SuffixOfSuffix<T>(a: seq<T>, b: seq<T>, c: seq<T>)
    requires Suffix(a, b) && Suffix(b, c)
    ensures Suffix(a, c)
  {
  }

  /** A call never reorders or adds tracks: what it leaves is the end of the queue it found. */
  lemma {:induction false} CallLeavesSuffix<T>(q: seq<Item<T>>, evs: seq<Event<T>>, q': seq<Item<T>>)
    requires PlayNextDoes(q, evs, q')
    ensures Suffix(Queued(q'), Queued(q))
    decreases |evs|
  {
    var (picked, item) := Advance(q);
    if item.Some? {
      var left := Effect(picked, evs[0]);
      AdvanceSuffix(q);
      EffectSuffix(picked, evs[0]);
      SuffixOfSuffix(Queued(left), Queued(picked), Queued(q));
      if evs[0].result.DownloadFailed? {
        CallLeavesSuffix(left, evs[1..], q');
        SuffixOfSuffix(Queued(q'), Queued(left), Queued(q));
      }
    }
  }

  // ---------------------------------------------------------------- sessions

  /** Sequential calls, one after another, with nothing else touching the queue. */
  predicate SessionDoes<T(==)>(q: seq<Item<T>>, calls: seq<(seq<Event<T>>, seq<Item<T>>)>)
    decreases |calls|
  {
    calls == [] || (PlayNextDoes(q, calls[0].0, calls[0].1) && SessionDoes(calls[0].1, calls[1..]))
  }

  function Attempts<T>(calls: seq<(seq<Event<T>>, seq<Item<T>>)>): seq<Event<T>> {
    if calls == [] then [] else calls[0].0 + Attempts(calls[1..])
  }

  function Left<T>(q: seq<Item<T>>, calls: seq<(seq<Event<T>>, seq<Item<T>>)>): seq<Item<T>>
    decreases |calls|
  {
    if calls == [] then q else Left(calls[0].1, calls[1..])
  }

  /** One more call at the end of a session. */
  lemma {:induction false} SessionGrows<T>(q: seq<Item<T>>, calls: seq<(seq<Event<T>>, seq<Item<T>>)>,
                                           evs: seq<Event<T>>, q': seq<Item<T>>)
    requires SessionDoes(q, calls) && PlayNextDoes(Left(q, calls), evs, q')
    ensures SessionDoes(q, calls + [(evs, q')]) && Left(q, calls + [(evs, q')]) == q'
    decreases |calls|
  {
    var more := calls + [(evs, q')];
    if calls == [] {
      assert more[1..] == [];
    } else {
      SessionGrows(calls[0].1, calls[1..], evs, q');
      assert more[1..] == calls[1..] + [(evs, q')];
    }
  }

  lemma TracksCons<T>(e: Event<T>, evs: seq<Event<T>>)
    ensures Tracks([e] + evs) == [e.track] + Tracks(evs)
  {
    assert ([e] + evs)[1..] == evs;
  }

  lemma {:induction false} TracksConcat<T>(a: seq<Event<T>>, b: seq<Event<T>>)
    ensures Tracks(a + b) == Tracks(a) + Tracks(b)
  {
    if a == [] {
      assert a + b == b;
    } else {
      TracksConcat(a[1..], b);
      TracksCons(a[0], a[1..] + b);
      assert a + b == [a[0]] + (a[1..] + b);
      Regroup([a[0].track], Tracks(a[1..]), Tracks(b));
    }
  }

  lemma {:induction false} EmptyStaysEmpty<T>(calls: seq<(seq<Event<T>>, seq<Item<T>>)>)
    requires SessionDoes([], calls)
    ensures Attempts(calls) == [] && Left([], calls) == []
  {
    if calls != [] {
      EmptyStaysEmpty(calls[1..]);
    }
  }

  lemma {:induction false} SplitNoneClears<T>(a: seq<Event<T>>, b: seq<Event<T>>)
    ensures NoneClears(a + b) <==> NoneClears(a) && NoneClears(b)
  {
    if a == [] {
      assert a + b == b;
    } else {
      SplitNoneClears(a[1..], b);
      assert (a + b)[1..] == a[1..] + b;
    }
  }

  /** A session attempts the tracks of the initial schedule in order: t0 as often as its counter
      says, then every other track once plus its counter.  Whatever is not attempted yet is what the
      remaining queue schedules, as long as no failure cleared the queue. */
  lemma {:induction false} SessionFollowsSchedule<T>(q: seq<Item<T>>, calls: seq<(seq<Event<T>>, seq<Item<T>>)>)
    requires SessionDoes(q, calls)
    ensures Tracks(Attempts(calls)) <= Schedule(q)
    ensures NoneClears(Attempts(calls)) ==> Schedule(q) == Tracks(Attempts(calls)) + Schedule(Left(q, calls))
    ensures !NoneClears(Attempts(calls)) ==> Left(q, calls) == []
    decreases |calls|
  {
    if calls != [] {
      var (evs, q') := calls[0];
      var rest := Attempts(calls[1..]);
      CallFollowsSchedule(q, evs, q');
      SessionFollowsSchedule(q', calls[1..]);
      TracksConcat(evs, rest);
      SplitNoneClears(evs, rest);
      if NoneClears(evs) {
        Regroup(Tracks(evs), Tracks(rest), Schedule(Left(q, calls)));
      } else {
        EmptyStaysEmpty(calls[1..]);
        assert Tracks(evs) + [] == Tracks(evs);
      }
    }
  }

  /** Enough calls always empty the queue, however the attempts end. */
  lemma {:induction false} SessionEnds<T>(q: seq<Item<T>>, calls: seq<(seq<Event<T>>, seq<Item<T>>)>)
    requires SessionDoes(q, calls) && |calls| >= Measure(q)
    ensures Left(q, calls) == []
    decreases |calls|
  {
    if calls == [] {
    } else {
      CallFollowsSchedule(q, calls[0].0, calls[0].1);
      SessionEnds(calls[0].1, calls[1..]);
    }
  }

  /** The tracks that did play. */
  function PlayedTracks<T>(evs: seq<Event<T>>): seq<T> {
    if evs == [] then []
    else (if evs[0].result.Played? then [evs[0].track] else []) + PlayedTracks(evs[1..])
  }

  lemma {:induction false} AllPlayed<T>(evs: seq<Event<T>>)
    requires forall e :: e in evs ==> e.result.Played?
    ensures PlayedTracks(evs) == Tracks(evs)
  {
    if evs != [] {
      AllPlayed(evs[1..]);
    }
  }

  /** Play trace: run to the end with no failing assistant, a session makes exactly the scheduled
      attempts and ends with an empty queue; if every attempt plays, it plays exactly the schedule. */
  lemma {:induction false} PlayTrace<T>(q: seq<Item<T>>, calls: seq<(seq<Event<T>>, seq<Item<T>>)>)
    requires SessionDoes(q, calls) && |calls| >= Measure(q)
    requires NoneClears(Attempts(calls))
    ensures Tracks(Attempts(calls)) == Schedule(q) && Left(q, calls) == []
    ensures (forall e :: e in Attempts(calls) ==> e.result.Played?) ==> PlayedTracks(Attempts(calls)) == Schedule(q)
  {
    SessionFollowsSchedule(q, calls);
    SessionEnds(q, calls);
    if forall e :: e in Attempts(calls) ==> e.result.Played? {
      AllPlayed(Attempts(calls));
    }
  }

  // ---------------------------------------------------------------- playlists and jumps

  /** Tracks as they are made: no loops, no file. */
  function Fresh<T>(tracks: seq<T>): (items: seq<Item<T>>)
    ensures |items| == |tracks|
    ensures forall i :: 0 <= i < |tracks| ==> items[i] == Item(tracks[i], 0, "")
  {
    if tracks == [] then [] else [Item(tracks[0], 0, "")] + Fresh(tracks[1..])
  }

  /** The batch `handleMultipleTracks` queues on an empty chat: the first track gets loop count 1. */
  function FirstLooped<T>(tracks: seq<T>): seq<Item<T>>
    requires tracks != []
  {
    Fresh(tracks)[0 := Item(tracks[0], 1, "")]
  }

  lemma {:induction false} FreshUpcoming<T>(tracks: seq<T>)
    ensures Upcoming(Fresh(tracks)) == tracks
  {
    if tracks != [] {
      FreshUpcoming(tracks[1..]);
      assert Repeat(tracks[0], 1) == [tracks[0]] + Repeat(tracks[0], 0);
    }
  }

  /** A playlist started on an empty chat schedules every track once, in order: the first track's
      loop count makes up for PlayNext never playing the track in front as such. */
  lemma PlaylistSchedule<T>(tracks: seq<T>)
    requires tracks != []
    ensures Schedule(FirstLooped(tracks)) == tracks
  {
    FreshUpcoming(tracks[1..]);
    assert FirstLooped(tracks)[1..] == Fresh(tracks[1..]);
    RepeatOne(tracks[0], 0, tracks[1..]);
    assert Repeat(tracks[0], 0) + tracks[1..] == tracks[1..];
    assert tracks == [tracks[0]] + tracks[1..];
  }

  lemma {:induction false} FreshMeasure<T>(tracks: seq<T>)
    ensures Measure(Fresh(tracks)) == |tracks|
  {
    if tracks != [] {
      FreshMeasure(tracks[1..]);
    }
  }

  lemma FirstLoopedMeasure<T>(tracks: seq<T>)
    requires tracks != []
    ensures Measure(FirstLooped(tracks)) == |tracks| + 1
  {
    FreshMeasure(tracks[1..]);
    assert FirstLooped(tracks)[1..] == Fresh(tracks[1..]);
  }

  lemma {:induction false} SuffixMeasure<T>(q: seq<Item<T>>, n: nat)
    requires n <= |q|
    ensures Measure(q[n..]) <= Measure(q)
  {
    if n > 0 {
      SuffixMeasure(q[1..], n - 1);
      assert q[1..][n - 1..] == q[n..];
    } else {
      assert q[0..] == q;
    }
  }

  /** A playlist started on an empty chat, with no failing assistant and nothing else touching the
      queue: one more call than it has tracks attempts each of them once, in order, and empties the
      queue. */
  lemma {:induction false} PlaylistAttempted<T>(tracks: seq<T>, calls: seq<(seq<Event<T>>, seq<Item<T>>)>)
    requires tracks != [] && SessionDoes(FirstLooped(tracks), calls) && |calls| > |tracks|
    requires NoneClears(Attempts(calls))
    ensures Tracks(Attempts(calls)) == tracks && Left(FirstLooped(tracks), calls) == []
  {
    FirstLoopedMeasure(tracks);
    PlayTrace(FirstLooped(tracks), calls);
    PlaylistSchedule(tracks);
  }

  /** If every attempt plays, each track is played once, in order. */
  lemma {:induction false} PlaylistPlaysOnce<T>(tracks: seq<T>, calls: seq<(seq<Event<T>>, seq<Item<T>>)>)
    requires tracks != [] && SessionDoes(FirstLooped(tracks), calls) && |calls| > |tracks|
    requires NoneClears(Attempts(calls)) && forall e :: e in Attempts(calls) ==> e.result.Played?
    ensures PlayedTracks(Attempts(calls)) == tracks && Left(FirstLooped(tracks), calls) == []
  {
    PlaylistAttempted(tracks, calls);
    AllPlayed(Attempts(calls));
  }

  lemma UpcomingCons<T>(item: Item<T>, rest: seq<Item<T>>)
    ensures Upcoming([item] + rest) == Repeat(item.track, 1 + Pos(item.loop)) + Upcoming(rest)
  {
    assert ([item] + rest)[1..] == rest;
  }

  lemma {:induction false} UpcomingConcat<T>(a: seq<Item<T>>, b: seq<Item<T>>)
    ensures Upcoming(a + b) == Upcoming(a) + Upcoming(b)
  {
    if a == [] {
      assert a + b == b;
    } else {
      UpcomingConcat(a[1..], b);
      UpcomingCons(a[0], a[1..] + b);
      assert a + b == [a[0]] + (a[1..] + b);
      Regroup(Repeat(a[0].track, 1 + Pos(a[0].loop)), Upcoming(a[1..]), Upcoming(b));
    }
  }

  /** Queued behind something, a playlist adds every track once at the end of the schedule. */
  lemma {:induction false} AppendSchedule<T>(q: seq<Item<T>>, tracks: seq<T>)
    requires q != []
    ensures Schedule(q + Fresh(tracks)) == Schedule(q) + tracks
  {
    ScheduleConcat(q, Fresh(tracks));
    FreshUpcoming(tracks);
  }

  lemma {:induction false} ScheduleConcat<T>(q: seq<Item<T>>, more: seq<Item<T>>)
    requires q != []
    ensures Schedule(q + more) == Schedule(q) + Upcoming(more)
  {
    assert (q + more)[1..] == q[1..] + more;
    UpcomingConcat(q[1..], more);
    Regroup(Repeat(q[0].track, Pos(q[0].loop)), Upcoming(q[1..]), Upcoming(more));
  }

  /** Jumping trims "up next" before position `n` and calls PlayNext.  The track picked is the target
      exactly when the current track has no loops left; otherwise the current track is replayed. */
  lemma {:induction false} JumpTarget<T>(q: seq<Item<T>>, n: int)
    requires 1 <= n < |q|
    ensures var trimmed := if n > 1 then [q[0]] + q[n..] else q;
            var (picked, item) := Advance(trimmed);
            && item.Some?
            && (q[0].loop <= 0 ==> picked == q[n..] && item == Some(q[n]))
            && (q[0].loop > 0 ==> item == Some(q[0].(loop := q[0].loop - 1)) && picked == [item.value] + q[n..])
  {
  }
}
