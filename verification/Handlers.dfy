/** The handlers that change a queue: the enqueue-and-start part of `handleMultipleTracks`
    (src/handlers/play.go) and the queue browser's jump, up, down and remove buttons
    (internal/queue/callbacks.go). */
module Handlers {
  import opened ChatCache
  import Queues = QueueModel
  import Playback = PlaybackModel
  import opened RotationModel
  import opened VoiceCalls

  datatype MusicTrack = MusicTrack(id: string, duration: int)

  /** The tracks of a playlist that are not over the duration limit. */
  function WithinLimit(tracks: seq<MusicTrack>, limit: int): (kept: seq<MusicTrack>)
    ensures |kept| <= |tracks|
  {
    if tracks == [] then []
    else
      var n := |tracks| - 1;
      WithinLimit(tracks[..n], limit) + if tracks[n].duration > limit then [] else [tracks[n]]
  }

  /** Where in the playlist the kept entries come from. */
  function KeptFrom(tracks: seq<MusicTrack>, limit: int): (from: seq<int>)
    ensures |from| == |WithinLimit(tracks, limit)| && forall i :: 0 <= i < |from| ==> 0 <= from[i] < |tracks|
  {
    if tracks == [] then []
    else
      var n := |tracks| - 1;
      KeptFrom(tracks[..n], limit) + if tracks[n].duration > limit then [] else [n]
  }

  /** What is kept are exactly the entries that last no longer than the limit, in the order of the
      playlist: entry `k` is kept, once, if it does, and entry `i` of the result comes after the ones
      before it. */
  lemma {:induction false} WithinLimitKeeps(tracks: seq<MusicTrack>, limit: int, i: nat, k: nat)
    ensures var from := KeptFrom(tracks, limit);
            && (k < |tracks| ==> (k in from <==> tracks[k].duration <= limit))
            && (i < |from| ==> WithinLimit(tracks, limit)[i] == tracks[from[i]])
            && (0 < i < |from| ==> from[i - 1] < from[i])
  {
    if tracks != [] {
      var n := |tracks| - 1;
      WithinLimitKeeps(tracks[..n], limit, i, k);
      var before := KeptFrom(tracks[..n], limit);
      assert k >= n ==> k !in before;
    }
  }

  ghost function Members(q: seq<Track>): set<Track> {
    set t | t in q
  }

  ghost predicate MadeFrom(made: seq<Track>, tracks: seq<MusicTrack>)
    reads made
  {
    && |made| == |tracks| && AllDistinct(made)
    && forall i :: 0 <= i < |made| ==> made[i].trackID == tracks[i].id && made[i].loop == 0 && made[i].filePath == ""
  }

  /** One new track object for every playlist entry within the limit. */
  method MakeTracks(tracks: seq<MusicTrack>, limit: int) returns (made: seq<Track>, skipped: nat)
    ensures MadeFrom(made, WithinLimit(tracks, limit)) && skipped + |made| == |tracks|
    ensures fresh(made)
  {
    made, skipped := [], 0;
    for i := 0 to |tracks|
      invariant MadeFrom(made, WithinLimit(tracks[..i], limit)) && skipped + |made| == i
      invariant fresh(made)
    {
      assert tracks[..i + 1][..i] == tracks[..i];
      if tracks[i].duration > limit {
        skipped := skipped + 1;
      } else {
        var t := new Track(tracks[i].id, "");
        made := made + [t];
      }
    }
    assert tracks[..|tracks|] == tracks;
  }

  lemma InUseConcat(q: seq<Track>, items: seq<Item>, owned: set<Track>,
                    made: seq<Track>, more: seq<Item>, added: set<Track>)
    requires InUse(q, items, owned) && InUse(made, more, added)
    requires forall t :: t in made ==> t !in q
    ensures InUse(q + made, items + more, owned + added)
  {
    forall i, j | 0 <= i < j < |q + made| ensures (q + made)[i] != (q + made)[j] {
      if i < |q| <= j {
        assert made[j - |q|] in made;
      }
    }
  }

  lemma InUseWider(q: seq<Track>, items: seq<Item>, tracks: set<Track>, wider: set<Track>)
    requires InUse(q, items, tracks) && tracks <= wider
    ensures InUse(q, items, wider)
  {
  }

  lemma ShowsTrimmed(q: seq<Track>, items: seq<Item>, n: int)
    requires Shows(q, items) && AllDistinct(q)
    ensures Shows(Queues.After(q, Queues.Trim(n)), Queues.After(items, Queues.Trim(n)))
    ensures AllDistinct(Queues.After(q, Queues.Trim(n)))
    ensures forall t :: t in Queues.After(q, Queues.Trim(n)) ==> t in q
  {
  }

  lemma TrimMeasure<T>(items: seq<Playback.Item<T>>, n: int)
    requires 1 <= n < |items|
    ensures Playback.Measure(Queues.After(items, Queues.Trim(n))) <= Playback.Measure(items)
  {
    var rest := items[1..];
    Playback.SuffixMeasure(rest, n - 1);
    assert rest[n - 1..] == items[n..];
    assert Queues.After(items, Queues.Trim(n)) == [items[0]] + items[n..];
    assert ([items[0]] + items[n..])[1..] == items[n..];
  }

  /** The first track of a playlist gets loop count 1. */
  method LoopFirst(calls: TelegramCalls, chatID: int, made: seq<Track>)
    requires calls.Valid() && calls.Now(chatID, made)
    requires made != [] && AllDistinct(made) && Shows(made, Playback.Fresh(made))
    modifies {made[0]}`loop
    ensures calls.Valid() && calls.Now(chatID, made) && Shows(made, Playback.FirstLooped(made))
  {
    made[0].loop := 1;
  }

  /** Appends new tracks to the chat's queue. */
  method Enqueue(calls: TelegramCalls, chatID: int, made: seq<Track>, ghost q: seq<Track>, ghost items: seq<Item>)
    returns (start: bool)
    requires calls.Valid() && calls.Now(chatID, q) && Shows(q, items) && Shows(made, Playback.Fresh(made))
    modifies calls.chats, calls.chats.datas, calls.chats.bufs
    ensures Shows(q, items) && Shows(made, Playback.Fresh(made))
    ensures calls.Valid() && calls.Now(chatID, q + made) && (start <==> q == [])
    ensures forall d :: d in calls.chats.datas ==> d in old(calls.chats.datas) || fresh(d)
    ensures forall b :: b in calls.chats.bufs ==> b in old(calls.chats.bufs) || fresh(b)
  {
    var qLenAfter := calls.chats.AddSongs(chatID, made);
    var startLen := qLenAfter - |made|;
    start := startLen == 0;
  }

  /** Queues new tracks and, if nothing was queued, starts with the first of them.  `owned` are the
      tracks queued so far, `added` the new ones. */
  method EnqueueAndStart(calls: TelegramCalls, chatID: int, made: seq<Track>, world: seq<World>,
                         ghost owned: set<Track>, ghost added: set<Track>, ghost q: seq<Track>, ghost items: seq<Item>)
    returns (ghost evs: seq<Event>, ghost q': seq<Track>, ghost items': seq<Item>)
    requires calls.Valid() && calls.Now(chatID, q) && InUse(q, items, owned)
    requires made != [] && InUse(made, Playback.Fresh(made), added) && forall t :: t in made ==> t !in q
    requires Supplied(world, |made| + 1, 2 * |calls.assistants|)
    modifies calls`answers, calls.db, calls.chats, calls.chats.datas, calls.chats.bufs, added
    ensures calls.Valid() && calls.Now(chatID, q') && InUse(q', items', owned + added)
    ensures forall d :: d in calls.chats.datas ==> d in old(calls.chats.datas) || fresh(d)
    ensures forall b :: b in calls.chats.bufs ==> b in old(calls.chats.bufs) || fresh(b)
    ensures if q == [] then Playback.PlayNextDoes(Playback.FirstLooped(made), evs, items')
            else q' == q + made && items' == items + Playback.Fresh(made) && evs == []
    ensures Happened(chatID, calls.assistants, evs, world)
  {
    var start := Enqueue(calls, chatID, made, q, items);
    if start {
      assert q + made == made;
      evs, q', items' := StartFirst(calls, chatID, made, world, added);
      InUseWider(q', items', added, owned + added);
    } else {
      evs, q', items' := [], q + made, items + Playback.Fresh(made);
      InUseConcat(q, items, owned, made, Playback.Fresh(made), added);
    }
  }

  /** The first of the tracks just queued on an empty chat is played. */
  method StartFirst(calls: TelegramCalls, chatID: int, made: seq<Track>, world: seq<World>, ghost added: set<Track>)
    returns (ghost evs: seq<Event>, ghost q': seq<Track>, ghost items': seq<Item>)
    requires calls.Valid() && calls.Now(chatID, made)
    requires made != [] && InUse(made, Playback.Fresh(made), added)
    requires Supplied(world, |made| + 1, 2 * |calls.assistants|)
    modifies calls`answers, calls.db, calls.chats`chats, calls.chats.datas, calls.chats.bufs, added
    ensures calls.Valid() && calls.Now(chatID, q') && InUse(q', items', added)
    ensures Playback.PlayNextDoes(Playback.FirstLooped(made), evs, items')
    ensures Happened(chatID, calls.assistants, evs, world)
  {
    LoopFirst(calls, chatID, made);
    Playback.FirstLoopedMeasure(made);
    assert InUse(made, Playback.FirstLooped(made), added);
    var recommended;
    recommended, evs, q', items' := calls.PlayNext(chatID, world, added, made, Playback.FirstLooped(made));
  }

  /** A playlist is queued on a chat and, if nothing was queued there, started. */
  method HandleMultipleTracks(calls: TelegramCalls, chatID: int, tracks: seq<MusicTrack>, limit: int,
                              world: seq<World>, ghost owned: set<Track>, ghost q: seq<Track>, ghost items: seq<Item>)
    returns (made: seq<Track>, ghost evs: seq<Event>, ghost q': seq<Track>, ghost items': seq<Item>)
    requires calls.Valid() && calls.Now(chatID, q) && InUse(q, items, owned)
    requires Supplied(world, |tracks| + 1, 2 * |calls.assistants|)
    modifies calls`answers, calls.db, calls.chats, calls.chats.datas, calls.chats.bufs
    ensures calls.Valid() && calls.Now(chatID, q') && InUse(q', items', owned + Members(made))
    ensures forall d :: d in calls.chats.datas ==> d in old(calls.chats.datas) || fresh(d)
    ensures forall b :: b in calls.chats.bufs ==> b in old(calls.chats.bufs) || fresh(b)
    ensures |made| == |WithinLimit(tracks, limit)| && fresh(made)
    ensures forall i :: 0 <= i < |made| ==> made[i].trackID == WithinLimit(tracks, limit)[i].id
    ensures if made == [] then q' == q && items' == items && evs == []
            else if q == [] then Playback.PlayNextDoes(Playback.FirstLooped(made), evs, items')
            else q' == q + made && items' == items + Playback.Fresh(made) && evs == []
    ensures Happened(chatID, calls.assistants, evs, world)
  {
    var skipped;
    made, skipped := MakeTracks(tracks, limit);
    ghost var added := Members(made);
    if made == [] {
      evs, q', items' := [], q, items;
      InUseWider(q, items, owned, owned + added);
    } else {
      evs, q', items' := EnqueueAndStart(calls, chatID, made, world, owned, added, q, items);
    }
  }

  /** Trims the chat's queue before position `n`. */
  method TrimBefore(calls: TelegramCalls, chatID: int, n: int, ghost q: seq<Track>)
    requires calls.Valid() && calls.Now(chatID, q)
    modifies calls.chats`bufs, calls.chats.datas, calls.chats.bufs
    ensures calls.Valid() && calls.Now(chatID, Queues.After(q, Queues.Trim(n)))
    ensures forall b :: b in calls.chats.bufs ==> b in old(calls.chats.bufs) || fresh(b)
  {
    calls.chats.TrimQueueBefore(chatID, n);
  }

  /** Jumping to position `n` drops what is before it in "up next" and advances the queue. */
  method Jump(calls: TelegramCalls, chatID: int, n: int, world: seq<World>, ghost tracks: set<Track>,
              ghost q: seq<Track>, ghost items: seq<Item>)
    returns (ok: bool, ghost evs: seq<Event>, ghost q': seq<Track>, ghost items': seq<Item>)
    requires calls.Valid() && calls.Now(chatID, q) && InUse(q, items, tracks)
    requires Supplied(world, Playback.Measure(items), 2 * |calls.assistants|)
    modifies calls`answers, calls.db, calls.chats, calls.chats.datas, calls.chats.bufs, tracks
    ensures calls.Valid() && calls.Now(chatID, q') && InUse(q', items', tracks)
    ensures ok <==> 1 <= n < |q|
    ensures if ok then Playback.PlayNextDoes(Queues.After(items, Queues.Trim(n)), evs, items')
            else q' == q && items' == items && evs == []
    ensures Happened(chatID, calls.assistants, evs, world)
  {
    evs, q', items' := [], q, items;
    var length := calls.chats.GetQueueLength(chatID);
    ok := 1 <= n < length;
    if ok {
      TrimBefore(calls, chatID, n, q);
      ShowsTrimmed(q, items, n);
      TrimMeasure(items, n);
      q', items' := Queues.After(q, Queues.Trim(n)), Queues.After(items, Queues.Trim(n));
      var recommended;
      recommended, evs, q', items' := calls.PlayNext(chatID, world, tracks, q', items');
    }
  }

  // ---------------------------------------------------------------- sessions

  /** The answers for a number of calls, each enough for so many attempts. */
  ghost predicate AllSupplied(worlds: seq<seq<World>>, attempts: nat, calls: nat) {
    forall world :: world in worlds ==> Supplied(world, attempts, calls)
  }

  /** The events of each call are what its answers make of its attempts. */
  ghost predicate AllHappened(chatID: int, assistants: set<int>, record: seq<(seq<Event>, seq<Item>)>,
                              worlds: seq<seq<World>>)
  {
    |record| == |worlds| && forall k :: 0 <= k < |record| ==> Happened(chatID, assistants, record[k].0, worlds[k])
  }

  /** Sequential calls of PlayNext, one for each element of `worlds`, with nothing else touching the
      chat's queue: a session in the sense of `SessionDoes`. */
  method PlaySession(calls: TelegramCalls, chatID: int, worlds: seq<seq<World>>, ghost tracks: set<Track>,
                     ghost q: seq<Track>, ghost items: seq<Item>)
    returns (ghost record: seq<(seq<Event>, seq<Item>)>, ghost q': seq<Track>, ghost items': seq<Item>)
    requires calls.Valid() && calls.Now(chatID, q) && InUse(q, items, tracks)
    requires AllSupplied(worlds, Playback.Measure(items), 2 * |calls.assistants|)
    modifies calls`answers, calls.db, calls.chats`chats, calls.chats.datas, calls.chats.bufs, tracks
    ensures calls.Valid() && calls.Now(chatID, q') && InUse(q', items', tracks)
    ensures Playback.SessionDoes(items, record) && Playback.Left(items, record) == items'
    ensures AllHappened(chatID, calls.assistants, record, worlds)
  {
    record, q', items' := [], q, items;
    for k := 0 to |worlds|
      invariant calls.Valid() && calls.Now(chatID, q') && InUse(q', items', tracks)
      invariant Playback.SessionDoes(items, record) && Playback.Left(items, record) == items'
      invariant AllHappened(chatID, calls.assistants, record, worlds[..k])
      invariant Playback.Measure(items') <= Playback.Measure(items)
    {
      assert Supplied(worlds[k], Playback.Measure(items), 2 * |calls.assistants|);
      ghost var evs;
      var recommended;
      ghost var next;
      recommended, evs, q', next := calls.PlayNext(chatID, worlds[k], tracks, q', items');
      OneMoreCall(chatID, calls.assistants, items, record, worlds, evs, next);
      record, items' := record + [(evs, next)], next;
    }
    assert worlds[..|worlds|] == worlds;
  }

  lemma OneMoreCall(chatID: int, assistants: set<int>, items: seq<Item>, record: seq<(seq<Event>, seq<Item>)>,
                    worlds: seq<seq<World>>, evs: seq<Event>, next: seq<Item>)
    requires |record| < |worlds| && AllHappened(chatID, assistants, record, worlds[..|record|])
    requires Playback.SessionDoes(items, record) && Happened(chatID, assistants, evs, worlds[|record|])
    requires Playback.PlayNextDoes(Playback.Left(items, record), evs, next)
    ensures Playback.SessionDoes(items, record + [(evs, next)])
    ensures Playback.Left(items, record + [(evs, next)]) == next
    ensures AllHappened(chatID, assistants, record + [(evs, next)], worlds[..|record| + 1])
    ensures Playback.Measure(next) <= Playback.Measure(Playback.Left(items, record))
  {
    Playback.SessionGrows(items, record, evs, next);
    Playback.CallFollowsSchedule(Playback.Left(items, record), evs, next);
  }

  /** A playlist started on an empty chat and followed by further calls of PlayNext; the first call is
      the handler's own.  If no failure clears the queue and the calls are enough, every track is
      attempted once, in order, and the queue ends empty. */
  method PlayPlaylist(calls: TelegramCalls, chatID: int, tracks: seq<MusicTrack>, limit: int,
                      worlds: seq<seq<World>>)
    returns (made: seq<Track>, ghost record: seq<(seq<Event>, seq<Item>)>)
    requires calls.Valid() && calls.Now(chatID, [])
    requires worlds != [] && AllSupplied(worlds, |tracks| + 1, 2 * |calls.assistants|)
    modifies calls`answers, calls.db, calls.chats, calls.chats.datas, calls.chats.bufs
    ensures calls.Valid() && fresh(made) && |made| == |WithinLimit(tracks, limit)|
    ensures forall i :: 0 <= i < |made| ==> made[i].trackID == WithinLimit(tracks, limit)[i].id
    ensures made == [] ==> record == []
    ensures made != [] ==> Playback.SessionDoes(Playback.FirstLooped(made), record)
                           && AllHappened(chatID, calls.assistants, record, worlds)
    ensures made != [] && |worlds| > |made| && Playback.NoneClears(Playback.Attempts(record)) ==>
              Playback.Tracks(Playback.Attempts(record)) == made && calls.Now(chatID, [])
    ensures made != [] && |worlds| > |made| && AllWell(chatID, calls.assistants, worlds) ==>
              Playback.PlayedTracks(Playback.Attempts(record)) == made && calls.Now(chatID, [])
  {
    ghost var evs, q, items;
    made, evs, q, items := HandleMultipleTracks(calls, chatID, tracks, limit, worlds[0], {}, [], []);
    record := [];
    if made != [] {
      InUseWider(q, items, {} + Members(made), Members(made));
      ghost var first := items;
      ghost var rest;
      StartedMeasure(made, evs, first);
      assert forall world :: world in worlds[1..] ==> world in worlds;
      rest, q, items := PlaySession(calls, chatID, worlds[1..], Members(made), q, first);
      record := [(evs, first)] + rest;
      PlaylistRecord(chatID, calls.assistants, made, evs, first, rest, worlds);
    }
  }

  lemma StartedMeasure<T>(made: seq<T>, evs: seq<Playback.Event<T>>, items: seq<Playback.Item<T>>)
    requires made != [] && Playback.PlayNextDoes(Playback.FirstLooped(made), evs, items)
    ensures Playback.Measure(items) <= |made|
  {
    Playback.FirstLoopedMeasure(made);
    Playback.CallFollowsSchedule(Playback.FirstLooped(made), evs, items);
  }

  /** What the answers to the first call and to the others make of a playlist. */
  lemma PlaylistRecord(chatID: int, assistants: set<int>, made: seq<Track>, evs: seq<Event>, items: seq<Item>,
                       rest: seq<(seq<Event>, seq<Item>)>, worlds: seq<seq<World>>)
    requires made != [] && Playback.PlayNextDoes(Playback.FirstLooped(made), evs, items)
    requires Playback.SessionDoes(items, rest) && worlds != []
    requires Happened(chatID, assistants, evs, worlds[0]) && AllHappened(chatID, assistants, rest, worlds[1..])
    ensures var record := [(evs, items)] + rest;
            && Playback.SessionDoes(Playback.FirstLooped(made), record)
            && AllHappened(chatID, assistants, record, worlds)
            && Playback.Left(Playback.FirstLooped(made), record) == Playback.Left(items, rest)
            && (|worlds| > |made| && Playback.NoneClears(Playback.Attempts(record)) ==>
                  Playback.Tracks(Playback.Attempts(record)) == made && Playback.Left(items, rest) == [])
            && (|worlds| > |made| && AllWell(chatID, assistants, worlds) ==>
                  Playback.PlayedTracks(Playback.Attempts(record)) == made && Playback.Left(items, rest) == [])
  {
    var record := [(evs, items)] + rest;
    assert record[1..] == rest;
    forall k | 0 <= k < |record| ensures Happened(chatID, assistants, record[k].0, worlds[k]) {
      if k > 0 { assert Happened(chatID, assistants, rest[k - 1].0, worlds[1..][k - 1]); }
    }
    if |worlds| > |made| && AllWell(chatID, assistants, worlds) {
      AllPlays(chatID, assistants, record, worlds);
      PlayedClearsNone(Playback.Attempts(record));
      Playback.PlaylistPlaysOnce(made, record);
    }
    if |worlds| > |made| && Playback.NoneClears(Playback.Attempts(record)) {
      Playback.PlaylistAttempted(made, record);
    }
  }

  /** A group chat with assistants numbered from 0; all messages are sent, all downloads succeed and every
      first call attempt does. */
  ghost predicate AllWell(chatID: int, assistants: set<int>, worlds: seq<seq<World>>) {
    && chatID <= 0 && Numbered(assistants)
    && forall k, a :: 0 <= k < |worlds| && 0 <= a < |worlds[k]| ==> Well(worlds[k][a])
  }

  predicate Well(w: World) {
    w.sent && w.download.Some? && w.calls != [] && w.calls[0] == Success
  }

  lemma WellPlays(chatID: int, assistants: set<int>, e: Event, w: World)
    requires Fits(chatID, assistants, e, w) && chatID <= 0 && Numbered(assistants) && Well(w)
    ensures e.result == Playback.Played(false)
  {
    var n: nat :| UsedUp(w.calls, n, e.result) && n > 0;
    assert !w.calls[0].Failure?;
  }

  lemma {:induction false} AllPlays(chatID: int, assistants: set<int>, record: seq<(seq<Event>, seq<Item>)>,
                                    worlds: seq<seq<World>>)
    requires AllHappened(chatID, assistants, record, worlds) && AllWell(chatID, assistants, worlds)
    ensures forall e :: e in Playback.Attempts(record) ==> e.result == Playback.Played(false)
  {
    if record != [] {
      var evs := record[0].0;
      AllPlays(chatID, assistants, record[1..], worlds[1..]);
      forall e | e in evs ensures e.result == Playback.Played(false) {
        var a :| 0 <= a < |evs| && evs[a] == e;
        assert Happened(chatID, assistants, record[0].0, worlds[0]);
        WellPlays(chatID, assistants, evs[a], worlds[0][a]);
      }
    }
  }

  lemma {:induction false} PlayedClearsNone(evs: seq<Event>)
    requires forall e :: e in evs ==> e.result == Playback.Played(false)
    ensures Playback.NoneClears(evs)
  {
    if evs != [] {
      PlayedClearsNone(evs[1..]);
    }
  }

  // ---------------------------------------------------------------- the other queue buttons

  /** The "up" button: refused for the first track of "up next"; `allowed` is the access check. */
  method MoveUp(chats: ChatCacher, chatID: int, n: int, allowed: bool) returns (ok: bool)
    requires chats.Valid()
    modifies chats.bufs
    ensures ok <==> allowed && 2 <= n < |old(chats.Queue(chatID))|
    ensures chats.Valid()
    ensures if n >= 2 && allowed then chats.Did(chatID, Queues.Move(n, n - 1)) else unchanged(chats.bufs)
  {
    if n < 2 || !allowed {
      return false;
    }
    ok := chats.MoveTrack(chatID, n, n - 1);
  }

  /** The "down" button: refused for the last track. */
  method MoveDown(chats: ChatCacher, chatID: int, n: int, allowed: bool) returns (ok: bool)
    requires chats.Valid()
    modifies chats.bufs
    ensures ok <==> allowed && 1 <= n < |old(chats.Queue(chatID))| - 1
    ensures chats.Valid() && if ok then chats.Did(chatID, Queues.Move(n, n + 1)) else unchanged(chats.bufs)
  {
    if n < 1 || !allowed {
      return false;
    }
    var length := chats.GetQueueLength(chatID);
    if n + 1 >= length {
      return false;
    }
    ok := chats.MoveTrack(chatID, n, n + 1);
  }

  /** The "remove" button: never the playing track. */
  method RemoveAt(chats: ChatCacher, chatID: int, n: int, allowed: bool) returns (ok: bool)
    requires chats.Valid()
    modifies chats.datas, chats.bufs
    ensures ok <==> allowed && 1 <= n < |old(chats.Queue(chatID))|
    ensures chats.Valid()
    ensures if ok then chats.Did(chatID, Queues.Remove(n)) else unchanged(chats.datas) && unchanged(chats.bufs)
    ensures ok ==> |chats.Queue(chatID)| == |old(chats.Queue(chatID))| - 1
    ensures ok ==> forall k :: 0 <= k < |chats.Queue(chatID)| ==>
                     chats.Queue(chatID)[k] == old(chats.Queue(chatID))[if k < n then k else k + 1]
  {
    var length := chats.GetQueueLength(chatID);
    if n < 1 || n >= length || !allowed {
      return false;
    }
    ok := chats.RemoveTrack(chatID, n);
  }

  /** Moving up swaps a track with the one before it, which is what moving that one down does, and
      either button undoes the other. */
  lemma {:induction false} UpIsDown<T>(q: seq<T>, n: int)
    requires 2 <= n < |q|
    ensures Queues.After(q, Queues.Move(n, n - 1)) == q[n - 1 := q[n]][n := q[n - 1]]
    ensures Queues.After(q, Queues.Move(n - 1, n)) == Queues.After(q, Queues.Move(n, n - 1))
    ensures Queues.After(Queues.After(q, Queues.Move(n, n - 1)), Queues.Move(n - 1, n)) == q
  {
    var r := q[n - 1 := q[n]][n := q[n - 1]];
    Queues.MoveIs(q, n, n - 1, r);
    Queues.MoveIs(q, n - 1, n, r);
    Queues.MoveUndone(q, n, n - 1);
  }
}
