/** The playback engine of `src/vc`: `PlayNext`, `playSong` and `Stop` (helpers.go, calls.go), and
    `PlayMedia` with its rotation over assistants (play.go).

    What the outside world answers during each attempt at a track - whether the message can be sent,
    what the download and each call attempt come to - is a parameter, and the contracts say what
    becomes of it.  Luck in choosing an assistant and failing store calls are arbitrary (`*`).
    Calls on one chat are sequential, and the tracks of a queue are distinct objects, as the handlers
    make them.  Ghost parameters name the chat's queue `q` and its tracks' fields `items`. */
module VoiceCalls {
  import opened ChatCache
  import Queues = QueueModel
  import opened Assistants
  import opened RotationModel
  import opened Options
  import Playback = PlaybackModel

  type Item = Playback.Item<Track>
  type Event = Playback.Event<Track>

  /** `items` are the tracks of a queue with their current loop counters and file paths. */
  ghost predicate Shows(q: seq<Track>, items: seq<Item>)
    reads q
  {
    |items| == |q| && forall i :: 0 <= i < |q| ==> items[i] == Playback.Item(q[i], q[i].loop, q[i].filePath)
  }

  ghost predicate AllDistinct(q: seq<Track>) {
    forall i, j :: 0 <= i < j < |q| ==> q[i] != q[j]
  }

  /** The tracks of a queue are distinct and among `tracks`. */
  ghost predicate InUse(q: seq<Track>, items: seq<Item>, tracks: set<Track>)
    reads q
  {
    AllDistinct(q) && Shows(q, items) && forall t :: t in q ==> t in tracks
  }

  /** What the outside world answers during one attempt at a track: whether the status message is sent,
      the path a download comes to, if it succeeds, and the attempts to join and play. */
  datatype World = World(sent: bool, download: Option<string>, calls: seq<Outcome>)

  /** Answers for so many attempts at tracks, with so many calls each. */
  ghost predicate Supplied(world: seq<World>, attempts: nat, calls: nat) {
    |world| >= attempts && forall k :: 0 <= k < |world| ==> |world[k].calls| >= calls
  }

  /** The turns make up a record, and its attempts are the first of those supplied; a private chat is
      refused instead. */
  ghost predicate OnRecord(chatID: int, turns: seq<Turn>, calls: seq<Outcome>, assistants: set<int>) {
    && TurnsOk(turns, assistants)
    && if turns != [] && chatID > 0 then Outcomes(turns) == [Failure(Unknown)] else Outcomes(turns) <= calls
  }

  /** What PlayMedia made of the call attempts: it used up some number of them, all failures except
      perhaps the last, plays exactly if that one succeeds, and any failure clears the queue.  In a
      private chat none is made; in a group none only if some index up to their number has no assistant. */
  ghost predicate MediaFits(chatID: int, assistants: set<int>, calls: seq<Outcome>, r: Playback.Result) {
    && (r.Played? || r.MediaFailed?)
    && (chatID > 0 ==> r == Playback.MediaFailed(false))
    && (chatID <= 0 ==> exists n :: UsedUp(calls, n, r) && (Numbered(assistants) ==> n > 0))
  }

  /** There are assistants, and they are numbered from 0. */
  ghost predicate Numbered(assistants: set<int>) {
    assistants != {} && forall i :: 0 <= i < |assistants| ==> i in assistants
  }

  ghost predicate UsedUp(calls: seq<Outcome>, n: nat, r: Playback.Result)
    requires r.Played? || r.MediaFailed?
  {
    && n <= |calls| && (forall j :: 0 <= j < n - 1 ==> calls[j].Failure?)
    && (r.Played? <==> n > 0 && calls[n - 1] == Success)
    && (r.cleared <==> exists j :: 0 <= j < n && calls[j].Failure?)
  }

  /** The event is what the world's answers make of an attempt: the track is lost to the send if that
      fails, to the download if it has no file and that fails, and else goes to PlayMedia with the file
      it had or exactly the one downloaded. */
  ghost predicate Fits(chatID: int, assistants: set<int>, e: Event, w: World) {
    && (e.result.SendFailed? <==> !w.sent)
    && (e.result.DownloadFailed? <==> w.sent && e.had == "" && w.download.None?)
    && (e.result.Played? || e.result.MediaFailed? ==>
          MediaFits(chatID, assistants, w.calls, e.result) && e.path == if e.had != "" then e.had else w.download.value)
  }

  /** The events of a call are what the world's answers make of its attempts, one by one. */
  ghost predicate Happened(chatID: int, assistants: set<int>, evs: seq<Event>, world: seq<World>) {
    |evs| <= |world| && forall k :: 0 <= k < |evs| ==> Fits(chatID, assistants, evs[k], world[k])
  }

  /** PlayMedia was called for the last attempt, unless that one did not get so far, and its answer
      was success exactly if the track counts as played. */
  ghost predicate Answered(evs: seq<Event>, before: seq<Verdict>, after: seq<Verdict>) {
    if evs == [] || evs[|evs| - 1].result.SendFailed? || evs[|evs| - 1].result.DownloadFailed? then after == before
    else |after| == |before| + 1 && before <= after
         && (after[|before|].Played? <==> evs[|evs| - 1].result.Played?)
  }

  datatype StopResult = NoAssistant | Stopped | StopFailed

  /** How ending the call turned out. */
  datatype CallEnd = Ended | NotFound | Broken

  class TelegramCalls {
    const assistants: set<int>   // the indexes that have a running client
    const chats: ChatCacher
    const db: Database
    ghost var answers: seq<Verdict>  // what PlayMedia has answered, call by call

    constructor (assistants: set<int>, chats: ChatCacher, db: Database)
      ensures this.assistants == assistants && this.chats == chats && this.db == db && answers == []
    {
      this.assistants, this.chats, this.db, answers := assistants, chats, db, [];
    }

    ghost predicate Valid()
      reads chats, chats.datas, chats.bufs, db
    {
      chats.Valid() && db.Valid()
    }

    /** The chat's queue is now `q`. */
    ghost predicate Now(chatID: int, q: seq<Track>)
      reads chats, chats.datas, chats.bufs
    {
      chats.Valid() && chats.Queue(chatID) == q
    }

    // ------------------------------------------------------------ one assistant

    /** The assistant for a chat, or -1 if none is available under the chosen index. */
    method GetGroupAssistant(chatID: int) returns (index: int, luck: Luck)
      requires db.Valid()
      modifies db
      ensures db.Valid()
      ensures db.history == old(db.history) + ClientOps(old(db.Value()), chatID, |assistants|, luck)
      ensures index != -1 ==> index in assistants && index == ClientIndex(old(db.Value()), chatID, |assistants|, luck)
      ensures index == -1 ==> ClientIndex(old(db.Value()), chatID, |assistants|, luck) !in assistants
    {
      luck := *;
      index := db.GetClientIndex(chatID, |assistants|, luck);
      if index !in assistants {
        return -1, luck;
      }
    }

    /** Joins the chat and plays, once.  Any failure in a group clears the chat's queue; private
        chats are refused before anything is tried. */
    method PlayOnce(chatID: int, index: int, call: Outcome, ghost q: seq<Track>) returns (o: Outcome)
      requires Now(chatID, q)
      modifies chats`chats, chats.bufs
      ensures o == if chatID > 0 then Failure(Unknown) else call
      ensures Now(chatID, if o.Failure? && chatID <= 0 then [] else q)
    {
      if chatID > 0 {
        return Failure(Unknown);
      }
      o := call;
      if o.Failure? {
        chats.ClearChat(chatID);
      }
    }

    /** One attempt with an assistant, or two if the first error asks for a retry. */
    method TakeTurn(chatID: int, index: int, calls: seq<Outcome>, ghost q: seq<Track>) returns (turn: Turn)
      requires Now(chatID, q) && |calls| >= 2
      modifies chats`chats, chats.bufs
      ensures turn.index == index && TurnOk(turn)
      ensures if chatID > 0 then turn.outcomes == [Failure(Unknown)] else turn.outcomes <= calls
      ensures Now(chatID, if turn.outcomes[0].Failure? && chatID <= 0 then [] else q)
    {
      var o := PlayOnce(chatID, index, calls[0], q);
      turn := Turn(index, [o]);
      if o == Failure(RetryOnce) {
        o := PlayOnce(chatID, index, calls[1], if o.Failure? && chatID <= 0 then [] else q);
        turn := Turn(index, [Failure(RetryOnce), o]);
      }
    }

    /** Since `before`, the store has seen what `turns` lead to. */
    ghost predicate Trail(before: seq<DbOp>, chatID: int, turns: seq<Turn>)
      requires forall k :: 0 <= k < |turns| ==> TurnOk(turns[k])
      reads db
    {
      before <= db.history && StoreTrail(db.history[|before|..], chatID, turns)
    }

    /** The assistant is assigned if it played, and evicted if its last error asks for another one.
        `turns` are those before this one. */
    method Settle(chatID: int, turn: Turn, ghost before: seq<DbOp>, ghost turns: seq<Turn>)
      requires db.Valid() && TurnOk(turn)
      requires (forall k :: 0 <= k < |turns| ==> TurnOk(turns[k])) && Trail(before, chatID, turns)
      modifies db
      ensures db.Valid() && Trail(before, chatID, turns + [turn])
    {
      ghost var op: seq<DbOp> := [];
      var writeOk: bool := *;
      if Final(turn).Success? {
        var _ := db.SetAssistant(chatID, turn.index, writeOk);
        op := [Set(chatID, turn.index, writeOk)];
      } else if Final(turn).kind.Rotate? {
        var _ := db.RemoveAssistant(chatID, writeOk);
        op := [Remove(chatID, writeOk)];
      }
      ExtendTrail(before, old(db.history), op, chatID, turns, turn);
      assert db.history == old(db.history) + op;
    }

    /** A turn with one more assistant, and the store call it leads to. */
    method NextTurn(chatID: int, index: int, calls: seq<Outcome>, ghost q: seq<Track>, ghost before: seq<DbOp>,
                    turns: seq<Turn>)
      returns (more: seq<Turn>)
      requires Valid() && Now(chatID, q) && |calls| >= 2 * |assistants|
      requires OnRecord(chatID, turns, calls, assistants) && Trail(before, chatID, turns)
      requires turns == [] || (chatID <= 0 && Final(turns[|turns| - 1]) == Failure(Rotate))
      requires index in assistants && index !in Indices(turns)
      modifies db, chats`chats, chats.bufs
      ensures Valid() && OnRecord(chatID, more, calls, assistants) && Trail(before, chatID, more)
      ensures |more| == |turns| + 1 && turns <= more && more[|turns|].index == index
      ensures Indices(more) == Indices(turns) + {index}
      ensures Now(chatID, if more[|turns|].outcomes[0].Failure? && chatID <= 0 then [] else q)
    {
      RoomForTurn(turns, assistants, index);
      var turn := TakeTurn(chatID, index, calls[|Outcomes(turns)|..], q);
      Settle(chatID, turn, before, turns);
      more := turns + [turn];
      TurnAdded(chatID, turns, turn, calls, assistants);
    }

    /** Any assistant not tried yet; the source walks a map in no particular order. */
    method NextUntried(tried: set<int>) returns (next: int, found: bool)
      ensures if found then next in assistants && next !in tried else assistants <= tried
    {
      if i :| i in assistants && i !in tried {
        return i, true;
      }
      forall x | x in assistants ensures x in tried { }
      return -1, false;
    }

    // ------------------------------------------------------------ rotation

    /** `PlayMedia`: the chat's own assistant first, once more if the error asks for it, and the other
        assistants in turn after a rotate error.  `calls` are what the attempts come to, as far as they
        are made; that no more are needed than two for each assistant is proved. */
    method PlayMedia(chatID: int, calls: seq<Outcome>, ghost q: seq<Track>)
      returns (verdict: Verdict, turns: seq<Turn>, luck: Luck, ghost ops: seq<DbOp>, ghost cleared: bool)
      requires Valid() && Now(chatID, q) && |calls| >= 2 * |assistants|
      modifies db, chats`chats, chats.bufs
      ensures Valid()
      ensures OnRecord(chatID, turns, calls, assistants) && StoreTrail(ops, chatID, turns)
      ensures db.history == old(db.history) + ClientOps(old(db.Value()), chatID, |assistants|, luck) + ops
      ensures if turns == [] then verdict.NoAssistant? else verdict == VerdictOf(turns)
      ensures turns != [] ==> turns[0].index == ClientIndex(old(db.Value()), chatID, |assistants|, luck)
      ensures turns == [] ==> ClientIndex(old(db.Value()), chatID, |assistants|, luck) !in assistants
      ensures verdict.Exhausted? ==> Indices(turns) == assistants
      ensures cleared <==> AnyFailure(turns) && chatID <= 0
      ensures Now(chatID, if cleared then [] else q)
    {
      turns, ops, cleared := [], [], false;
      var index;
      index, luck := GetGroupAssistant(chatID);
      if index == -1 {
        return Verdict.NoAssistant, turns, luck, ops, cleared;
      }
      verdict, turns, ops := PlayWith(chatID, index, calls, q);
      cleared := AnyFailure(turns) && chatID <= 0;
    }

    /** The part of `PlayMedia` after an assistant was found. */
    method PlayWith(chatID: int, index: int, calls: seq<Outcome>, ghost q: seq<Track>)
      returns (verdict: Verdict, turns: seq<Turn>, ghost ops: seq<DbOp>)
      requires Valid() && Now(chatID, q) && index in assistants && |calls| >= 2 * |assistants|
      modifies db, chats`chats, chats.bufs
      ensures Valid() && turns != [] && turns[0].index == index
      ensures OnRecord(chatID, turns, calls, assistants) && StoreTrail(ops, chatID, turns)
      ensures db.history == old(db.history) + ops
      ensures verdict == VerdictOf(turns) && (verdict.Exhausted? ==> Indices(turns) == assistants)
      ensures Now(chatID, if AnyFailure(turns) && chatID <= 0 then [] else q)
    {
      ghost var before := db.history;
      var first := NextTurn(chatID, index, calls, q, before, []);
      FirstTurn(chatID, first, calls, assistants);
      var final := Final(first[0]);
      if final == Failure(Rotate) {
        verdict, turns := RotateAndPlay(chatID, first, calls, before);
        StartsFailed(turns);
      } else {
        turns := first;
        verdict := if final.Success? then Played(index)
                   else if final.kind.Fatal? && |first[0].outcomes| == 1 then FatalMessage
                   else Failed(final.kind);
      }
      ops := db.history[|before|..];
      Split(before, db.history);
    }

    /** Tries the remaining assistants in any order until one plays, one fails for another reason than
        rotation, or none is left.  `first` is the one turn so far, which asked for the rotation. */
    method RotateAndPlay(chatID: int, first: seq<Turn>, calls: seq<Outcome>, ghost before: seq<DbOp>)
      returns (verdict: Verdict, turns: seq<Turn>)
      requires Valid() && chatID <= 0 && Now(chatID, []) && |calls| >= 2 * |assistants|
      requires OnRecord(chatID, first, calls, assistants) && Trail(before, chatID, first)
      requires |first| == 1 && Final(first[0]) == Failure(Rotate)
      modifies db, chats`chats, chats.bufs
      ensures Valid() && Now(chatID, [])
      ensures OnRecord(chatID, turns, calls, assistants) && Trail(before, chatID, turns)
      ensures turns != [] && turns[0] == first[0] && verdict == VerdictOf(turns)
      ensures verdict.Exhausted? ==> Indices(turns) == assistants
    {
      var tried := {first[0].index};
      turns := first;
      while true
        invariant Valid() && Now(chatID, [])
        invariant OnRecord(chatID, turns, calls, assistants) && Trail(before, chatID, turns)
        invariant turns != [] && turns[0] == first[0] && Indices(turns) == tried <= assistants
        invariant Final(turns[|turns| - 1]) == Failure(Rotate)
        decreases assistants - tried
      {
        var index, found := NextUntried(tried);
        if !found {
          return Exhausted, turns;
        }
        tried := tried + {index};
        turns := NextTurn(chatID, index, calls, [], before, turns);
        var final := Final(turns[|turns| - 1]);
        if final.Success? {
          return Played(index), turns;
        }
        if !final.kind.Rotate? {
          return Failed(final.kind), turns;
        }
      }
    }

    // ------------------------------------------------------------ the queue

    /** Clears the queue and ends the call, unless no assistant is available.  That there was no call to
        end is no error. */
    method Stop(chatID: int, ghost q: seq<Track>) returns (result: StopResult, end: CallEnd)
      requires Valid() && Now(chatID, q)
      modifies db, chats`chats, chats.bufs
      ensures Valid() && Now(chatID, if result.NoAssistant? then q else [])
      ensures !result.NoAssistant? ==> (result.StopFailed? <==> end.Broken?)
    {
      end := *;
      var index, _ := GetGroupAssistant(chatID);
      if index == -1 {
        return StopResult.NoAssistant, end;
      }
      chats.ClearChat(chatID);
      result := if end.Broken? then StopFailed else Stopped;
    }

    /** Reads the last track before it stops the call; recommendations follow only if there is one. */
    method HandleNoSong(chatID: int, ghost q: seq<Track>) returns (recommended: bool)
      requires Valid() && Now(chatID, q)
      modifies db, chats`chats, chats.bufs
      ensures Valid() && (Now(chatID, []) || Now(chatID, q)) && (recommended <==> q != [])
    {
      var lastTrack := chats.GetPlayingTrack(chatID);
      var _, _ := Stop(chatID, q);
      recommended := lastTrack != null;
    }

    /** Downloads the track in front if it has no file; a download without a path is no error. */
    method Prepare(song: Track, download: Option<string>, ghost q: seq<Track>, ghost items: seq<Item>)
      returns (failed: bool, ghost items': seq<Item>)
      requires q != [] && song == q[0] && AllDistinct(q) && Shows(q, items)
      modifies song`filePath
      ensures items' == [items[0].(path := song.filePath)] + items[1..] && Shows(q, items')
      ensures failed <==> old(song.filePath) == "" && download.None?
      ensures song.filePath == if old(song.filePath) != "" then old(song.filePath)
                               else if download.None? then "" else download.value
    {
      failed := false;
      if song.filePath == "" {
        failed := download.None?;
        song.filePath := if failed then "" else download.value;
      }
      items' := [items[0].(path := song.filePath)] + items[1..];
    }

    /** One of the current track's loops is used up. */
    method Replay(chatID: int, loop: int, ghost q: seq<Track>, ghost items: seq<Item>) returns (song: Track?)
      requires Now(chatID, q) && AllDistinct(q) && Shows(q, items) && q != [] && q[0].loop == loop > 0
      modifies {q[0]}`loop
      ensures Now(chatID, q) && song == q[0] && Shows(q, Playback.Advance(items).0)
    {
      var _ := chats.SetLoopCount(chatID, loop - 1);
      song := chats.GetPlayingTrack(chatID);
    }

    /** The track after the current one comes to the front, if there is one. */
    method Skip(chatID: int, ghost q: seq<Track>, ghost items: seq<Item>) returns (next: Track?)
      requires Now(chatID, q) && Shows(q, items) && (q != [] ==> q[0].loop <= 0)
      modifies chats.datas, chats.bufs
      ensures Now(chatID, Queues.After(q, Queues.RemoveCurrent))
      ensures Shows(Queues.After(q, Queues.RemoveCurrent), Playback.Advance(items).0)
      ensures next == if |q| >= 2 then q[1] else null
    {
      next := chats.GetUpcomingTrack(chatID);
      var _ := chats.RemoveCurrentSong(chatID);
    }

    /** Brings the next track to the front: the current one while it has loops left, else the one
        after it; null if there is neither. */
    method PickNext(chatID: int, ghost q: seq<Track>, ghost items: seq<Item>)
      returns (song: Track?, ghost q': seq<Track>)
      requires Now(chatID, q) && AllDistinct(q) && Shows(q, items)
      modifies chats.datas, chats.bufs, chats.Playing(chatID)`loop
      ensures Now(chatID, q') && Shows(q', Playback.Advance(items).0)
      ensures AllDistinct(q') && forall t :: t in q' ==> t in q
      ensures song == null <==> Playback.Advance(items).1.None?
      ensures song != null ==> q' != [] && song == q'[0]
    {
      var loop := chats.GetLoopCount(chatID);
      if loop > 0 {
        song := Replay(chatID, loop, q, items);
        q' := q;
      } else {
        song := Skip(chatID, q, items);
        q' := Queues.After(q, Queues.RemoveCurrent);
      }
    }

    /** The next track of the queue is played, unless there is none.  `q` and `items` are the chat's
        queue before, `q'` and `items'` after; `tracks` are those that may be written to. */
    method PlayNext(chatID: int, world: seq<World>, ghost tracks: set<Track>, ghost q: seq<Track>,
                    ghost items: seq<Item>)
      returns (recommended: bool, ghost evs: seq<Event>, ghost q': seq<Track>, ghost items': seq<Item>)
      requires Valid() && Now(chatID, q) && InUse(q, items, tracks)
      requires Supplied(world, Playback.Measure(items), 2 * |assistants|)
      modifies this`answers, db, chats`chats, chats.datas, chats.bufs, tracks
      ensures Valid() && Now(chatID, q') && InUse(q', items', tracks)
      ensures Playback.PlayNextDoes(items, evs, items') && Happened(chatID, assistants, evs, world)
      ensures !recommended && Answered(evs, old(answers), answers)
      decreases Playback.Measure(items), 1
    {
      Playback.AdvanceSchedule(items);
      var song, picked := PickNext(chatID, q, items);
      if song != null {
        recommended, evs, q', items' := PlaySong(chatID, song, world, tracks, picked, Playback.Advance(items).0);
      } else {
        recommended := HandleNoSong(chatID, []);
        evs, q', items' := [], [], [];
      }
    }

    /** Announces the track in front, then plays it. */
    method PlaySong(chatID: int, song: Track, world: seq<World>, ghost tracks: set<Track>, ghost q: seq<Track>,
                    ghost items: seq<Item>)
      returns (recommended: bool, ghost evs: seq<Event>, ghost q': seq<Track>, ghost items': seq<Item>)
      requires Valid() && Now(chatID, q) && InUse(q, items, tracks)
      requires q != [] && song == q[0]
      requires Supplied(world, Playback.Measure(items) + 1, 2 * |assistants|)
      modifies this`answers, db, chats`chats, chats.datas, chats.bufs, tracks
      ensures Valid() && Now(chatID, q') && InUse(q', items', tracks)
      ensures Playback.PlaySongDoes(items, evs, items') && Happened(chatID, assistants, evs, world)
      ensures !recommended && Answered(evs, old(answers), answers)
      decreases Playback.Measure(items), 4
    {
      if world[0].sent {
        recommended, evs, q', items' := PlayAnnounced(chatID, song, world, tracks, q, items);
      } else {
        ghost var e := Playback.Event(song, Playback.SendFailed, song.filePath, song.filePath);
        recommended, evs, q', items' := false, [e], q, items;
        LastAttempt(items, e, items');
      }
    }

    /** Downloads and plays the track in front; after a failed download, the next one is played. */
    method PlayAnnounced(chatID: int, song: Track, world: seq<World>, ghost tracks: set<Track>, ghost q: seq<Track>,
                         ghost items: seq<Item>)
      returns (recommended: bool, ghost evs: seq<Event>, ghost q': seq<Track>, ghost items': seq<Item>)
      requires Valid() && Now(chatID, q) && InUse(q, items, tracks)
      requires q != [] && song == q[0]
      requires Supplied(world, Playback.Measure(items) + 1, 2 * |assistants|) && world[0].sent
      modifies this`answers, db, chats`chats, chats.datas, chats.bufs, tracks
      ensures Valid() && Now(chatID, q') && InUse(q', items', tracks)
      ensures Playback.PlaySongDoes(items, evs, items') && Happened(chatID, assistants, evs, world)
      ensures !recommended && Answered(evs, old(answers), answers)
      decreases Playback.Measure(items), 3
    {
      var failed, prepared := Prepare(song, world[0].download, q, items);
      if failed {
        recommended, evs, q', items' := PlayAfterFailure(chatID, song, world, tracks, q, items);
      } else {
        recommended := false;
        evs, q', items' := PlayPrepared(chatID, song, world, tracks, q, items, prepared);
      }
    }

    /** The track in front could not be downloaded and has no file; the next one is played. */
    method PlayAfterFailure(chatID: int, song: Track, world: seq<World>, ghost tracks: set<Track>,
                            ghost q: seq<Track>, ghost items: seq<Item>)
      returns (recommended: bool, ghost evs: seq<Event>, ghost q': seq<Track>, ghost items': seq<Item>)
      requires Valid() && Now(chatID, q) && InUse(q, items, tracks)
      requires items != [] && song == items[0].track && items[0].path == ""
      requires Supplied(world, Playback.Measure(items) + 1, 2 * |assistants|)
      requires world[0].sent && world[0].download.None?
      modifies this`answers, db, chats`chats, chats.datas, chats.bufs, tracks
      ensures Valid() && Now(chatID, q') && InUse(q', items', tracks)
      ensures Playback.PlaySongDoes(items, evs, items') && Happened(chatID, assistants, evs, world)
      ensures !recommended && Answered(evs, old(answers), answers)
      decreases Playback.Measure(items), 2
    {
      ghost var e := Playback.Event(song, Playback.DownloadFailed, "", "");
      recommended, evs, q', items' := PlayNext(chatID, world[1..], tracks, q, items);
      SkipThen(items, e, evs, items', old(answers), answers);
      HappenedThen(chatID, assistants, e, evs, world);
      evs := [e] + evs;
    }

    /** Plays the track in front, which has a file or was downloaded; `items` is the queue before that
        and `prepared` the queue now. */
    method PlayPrepared(chatID: int, song: Track, world: seq<World>, ghost tracks: set<Track>, ghost q: seq<Track>,
                        ghost items: seq<Item>, ghost prepared: seq<Item>)
      returns (ghost evs: seq<Event>, ghost q': seq<Track>, ghost items': seq<Item>)
      requires Valid() && Now(chatID, q) && InUse(q, prepared, tracks) && IsPrepared(song, items, prepared, world)
      requires |world[0].calls| >= 2 * |assistants|
      modifies this`answers, db, chats`chats, chats.bufs
      ensures Valid() && Now(chatID, q') && InUse(q', items', tracks)
      ensures Playback.PlaySongDoes(items, evs, items') && Happened(chatID, assistants, evs, world)
      ensures Answered(evs, old(answers), answers)
    {
      ghost var result := CallPlayMedia(chatID, world[0].calls, q);
      ghost var e := Playback.Event(song, result, items[0].path, prepared[0].path);
      evs := [e];
      q' := if result.cleared then [] else q;
      items' := if result.cleared then [] else prepared;
      AnsweredOnce(e, old(answers), answers);
      Attempted(chatID, assistants, world, items, prepared, e, items');
    }

    method CallPlayMedia(chatID: int, calls: seq<Outcome>, ghost q: seq<Track>) returns (ghost result: Playback.Result)
      requires Valid() && Now(chatID, q) && |calls| >= 2 * |assistants|
      modifies this`answers, db, chats`chats, chats.bufs
      ensures Valid() && MediaFits(chatID, assistants, calls, result)
      ensures |answers| == |old(answers)| + 1 && old(answers) <= answers
      ensures answers[|old(answers)|].Played? <==> result.Played?
      ensures Now(chatID, if result.cleared then [] else q)
    {
      ghost var before := db.Value();
      db.CoherentNow();
      var verdict, turns, luck, ops, cleared := PlayMedia(chatID, calls, q);
      SomeoneServes(before, chatID, assistants, luck);
      answers := answers + [verdict];
      result := if verdict.Played? then Playback.Played(cleared) else Playback.MediaFailed(cleared);
      TurnsFit(chatID, assistants, calls, turns, result);
    }
  }

  // ---------------------------------------------------------------- growing the record

  /** An attempt that is not skipped is the last one, and determines the queue it leaves. */
  lemma LastAttempt(items: seq<Item>, e: Event, items': seq<Item>)
    requires items != [] && e.track == items[0].track && e.had == items[0].path
    requires Playback.PathOk(items[0], e) && !e.result.DownloadFailed?
    ensures Playback.PlaySongDoes(items, [e], items') <==> items' == Playback.Effect(items, e)
  {
  }

  lemma AnsweredOnce(e: Event, before: seq<Verdict>, after: seq<Verdict>)
    requires !e.result.SendFailed? && !e.result.DownloadFailed?
    requires |after| == |before| + 1 && before <= after && (after[|before|].Played? <==> e.result.Played?)
    ensures Answered([e], before, after)
  {
  }

  /** The track in front is sent and has a file now: the one it had, or exactly the one downloaded. */
  ghost predicate IsPrepared(song: Track, items: seq<Item>, prepared: seq<Item>, world: seq<World>) {
    && items != [] && song == items[0].track && world != [] && world[0].sent
    && (items[0].path == "" ==> world[0].download.Some?)
    && prepared == [items[0].(path := if items[0].path != "" then items[0].path else world[0].download.value)]
                   + items[1..]
  }

  /** An attempt that got as far as PlayMedia, told from before the track was prepared. */
  lemma Attempted(chatID: int, assistants: set<int>, world: seq<World>, items: seq<Item>, prepared: seq<Item>,
                  e: Event, items': seq<Item>)
    requires IsPrepared(e.track, items, prepared, world)
    requires (e.result.Played? || e.result.MediaFailed?) && MediaFits(chatID, assistants, world[0].calls, e.result)
    requires e.had == items[0].path && e.path == prepared[0].path
    requires items' == if e.result.cleared then [] else prepared
    ensures Playback.PlaySongDoes(items, [e], items') && Happened(chatID, assistants, [e], world)
  {
    LastAttempt(items, e, items');
  }

  lemma HappenedThen(chatID: int, assistants: set<int>, e: Event, evs: seq<Event>, world: seq<World>)
    requires world != [] && Fits(chatID, assistants, e, world[0]) && Happened(chatID, assistants, evs, world[1..])
    ensures Happened(chatID, assistants, [e] + evs, world)
  {
    forall k | 0 <= k < |evs| + 1 ensures Fits(chatID, assistants, ([e] + evs)[k], world[k]) {
      if k > 0 { assert Fits(chatID, assistants, evs[k - 1], world[1..][k - 1]); }
    }
  }

  /** With assistants numbered from 0, the index chosen is always one of theirs. */
  lemma SomeoneServes(s: State, chatID: int, assistants: set<int>, luck: Luck)
    requires Coherent(s)
    ensures Numbered(assistants) ==> ClientIndex(s, chatID, |assistants|, luck) in assistants
  {
    if Numbered(assistants) {
      ChosenIndex(s, chatID, |assistants|, luck);
    }
  }

  /** The record of a PlayMedia call, seen from its call attempts. */
  lemma TurnsFit(chatID: int, assistants: set<int>, calls: seq<Outcome>, turns: seq<Turn>, r: Playback.Result)
    requires OnRecord(chatID, turns, calls, assistants) && (Numbered(assistants) ==> turns != [])
    requires r.Played? || r.MediaFailed?
    requires r.Played? <==> turns != [] && VerdictOf(turns).Played?
    requires r.cleared <==> AnyFailure(turns) && chatID <= 0
    ensures MediaFits(chatID, assistants, calls, r)
  {
    var used := Outcomes(turns);
    OnlyLastSucceeds(turns, assistants);
    FailureAmongOutcomes(turns);
    if chatID <= 0 {
      assert UsedUp(calls, |used|, r) by {
        assert forall j :: 0 <= j < |used| ==> used[j] == calls[j];
      }
    }
  }

  /** There is an untried assistant, so two more answers are at hand. */
  lemma RoomForTurn(turns: seq<Turn>, assistants: set<int>, index: int)
    requires TurnsOk(turns, assistants) && index in assistants && index !in Indices(turns)
    ensures |Outcomes(turns)| + 2 <= 2 * |assistants|
  {
    OnlyLastSucceeds(turns, assistants);
    IndicesCount(turns);
    IndicesAmong(turns, assistants);
    FewerMembers(Indices(turns), assistants - {index});
  }

  lemma {:induction false} FewerMembers<T>(a: set<T>, b: set<T>)
    requires a <= b
    ensures |a| <= |b|
  {
    if a != {} {
      var x :| x in a;
      FewerMembers(a - {x}, b - {x});
    }
  }

  lemma Split<T>(a: seq<T>, b: seq<T>)
    requires a <= b
    ensures b == a + b[|a|..]
  {
  }

  lemma JoinPrefix(calls: seq<Outcome>, used: seq<Outcome>, more: seq<Outcome>)
    requires used <= calls && more <= calls[|used|..]
    ensures used + more <= calls
  {
  }

  lemma SkipThen(items: seq<Item>, e: Event, evs: seq<Event>, items': seq<Item>,
                 before: seq<Verdict>, after: seq<Verdict>)
    requires items != [] && e.track == items[0].track && e.had == items[0].path
    requires Playback.PathOk(items[0], e) && e.result.DownloadFailed?
    requires Playback.PlayNextDoes(Playback.Effect(items, e), evs, items') && Answered(evs, before, after)
    ensures Playback.PlaySongDoes(items, [e] + evs, items') && Answered([e] + evs, before, after)
  {
    assert ([e] + evs)[1..] == evs;
    if evs != [] { assert ([e] + evs)[|evs|] == evs[|evs| - 1]; }
  }

  lemma IndicesAmong(turns: seq<Turn>, assistants: set<int>)
    requires TurnsOk(turns, assistants)
    ensures Indices(turns) <= assistants
  {
  }

  /** A turn with an assistant not tried before, after none or a rotate error, makes up a longer record. */
  lemma TurnAdded(chatID: int, turns: seq<Turn>, t: Turn, calls: seq<Outcome>, assistants: set<int>)
    requires OnRecord(chatID, turns, calls, assistants) && |Outcomes(turns)| <= |calls|
    requires turns == [] || (chatID <= 0 && Final(turns[|turns| - 1]) == Failure(Rotate))
    requires TurnOk(t) && t.index in assistants && t.index !in Indices(turns)
    requires if chatID > 0 then t.outcomes == [Failure(Unknown)] else t.outcomes <= calls[|Outcomes(turns)|..]
    ensures OnRecord(chatID, turns + [t], calls, assistants)
    ensures Indices(turns + [t]) == Indices(turns) + {t.index}
  {
    AppendTurn(turns, t, assistants);
    OutcomesGrow(turns, t);
    if chatID <= 0 {
      JoinPrefix(calls, Outcomes(turns), t.outcomes);
    }
  }

  /** The record of one turn. */
  lemma FirstTurn(chatID: int, turns: seq<Turn>, calls: seq<Outcome>, assistants: set<int>)
    requires OnRecord(chatID, turns, calls, assistants) && |turns| == 1
    ensures chatID > 0 ==> Final(turns[0]) == Failure(Unknown)
    ensures AnyFailure(turns) <==> turns[0].outcomes[0].Failure?
  {
    assert turns[..0] == [];
    AnyFailureInit(turns);
    OnlyLastSucceeds(turns, assistants);
    assert turns[0].outcomes[0] in turns[0].outcomes;
  }

  lemma StartsFailed(turns: seq<Turn>)
    requires turns != [] && TurnOk(turns[0]) && Final(turns[0]).Failure?
    ensures AnyFailure(turns)
  {
    assert HasFailure(turns[0]);
  }

  lemma AppendTurn(turns: seq<Turn>, t: Turn, assistants: set<int>)
    requires TurnsOk(turns, assistants) && (turns == [] || Final(turns[|turns| - 1]) == Failure(Rotate))
    requires TurnOk(t) && t.index in assistants && t.index !in Indices(turns)
    ensures TurnsOk(turns + [t], assistants) && Indices(turns + [t]) == Indices(turns) + {t.index}
  {
    forall k | 0 <= k < |turns| ensures turns[k].index in Indices(turns) {
      assert turns[k] in turns;
    }
    assert forall x :: x in turns + [t] <==> x in turns || x == t;
  }

  lemma {:induction false} ExtendTrail(before: seq<DbOp>, now: seq<DbOp>, op: seq<DbOp>, chat: int,
                                       turns: seq<Turn>, t: Turn)
    requires (forall k :: 0 <= k < |turns| ==> TurnOk(turns[k])) && TurnOk(t)
    requires before <= now && StoreTrail(now[|before|..], chat, turns) && TurnTrail(t, chat, op)
    ensures before <= now + op && StoreTrail((now + op)[|before|..], chat, turns + [t])
  {
    var ops := now[|before|..];
    assert (now + op)[|before|..] == ops + op;
    assert (turns + [t])[..|turns|] == turns;
    assert (ops + op)[..|ops|] == ops && (ops + op)[|ops|..] == op;
  }
}
