/** The per-chat music queues of `src/core/cache/chat_cache.go`.

    `ChatData` keeps a queue as Go keeps a slice: a window of a backing array, which the operations
    cut, overwrite and shift in place.  `ChatCacher` maps chats to such queues.  Every operation is
    proved to do to its chat's queue what `QueueModel.After` says, and nothing to other chats. */
module ChatCache {
  import opened QueueModel

  class Track {
    const trackID: string
    var loop: int
    var filePath: string

    constructor (trackID: string, filePath: string)
      ensures this.trackID == trackID && this.filePath == filePath && loop == 0
    {
      this.trackID, this.filePath, loop := trackID, filePath, 0;
    }
  }

  class ChatData {
    var buf: array<Track?>
    var start: nat
    var len: nat

    ghost predicate Valid()
      reads this, buf
    {
      start + len <= buf.Length && forall i :: start <= i < start + len ==> buf[i] != null
    }

    ghost function Queue(): (q: seq<Track>)
      requires Valid()
      reads this, buf
      ensures |q| == len
    {
      buf[start..start + len]
    }

    /** The window holds `q`, cell by cell. */
    ghost predicate Shows(q: seq<Track>)
      reads this, buf
    {
      && start + len <= buf.Length && |q| == len
      && forall p {:trigger buf[p]} :: start <= p < start + len ==> buf[p] == q[p - start]
    }

    lemma ShownIsQueue(q: seq<Track>)
      requires Shows(q)
      ensures Valid() && Queue() == q
    {
      forall i | 0 <= i < len ensures buf[start..start + len][i] == q[i] {
        assert buf[start + i] == q[i];
      }
    }

    lemma QueueIsShown()
      requires Valid()
      ensures Shows(Queue())
    {
    }

    constructor ()
      ensures Valid() && Queue() == [] && fresh(buf)
    {
      buf, start, len := new Track?[0], 0, 0;
    }

    /** Appends in place while the backing array has room, else moves to a larger one. */
    method Append(songs: seq<Track>)
      requires Valid()
      modifies this, buf
      ensures Valid() && Queue() == After(old(Queue()), Add(songs))
      ensures buf == old(buf) || fresh(buf)
    {
      QueueIsShown();
      ghost var q := Queue();
      var n := len + |songs|;
      if buf.Length < start + n {
        var bigger := new Track?[2 * n];
        forall i | 0 <= i < len {
          bigger[i] := buf[start + i];
        }
        buf, start := bigger, 0;
      }
      forall i | 0 <= i < |songs| {
        buf[start + len + i] := songs[i];
      }
      len := n;
      forall p | start <= p < start + len ensures buf[p] == (q + songs)[p - start] {
      }
      ShownIsQueue(q + songs);
    }

    method RemoveCurrent() returns (removed: Track?)
      requires Valid()
      modifies this, buf
      ensures Valid() && buf == old(buf) && Queue() == After(old(Queue()), QueueOp.RemoveCurrent)
      ensures removed == if old(Queue()) == [] then null else old(Queue())[0]
    {
      if len == 0 {
        return null;
      }
      removed := buf[start];
      buf[start] := null;
      start, len := start + 1, len - 1;
    }

    /** Shifts the tail down over the removed track, clears the freed cell and shrinks the window. */
    method RemoveAt(index: int) returns (ok: bool)
      requires Valid()
      modifies this, buf
      ensures Valid() && buf == old(buf) && Queue() == After(old(Queue()), Remove(index))
      ensures ok <==> 0 <= index < |old(Queue())|
    {
      if index < 0 || index >= len {
        return false;
      }
      QueueIsShown();
      ghost var q := Queue();
      Copy(start + index, start + index + 1, len - index - 1);
      buf[start + len - 1] := null;
      len := len - 1;
      forall p | start <= p < start + len ensures buf[p] == Delete(q, index)[p - start] {
      }
      ShownIsQueue(Delete(q, index));
      return true;
    }

    /** Go's copy within one slice: it reads every source cell before it overwrites it. */
    method Copy(dst: nat, src: nat, n: nat)
      requires dst + n <= buf.Length && src + n <= buf.Length
      modifies buf
      ensures forall i {:trigger buf[i]} :: 0 <= i < buf.Length ==>
                buf[i] == if dst <= i < dst + n then old(buf[src + i - dst]) else old(buf[i])
    {
      forall i | 0 <= i < n {
        buf[dst + i] := buf[src + i];
      }
    }

    method MoveTrack(from: int, to: int) returns (ok: bool)
      requires Valid()
      modifies buf
      ensures Valid() && Queue() == After(old(Queue()), Move(from, to))
      ensures ok <==> MoveAllowed(|old(Queue())|, from, to)
    {
      if from == to || from <= 0 || to <= 0 || from >= len || to >= len {
        return false;
      }
      QueueIsShown();
      ghost var q := Queue();
      if from < to {
        MoveDown(q, from, to);
      } else {
        MoveUp(q, from, to);
      }
      MovedQueue(q, from, to);
      return true;
    }

    ghost predicate ShowsMoved(q: seq<Track>, from: nat, to: nat)
      requires MoveAllowed(|q|, from, to)
      reads this, buf
    {
      && start + len <= buf.Length && |q| == len
      && forall p {:trigger buf[p]} :: start <= p < start + len ==> buf[p] == q[MovedFrom(p - start, from, to)]
    }

    lemma MovedQueue(q: seq<Track>, from: nat, to: nat)
      requires MoveAllowed(|q|, from, to) && ShowsMoved(q, from, to)
      ensures Valid() && Queue() == After(q, Move(from, to))
    {
      var r := Queue();
      forall k | 0 <= k < len ensures r[k] == q[MovedFrom(k, from, to)] {
        assert r[k] == buf[start + k];
      }
      MoveIs(q, from, to, r);
    }

    /** Copies `n` tracks of the queue from position `src` on to position `dst` on. */
    method Shift(ghost q: seq<Track>, dst: nat, src: nat, n: nat)
      requires Shows(q) && dst + n <= |q| && src + n <= |q|
      modifies buf
      ensures forall p {:trigger buf[p]} :: start <= p < start + len ==>
                buf[p] == q[if dst <= p - start < dst + n then p - start + src - dst else p - start]
    {
      Copy(start + dst, start + src, n);
    }

    /** Moves one track down by shifting those in between up, with one overlapping copy. */
    method MoveDown(ghost q: seq<Track>, from: nat, to: nat)
      requires MoveAllowed(|q|, from, to) && from < to && Shows(q)
      modifies buf
      ensures ShowsMoved(q, from, to)
    {
      var track := buf[start + from];
      Shift(q, from, from + 1, to - from);
      buf[start + to] := track;
    }

    /** Moves one track up by shifting those in between down. */
    method MoveUp(ghost q: seq<Track>, from: nat, to: nat)
      requires MoveAllowed(|q|, from, to) && to < from && Shows(q)
      modifies buf
      ensures ShowsMoved(q, from, to)
    {
      var track := buf[start + from];
      Shift(q, to + 1, to, from - to);
      buf[start + to] := track;
    }

    method ReverseUpNext()
      requires Valid()
      modifies buf
      ensures Valid() && Queue() == After(old(Queue()), Reverse)
    {
      if len <= 2 {
        return;
      }
      ghost var q := Queue();
      ReverseCells();
      forall k | 0 < k < len ensures Queue()[k] == q[len - k] {
        assert Queue()[k] == buf[start + k];
      }
      ReverseIs(q, Queue());
    }

    /** Swaps the outermost pair of "up next", then the next one inwards. */
    method ReverseCells()
      requires Valid() && len > 2
      modifies buf
      ensures buf[start] == old(buf[start])
      ensures forall p {:trigger buf[p]} :: start < p < start + len ==> buf[p] == old(buf[start + start + len - p])
    {
      var first, last := start + 1, start + len - 1;
      var i, j := first, last;
      while i < j
        invariant first <= i <= j + 1 && j == first + last - i
        invariant buf[start] == old(buf[start])
        invariant forall p {:trigger buf[p]} :: first <= p < i || j < p <= last ==> buf[p] == old(buf[first + last - p])
        invariant forall p {:trigger buf[p]} :: i <= p <= j ==> buf[p] == old(buf[p])
      {
        buf[i], buf[j] := buf[j], buf[i];
        i, j := i + 1, j - 1;
      }
    }

    /** Go's rand.Shuffle over "up next": position `i`, from the last down, swaps with a random one
        not after it. */
    method ShuffleUpNext(picks: seq<nat>)
      requires Valid()
      modifies buf
      ensures Valid() && Queue() == After(old(Queue()), Shuffle(picks))
    {
      if len <= 2 {
        return;
      }
      ghost var q := Queue();
      ShuffleCells(picks);
      ShownIsQueue([q[0]] + Shuffled(q[1..], picks, len - 2));
    }

    method ShuffleCells(picks: seq<nat>)
      requires Valid() && len > 2
      modifies buf
      ensures buf[start] == old(buf[start])
      ensures Shows([old(Queue())[0]] + Shuffled(old(Queue())[1..], picks, len - 2))
    {
      var i := len - 2;
      ghost var s := Queue()[1..];
      ghost var goal := Shuffled(s, picks, i);
      while i > 0
        invariant 0 <= i < len - 1 == |s|
        invariant buf[start] == old(buf[start])
        invariant ShowsUpNext(s)
        invariant Shuffled(s, picks, i) == goal
      {
        var j := Pick(picks, i);
        SwapCells(s, i, j);
        s := Swap(s, i, j);
        i := i - 1;
      }
    }

    ghost predicate ShowsUpNext(s: seq<Track>)
      reads this, buf
    {
      && start + len <= buf.Length && |s| + 1 == len
      && forall p {:trigger buf[p]} :: start < p < start + len ==> buf[p] == s[p - start - 1]
    }

    method SwapCells(ghost s: seq<Track>, i: nat, j: nat)
      requires ShowsUpNext(s) && i < |s| && j < |s|
      modifies buf
      ensures ShowsUpNext(Swap(s, i, j)) && buf[start] == old(buf[start])
    {
      var first := start + 1;
      buf[first + i], buf[first + j] := buf[first + j], buf[first + i];
    }

    /** Drops the tracks before "up next" position `pos` into a new backing array. */
    method TrimBefore(pos: int)
      requires Valid()
      modifies this, buf
      ensures Valid() && Queue() == After(old(Queue()), Trim(pos))
      ensures buf == old(buf) || fresh(buf)
    {
      if len <= 1 || pos <= 1 || pos >= len {
        return;
      }
      ghost var q := Queue();
      forall i | 1 <= i < pos {
        buf[start + i] := null;
      }
      var kept := new Track?[len - pos + 1];
      kept[0] := buf[start];
      forall i | pos <= i < len {
        kept[1 + i - pos] := buf[start + i];
      }
      buf, start, len := kept, 0, len - pos + 1;
      assert forall i :: 1 <= i < len ==> buf[i] == q[pos + i - 1];
    }

    method Clear()
      requires Valid()
      modifies buf
      ensures forall i :: start <= i < start + len ==> buf[i] == null
    {
      forall i | 0 <= i < len {
        buf[start + i] := null;
      }
    }
  }

  class ChatCacher {
    var chats: map<int, ChatData>
    ghost var datas: set<ChatData>
    ghost var bufs: set<array<Track?>>

    /** No two chats share a queue or a backing array. */
    ghost predicate Valid()
      reads this, datas, bufs
    {
      && (forall c :: c in chats ==> chats[c] in datas && chats[c].buf in bufs && chats[c].Valid())
      && (forall c, d :: c in chats && d in chats && c != d ==>
            chats[c] != chats[d] && chats[c].buf != chats[d].buf)
    }

    /** A chat without a queue object has the empty queue. */
    ghost function Queue(chatID: int): seq<Track>
      requires Valid()
      reads this, datas, bufs
    {
      if chatID in chats then chats[chatID].Queue() else []
    }

    /** The operation did `op` to the chat's queue, and nothing to the others. */
    twostate predicate Did(chatID: int, op: QueueOp<Track>)
      requires old(Valid())
      reads this, datas, bufs
    {
      && Valid() && fresh(datas - old(datas)) && fresh(bufs - old(bufs))
      && Queue(chatID) == After(old(Queue(chatID)), op)
      && forall c :: c != chatID ==> Queue(c) == old(Queue(c))
    }

    constructor ()
      ensures Valid() && chats == map[] && datas == {} && bufs == {}
    {
      chats, datas, bufs := map[], {}, {};
    }

    method GetOrCreate(chatID: int) returns (data: ChatData)
      requires Valid()
      modifies this
      ensures Valid() && chatID in chats && chats[chatID] == data
      ensures fresh(datas - old(datas)) && fresh(bufs - old(bufs))
      ensures forall c :: Queue(c) == old(Queue(c))
    {
      if chatID in chats {
        return chats[chatID];
      }
      data := new ChatData();
      chats, datas, bufs := chats[chatID := data], datas + {data}, bufs + {data.buf};
      forall c | c in chats && c != chatID ensures chats[c].Valid() && chats[c].Queue() == old(chats[c].Queue()) { }
    }

    method AddSongs(chatID: int, songs: seq<Track>) returns (n: int)
      requires Valid()
      modifies this, datas, bufs
      ensures Did(chatID, Add(songs)) && n == |Queue(chatID)|
    {
      var data := GetOrCreate(chatID);
      n := AppendTo(chatID, songs);
    }

    method AppendTo(chatID: int, songs: seq<Track>) returns (n: int)
      requires Valid() && chatID in chats
      modifies this`bufs, datas, bufs
      ensures Did(chatID, Add(songs)) && n == |Queue(chatID)|
    {
      chats[chatID].Append(songs);
      n := chats[chatID].len;
      bufs := bufs + {chats[chatID].buf};
      forall c | c in chats && c != chatID ensures chats[c].Valid() && chats[c].Queue() == old(chats[c].Queue()) { }
    }

    method AddSong(chatID: int, song: Track) returns (n: int)
      requires Valid()
      modifies this, datas, bufs
      ensures Did(chatID, Add([song])) && n == |Queue(chatID)|
    {
      n := AddSongs(chatID, [song]);
    }

    method GetPlayingTrack(chatID: int) returns (t: Track?)
      requires Valid()
      ensures t == if Queue(chatID) == [] then null else Queue(chatID)[0]
    {
      if chatID !in chats || chats[chatID].len == 0 {
        return null;
      }
      t := chats[chatID].buf[chats[chatID].start];
    }

    method GetUpcomingTrack(chatID: int) returns (t: Track?)
      requires Valid()
      ensures t == if |Queue(chatID)| < 2 then null else Queue(chatID)[1]
    {
      if chatID !in chats || chats[chatID].len < 2 {
        return null;
      }
      t := chats[chatID].buf[chats[chatID].start + 1];
    }

    method GetQueueLength(chatID: int) returns (n: nat)
      requires Valid()
      ensures n == |Queue(chatID)|
    {
      n := if chatID in chats then chats[chatID].len else 0;
    }

    method RemoveCurrentSong(chatID: int) returns (removed: Track?)
      requires Valid()
      modifies datas, bufs
      ensures Did(chatID, QueueOp.RemoveCurrent)
      ensures removed == if old(Queue(chatID)) == [] then null else old(Queue(chatID))[0]
    {
      if chatID !in chats {
        return null;
      }
      removed := chats[chatID].RemoveCurrent();
      forall c | c in chats && c != chatID ensures chats[c].Valid() && chats[c].Queue() == old(chats[c].Queue()) { }
    }

    method RemoveTrack(chatID: int, index: int) returns (ok: bool)
      requires Valid()
      modifies datas, bufs
      ensures Did(chatID, Remove(index))
      ensures ok <==> 0 <= index < |old(Queue(chatID))|
      ensures ok ==> |Queue(chatID)| == |old(Queue(chatID))| - 1
      ensures ok ==> forall k :: 0 <= k < |Queue(chatID)| ==>
                       Queue(chatID)[k] == old(Queue(chatID))[if k < index then k else k + 1]
    {
      ghost var before := Queue(chatID);
      ok := CutTrack(chatID, index);
      if ok {
        RemovePositions(before, index);
      }
    }

    method CutTrack(chatID: int, index: int) returns (ok: bool)
      requires Valid()
      modifies datas, bufs
      ensures Did(chatID, Remove(index))
      ensures ok <==> 0 <= index < |old(Queue(chatID))|
    {
      if chatID !in chats {
        return false;
      }
      ok := chats[chatID].RemoveAt(index);
      forall c | c in chats && c != chatID ensures chats[c].Valid() && chats[c].Queue() == old(chats[c].Queue()) { }
    }

    /** All chats but one are as `Valid` demands. */
    ghost predicate OthersValid(chatID: int)
      reads this, datas, bufs
    {
      && (forall c :: c in chats && c != chatID ==> chats[c] in datas && chats[c].buf in bufs && chats[c].Valid())
      && (forall c, d :: c in chats && d in chats && c != chatID && d != chatID && c != d ==>
            chats[c] != chats[d] && chats[c].buf != chats[d].buf)
    }

    /** Overwrites the chat's tracks, for the garbage collector; other chats are unaffected. */
    method EmptyQueue(chatID: int)
      requires Valid() && chatID in chats
      modifies chats[chatID].buf
      ensures OthersValid(chatID)
      ensures forall c :: c in chats && c != chatID ==> chats[c].Queue() == old(chats[c].Queue())
    {
      chats[chatID].Clear();
      forall c | c in chats && c != chatID ensures chats[c].Valid() && chats[c].Queue() == old(chats[c].Queue()) { }
    }

    /** Forgets the chat. */
    method Forget(chatID: int)
      requires OthersValid(chatID)
      modifies this`chats
      ensures Valid() && chats == old(chats) - {chatID}
      ensures forall c :: c in chats ==> chats[c].Queue() == old(chats[c].Queue())
    {
      chats := chats - {chatID};
      forall c | c in chats ensures chats[c] in datas && chats[c].buf in bufs && chats[c].Valid() { }
    }

    method ClearChat(chatID: int)
      requires Valid()
      modifies this`chats, bufs
      ensures Did(chatID, QueueOp.Clear)
    {
      if chatID in chats {
        EmptyQueue(chatID);
        Forget(chatID);
        forall c | c != chatID ensures Queue(c) == old(Queue(c)) {
          if c in chats { assert chats[c].Queue() == old(chats[c].Queue()); }
        }
      }
    }

    method ShuffleQueue(chatID: int, picks: seq<nat>)
      requires Valid()
      modifies bufs
      ensures Did(chatID, Shuffle(picks))
    {
      if chatID in chats {
        chats[chatID].ShuffleUpNext(picks);
        forall c | c in chats && c != chatID ensures chats[c].Valid() && chats[c].Queue() == old(chats[c].Queue()) { }
      }
    }

    method ReverseQueue(chatID: int)
      requires Valid()
      modifies bufs
      ensures Did(chatID, Reverse)
    {
      if chatID in chats {
        chats[chatID].ReverseUpNext();
        forall c | c in chats && c != chatID ensures chats[c].Valid() && chats[c].Queue() == old(chats[c].Queue()) { }
      }
    }

    method MoveTrack(chatID: int, from: int, to: int) returns (ok: bool)
      requires Valid()
      modifies bufs
      ensures Did(chatID, Move(from, to))
      ensures ok <==> MoveAllowed(|old(Queue(chatID))|, from, to)
    {
      if chatID !in chats {
        return false;
      }
      ok := chats[chatID].MoveTrack(from, to);
      forall c | c in chats && c != chatID ensures chats[c].Valid() && chats[c].Queue() == old(chats[c].Queue()) { }
    }

    method TrimQueueBefore(chatID: int, upNextPos: int)
      requires Valid()
      modifies this`bufs, datas, bufs
      ensures Did(chatID, Trim(upNextPos))
    {
      if chatID in chats {
        chats[chatID].TrimBefore(upNextPos);
        bufs := bufs + {chats[chatID].buf};
        forall c | c in chats && c != chatID ensures chats[c].Valid() && chats[c].Queue() == old(chats[c].Queue()) { }
      }
    }

    method GetLoopCount(chatID: int) returns (loop: int)
      requires Valid()
      ensures loop == if Queue(chatID) == [] then 0 else Queue(chatID)[0].loop
    {
      var t := GetPlayingTrack(chatID);
      loop := if t == null then 0 else t.loop;
    }

    ghost function Playing(chatID: int): set<Track>
      requires Valid()
      reads this, datas, bufs
    {
      if Queue(chatID) == [] then {} else {Queue(chatID)[0]}
    }

    method SetLoopCount(chatID: int, loop: int) returns (ok: bool)
      requires Valid()
      modifies Playing(chatID)`loop
      ensures ok <==> Queue(chatID) != []
      ensures Valid() && forall c :: Queue(c) == old(Queue(c))
      ensures forall t :: t in Playing(chatID) ==> t.loop == loop
    {
      var t := GetPlayingTrack(chatID);
      if t == null {
        return false;
      }
      t.loop := loop;
      return true;
    }
  }
}
