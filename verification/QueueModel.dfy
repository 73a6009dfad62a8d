/** What the operations of `src/core/cache/chat_cache.go` do to one chat's queue, as values.

    Index 0 is the track being played; the rest is "up next".  `After` is the queue an operation
    leaves and `Dropped` the tracks it throws away.  The classes in ChatCache.dfy are proved to do
    exactly `After`. */
module QueueModel {

  datatype QueueOp<T> =
    | Add(songs: seq<T>)
    | RemoveCurrent
    | Remove(index: int)
    | Clear
    | Shuffle(picks: seq<nat>)
    | Reverse
    | Move(from: int, to: int)
    | Trim(pos: int)

  function Delete<T>(q: seq<T>, i: nat): seq<T>
    requires i < |q|
  {
    q[..i] + q[i + 1..]
  }

  function Insert<T>(q: seq<T>, i: nat, x: T): seq<T>
    requires i <= |q|
  {
    q[..i] + [x] + q[i..]
  }

  function Rev<T>(s: seq<T>): (r: seq<T>)
    ensures |r| == |s|
  {
    if s == [] then [] else Rev(s[1..]) + [s[0]]
  }

  function Swap<T>(s: seq<T>, i: nat, j: nat): seq<T>
    requires i < |s| && j < |s|
  {
    s[i := s[j]][j := s[i]]
  }

  /** Go's rand.Shuffle on positions `i`, `i - 1`, ..., 1 with the given picks; a pick out of range
      counts as no swap. */
  function Shuffled<T>(s: seq<T>, picks: seq<nat>, i: nat): (r: seq<T>)
    requires i < |s|
    ensures |r| == |s|
    decreases i
  {
    if i == 0 then s
    else Shuffled(Swap(s, i, Pick(picks, i)), picks, i - 1)
  }

  function Pick(picks: seq<nat>, i: nat): (j: nat)
    ensures j <= i
  {
    if i < |picks| && picks[i] <= i then picks[i] else i
  }

  predicate MoveAllowed(n: nat, from: int, to: int) {
    from != to && 0 < from < n && 0 < to < n
  }

  predicate TrimAllowed(n: nat, pos: int) {
    1 < pos < n
  }

  function After<T>(q: seq<T>, op: QueueOp<T>): seq<T> {
    match op
    case Add(songs) => q + songs
    case RemoveCurrent => if q == [] then q else q[1..]
    case Remove(i) => if 0 <= i < |q| then Delete(q, i) else q
    case Clear => []
    case Shuffle(picks) => if |q| <= 2 then q else [q[0]] + Shuffled(q[1..], picks, |q| - 2)
    case Reverse => if |q| <= 2 then q else [q[0]] + Rev(q[1..])
    case Move(from, to) => if MoveAllowed(|q|, from, to) then Insert(Delete(q, from), to, q[from]) else q
    case Trim(pos) => if TrimAllowed(|q|, pos) then [q[0]] + q[pos..] else q
  }

  function Dropped<T>(q: seq<T>, op: QueueOp<T>): seq<T> {
    match op
    case RemoveCurrent => if q == [] then [] else [q[0]]
    case Remove(i) => if 0 <= i < |q| then [q[i]] else []
    case Clear => q
    case Trim(pos) => if TrimAllowed(|q|, pos) then q[1..pos] else []
    case _ => []
  }

  function Added<T>(op: QueueOp<T>): seq<T> {
    if op.Add? then op.songs else []
  }

  // ---------------------------------------------------------------- moving

  /** Where the track at position `k` of the moved queue was before. */
  function MovedFrom(k: nat, from: nat, to: nat): nat {
    if k == to then from
    else if from < to && from <= k < to then k + 1
    else if to < from && to < k <= from then k - 1
    else k
  }

  lemma DeleteAt<T>(q: seq<T>, i: nat, j: nat)
    requires i < |q| && j < |q| - 1
    ensures |Delete(q, i)| == |q| - 1
    ensures Delete(q, i)[j] == q[if j < i then j else j + 1]
  {
  }

  lemma InsertAt<T>(q: seq<T>, i: nat, x: T, j: nat)
    requires i <= |q| && j <= |q|
    ensures |Insert(q, i, x)| == |q| + 1
    ensures Insert(q, i, x)[j] == if j < i then q[j] else if j == i then x else q[j - 1]
  {
  }

  /** A move shifts the tracks between the two positions by one and nothing else. */
  lemma {:induction false} MoveAt<T>(q: seq<T>, from: nat, to: nat, k: nat)
    requires MoveAllowed(|q|, from, to) && k < |q|
    ensures |After(q, Move(from, to))| == |q|
    ensures After(q, Move(from, to))[k] == q[MovedFrom(k, from, to)]
  {
    var d := Delete(q, from);
    InsertAt(d, to, q[from], k);
    if k != to {
      DeleteAt(q, from, if k < to then k else k - 1);
    }
  }

  lemma MoveIs<T>(q: seq<T>, from: nat, to: nat, r: seq<T>)
    requires MoveAllowed(|q|, from, to) && |r| == |q|
    requires forall k {:trigger r[k]} :: 0 <= k < |q| ==> r[k] == q[MovedFrom(k, from, to)]
    ensures r == After(q, Move(from, to))
  {
    MoveUndone(q, from, to);
    forall k | 0 <= k < |q| ensures r[k] == After(q, Move(from, to))[k] {
      MoveAt(q, from, to, k);
    }
  }

  /** Swapping the arguments undoes a move; the playing track never moves. */
  lemma MoveUndone<T>(q: seq<T>, from: int, to: int)
    ensures After(After(q, Move(from, to)), Move(to, from)) == q
    ensures |After(q, Move(from, to))| == |q|
    ensures q != [] ==> After(q, Move(from, to))[0] == q[0]
  {
    if MoveAllowed(|q|, from, to) {
      var m := After(q, Move(from, to));
      MoveAt(q, from, to, 0);
      forall k | 0 <= k < |q| ensures After(m, Move(to, from))[k] == q[k] {
        MoveAt(m, to, from, k);
        MoveAt(q, from, to, MovedFrom(k, to, from));
      }
      MoveAt(m, to, from, 0);
    }
  }

  // ---------------------------------------------------------------- reversing and shuffling

  lemma {:induction false} RevAt<T>(s: seq<T>, k: nat)
    requires k < |s|
    ensures Rev(s)[k] == s[|s| - 1 - k]
  {
    if k < |s| - 1 {
      RevAt(s[1..], k);
    }
  }

  lemma ReverseIs<T>(q: seq<T>, r: seq<T>)
    requires |r| == |q| > 2 && r[0] == q[0]
    requires forall k {:trigger r[k]} :: 0 < k < |q| ==> r[k] == q[|q| - k]
    ensures r == After(q, Reverse)
  {
    forall k | 0 < k < |q| ensures r[k] == Rev(q[1..])[k - 1] {
      RevAt(q[1..], k - 1);
    }
  }

  lemma {:induction false} RevMultiset<T>(s: seq<T>)
    ensures multiset(Rev(s)) == multiset(s)
  {
    if s != [] {
      RevMultiset(s[1..]);
      assert s == [s[0]] + s[1..];
    }
  }

  lemma ReverseUndone<T>(q: seq<T>)
    ensures After(After(q, Reverse), Reverse) == q
  {
    if |q| > 2 {
      var t := q[1..];
      assert After(q, Reverse)[1..] == Rev(t);
      forall k | 0 <= k < |t| ensures Rev(Rev(t))[k] == t[k] {
        RevAt(Rev(t), k);
        RevAt(t, |t| - 1 - k);
      }
      assert Rev(Rev(t)) == t;
    }
  }

  lemma SwapMultiset<T>(s: seq<T>, i: nat, j: nat)
    requires i < |s| && j < |s|
    ensures multiset(Swap(s, i, j)) == multiset(s)
  {
  }

  lemma {:induction false} ShuffledMultiset<T>(s: seq<T>, picks: seq<nat>, i: nat)
    requires i < |s|
    ensures multiset(Shuffled(s, picks, i)) == multiset(s)
    decreases i
  {
    if i > 0 {
      SwapMultiset(s, i, Pick(picks, i));
      ShuffledMultiset(Swap(s, i, Pick(picks, i)), picks, i - 1);
    }
  }

  // ---------------------------------------------------------------- where every track stands

  /** Removing closes the gap: the tracks before the position stay, those after it move up by one. */
  lemma RemovePositions<T>(q: seq<T>, i: nat)
    requires i < |q|
    ensures |After(q, Remove(i))| == |q| - 1
    ensures forall k :: 0 <= k < |q| - 1 ==> After(q, Remove(i))[k] == q[if k < i then k else k + 1]
  {
    forall k | 0 <= k < |q| - 1 ensures After(q, Remove(i))[k] == q[if k < i then k else k + 1] {
      DeleteAt(q, i, k);
    }
  }

  /** Moving puts the track at its new position; the others keep their order. */
  lemma MovePositions<T>(q: seq<T>, from: nat, to: nat)
    requires MoveAllowed(|q|, from, to)
    ensures var r := After(q, Move(from, to));
            |r| == |q| && r[to] == q[from] && r[..to] + r[to + 1..] == q[..from] + q[from + 1..]
  {
    var r, d := After(q, Move(from, to)), Delete(q, from);
    assert |d| == |q| - 1 && r == d[..to] + [q[from]] + d[to..];
    assert r[..to] == d[..to] && r[to + 1..] == d[to..] && d[..to] + d[to..] == d;
  }

  /** Adding appends, and dropping the playing track moves everything up by one. */
  lemma EndPositions<T>(q: seq<T>, songs: seq<T>)
    ensures After(q, Add(songs)) == q + songs
    ensures q != [] ==> After(q, RemoveCurrent) == q[1..]
    ensures After(q, Clear) == [] && After<T>([], RemoveCurrent) == []
  {
  }

  /** Reversing mirrors "up next"; trimming brings position `n` right behind the playing track. */
  lemma UpNextPositions<T>(q: seq<T>, n: int)
    requires q != []
    ensures |After(q, Reverse)| == |q| && After(q, Reverse)[0] == q[0]
    ensures forall k :: 1 <= k < |q| ==> After(q, Reverse)[k] == q[|q| - k]
    ensures 1 <= n < |q| ==> After(q, Trim(n)) == [q[0]] + q[n..]
    ensures !(1 <= n < |q|) ==> After(q, Trim(n)) == q
  {
    if |q| > 2 {
      forall k | 1 <= k < |q| ensures After(q, Reverse)[k] == q[|q| - k] {
        RevAt(q[1..], k - 1);
      }
    }
  }

  // ---------------------------------------------------------------- what a shuffle can bring about

  /** Above position `i` nothing is touched any more. */
  lemma {:induction false} ShuffledAbove<T>(s: seq<T>, picks: seq<nat>, i: nat, k: nat)
    requires i < k < |s|
    ensures Shuffled(s, picks, i)[k] == s[k]
    decreases i
  {
    if i > 0 {
      ShuffledAbove(Swap(s, i, Pick(picks, i)), picks, i - 1, k);
    }
  }

  /** Only the first `i + 1` picks matter. */
  lemma {:induction false} ShuffledPicks<T>(s: seq<T>, picks: seq<nat>, more: seq<nat>, i: nat)
    requires i < |s| && i < |picks|
    ensures Shuffled(s, picks + more, i) == Shuffled(s, picks, i)
    decreases i
  {
    if i > 0 {
      ShuffledPicks(Swap(s, i, Pick(picks, i)), picks, more, i - 1);
    }
  }

  lemma SameSoFar<T>(s: seq<T>, t: seq<T>, i: nat)
    requires i < |s| == |t| && s[i] == t[i] && multiset(s[..i + 1]) == multiset(t[..i + 1])
    ensures multiset(s[..i]) == multiset(t[..i])
  {
    assert s[..i + 1] == s[..i] + [s[i]] && t[..i + 1] == t[..i] + [t[i]];
    assert multiset(s[..i]) == multiset(s[..i + 1]) - multiset{s[i]};
    assert multiset(t[..i]) == multiset(t[..i + 1]) - multiset{t[i]};
  }

  lemma SwapPrefix<T>(s: seq<T>, i: nat, j: nat)
    requires j <= i < |s|
    ensures multiset(Swap(s, i, j)[..i + 1]) == multiset(s[..i + 1])
  {
    assert Swap(s, i, j)[..i + 1] == Swap(s[..i + 1], i, j);
    SwapMultiset(s[..i + 1], i, j);
  }

  /** `t` is `s` with its first `i + 1` tracks in another order. */
  ghost predicate Reordered<T>(s: seq<T>, t: seq<T>, i: nat) {
    i < |s| == |t| && multiset(s[..i + 1]) == multiset(t[..i + 1])
    && forall k :: i < k < |s| ==> s[k] == t[k]
  }

  /** Where to find the track that belongs at position `i`. */
  lemma Wanted<T>(s: seq<T>, t: seq<T>, i: nat) returns (j: nat)
    requires Reordered(s, t, i)
    ensures j <= i && s[j] == t[i]
  {
    assert t[..i + 1][i] == t[i];
    assert t[i] in multiset(t[..i + 1]);
    assert t[i] in multiset(s[..i + 1]);
    j :| 0 <= j < |s[..i + 1]| && s[..i + 1][j] == t[i];
  }

  lemma SwappedIn<T>(s: seq<T>, t: seq<T>, i: nat, j: nat)
    requires Reordered(s, t, i) && i > 0 && j <= i && s[j] == t[i]
    ensures Reordered(Swap(s, i, j), t, i - 1)
  {
    SwapPrefix(s, i, j);
    SameSoFar(Swap(s, i, j), t, i);
  }

  /** Any order of the first `i + 1` tracks comes out for some picks. */
  lemma {:induction false} ShuffleReaches<T>(s: seq<T>, t: seq<T>, i: nat) returns (picks: seq<nat>)
    requires Reordered(s, t, i)
    ensures |picks| == i + 1 && Shuffled(s, picks, i) == t
    decreases i
  {
    var j := Wanted(s, t, i);
    if i == 0 {
      picks := [0];
    } else {
      SwappedIn(s, t, i, j);
      var below := ShuffleReaches(Swap(s, i, j), t, i - 1);
      picks := below + [j];
      ShuffledPicks(Swap(s, i, j), below, [j], i - 1);
      assert Pick(picks, i) == j;
    }
  }

  /** A shuffle can bring "up next" into every order, and into nothing but an order of it. */
  lemma ShuffleOrders<T>(q: seq<T>, upNext: seq<T>)
    requires |q| > 2
    ensures (exists picks :: After(q, Shuffle(picks)) == [q[0]] + upNext) <==> multiset(upNext) == multiset(q[1..])
  {
    var s := q[1..];
    if multiset(upNext) == multiset(s) {
      assert |upNext| == |multiset(upNext)| == |s|;
      assert s[..|s|] == s && upNext[..|s|] == upNext;
      var picks := ShuffleReaches(s, upNext, |s| - 1);
      assert After(q, Shuffle(picks)) == [q[0]] + upNext;
    }
    if exists picks :: After(q, Shuffle(picks)) == [q[0]] + upNext {
      var picks :| After(q, Shuffle(picks)) == [q[0]] + upNext;
      ShuffledMultiset(s, picks, |q| - 2);
      assert upNext == ([q[0]] + upNext)[1..] == ([q[0]] + Shuffled(s, picks, |q| - 2))[1..];
    }
  }

  // ---------------------------------------------------------------- conservation

  lemma SplitMultiset<T>(q: seq<T>, i: nat)
    requires i <= |q|
    ensures multiset(q) == multiset(q[..i]) + multiset(q[i..])
  {
    assert q == q[..i] + q[i..];
  }

  lemma DeleteMultiset<T>(q: seq<T>, i: nat)
    requires i < |q|
    ensures multiset(q) == multiset(Delete(q, i)) + multiset{q[i]}
  {
    SplitMultiset(q, i);
    assert q[i..] == [q[i]] + q[i + 1..];
  }

  lemma InsertMultiset<T>(q: seq<T>, i: nat, x: T)
    requires i <= |q|
    ensures multiset(Insert(q, i, x)) == multiset(q) + multiset{x}
  {
    SplitMultiset(q, i);
  }

  /** Rearranging "up next" rearranges the queue. */
  lemma UpNextMultiset<T>(q: seq<T>, upNext: seq<T>)
    requires q != [] && multiset(upNext) == multiset(q[1..])
    ensures multiset([q[0]] + upNext) == multiset(q)
  {
    assert q == [q[0]] + q[1..];
  }

  lemma TrimConserves<T>(q: seq<T>, pos: int)
    requires TrimAllowed(|q|, pos)
    ensures multiset([q[0]] + q[pos..]) + multiset(q[1..pos]) == multiset(q)
  {
    assert q == [q[0]] + q[1..pos] + q[pos..];
  }

  lemma RearrangementConserves<T>(q: seq<T>, op: QueueOp<T>)
    requires op.Shuffle? || op.Reverse? || op.Move?
    ensures multiset(After(q, op)) == multiset(q)
  {
    match op
    case Shuffle(picks) =>
      if |q| > 2 {
        ShuffledMultiset(q[1..], picks, |q| - 2);
        UpNextMultiset(q, Shuffled(q[1..], picks, |q| - 2));
      }
    case Reverse =>
      if |q| > 2 {
        RevMultiset(q[1..]);
        UpNextMultiset(q, Rev(q[1..]));
      }
    case Move(from, to) =>
      if MoveAllowed(|q|, from, to) {
        DeleteMultiset(q, from);
        InsertMultiset(Delete(q, from), to, q[from]);
      }
  }

  /** No operation invents or loses a track: what was queued or added is queued or dropped. */
  lemma Conserves<T>(q: seq<T>, op: QueueOp<T>)
    ensures multiset(After(q, op)) + multiset(Dropped(q, op)) == multiset(q) + multiset(Added(op))
  {
    match op
    case Add(songs) => assert multiset(q + songs) == multiset(q) + multiset(songs);
    case RemoveCurrent => if q != [] { DeleteMultiset(q, 0); assert Delete(q, 0) == q[1..]; }
    case Remove(i) => if 0 <= i < |q| { DeleteMultiset(q, i); }
    case Clear =>
    case Trim(pos) => if TrimAllowed(|q|, pos) { TrimConserves(q, pos); }
    case _ => RearrangementConserves(q, op);
  }

  /** Shuffling, reversing and moving rearrange "up next" and leave the playing track in front. */
  lemma {:induction false} RearrangesUpNext<T>(q: seq<T>, op: QueueOp<T>)
    requires op.Shuffle? || op.Reverse? || op.Move?
    requires q != []
    ensures |After(q, op)| == |q| && After(q, op)[0] == q[0]
    ensures multiset(After(q, op)) == multiset(q)
  {
    RearrangementConserves(q, op);
    if op.Move? { MoveUndone(q, op.from, op.to); }
  }

  /** Jumping to "up next" position `n` trims before it; dropping the current track then leaves the
      old queue from `n` on. */
  lemma {:induction false} TrimThenAdvance<T>(q: seq<T>, n: int)
    requires 1 <= n < |q|
    ensures After(After(q, Trim(n)), RemoveCurrent) == q[n..]
  {
  }

  // ---------------------------------------------------------------- many chats

  type Queues<T> = map<int, seq<T>>

  /** A chat without a queue object has the empty queue. */
  function QueueIn<T>(queues: Queues<T>, chat: int): seq<T> {
    if chat in queues then queues[chat] else []
  }

  /** Adding creates the chat's queue, clearing deletes it, and the rest does nothing without one. */
  function AfterIn<T>(queues: Queues<T>, chat: int, op: QueueOp<T>): Queues<T> {
    if op.Clear? then queues - {chat}
    else if op.Add? || chat in queues then queues[chat := After(QueueIn(queues, chat), op)]
    else queues
  }

  /** An operation on one chat does to that chat's queue what `After` says and leaves every other
      chat's queue alone. */
  lemma {:induction false} OneChat<T>(queues: Queues<T>, chat: int, op: QueueOp<T>, other: int)
    ensures QueueIn(AfterIn(queues, chat, op), other) ==
            if other == chat then After(QueueIn(queues, chat), op) else QueueIn(queues, other)
  {
  }

  datatype ChatOp<T> = ChatOp(chat: int, op: QueueOp<T>)

  function Run<T>(ops: seq<ChatOp<T>>): Queues<T> {
    if ops == [] then map[]
    else
      var last := ops[|ops| - 1];
      AfterIn(Run(ops[..|ops| - 1]), last.chat, last.op)
  }

  function DroppedFrom<T>(ops: seq<ChatOp<T>>, chat: int): seq<T> {
    if ops == [] then []
    else
      var n := |ops| - 1;
      DroppedFrom(ops[..n], chat) +
      if ops[n].chat == chat then Dropped(QueueIn(Run(ops[..n]), chat), ops[n].op) else []
  }

  function AddedTo<T>(ops: seq<ChatOp<T>>, chat: int): seq<T> {
    if ops == [] then []
    else
      var n := |ops| - 1;
      AddedTo(ops[..n], chat) + if ops[n].chat == chat then Added(ops[n].op) else []
  }

  /** Over any run of operations on any chats, every track added to a chat is queued there or dropped
      from there, as often as it was added. */
  lemma {:induction false} RunConserves<T>(ops: seq<ChatOp<T>>, chat: int)
    ensures multiset(QueueIn(Run(ops), chat)) + multiset(DroppedFrom(ops, chat)) == multiset(AddedTo(ops, chat))
  {
    if ops != [] {
      var n := |ops| - 1;
      var q, op := QueueIn(Run(ops[..n]), chat), ops[n].op;
      RunConserves(ops[..n], chat);
      OneChat(Run(ops[..n]), ops[n].chat, op, chat);
      if ops[n].chat == chat {
        Conserves(q, op);
        Combine(q, DroppedFrom(ops[..n], chat), AddedTo(ops[..n], chat), After(q, op), Dropped(q, op), Added(op));
      }
    }
  }

  lemma Combine<T>(q: seq<T>, dropped: seq<T>, added: seq<T>, q': seq<T>, d: seq<T>, a: seq<T>)
    requires multiset(q) + multiset(dropped) == multiset(added)
    requires multiset(q') + multiset(d) == multiset(q) + multiset(a)
    ensures multiset(q') + multiset(dropped + d) == multiset(added + a)
  {
    calc {
      multiset(q') + multiset(dropped + d);
    ==
      (multiset(q') + multiset(d)) + multiset(dropped);
    ==
      (multiset(q) + multiset(dropped)) + multiset(a);
    ==
      multiset(added + a);
    }
  }
}
