/** Sticky assistant assignment: `src/core/db/assistant.go` and `getClientIndex` of `src/vc/calls.go`.

    The store is a collection of documents chat -> number, the cache a lossy copy of part of it.  A
    store call that fails is taken to have no effect; its success is an argument. */
module Assistants {

  datatype State = State(store: map<int, int>, cache: map<int, int>)

  datatype DbOp =
    | Get(chat: int, readOk: bool)
    | Set(chat: int, num: int, writeOk: bool)
    | Remove(chat: int, writeOk: bool)
    | Assign(chat: int, num: int, writeOk: bool, readOk: bool)
    | ClearAll(writeOk: bool)
    | Lose(chat: int)  // the cached entry expires or is evicted

  /** An index or -1, and whether the call failed. */
  datatype Answer = Answer(num: int, failed: bool)

  // ---------------------------------------------------------------- operations on values

  function GetStep(s: State, chat: int, readOk: bool): (State, Answer) {
    if chat in s.cache then (s, Answer(s.cache[chat], false))
    else if !readOk then (s, Answer(-1, true))
    else if chat !in s.store then (s, Answer(-1, false))
    else (s.(cache := s.cache[chat := s.store[chat]]), Answer(s.store[chat], false))
  }

  /** The conditional upsert takes effect when the chat has no document or an unset one; otherwise
      the insert runs into the existing document and the call falls back to reading it. */
  predicate Unset(s: State, chat: int) {
    chat !in s.store || s.store[chat] == -1
  }

  function AssignStep(s: State, chat: int, num: int, writeOk: bool, readOk: bool): (State, Answer) {
    if !writeOk then (s, Answer(-1, true))
    else if chat !in s.store || (s.store[chat] == -1 && num != -1)
    then (State(s.store[chat := num], s.cache[chat := num]), Answer(num, false))
    else GetStep(s, chat, readOk)
  }

  function Step(s: State, op: DbOp): (State, Answer) {
    match op
    case Get(chat, readOk) => GetStep(s, chat, readOk)
    case Set(chat, num, writeOk) =>
      if writeOk then (State(s.store[chat := num], s.cache[chat := num]), Answer(num, false))
      else (s, Answer(num, true))
    case Remove(chat, writeOk) =>
      if writeOk then (State(s.store - {chat}, s.cache - {chat}), Answer(-1, false)) else (s, Answer(-1, true))
    case Assign(chat, num, writeOk, readOk) => AssignStep(s, chat, num, writeOk, readOk)
    case ClearAll(writeOk) =>
      if writeOk then (State(map[], map[]), Answer(-1, false)) else (s, Answer(-1, true))
    case Lose(chat) => (s.(cache := s.cache - {chat}), Answer(-1, false))
  }

  function Run(s: State, ops: seq<DbOp>): State {
    if ops == [] then s else Step(Run(s, ops[..|ops| - 1]), ops[|ops| - 1]).0
  }

  lemma {:induction false} RunConcat(s: State, a: seq<DbOp>, b: seq<DbOp>)
    ensures Run(s, a + b) == Run(Run(s, a), b)
  {
    if b == [] {
      assert a + b == a;
    } else {
      var n := |b| - 1;
      RunConcat(s, a, b[..n]);
      assert (a + b)[..|a + b| - 1] == a + b[..n];
    }
  }

  // ---------------------------------------------------------------- coherence

  /** What is cached is what is stored. */
  ghost predicate Coherent(s: State) {
    forall c :: c in s.cache ==> c in s.store && s.cache[c] == s.store[c]
  }

  lemma StepCoherent(s: State, op: DbOp)
    requires Coherent(s)
    ensures Coherent(Step(s, op).0)
  {
  }

  /** Over any sequence of operations, failing ones included, and any cache losses, a cached index
      equals the stored one. */
  lemma {:induction false} RunCoherent(s: State, ops: seq<DbOp>)
    requires Coherent(s)
    ensures Coherent(Run(s, ops))
  {
    if ops != [] {
      RunCoherent(s, ops[..|ops| - 1]);
      StepCoherent(Run(s, ops[..|ops| - 1]), ops[|ops| - 1]);
    }
  }

  /** A read that does not fail answers the stored index, cached or not. */
  lemma {:induction false} ReadIsStored(s: State, chat: int, readOk: bool)
    requires Coherent(s) && (chat in s.cache || readOk)
    ensures GetStep(s, chat, readOk).1 == Answer(if chat in s.store then s.store[chat] else -1, false)
  {
  }

  // ---------------------------------------------------------------- what is stored

  /** The operation decides the chat's entry whatever it was before. */
  predicate Resets(op: DbOp, chat: int) {
    || (op.Set? && op.chat == chat && op.writeOk)
    || (op.Remove? && op.chat == chat && op.writeOk)
    || (op.ClearAll? && op.writeOk)
  }

  /** The operation proposes an index for the chat. */
  predicate Offers(op: DbOp, chat: int) {
    op.Assign? && op.chat == chat && op.writeOk && op.num != -1
  }

  /** Since operation `h`, or from the start if `h` is -1, the chat has had no index: `h` took it away,
      and since then none was set or proposed. */
  ghost predicate OpenSince(ops: seq<DbOp>, chat: int, h: int) {
    && -1 <= h < |ops|
    && (h >= 0 ==> Resets(ops[h], chat) && (ops[h].Set? ==> ops[h].num == -1))
    && forall j :: h < j < |ops| ==> !Resets(ops[j], chat) && !Offers(ops[j], chat)
  }

  ghost predicate Open(ops: seq<DbOp>, chat: int) {
    exists h :: OpenSince(ops, chat, h)
  }

  /** Operation `k` gave the chat index `i`, by setting it or by being the first to propose one, and
      nothing has set, removed or cleared it since. */
  ghost predicate Decides(ops: seq<DbOp>, chat: int, k: int, i: int) {
    && 0 <= k < |ops|
    && (|| (ops[k].Set? && ops[k].chat == chat && ops[k].num == i && ops[k].writeOk)
        || (Offers(ops[k], chat) && ops[k].num == i && Open(ops[..k], chat)))
    && forall j :: k < j < |ops| ==> !Resets(ops[j], chat)
  }

  ghost predicate Decided(ops: seq<DbOp>, chat: int, i: int) {
    exists k :: Decides(ops, chat, k, i)
  }

  /** From an empty store, a chat has no index exactly if it never got one or that was taken away. */
  lemma {:induction false} OpenMeansUnset(ops: seq<DbOp>, chat: int)
    ensures Unset(Run(State(map[], map[]), ops), chat) <==> Open(ops, chat)
  {
    if ops == [] {
      assert OpenSince(ops, chat, -1);
    } else {
      var n := |ops| - 1;
      OpenMeansUnset(ops[..n], chat);
      OpenGrows(ops, chat);
    }
  }

  lemma OpenGrows(ops: seq<DbOp>, chat: int)
    requires ops != []
    ensures var last := ops[|ops| - 1];
            Open(ops, chat) <==>
            if Resets(last, chat) then last.Set? ==> last.num == -1
            else Open(ops[..|ops| - 1], chat) && !Offers(last, chat)
  {
    var n := |ops| - 1;
    if Resets(ops[n], chat) && (ops[n].Set? ==> ops[n].num == -1) {
      assert OpenSince(ops, chat, n);
    }
    if !Resets(ops[n], chat) && !Offers(ops[n], chat) && Open(ops[..n], chat) {
      var h :| OpenSince(ops[..n], chat, h);
      assert OpenSince(ops, chat, h);
    }
    if Open(ops, chat) && !Resets(ops[n], chat) {
      var h :| OpenSince(ops, chat, h);
      assert OpenSince(ops[..n], chat, h);
    }
  }

  lemma DecidesGrows(ops: seq<DbOp>, chat: int, i: int)
    requires ops != [] && i != -1
    ensures var last := ops[|ops| - 1];
            Decided(ops, chat, i) <==>
            if Resets(last, chat) then last.Set? && last.num == i
            else || Decided(ops[..|ops| - 1], chat, i)
                 || (Offers(last, chat) && last.num == i && Open(ops[..|ops| - 1], chat))
  {
    var n := |ops| - 1;
    assert Decides(ops, chat, n, i) <==>
           || (ops[n].Set? && Resets(ops[n], chat) && ops[n].num == i)
           || (Offers(ops[n], chat) && ops[n].num == i && Open(ops[..n], chat));
    forall k | 0 <= k < n && !Resets(ops[n], chat)
      ensures Decides(ops, chat, k, i) <==> Decides(ops[..n], chat, k, i)
    {
      assert ops[..n][..k] == ops[..k];
    }
  }

  /** From an empty store and over any operations, failing ones and lost cache entries included, a chat is
      stored with index `i` exactly if some operation decided that: the last effective assignment, or
      the first effective proposal while it had none, and no effective assignment, removal or clearing
      came after it. */
  lemma {:induction false} AssignmentHistory(ops: seq<DbOp>, chat: int, i: int)
    requires i != -1
    ensures var s := Run(State(map[], map[]), ops);
            (chat in s.store && s.store[chat] == i) <==> Decided(ops, chat, i)
  {
    if ops != [] {
      var n := |ops| - 1;
      AssignmentHistory(ops[..n], chat, i);
      OpenMeansUnset(ops[..n], chat);
      DecidesGrows(ops, chat, i);
    }
  }

  /** Once the chat's index was read or set, reads need the store no more until the cached entry is lost,
      removed or cleared. */
  lemma {:induction false} ReadOnce(s: State, first: DbOp, ops: seq<DbOp>, chat: int)
    requires Coherent(s)
    requires || (first.Get? && first.chat == chat && first.readOk && chat in s.store)
             || (first.Set? && first.chat == chat && first.writeOk)
    requires forall op :: op in ops ==> !((op.Lose? || (op.Remove? && op.writeOk)) && op.chat == chat)
                                        && !(op.ClearAll? && op.writeOk)
    ensures var later := Run(Step(s, first).0, ops);
            chat in later.store && GetStep(later, chat, false) == (later, Answer(later.store[chat], false))
  {
    if ops == [] {
      StepCoherent(s, first);
    } else {
      var n := |ops| - 1;
      ReadOnce(s, first, ops[..n], chat);
      StepCoherent(s, first);
      RunCoherent(Step(s, first).0, ops[..n]);
      StepCoherent(Run(Step(s, first).0, ops[..n]), ops[n]);
      assert ops[n] in ops;
    }
  }

  // ---------------------------------------------------------------- choosing an assistant

  /** What the outside world decides during one `getClientIndex`. */
  datatype Luck = Luck(readOk: bool, pick: nat, randOk: bool, writeOk: bool, rereadOk: bool)

  /** The operations `getClientIndex` performs. */
  function ClientOps(s: State, chat: int, total: nat, l: Luck): seq<DbOp> {
    if total == 0 then []
    else
      var current := GetStep(s, chat, l.readOk).1.num;
      [Get(chat, l.readOk)] +
      if 0 <= current < total || chat == 0 then []
      else if l.randOk then [Assign(chat, l.pick % total, l.writeOk, l.rereadOk)]
      else if current == -1 then [Assign(chat, 0, l.writeOk, l.rereadOk)]
      else []
  }

  /** The index it returns, -1 when there are no assistants. */
  function ClientIndex(s: State, chat: int, total: nat, l: Luck): int {
    if total == 0 then -1
    else
      var current := GetStep(s, chat, l.readOk).1.num;
      if 0 <= current < total then current
      else if l.randOk then l.pick % total
      else 0
  }

  /** The index always names one of the assistants; it is the random pick, or 0 without one, unless the
      chat's assignment was read and names an assistant. */
  lemma ChosenIndex(s: State, chat: int, total: nat, l: Luck)
    requires Coherent(s) && total > 0
    ensures var read := chat in s.cache || l.readOk;
            ClientIndex(s, chat, total, l) ==
            if read && chat in s.store && 0 <= s.store[chat] < total then s.store[chat]
            else if l.randOk then l.pick % total
            else 0
    ensures 0 <= ClientIndex(s, chat, total, l) < total
  {
  }

  /** What choosing an index does to the store: it proposes the index it returns, for that chat, and does so
      exactly if the chat is a real one, its assignment was not read or names no assistant, and the
      index is a random pick or there is no assignment. */
  lemma ProposedIndex(s: State, chat: int, total: nat, l: Luck)
    requires Coherent(s) && total > 0
    ensures forall op :: op in ClientOps(s, chat, total, l) ==>
              op.Get? || (op.Assign? && op.chat == chat && op.num == ClientIndex(s, chat, total, l))
    ensures var known := (chat in s.cache || l.readOk) && chat in s.store && s.store[chat] != -1;
            (exists op :: op in ClientOps(s, chat, total, l) && op.Assign?) <==>
            chat != 0 && !(known && 0 <= s.store[chat] < total) && (l.randOk || !known)
  {
    ReadIsStoredOrFails(s, chat, l.readOk);
    var ops := ClientOps(s, chat, total, l);
    if |ops| == 2 {
      assert ops[1] in ops && ops[1].Assign?;
    } else {
      assert ops == [Get(chat, l.readOk)];
    }
  }

  lemma ReadIsStoredOrFails(s: State, chat: int, readOk: bool)
    requires Coherent(s)
    ensures GetStep(s, chat, readOk).1.num ==
            if (chat in s.cache || readOk) && chat in s.store then s.store[chat] else -1
  {
  }

  /** The operation may take the chat's stored index away or change it to something other than `i`. */
  predicate Unpins(op: DbOp, chat: int, i: int) {
    || (op.Set? && op.chat == chat && op.num != i && op.writeOk)
    || (op.Remove? && op.chat == chat && op.writeOk)
    || (op.ClearAll? && op.writeOk)
  }

  ghost predicate Pinned(s: State, chat: int, i: int) {
    Coherent(s) && chat in s.store && s.store[chat] == i
  }

  lemma {:induction false} StaysPinned(s: State, ops: seq<DbOp>, chat: int, i: nat)
    requires Pinned(s, chat, i)
    requires forall op :: op in ops ==> !Unpins(op, chat, i)
    ensures Pinned(Run(s, ops), chat, i)
  {
    if ops != [] {
      var n := |ops| - 1;
      StaysPinned(s, ops[..n], chat, i);
      assert ops[n] in ops;
      StepCoherent(Run(s, ops[..n]), ops[n]);
    }
  }

  /** Sticky assignment: once index `i` has been recorded for a chat, whatever else happens short of
      removing, clearing or changing it, the chat is given assistant `i` as long as its assignment
      can be read. */
  lemma Sticky(s: State, ops: seq<DbOp>, chat: int, i: nat, total: nat, l: Luck)
    requires Coherent(s) && i < total
    requires forall op :: op in ops ==> !Unpins(op, chat, i)
    ensures var later := Run(Step(s, Set(chat, i, true)).0, ops);
            && (chat in later.cache || l.readOk ==> ClientIndex(later, chat, total, l) == i)
            && Pinned(Run(later, ClientOps(later, chat, total, l)), chat, i)
  {
    var pinned := Step(s, Set(chat, i, true)).0;
    StepCoherent(s, Set(chat, i, true));
    StaysPinned(pinned, ops, chat, i);
    var later := Run(pinned, ops);
    if chat in later.cache || l.readOk {
      ReadIsStored(later, chat, l.readOk);
    }
    StaysPinned(later, ClientOps(later, chat, total, l), chat, i);
  }

  /** A first assignment is kept: the index returned is the one now stored, when store calls succeed,
      exactly if the chat had no assignment or one that still names an assistant.  A stored index out
      of range (say, after assistants were removed) is neither used nor replaced. */
  lemma ReturnedIsStored(s: State, chat: int, total: nat, l: Luck)
    requires Coherent(s) && total > 0 && chat != 0
    requires l.readOk && l.writeOk
    ensures var after := Run(s, ClientOps(s, chat, total, l));
            chat in after.store && after.store[chat] == ClientIndex(s, chat, total, l)
            <==> Unset(s, chat) || 0 <= s.store[chat] < total
  {
    ReadIsStored(s, chat, l.readOk);
    var got := GetStep(s, chat, l.readOk).0;
    var ops := ClientOps(s, chat, total, l);
    assert Run(s, [Get(chat, l.readOk)]) == got by {
      assert [Get(chat, l.readOk)][..0] == [];
    }
    if |ops| == 2 {
      assert ops[..1] == [Get(chat, l.readOk)];
    } else {
      assert ops == [Get(chat, l.readOk)];
    }
  }

  // ---------------------------------------------------------------- the database object

  class Database {
    var store: map<int, int>
    var cache: map<int, int>
    ghost var history: seq<DbOp>

    ghost function Value(): State
      reads this
    {
      State(store, cache)
    }

    /** The object is what its history makes of an empty store. */
    ghost predicate Valid()
      reads this
    {
      Value() == Run(State(map[], map[]), history)
    }

    constructor ()
      ensures Valid() && history == []
    {
      store, cache, history := map[], map[], [];
    }

    /** At any time the object's cache agrees with its store. */
    lemma CoherentNow()
      requires Valid()
      ensures Coherent(Value())
    {
      RunCoherent(State(map[], map[]), history);
    }

    ghost method Record(op: DbOp)
      requires Step(Run(State(map[], map[]), history), op).0 == Value()
      modifies this`history
      ensures Valid() && history == old(history) + [op]
    {
      history := history + [op];
      assert history[..|history| - 1] == old(history);
    }

    method GetAssistant(chat: int, readOk: bool) returns (a: Answer)
      requires Valid()
      modifies this
      ensures Valid() && history == old(history) + [Get(chat, readOk)]
      ensures (Value(), a) == Step(old(Value()), Get(chat, readOk))
    {
      a := Read(chat, readOk);
      Record(Get(chat, readOk));
    }

    method Read(chat: int, readOk: bool) returns (a: Answer)
      modifies this`cache
      ensures (Value(), a) == GetStep(old(Value()), chat, readOk)
    {
      if chat in cache {
        return Answer(cache[chat], false);
      }
      if !readOk {
        return Answer(-1, true);
      }
      if chat !in store {
        return Answer(-1, false);
      }
      cache := cache[chat := store[chat]];
      return Answer(store[chat], false);
    }

    method SetAssistant(chat: int, num: int, writeOk: bool) returns (failed: bool)
      requires Valid()
      modifies this
      ensures Valid() && history == old(history) + [Set(chat, num, writeOk)]
      ensures Value() == Step(old(Value()), Set(chat, num, writeOk)).0 && failed == !writeOk
    {
      if writeOk {
        store := store[chat := num];
        cache := cache[chat := num];
      }
      failed := !writeOk;
      Record(Set(chat, num, writeOk));
    }

    method RemoveAssistant(chat: int, writeOk: bool) returns (failed: bool)
      requires Valid()
      modifies this
      ensures Valid() && history == old(history) + [Remove(chat, writeOk)]
      ensures Value() == Step(old(Value()), Remove(chat, writeOk)).0 && failed == !writeOk
    {
      if writeOk {
        store := store - {chat};
        cache := cache - {chat};
      }
      failed := !writeOk;
      Record(Remove(chat, writeOk));
    }

    method AssignAssistant(chat: int, proposed: int, writeOk: bool, readOk: bool) returns (a: Answer)
      requires Valid()
      modifies this
      ensures Valid() && history == old(history) + [Assign(chat, proposed, writeOk, readOk)]
      ensures (Value(), a) == Step(old(Value()), Assign(chat, proposed, writeOk, readOk))
    {
      if !writeOk {
        a := Answer(-1, true);
      } else {
        var matched := chat in store && store[chat] == -1;
        var duplicate := chat in store && store[chat] != -1;
        var modified := matched && proposed != -1;
        var upserted := chat !in store;
        if modified || upserted {
          store := store[chat := proposed];
        }
        if !duplicate && (modified || upserted) {
          cache := cache[chat := proposed];
          a := Answer(proposed, false);
        } else {
          a := Read(chat, readOk);
        }
      }
      Record(Assign(chat, proposed, writeOk, readOk));
    }

    method ClearAllAssistants(writeOk: bool) returns (deleted: nat, failed: bool)
      requires Valid()
      modifies this
      ensures Valid() && history == old(history) + [ClearAll(writeOk)]
      ensures Value() == Step(old(Value()), ClearAll(writeOk)).0 && failed == !writeOk
      ensures deleted == if writeOk then old(|store|) else 0
    {
      deleted := 0;
      if writeOk {
        deleted := |store|;
        store, cache := map[], map[];
      }
      failed := !writeOk;
      Record(ClearAll(writeOk));
    }

    /** `getClientIndex`: the assigned index if it names an assistant, else a random one, which is
        proposed to the store. */
    method GetClientIndex(chat: int, total: nat, l: Luck) returns (index: int)
      requires Valid()
      modifies this
      ensures Valid() && history == old(history) + ClientOps(old(Value()), chat, total, l)
      ensures index == ClientIndex(old(Value()), chat, total, l)
    {
      if total == 0 {
        return -1;
      }
      var got := GetAssistant(chat, l.readOk);
      var current := if got.failed then -1 else got.num;
      if 0 <= current < total {
        return current;
      }
      if !l.randOk {
        if current == -1 && chat != 0 {
          var _ := AssignAssistant(chat, 0, l.writeOk, l.rereadOk);
        }
        return 0;
      }
      index := l.pick % total;
      if chat != 0 {
        var _ := AssignAssistant(chat, index, l.writeOk, l.rereadOk);
      }
    }
  }
}
