/** What one `PlayMedia` call of `src/vc/play.go` may do, as a record of turns.

    A turn is what happens with one assistant: one attempt, or two if the first error asks for a
    retry.  The turns of a call decide what it answers and what it writes to the assignment store. */
module RotationModel {
  import opened Assistants

  /** classifyError's verdict on an error. */
  datatype ErrorKind = Fatal | RetryOnce | Rotate | Unknown

  datatype Outcome = Success | Failure(kind: ErrorKind)

  datatype Turn = Turn(index: int, outcomes: seq<Outcome>)

  datatype Verdict =
    | NoAssistant          // no assistant could be chosen
    | Played(index: int)
    | FatalMessage         // the first attempt failed fatally
    | Failed(kind: ErrorKind)
    | Exhausted            // "playback failed after trying all assistants"

  /** A second attempt is made exactly after a first error that asks for it. */
  predicate TurnOk(t: Turn) {
    if |t.outcomes| == 1 then t.outcomes[0] != Failure(RetryOnce)
    else |t.outcomes| == 2 && t.outcomes[0] == Failure(RetryOnce)
  }

  function Final(t: Turn): Outcome
    requires TurnOk(t)
  {
    t.outcomes[|t.outcomes| - 1]
  }

  function Indices(turns: seq<Turn>): set<int> {
    set t | t in turns :: t.index
  }

  /** Turns go to different assistants, and another turn follows only a rotate error. */
  ghost predicate TurnsOk(turns: seq<Turn>, assistants: set<int>) {
    && (forall k :: 0 <= k < |turns| ==> TurnOk(turns[k]) && turns[k].index in assistants)
    && (forall j, k :: 0 <= j < k < |turns| ==> turns[j].index != turns[k].index)
    && (forall k :: 0 <= k < |turns| - 1 ==> Final(turns[k]) == Failure(Rotate))
  }

  function VerdictOf(turns: seq<Turn>): Verdict
    requires turns != [] && TurnOk(turns[|turns| - 1])
  {
    var last := turns[|turns| - 1];
    match Final(last)
    case Success => Played(last.index)
    case Failure(kind) =>
      if kind == Rotate then Exhausted
      else if kind == Fatal && |turns| == 1 && |last.outcomes| == 1 then FatalMessage
      else Failed(kind)
  }

  ghost predicate AnyFailure(turns: seq<Turn>) {
    exists k :: 0 <= k < |turns| && HasFailure(turns[k])
  }

  predicate HasFailure(t: Turn) {
    exists o :: o in t.outcomes && o.Failure?
  }

  /** The assignment-store call a turn leads to: the assistant that played is assigned, one that asks
      for rotation loses its assignment. */
  predicate TurnTrail(t: Turn, chat: int, ops: seq<DbOp>)
    requires TurnOk(t)
  {
    match Final(t)
    case Success => |ops| == 1 && ops[0].Set? && ops[0].chat == chat && ops[0].num == t.index
    case Failure(kind) =>
      if kind == Rotate then |ops| == 1 && ops[0].Remove? && ops[0].chat == chat else ops == []
  }

  /** The assignment-store calls behind the turns, in order. */
  predicate StoreTrail(ops: seq<DbOp>, chat: int, turns: seq<Turn>)
    requires forall k :: 0 <= k < |turns| ==> TurnOk(turns[k])
    decreases |turns|
  {
    if turns == [] then ops == []
    else
      var n, last := |turns| - 1, turns[|turns| - 1];
      var m := if Final(last) == Success || Final(last) == Failure(Rotate) then 1 else 0;
      m <= |ops| && TurnTrail(last, chat, ops[|ops| - m..]) && StoreTrail(ops[..|ops| - m], chat, turns[..n])
  }

  // ---------------------------------------------------------------- what follows from the record

  /** One turn, attempt by attempt: a second attempt is made exactly after a first error that asks for
      it, and only the last attempt can succeed. */
  lemma TurnInOutcomes(t: Turn)
    requires TurnOk(t)
    ensures 1 <= |t.outcomes| <= 2
    ensures |t.outcomes| == 2 <==> t.outcomes[0] == Failure(RetryOnce)
    ensures forall j :: 0 <= j < |t.outcomes| && t.outcomes[j] == Success ==> j == |t.outcomes| - 1
    ensures Final(t) == t.outcomes[|t.outcomes| - 1]
  {
  }

  /** The whole record, attempt by attempt.  Every turn but the last ends in a rotate error.  An attempt
      that succeeds is the very last one; exactly then the call answers that it played, with that
      assistant, and exactly then its last store call is the assignment of that assistant. */
  lemma RecordInOutcomes(ops: seq<DbOp>, chat: int, turns: seq<Turn>, assistants: set<int>)
    requires TurnsOk(turns, assistants) && turns != [] && StoreTrail(ops, chat, turns)
    ensures forall k :: 0 <= k < |turns| ==>
              var o := turns[k].outcomes;
              1 <= |o| <= 2 && (|o| == 2 <==> o[0] == Failure(RetryOnce))
    ensures forall k :: 0 <= k < |turns| - 1 ==> turns[k].outcomes[|turns[k].outcomes| - 1] == Failure(Rotate)
    ensures forall k, j :: 0 <= k < |turns| && 0 <= j < |turns[k].outcomes| && turns[k].outcomes[j] == Success ==>
              k == |turns| - 1 && j == |turns[k].outcomes| - 1
    ensures var last := turns[|turns| - 1];
            var outcome := last.outcomes[|last.outcomes| - 1];
            && (forall i :: VerdictOf(turns) == Played(i) <==> outcome == Success && i == last.index)
            && (VerdictOf(turns) == Exhausted <==> outcome == Failure(Rotate))
            && (forall kind :: VerdictOf(turns) == Failed(kind) ==> outcome == Failure(kind))
            && !VerdictOf(turns).NoAssistant?
            && (VerdictOf(turns) == FatalMessage <==> |turns| == 1 && last.outcomes == [Failure(Fatal)])
            && (outcome == Success <==> ops != [] && ops[|ops| - 1].Set?)
            && (outcome == Success ==> ops[|ops| - 1].chat == chat && ops[|ops| - 1].num == last.index)
  {
    forall k | 0 <= k < |turns| {
      TurnInOutcomes(turns[k]);
    }
    if Final(turns[|turns| - 1]).Failure? {
      forall k | 0 <= k < |turns| ensures Final(turns[k]).Failure? {
      }
      RotationsOnlyRemove(ops, chat, turns);
      if ops != [] { assert ops[|ops| - 1] in ops; }
    }
  }

  function AttemptsOn(turns: seq<Turn>, i: int): nat {
    if turns == [] then 0
    else
      var last := turns[|turns| - 1];
      AttemptsOn(turns[..|turns| - 1], i) + if last.index == i then |last.outcomes| else 0
  }

  /** At most two attempts are made on any assistant. */
  lemma {:induction false} AtMostTwoAttempts(turns: seq<Turn>, assistants: set<int>, i: int)
    requires TurnsOk(turns, assistants)
    ensures AttemptsOn(turns, i) <= 2
    ensures (forall k :: 0 <= k < |turns| ==> turns[k].index != i) ==> AttemptsOn(turns, i) == 0
  {
    if turns != [] {
      var n := |turns| - 1;
      AtMostTwoAttempts(turns[..n], assistants, i);
      if turns[n].index == i {
        forall k | 0 <= k < n ensures turns[..n][k].index != i { }
      }
    }
  }

  /** What all attempts came to, in order. */
  function Outcomes(turns: seq<Turn>): seq<Outcome> {
    if turns == [] then [] else Outcomes(turns[..|turns| - 1]) + turns[|turns| - 1].outcomes
  }

  lemma OutcomesGrow(turns: seq<Turn>, t: Turn)
    ensures Outcomes(turns + [t]) == Outcomes(turns) + t.outcomes
  {
    assert (turns + [t])[..|turns|] == turns;
  }

  /** All attempts but the last one fail; the last one decides, and nothing else can have succeeded. */
  lemma {:induction false} OnlyLastSucceeds(turns: seq<Turn>, assistants: set<int>)
    requires TurnsOk(turns, assistants)
    ensures |turns| <= |Outcomes(turns)| <= 2 * |turns|
    ensures forall j :: 0 <= j < |Outcomes(turns)| - 1 ==> Outcomes(turns)[j].Failure?
    ensures turns != [] ==> Outcomes(turns)[|Outcomes(turns)| - 1] == Final(turns[|turns| - 1])
  {
    if turns != [] {
      var n := |turns| - 1;
      var before, last := Outcomes(turns[..n]), turns[n];
      OnlyLastSucceeds(turns[..n], assistants);
      TurnInOutcomes(last);
      assert Outcomes(turns) == before + last.outcomes;
      if n > 0 { assert turns[..n][n - 1] == turns[n - 1]; }
    }
  }

  lemma {:induction false} FailureAmongOutcomes(turns: seq<Turn>)
    ensures AnyFailure(turns) <==> exists o :: o in Outcomes(turns) && o.Failure?
  {
    if turns != [] {
      var n := |turns| - 1;
      FailureAmongOutcomes(turns[..n]);
      AnyFailureInit(turns);
      assert Outcomes(turns) == Outcomes(turns[..n]) + turns[n].outcomes;
    }
  }

  lemma AnyFailureInit(turns: seq<Turn>)
    requires turns != []
    ensures AnyFailure(turns) <==> AnyFailure(turns[..|turns| - 1]) || HasFailure(turns[|turns| - 1])
  {
    var init := turns[..|turns| - 1];
    if AnyFailure(init) {
      var k :| 0 <= k < |init| && HasFailure(init[k]);
      assert HasFailure(turns[k]);
    }
    forall k | 0 <= k < |init| ensures init[k] == turns[k] { }
  }

  /** Giving up on assistants records removals and nothing else. */
  lemma {:induction false} RotationsOnlyRemove(ops: seq<DbOp>, chat: int, turns: seq<Turn>)
    requires forall k :: 0 <= k < |turns| ==> TurnOk(turns[k]) && Final(turns[k]).Failure?
    requires StoreTrail(ops, chat, turns)
    ensures forall op :: op in ops ==> op.Remove? && op.chat == chat
    ensures (forall k :: 0 <= k < |turns| ==> Final(turns[k]) == Failure(Rotate)) ==> |ops| == |turns|
    decreases |turns|
  {
    if turns != [] {
      var n := |turns| - 1;
      var m := if Final(turns[n]) == Failure(Rotate) then 1 else 0;
      RotationsOnlyRemove(ops[..|ops| - m], chat, turns[..n]);
      assert ops == ops[..|ops| - m] + ops[|ops| - m..];
    }
  }

  /** An assignment is recorded only for the assistant whose attempt succeeded, and then it is the
      last thing recorded. */
  lemma OnlySuccessIsRecorded(ops: seq<DbOp>, chat: int, turns: seq<Turn>, assistants: set<int>, k: nat)
    requires TurnsOk(turns, assistants) && StoreTrail(ops, chat, turns)
    requires k < |ops| && ops[k].Set?
    ensures turns != [] && VerdictOf(turns) == Played(ops[k].num) && k == |ops| - 1
  {
    var n := |turns| - 1;
    if Final(turns[n]).Failure? {
      assert ops[k] in ops;
      RotationsOnlyRemove(ops, chat, turns);
    } else {
      var m := |ops| - 1;
      RotationsOnlyRemove(ops[..m], chat, turns[..n]);
      forall j | 0 <= j < m ensures ops[j].Remove? {
        assert ops[..m][j] in ops[..m];
      }
    }
  }

  lemma {:induction false} IndicesCount(turns: seq<Turn>)
    requires forall j, k :: 0 <= j < k < |turns| ==> turns[j].index != turns[k].index
    ensures |Indices(turns)| == |turns|
  {
    if turns != [] {
      var n := |turns| - 1;
      IndicesCount(turns[..n]);
      assert turns == turns[..n] + [turns[n]];
      assert Indices(turns) == Indices(turns[..n]) + {turns[n].index};
    }
  }

  /** "After trying all assistants": every assistant had exactly one turn, it ended in a rotate error,
      and the store saw one removal of the chat's assignment for each of them and nothing else. */
  lemma ExhaustedMeansAll(ops: seq<DbOp>, chat: int, turns: seq<Turn>, assistants: set<int>)
    requires TurnsOk(turns, assistants) && StoreTrail(ops, chat, turns) && turns != []
    requires VerdictOf(turns) == Exhausted && Indices(turns) == assistants
    ensures |turns| == |assistants| && forall i :: i in assistants ==> exists t :: t in turns && t.index == i
    ensures forall t :: t in turns ==> Final(t) == Failure(Rotate)
    ensures |ops| == |assistants| && forall op :: op in ops ==> op.Remove? && op.chat == chat
  {
    IndicesCount(turns);
    forall k | 0 <= k < |turns| ensures Final(turns[k]) == Failure(Rotate) {
    }
    RotationsOnlyRemove(ops, chat, turns);
    forall i | i in assistants ensures exists t :: t in turns && t.index == i {
      assert i in Indices(turns);
    }
  }

  /** A success is always recorded, and it is the last call. */
  lemma {:induction false} SuccessIsRecorded(ops: seq<DbOp>, chat: int, turns: seq<Turn>, assistants: set<int>)
    requires TurnsOk(turns, assistants) && StoreTrail(ops, chat, turns) && turns != []
    requires VerdictOf(turns).Played?
    ensures ops != [] && ops[|ops| - 1].Set? && ops[|ops| - 1].chat == chat
    ensures ops[|ops| - 1].num == VerdictOf(turns).index && VerdictOf(turns).index in assistants
  {
  }

  /** After a successful `PlayMedia` whose assignment was written, the chat keeps that assistant
      through any later operations that do not remove, clear or change it. */
  lemma PlayedIsSticky(s: State, ops: seq<DbOp>, chat: int, turns: seq<Turn>, assistants: set<int>,
                       later: seq<DbOp>, l: Luck)
    requires Coherent(s) && TurnsOk(turns, assistants) && turns != [] && StoreTrail(ops, chat, turns)
    requires VerdictOf(turns).Played? && 0 <= VerdictOf(turns).index < |assistants|
    requires ops[|ops| - 1].Set? ==> ops[|ops| - 1].writeOk
    requires forall op :: op in later ==> !Unpins(op, chat, VerdictOf(turns).index)
    ensures var then' := Run(Run(s, ops), later);
            chat in then'.cache || l.readOk ==>
              ClientIndex(then', chat, |assistants|, l) == VerdictOf(turns).index
  {
    SuccessIsRecorded(ops, chat, turns, assistants);
    var before := Run(s, ops[..|ops| - 1]);
    RunCoherent(s, ops[..|ops| - 1]);
    Sticky(before, later, chat, VerdictOf(turns).index, |assistants|, l);
  }
}
