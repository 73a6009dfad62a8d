/** The animated status message of `src/core/status/status.go` as a transition system.

    One animation goroutine and any number of `EditText` and `Stop` calls share a mutex, the
    `resolved` flag, and a done channel that is closed through a sync.Once.  A step is one participant
    passing one program point; its label carries every choice of scheduler, ticker and timer. */
module StatusProtocol {

  datatype Edit = Frame(n: nat) | Text(editor: nat)

  /** An edit handed to Telegram, which may reject it. */
  datatype Send = Send(edit: Edit, ok: bool)

  datatype Holder = Nobody | Animation | Editor(i: nat)

  datatype AnimPhase =
    | Select       // waiting for done, deadline or tick
    | Stopping     // past the deadline or the last edit: about to close done and return
    | WantLock     // ticked, edits left
    | Checking     // holding the mutex, before looking at `resolved`
    | Sending      // holding the mutex, not resolved: about to send a frame
    | Unlocking    // frame sent, before releasing the mutex
    | Counting     // mutex released, before frame++ and edits++
    | Abandoning   // found it resolved: about to release the mutex and return
    | Exited

  datatype EditPhase = Begin | WantLock | Marking | Sending | Unlocking | Finished

  datatype State = State(
    maxEdits: int,
    anim: AnimPhase, frame: nat, edits: nat,
    editors: seq<EditPhase>,
    stops: seq<bool>,       // which Stop calls have run
    mu: Holder, resolved: bool,
    once: bool,             // stopOnce has fired
    closes: nat,            // times close(done) was executed
    log: seq<Send>)         // edits sent, oldest first

  datatype Label =
    | SeeDone | Deadline | Tick | StopSelf
    | AnimLock | AnimCheck | AnimSend(ok: bool) | AnimUnlock | AnimCount | AnimAbandon
    | EditStop(i: nat) | EditLock(i: nat) | EditMark(i: nat) | EditSend(i: nat, ok: bool)
    | EditUnlock(i: nat)
    | Stop(i: nat)

  predicate Enabled(s: State, l: Label) {
    match l
    case SeeDone => s.anim.Select? && s.closes > 0
    case Deadline => s.anim.Select?
    case Tick => s.anim.Select?
    case StopSelf => s.anim.Stopping?
    case AnimLock => s.anim.WantLock? && s.mu.Nobody?
    case AnimCheck => s.anim.Checking?
    case AnimSend(_) => s.anim.Sending?
    case AnimUnlock => s.anim.Unlocking?
    case AnimCount => s.anim.Counting?
    case AnimAbandon => s.anim.Abandoning?
    case EditStop(i) => i < |s.editors| && s.editors[i].Begin?
    case EditLock(i) => i < |s.editors| && s.editors[i].WantLock? && s.mu.Nobody?
    case EditMark(i) => i < |s.editors| && s.editors[i].Marking?
    case EditSend(i, _) => i < |s.editors| && s.editors[i].Sending?
    case EditUnlock(i) => i < |s.editors| && s.editors[i].Unlocking?
    case Stop(i) => i < |s.stops| && !s.stops[i]
  }

  /** `stopOnce.Do(close(done))`. */
  function Close(s: State): State {
    if s.once then s else s.(once := true, closes := s.closes + 1)
  }

  function Apply(s: State, l: Label): State
    requires Enabled(s, l)
  {
    match l
    case SeeDone => s.(anim := Exited)
    case Deadline => s.(anim := Stopping)
    case Tick => s.(anim := if s.edits >= s.maxEdits then Stopping else AnimPhase.WantLock)
    case StopSelf => Close(s).(anim := Exited)
    case AnimLock => s.(anim := Checking, mu := Animation)
    case AnimCheck => s.(anim := if s.resolved then Abandoning else AnimPhase.Sending)
    case AnimSend(ok) => s.(anim := AnimPhase.Unlocking, log := s.log + [Send(Frame(s.frame), ok)])
    case AnimUnlock => s.(anim := Counting, mu := Nobody)
    case AnimCount => s.(anim := Select, frame := s.frame + 1, edits := s.edits + 1)
    case AnimAbandon => s.(anim := Exited, mu := Nobody)
    case EditStop(i) => Close(s).(editors := s.editors[i := EditPhase.WantLock])
    case EditLock(i) => s.(editors := s.editors[i := Marking], mu := Editor(i))
    case EditMark(i) => s.(editors := s.editors[i := EditPhase.Sending], resolved := true)
    case EditSend(i, ok) => s.(editors := s.editors[i := EditPhase.Unlocking], log := s.log + [Send(Text(i), ok)])
    case EditUnlock(i) => s.(editors := s.editors[i := Finished], mu := Nobody)
    case Stop(i) => Close(s).(stops := s.stops[i := true])
  }

  /** Right after New: the goroutine runs unless the animation is disabled. */
  ghost predicate Initial(s: State) {
    && (s.anim.Select? || s.anim.Exited?) && s.frame == 1 && s.edits == 0
    && (forall i :: 0 <= i < |s.editors| ==> s.editors[i].Begin?)
    && (forall i :: 0 <= i < |s.stops| ==> !s.stops[i])
    && s.mu.Nobody? && !s.resolved && !s.once && s.closes == 0 && s.log == []
  }

  /** The labels lead from each state to the next. */
  ghost predicate IsPath(states: seq<State>, labels: seq<Label>) {
    && |states| == |labels| + 1
    && forall t :: 0 <= t < |labels| ==> Enabled(states[t], labels[t]) && states[t + 1] == Apply(states[t], labels[t])
  }

  ghost predicate IsRun(states: seq<State>, labels: seq<Label>) {
    IsPath(states, labels) && Initial(states[0])
  }

  // ---------------------------------------------------------------- the invariant

  predicate AnimHolds(p: AnimPhase) {
    p.Checking? || p.Sending? || p.Unlocking? || p.Abandoning?
  }

  predicate EditHolds(p: EditPhase) {
    p.Marking? || p.Sending? || p.Unlocking?
  }

  /** Frames sent so far: those counted, and one sent but not counted yet. */
  function Frames(s: State): nat {
    s.edits + if s.anim.Unlocking? || s.anim.Counting? then 1 else 0
  }

  ghost predicate EditorOk(s: State, i: nat)
    requires i < |s.editors|
  {
    && (EditHolds(s.editors[i]) <==> s.mu == Editor(i))
    && (s.editors[i].Sending? || s.editors[i].Unlocking? || s.editors[i].Finished? ==> s.resolved)
  }

  /** The mutex is held by whoever is between its lock and unlock, and guards `resolved`. */
  ghost predicate LockInv(s: State) {
    && (AnimHolds(s.anim) <==> s.mu == Animation)
    && (forall i {:trigger EditorOk(s, i)} :: 0 <= i < |s.editors| ==> EditorOk(s, i))
    && (s.mu.Editor? ==> s.mu.i < |s.editors|)
    && (s.anim.Sending? ==> !s.resolved)
  }

  ghost predicate CountInv(s: State) {
    && s.frame == s.edits + 1
    && (s.edits == 0 || s.edits <= s.maxEdits)
    && (s.anim.WantLock? || AnimHolds(s.anim) || s.anim.Counting? ==> s.edits < s.maxEdits)
    && s.closes == (if s.once then 1 else 0)
  }

  /** The log is frames 1 to `n`, then texts. */
  ghost predicate FramesThenTexts(log: seq<Send>, n: nat) {
    && n <= |log|
    && (forall j :: 0 <= j < n ==> log[j].edit == Frame(j + 1))
    && (forall j :: n <= j < |log| ==> log[j].edit.Text?)
  }

  ghost predicate LogInv(s: State) {
    FramesThenTexts(s.log, Frames(s)) && (Frames(s) < |s.log| ==> s.resolved)
  }

  ghost predicate Inv(s: State) {
    LockInv(s) && CountInv(s) && LogInv(s)
  }

  lemma StepLock(s: State, l: Label)
    requires LockInv(s) && Enabled(s, l)
    ensures LockInv(Apply(s, l))
  {
    var t := Apply(s, l);
    if l.EditStop? || l.EditLock? || l.EditMark? || l.EditSend? || l.EditUnlock? {
      assert EditorOk(s, l.i);
    }
    forall i | 0 <= i < |t.editors| ensures EditorOk(t, i) {
      assert EditorOk(s, i);
    }
  }

  lemma StepCount(s: State, l: Label)
    requires CountInv(s) && Enabled(s, l)
    ensures CountInv(Apply(s, l))
  {
  }

  lemma StepLog(s: State, l: Label)
    requires LockInv(s) && CountInv(s) && LogInv(s) && Enabled(s, l)
    ensures LogInv(Apply(s, l))
  {
    if l.EditSend? {
      assert EditorOk(s, l.i);
    }
  }

  /** Every step of every participant keeps the invariant. */
  lemma StepInv(s: State, l: Label)
    requires Inv(s) && Enabled(s, l)
    ensures Inv(Apply(s, l))
  {
    StepLock(s, l);
    StepCount(s, l);
    StepLog(s, l);
  }

  lemma {:induction false} ReachableInv(states: seq<State>, labels: seq<Label>, t: nat)
    requires IsRun(states, labels) && t < |states|
    ensures Inv(states[t])
  {
    if t > 0 {
      ReachableInv(states, labels, t - 1);
      StepInv(states[t - 1], labels[t - 1]);
    }
  }

  // ---------------------------------------------------------------- what a run delivers

  lemma StepLogGrows(s: State, l: Label)
    requires Enabled(s, l)
    ensures s.log <= Apply(s, l).log && s.maxEdits == Apply(s, l).maxEdits
    ensures |s.editors| == |Apply(s, l).editors|
  {
  }

  lemma LogGrowsAt(states: seq<State>, labels: seq<Label>, t: nat)
    requires IsPath(states, labels) && t < |labels|
    ensures states[t].log <= states[t + 1].log && states[t].maxEdits == states[t + 1].maxEdits
  {
    StepLogGrows(states[t], labels[t]);
  }

  /** The log only grows along a run. */
  lemma {:induction false} LogGrows(states: seq<State>, labels: seq<Label>, t: nat, u: nat)
    requires IsRun(states, labels) && t <= u < |states|
    ensures states[t].log <= states[u].log && states[t].maxEdits == states[u].maxEdits
  {
    if t < u {
      LogGrows(states, labels, t, u - 1);
      LogGrowsAt(states, labels, u - 1);
    }
  }

  /** In every interleaving the edits sent are frames 1, 2, 3, ... and then only resolution texts: no
      frame follows a text, and there are at most `maxEdits` frames. */
  lemma ResolutionIsLast(states: seq<State>, labels: seq<Label>, t: nat)
    requires IsRun(states, labels) && t < |states|
    ensures exists n: nat :: FramesThenTexts(states[t].log, n) && (n == 0 || n <= states[0].maxEdits)
  {
    ReachableInv(states, labels, t);
    LogGrows(states, labels, 0, t);
    assert FramesThenTexts(states[t].log, Frames(states[t]));
  }

  /** Once some EditText has edited the message, nothing but texts is ever sent. */
  lemma NoFrameAfterText(states: seq<State>, labels: seq<Label>, t: nat, u: nat, j: nat)
    requires IsRun(states, labels) && t <= u < |states|
    requires exists i :: 0 <= i < |states[t].log| && states[t].log[i].edit.Text?
    requires |states[t].log| <= j < |states[u].log|
    ensures states[u].log[j].edit.Text?
  {
    LogGrows(states, labels, t, u);
    ReachableInv(states, labels, u);
    var i :| 0 <= i < |states[t].log| && states[t].log[i].edit.Text?;
    assert states[u].log[i] == states[t].log[i];
  }

  ghost predicate StoppedBefore(labels: seq<Label>, t: nat) {
    exists u :: 0 <= u < t && u < |labels| && (labels[u].Stop? || labels[u].EditStop? || labels[u].StopSelf?)
  }

  /** The done channel is closed at most once, whoever gets there first, and is closed exactly from the
      first stop on: a call of Stop, an EditText's or the animation's own. */
  lemma {:induction false} ClosedOnce(states: seq<State>, labels: seq<Label>, t: nat)
    requires IsRun(states, labels) && t < |states|
    ensures states[t].closes == if StoppedBefore(labels, t) then 1 else 0
  {
    ReachableInv(states, labels, t);
    if t > 0 {
      var s, l := states[t - 1], labels[t - 1];
      ClosedOnce(states, labels, t - 1);
      ReachableInv(states, labels, t - 1);
      assert states[t - 1 + 1] == Apply(s, l);
      if !l.Stop? && !l.EditStop? && !l.StopSelf? {
        assert StoppedBefore(labels, t) <==> StoppedBefore(labels, t - 1);
      }
    }
  }

  /** Along a run the log gets every edit as it is sent, and whether it was accepted: the next frame in
      turn from the animation, its own text from an EditText, and nothing from anything else. */
  lemma LoggedAsSent(states: seq<State>, labels: seq<Label>, t: nat)
    requires IsRun(states, labels) && t < |labels|
    ensures var l, before, after := labels[t], states[t].log, states[t + 1].log;
            && (l.AnimSend? ==> after == before + [Send(Frame(|before| + 1), l.ok)])
            && (l.EditSend? ==> after == before + [Send(Text(l.i), l.ok)])
            && (!l.AnimSend? && !l.EditSend? ==> after == before)
  {
    ReachableInv(states, labels, t);
  }

  /** When an EditText has sent its text, that or another text is the last edit sent. */
  lemma TextRemains(states: seq<State>, labels: seq<Label>, t: nat, i: nat)
    requires IsRun(states, labels) && t < |states|
    requires i < |states[t].editors| && states[t].editors[i].Finished?
    ensures states[t].log != [] && states[t].log[|states[t].log| - 1].edit.Text?
  {
    ReachableInv(states, labels, t);
    FinishedSent(states, labels, t, i);
    var j :| 0 <= j < |states[t].log| && states[t].log[j].edit == Text(i);
  }

  lemma {:induction false} FinishedSent(states: seq<State>, labels: seq<Label>, t: nat, i: nat)
    requires IsRun(states, labels) && t < |states| && i < |states[t].editors|
    requires states[t].editors[i].Unlocking? || states[t].editors[i].Finished?
    ensures exists j :: 0 <= j < |states[t].log| && states[t].log[j].edit == Text(i)
  {
    var s, l := states[t - 1], labels[t - 1];
    assert states[t - 1 + 1] == Apply(s, l);
    if s.editors[i].Unlocking? || s.editors[i].Finished? {
      FinishedSent(states, labels, t - 1, i);
      StepLogGrows(s, l);
      var j :| 0 <= j < |s.log| && s.log[j].edit == Text(i);
      assert states[t].log[j] == s.log[j];
    } else {
      assert l.EditSend? && l.i == i;
      assert states[t].log[|s.log|].edit == Text(i);
    }
  }

  // ---------------------------------------------------------------- what the message shows

  /** The edits Telegram accepted. */
  function Delivered(log: seq<Send>): seq<Edit> {
    if log == [] then []
    else
      var n := |log| - 1;
      Delivered(log[..n]) + if log[n].ok then [log[n].edit] else []
  }

  /** Frames in increasing order up to `n`, some perhaps missing, and from index `m` on texts. */
  ghost predicate RisingThenTexts(edits: seq<Edit>, m: nat, n: nat) {
    && m <= |edits|
    && (forall j :: 0 <= j < m ==> edits[j].Frame? && edits[j].n <= n)
    && (forall i, j :: 0 <= i < j < m ==> edits[i].n < edits[j].n)
    && (forall j :: m <= j < |edits| ==> edits[j].Text?)
  }

  lemma {:induction false} DeliveredInOrder(log: seq<Send>, n: nat) returns (m: nat)
    requires FramesThenTexts(log, n)
    ensures RisingThenTexts(Delivered(log), m, n)
    ensures n == |log| ==> m == |Delivered(log)|
  {
    if log == [] {
      m := 0;
    } else {
      var k := |log| - 1;
      m := DeliveredInOrder(log[..k], if n <= k then n else k);
      if log[k].ok && k < n {
        m := m + 1;
      }
    }
  }

  ghost predicate TextDelivered(log: seq<Send>) {
    exists j :: 0 <= j < |log| && log[j].ok && log[j].edit.Text?
  }

  lemma {:induction false} DeliveredMember(log: seq<Send>, j: nat)
    requires j < |log| && log[j].ok
    ensures log[j].edit in Delivered(log)
  {
    if j < |log| - 1 {
      DeliveredMember(log[..|log| - 1], j);
    }
  }

  lemma {:induction false} DeliveredSource(log: seq<Send>, e: Edit)
    requires e in Delivered(log)
    ensures exists j :: 0 <= j < |log| && log[j].ok && log[j].edit == e
  {
    var n := |log| - 1;
    if !(log[n].ok && log[n].edit == e) {
      DeliveredSource(log[..n], e);
      var j :| 0 <= j < n && log[..n][j].ok && log[..n][j].edit == e;
      assert log[j].ok;
    }
  }

  /** What the message shows in the end: accepted frames in increasing order, then accepted texts.  It
      shows a text exactly if some text was accepted; an EditText whose edit was rejected leaves the
      last accepted frame in place. */
  lemma MessageShowsText(states: seq<State>, labels: seq<Label>, t: nat)
    requires IsRun(states, labels) && t < |states|
    ensures var shown := Delivered(states[t].log);
            && (exists m: nat :: RisingThenTexts(shown, m, Frames(states[t])))
            && (shown != [] && shown[|shown| - 1].Text? <==> TextDelivered(states[t].log))
  {
    var log := states[t].log;
    ReachableInv(states, labels, t);
    var m := DeliveredInOrder(log, Frames(states[t]));
    var shown := Delivered(log);
    assert RisingThenTexts(shown, m, Frames(states[t]));
    if TextDelivered(log) {
      var j :| 0 <= j < |log| && log[j].ok && log[j].edit.Text?;
      DeliveredMember(log, j);
      var k :| 0 <= k < |shown| && shown[k] == log[j].edit;
    } else if shown != [] {
      DeliveredSource(log, shown[|shown| - 1]);
    }
  }

  // ---------------------------------------------------------------- when a frame can still follow

  /** A frame can still be sent: one is on its way, or none but the animation has a claim on the mutex,
      nothing is resolved, and frames are left to a loop that has not been given up. */
  predicate CanFrame(s: State) {
    || s.anim.Sending?
    || (!s.resolved && !s.mu.Editor? && Frames(s) < s.maxEdits
        && (s.anim.Select? || s.anim.WantLock? || s.anim.Checking? || s.anim.Unlocking? || s.anim.Counting?))
  }

  ghost predicate SendsFrame(labels: seq<Label>) {
    exists t :: 0 <= t < |labels| && labels[t].AnimSend?
  }

  ghost predicate FrameCanFollow(s: State) {
    exists states: seq<State>, labels: seq<Label> :: IsPath(states, labels) && states[0] == s && SendsFrame(labels)
  }

  lemma StepCannotFrame(s: State, l: Label)
    requires Inv(s) && Enabled(s, l) && !CanFrame(s)
    ensures !l.AnimSend? && !CanFrame(Apply(s, l))
  {
    if l.EditLock? || l.EditMark? || l.EditSend? || l.EditUnlock? {
      assert EditorOk(s, l.i);
    }
  }

  lemma {:induction false} NoFrameAhead(states: seq<State>, labels: seq<Label>, t: nat)
    requires IsPath(states, labels) && Inv(states[0]) && !CanFrame(states[0]) && t <= |labels|
    ensures Inv(states[t]) && !CanFrame(states[t])
    ensures t < |labels| ==> !labels[t].AnimSend?
  {
    if t > 0 {
      NoFrameAhead(states, labels, t - 1);
      StepInv(states[t - 1], labels[t - 1]);
      StepCannotFrame(states[t - 1], labels[t - 1]);
      assert states[t - 1 + 1] == Apply(states[t - 1], labels[t - 1]);
    }
    if t < |labels| {
      StepCannotFrame(states[t], labels[t]);
    }
  }

  /** The animation's own way to its next frame. */
  function TowardsFrame(p: AnimPhase): (Label, nat) {
    match p
    case Unlocking => (AnimUnlock, 5)
    case Counting => (AnimCount, 4)
    case Select => (Tick, 3)
    case WantLock => (AnimLock, 2)
    case Checking => (AnimCheck, 1)
    case _ => (AnimSend(true), 0)
  }

  lemma {:induction false} FrameAhead(s: State) returns (states: seq<State>, labels: seq<Label>)
    requires Inv(s) && CanFrame(s)
    ensures IsPath(states, labels) && states[0] == s && SendsFrame(labels)
    decreases TowardsFrame(s.anim).1
  {
    var l := TowardsFrame(s.anim).0;
    var s' := Apply(s, l);
    if l.AnimSend? {
      states, labels := [s, s'], [l];
      assert labels[0].AnimSend?;
    } else {
      StepInv(s, l);
      var rest, more := FrameAhead(s');
      states, labels := [s] + rest, [l] + more;
      var t :| 0 <= t < |more| && more[t].AnimSend?;
      assert labels[t + 1] == more[t];
    }
  }

  /** Exactly when a frame can still follow: in every reachable state, some continuation sends one if
      and only if `CanFrame` holds. */
  lemma FrameFollows(s: State)
    requires Inv(s)
    ensures FrameCanFollow(s) <==> CanFrame(s)
  {
    if CanFrame(s) {
      var states, labels := FrameAhead(s);
    } else if FrameCanFollow(s) {
      var states: seq<State>, labels: seq<Label> :| IsPath(states, labels) && states[0] == s && SendsFrame(labels);
      var t :| 0 <= t < |labels| && labels[t].AnimSend?;
      NoFrameAhead(states, labels, t);
    }
  }

  /** A call of Stop makes no difference to that: whatever the run before, a frame can follow the Stop
      if and only if it could have followed without it.  Marking the message resolved does. */
  lemma StopKeepsFrames(states: seq<State>, labels: seq<Label>, t: nat, l: Label)
    requires IsRun(states, labels) && t < |states| && Enabled(states[t], l)
    ensures l.Stop? ==> (FrameCanFollow(Apply(states[t], l)) <==> CanFrame(states[t]))
    ensures l.EditMark? ==> !FrameCanFollow(Apply(states[t], l))
  {
    ReachableInv(states, labels, t);
    StepInv(states[t], l);
    FrameFollows(Apply(states[t], l));
    if l.EditMark? {
      assert EditorOk(states[t], l.i);
    }
  }

  /** For one, the first frame can be sent after a Stop call has returned. */
  lemma FrameAfterStop(s: State)
    requires Initial(s) && s.anim.Select? && s.maxEdits > 0 && |s.stops| > 0
    ensures exists states: seq<State>, labels: seq<Label> :: IsRun(states, labels) && states[0] == s
              && |labels| == 5 && labels[0] == Stop(0) && states[5].log == [Send(Frame(1), true)]
  {
    var labels := [Stop(0), Tick, AnimLock, AnimCheck, AnimSend(true)];
    var s1 := Apply(s, labels[0]);
    var s2 := Apply(s1, labels[1]);
    var s3 := Apply(s2, labels[2]);
    var s4 := Apply(s3, labels[3]);
    var states := [s, s1, s2, s3, s4, Apply(s4, labels[4])];
    assert IsRun(states, labels) && states[5].log == [Send(Frame(1), true)];
  }
}
