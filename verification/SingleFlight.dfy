/** The single-flight download manager of `src/core/dl/manager.go` as a transition system.

    Any number of callers run `resolveViaManager` at once.  A step is one caller passing one program
    point, or the path cache losing an entry (by eviction or expiry).  The label of a step carries
    every choice made by the outside world, so `Apply` is a function of state and label. */
module SingleFlight {
  import opened DownloadRetry

  const MAX_PARALLEL := 4

  datatype Via = Cached | Led(call: nat) | Joined(call: nat)

  /** The program point of one caller. */
  datatype Phase =
    | FirstCheck                          // before the cache check outside the group
    | Enter                               // before taking the group lock
    | Wait(call: nat)                     // joined: blocked on the call's done channel
    | Recheck(call: nat)                  // leading: before the second cache check
    | Acquire(call: nat)                  // before taking a download permit
    | Fetch(call: nat, attempt: nat)      // holding a permit, about to make this attempt
    | Store(call: nat, path: string)      // holding a permit, before the cache is set
    | Release(call: nat, out: Outcome)    // before the deferred release of the permit
    | Publish(call: nat, out: Outcome)    // before the outcome is written to the call record
    | CloseDone(call: nat)                // before the done channel is closed
    | Forget(call: nat)                   // before the call leaves the map
    | Done(via: Via, out: Outcome)

  datatype Caller = Caller(key: string, phase: Phase)

  /** A call record; `leader` is the caller that made it, which the source knows by its stack. */
  datatype Call = Call(key: string, leader: nat, out: Outcome, closed: bool)

  datatype State = State(
    callers: seq<Caller>,
    calls: seq<Call>,              // every record ever made
    inFlight: map<string, nat>,    // the group's map: key -> record
    permits: nat,                  // tokens in the semaphore channel
    cache: map<string, string>)    // key -> path, expired entries taken out by `Lose`

  datatype Label =
    | CheckHit(i: nat) | CheckMiss(i: nat)
    | Join(i: nat) | Lead(i: nat) | Wake(i: nat)
    | RecheckHit(i: nat) | RecheckMiss(i: nat) | RecheckInvalid(i: nat)
    | Take(i: nat) | Try(i: nat, result: Attempt) | Put(i: nat) | Give(i: nat)
    | Write(i: nat) | Close(i: nat) | Leave(i: nat)
    | Lose(key: string)

  // ---------------------------------------------------------------- steps

  /** What the validity check of a cached path may answer: an empty path is never valid, a remote
      one always is, a local one depends on the file system. */
  predicate MayBeValid(path: string) { path != "" }
  predicate MayBeInvalid(path: string) { !IsRemote(path) }

  predicate Enabled(s: State, l: Label) {
    if l.Lose? then l.key in s.cache
    else
      l.i < |s.callers| &&
      var key, p := s.callers[l.i].key, s.callers[l.i].phase;
      match l
      case CheckHit(_) => p.FirstCheck? && key in s.cache && MayBeValid(s.cache[key])
      case CheckMiss(_) => p.FirstCheck? && (key in s.cache ==> MayBeInvalid(s.cache[key]))
      case Join(_) => p.Enter? && key in s.inFlight
      case Lead(_) => p.Enter? && key !in s.inFlight
      case Wake(_) => p.Wait? && p.call < |s.calls| && s.calls[p.call].closed
      case RecheckHit(_) => p.Recheck? && key in s.cache && MayBeValid(s.cache[key])
      case RecheckMiss(_) => p.Recheck? && key !in s.cache
      case RecheckInvalid(_) => p.Recheck? && key in s.cache && MayBeInvalid(s.cache[key])
      case Take(_) => p.Acquire? && s.permits < MAX_PARALLEL
      case Try(_, result) => p.Fetch? && (result.Fetched? ==> result.path != "")
      case Put(_) => p.Store?
      case Give(_) => p.Release? && s.permits > 0
      case Write(_) => p.Publish? && p.call < |s.calls|
      case Close(_) => p.CloseDone? && p.call < |s.calls|
      case Leave(_) => p.Forget? && p.call < |s.calls|
  }

  function Goto(s: State, i: nat, p: Phase): State
    requires i < |s.callers|
  {
    s.(callers := s.callers[i := s.callers[i].(phase := p)])
  }

  function Apply(s: State, l: Label): State
    requires Enabled(s, l)
  {
    if l.Lose? then s.(cache := s.cache - {l.key})
    else
      var i, key, p := l.i, s.callers[l.i].key, s.callers[l.i].phase;
      match l
      case CheckHit(_) => Goto(s, i, Done(Cached, Ok(s.cache[key])))
      case CheckMiss(_) => Goto(s, i, Enter)
      case Join(_) => Goto(s, i, Wait(s.inFlight[key]))
      case Lead(_) =>
        // A fresh record has the zero path and error, which read as success with an empty path.
        Goto(s, i, Recheck(|s.calls|)).(
          calls := s.calls + [Call(key, i, Ok(""), false)],
          inFlight := s.inFlight[key := |s.calls|])
      case Wake(_) => Goto(s, i, Done(Joined(p.call), s.calls[p.call].out))
      case RecheckHit(_) => Goto(s, i, Publish(p.call, Ok(s.cache[key])))
      case RecheckMiss(_) => Goto(s, i, Acquire(p.call))
      case RecheckInvalid(_) => Goto(s, i, Acquire(p.call))
      case Take(_) => Goto(s, i, Fetch(p.call, 1)).(permits := s.permits + 1)
      case Try(_, result) =>
        if !Final(p.attempt, result) then Goto(s, i, Fetch(p.call, p.attempt + 1))
        else if result.Fetched? then Goto(s, i, Store(p.call, result.path))
        else Goto(s, i, Release(p.call, Decide(result)))
      case Put(_) => Goto(s, i, Release(p.call, Ok(p.path))).(cache := s.cache[key := p.path])
      case Give(_) => Goto(s, i, Publish(p.call, p.out)).(permits := s.permits - 1)
      case Write(_) => Goto(s, i, CloseDone(p.call)).(calls := s.calls[p.call := s.calls[p.call].(out := p.out)])
      case Close(_) => Goto(s, i, Forget(p.call)).(calls := s.calls[p.call := s.calls[p.call].(closed := true)])
      case Leave(_) => Goto(s, i, Done(Led(p.call), s.calls[p.call].out)).(inFlight := s.inFlight - {key})
  }

  /** Nobody has started; the cache may hold anything. */
  ghost predicate Initial(s: State) {
    && (forall i :: 0 <= i < |s.callers| ==> s.callers[i].phase == FirstCheck)
    && s.calls == [] && s.inFlight == map[] && s.permits == 0
  }

  /** `states[t]` is the state before step `t`. */
  ghost predicate IsRun(states: seq<State>, labels: seq<Label>) {
    && |states| == |labels| + 1
    && Initial(states[0])
    && forall t :: 0 <= t < |labels| ==> Enabled(states[t], labels[t]) && states[t + 1] == Apply(states[t], labels[t])
  }

  // ---------------------------------------------------------------- the invariant

  /** The call a caller is leading right now. */
  function Leading(p: Phase): set<nat> {
    match p
    case Recheck(c) => {c}
    case Acquire(c) => {c}
    case Fetch(c, _) => {c}
    case Store(c, _) => {c}
    case Release(c, _) => {c}
    case Publish(c, _) => {c}
    case CloseDone(c) => {c}
    case Forget(c) => {c}
    case _ => {}
  }

  predicate Holds(p: Phase) {
    p.Fetch? || p.Store? || p.Release?
  }

  function Holders(callers: seq<Caller>): nat {
    if callers == [] then 0
    else Holders(callers[..|callers| - 1]) + if Holds(callers[|callers| - 1].phase) then 1 else 0
  }

  ghost predicate CallerOk(callers: seq<Caller>, calls: seq<Call>, i: nat)
    requires i < |callers|
  {
    var key, p := callers[i].key, callers[i].phase;
    && (forall c :: c in Leading(p) ==> c < |calls| && calls[c].leader == i && calls[c].key == key)
    && (p.Wait? ==> p.call < |calls| && calls[p.call].key == key)
    && (p.Fetch? ==> 1 <= p.attempt <= MAX_RETRIES)
    && (p.Done? && p.via.Led? ==>
          p.via.call < |calls| && calls[p.via.call].leader == i && calls[p.via.call].key == key)
    && (p.Done? && p.via.Joined? ==>
          p.via.call < |calls| && calls[p.via.call].key == key
          && calls[p.via.call].closed && p.out == calls[p.via.call].out)
  }

  ghost predicate CallOk(callers: seq<Caller>, calls: seq<Call>, inFlight: map<string, nat>, c: nat)
    requires c < |calls|
  {
    var call := calls[c];
    call.leader < |callers| &&
    var p := callers[call.leader].phase;
    && (c in Leading(p) || (p.Done? && p.via == Led(c) && p.out == call.out))
    && (call.closed <==> p.Forget? || p.Done?)
    && (c in Leading(p) ==> call.key in inFlight && inFlight[call.key] == c)
  }

  ghost predicate EntryOk(callers: seq<Caller>, calls: seq<Call>, inFlight: map<string, nat>, key: string)
    requires key in inFlight
  {
    var c := inFlight[key];
    && c < |calls| && calls[c].key == key
    && calls[c].leader < |callers|
    && c in Leading(callers[calls[c].leader].phase)
  }

  ghost predicate Consistent(callers: seq<Caller>, calls: seq<Call>, inFlight: map<string, nat>) {
    && (forall i {:trigger CallerOk(callers, calls, i)} :: 0 <= i < |callers| ==> CallerOk(callers, calls, i))
    && (forall c {:trigger CallOk(callers, calls, inFlight, c)} ::
          0 <= c < |calls| ==> CallOk(callers, calls, inFlight, c))
    && (forall key {:trigger EntryOk(callers, calls, inFlight, key)} ::
          key in inFlight ==> EntryOk(callers, calls, inFlight, key))
  }

  ghost predicate Inv(s: State) {
    && Consistent(s.callers, s.calls, s.inFlight)
    && s.permits == Holders(s.callers) <= MAX_PARALLEL
  }

  lemma {:induction false} HoldersUpdate(callers: seq<Caller>, i: nat, c: Caller)
    requires i < |callers|
    ensures Holders(callers[i := c]) ==
            Holders(callers) - (if Holds(callers[i].phase) then 1 else 0) + (if Holds(c.phase) then 1 else 0)
  {
    var n := |callers| - 1;
    if i < n {
      HoldersUpdate(callers[..n], i, c);
      assert callers[i := c][..n] == callers[..n][i := c];
    } else {
      assert callers[i := c][..n] == callers[..n];
    }
  }

  lemma {:induction false} HoldersNone(callers: seq<Caller>)
    requires forall i :: 0 <= i < |callers| ==> !Holds(callers[i].phase)
    ensures Holders(callers) == 0
  {
    if callers != [] {
      HoldersNone(callers[..|callers| - 1]);
    }
  }

  lemma InitialInv(s: State)
    requires Initial(s)
    ensures Inv(s)
  {
    HoldersNone(s.callers);
  }

  /** Moving one caller to a point with the same leadership keeps the records consistent. */
  lemma MoveConsistent(callers: seq<Caller>, calls: seq<Call>, inFlight: map<string, nat>, i: nat, q: Phase)
    requires Consistent(callers, calls, inFlight) && i < |callers|
    requires Leading(q) == Leading(callers[i].phase)
    requires !callers[i].phase.Done? && !callers[i].phase.Forget? && !q.Forget?
    requires q.Done? ==> Leading(q) == {}
    requires CallerOk(callers[i := callers[i].(phase := q)], calls, i)
    ensures Consistent(callers[i := callers[i].(phase := q)], calls, inFlight)
  {
    var callers' := callers[i := callers[i].(phase := q)];
    assert CallerOk(callers, calls, i);
    forall j | 0 <= j < |callers'| ensures CallerOk(callers', calls, j) {
      if j != i { assert CallerOk(callers, calls, j); }
    }
    forall c | 0 <= c < |calls| ensures CallOk(callers', calls, inFlight, c) {
      assert CallOk(callers, calls, inFlight, c);
    }
    forall key | key in inFlight ensures EntryOk(callers', calls, inFlight, key) {
      assert EntryOk(callers, calls, inFlight, key);
    }
  }

  lemma LeadConsistent(callers: seq<Caller>, calls: seq<Call>, inFlight: map<string, nat>, i: nat)
    requires Consistent(callers, calls, inFlight) && i < |callers|
    requires callers[i].phase.Enter? && callers[i].key !in inFlight
    ensures Consistent(callers[i := callers[i].(phase := Recheck(|calls|))],
                       calls + [Call(callers[i].key, i, Ok(""), false)],
                       inFlight[callers[i].key := |calls|])
  {
    var callers' := callers[i := callers[i].(phase := Recheck(|calls|))];
    var calls' := calls + [Call(callers[i].key, i, Ok(""), false)];
    var inFlight' := inFlight[callers[i].key := |calls|];
    forall j | 0 <= j < |callers'| ensures CallerOk(callers', calls', j) {
      if j != i { assert CallerOk(callers, calls, j); }
    }
    forall c | 0 <= c < |calls'| ensures CallOk(callers', calls', inFlight', c) {
      if c < |calls| { assert CallOk(callers, calls, inFlight, c); }
    }
    forall key | key in inFlight' ensures EntryOk(callers', calls', inFlight', key) {
      if key in inFlight { assert EntryOk(callers, calls, inFlight, key); }
    }
  }

  /** The leader writes its record, or closes it. */
  lemma RecordConsistent(callers: seq<Caller>, calls: seq<Call>, inFlight: map<string, nat>,
                         i: nat, q: Phase, call: Call)
    requires Consistent(callers, calls, inFlight) && i < |callers|
    requires var p := callers[i].phase;
             || (p.Publish? && q == CloseDone(p.call) && p.call < |calls| && call == calls[p.call].(out := p.out))
             || (p.CloseDone? && q == Forget(p.call) && p.call < |calls| && call == calls[p.call].(closed := true))
    ensures Consistent(callers[i := callers[i].(phase := q)], calls[callers[i].phase.call := call], inFlight)
  {
    var k := callers[i].phase.call;
    var callers', calls' := callers[i := callers[i].(phase := q)], calls[k := call];
    assert CallerOk(callers, calls, i) && CallOk(callers, calls, inFlight, k);
    assert k in Leading(callers[i].phase);
    forall j | 0 <= j < |callers'| ensures CallerOk(callers', calls', j) {
      if j != i { assert CallerOk(callers, calls, j); }
    }
    forall c | 0 <= c < |calls'| ensures CallOk(callers', calls', inFlight, c) {
      assert CallOk(callers, calls, inFlight, c);
    }
    forall key | key in inFlight ensures EntryOk(callers', calls', inFlight, key) {
      assert EntryOk(callers, calls, inFlight, key);
    }
  }

  lemma LeaveConsistent(callers: seq<Caller>, calls: seq<Call>, inFlight: map<string, nat>, i: nat)
    requires Consistent(callers, calls, inFlight) && i < |callers|
    requires callers[i].phase.Forget? && callers[i].phase.call < |calls|
    ensures var k := callers[i].phase.call;
            Consistent(callers[i := callers[i].(phase := Done(Led(k), calls[k].out))], calls,
                       inFlight - {callers[i].key})
  {
    var k := callers[i].phase.call;
    var callers' := callers[i := callers[i].(phase := Done(Led(k), calls[k].out))];
    var inFlight' := inFlight - {callers[i].key};
    assert CallerOk(callers, calls, i) && CallOk(callers, calls, inFlight, k);
    assert k in Leading(callers[i].phase);
    forall j | 0 <= j < |callers'| ensures CallerOk(callers', calls, j) {
      if j != i { assert CallerOk(callers, calls, j); }
    }
    forall c | 0 <= c < |calls| ensures CallOk(callers', calls, inFlight', c) {
      assert CallOk(callers, calls, inFlight, c);
    }
    forall key | key in inFlight' ensures EntryOk(callers', calls, inFlight', key) {
      assert EntryOk(callers, calls, inFlight, key);
    }
  }

  /** A step changes the phase of one caller and nothing else about the callers. */
  lemma StepMoves(s: State, l: Label)
    requires Enabled(s, l) && !l.Lose?
    ensures var t := Apply(s, l);
            && l.i < |s.callers| == |t.callers|
            && t.callers == s.callers[l.i := s.callers[l.i].(phase := t.callers[l.i].phase)]
  {
  }

  predicate KeepsLead(l: Label) {
    !l.Lose? && !l.Lead? && !l.Write? && !l.Close? && !l.Leave?
  }

  lemma MovedLead(s: State, l: Label)
    requires Enabled(s, l) && KeepsLead(l)
    ensures var t := Apply(s, l);
            && t.calls == s.calls && t.inFlight == s.inFlight
            && Leading(t.callers[l.i].phase) == Leading(s.callers[l.i].phase)
            && (t.callers[l.i].phase.Done? ==> Leading(t.callers[l.i].phase) == {})
            && !s.callers[l.i].phase.Done? && !s.callers[l.i].phase.Forget? && !t.callers[l.i].phase.Forget?
  {
  }

  /** Steps that neither make, write, close nor drop a record leave the caller consistent with it. */
  lemma MovedCallerOk(s: State, l: Label)
    requires Inv(s) && Enabled(s, l) && KeepsLead(l)
    ensures CallerOk(Apply(s, l).callers, s.calls, l.i)
  {
    var key, p, q := s.callers[l.i].key, s.callers[l.i].phase, Apply(s, l).callers[l.i].phase;
    MovedLead(s, l);
    assert CallerOk(s.callers, s.calls, l.i);
    forall c | c in Leading(q) ensures c < |s.calls| && s.calls[c].leader == l.i && s.calls[c].key == key {
      assert c in Leading(p);
    }
    if l.Join? {
      assert EntryOk(s.callers, s.calls, s.inFlight, key);
    }
    assert q.Done? ==> q.via.Cached? || l.Wake?;
  }

  lemma StepConsistent(s: State, l: Label)
    requires Inv(s) && Enabled(s, l)
    ensures var t := Apply(s, l); Consistent(t.callers, t.calls, t.inFlight)
  {
    if !l.Lose? {
      var t, p := Apply(s, l), s.callers[l.i].phase;
      StepMoves(s, l);
      if l.Lead? {
        LeadConsistent(s.callers, s.calls, s.inFlight, l.i);
      } else if l.Write? || l.Close? {
        assert CallerOk(s.callers, s.calls, l.i);
        RecordConsistent(s.callers, s.calls, s.inFlight, l.i, t.callers[l.i].phase, t.calls[p.call]);
      } else if l.Leave? {
        assert CallerOk(s.callers, s.calls, l.i);
        LeaveConsistent(s.callers, s.calls, s.inFlight, l.i);
      } else {
        MovedLead(s, l);
        MovedCallerOk(s, l);
        MoveConsistent(s.callers, s.calls, s.inFlight, l.i, t.callers[l.i].phase);
      }
    }
  }

  /** Permits change exactly as the caller comes to hold or gives up one. */
  lemma PermitMoves(s: State, l: Label)
    requires Enabled(s, l) && !l.Lose? && s.permits <= MAX_PARALLEL
    ensures var t := Apply(s, l);
            var before, after := Holds(s.callers[l.i].phase), Holds(t.callers[l.i].phase);
            && t.permits <= MAX_PARALLEL
            && t.permits - s.permits == (if after then 1 else 0) - (if before then 1 else 0)
  {
  }

  lemma StepPermits(s: State, l: Label)
    requires s.permits == Holders(s.callers) <= MAX_PARALLEL && Enabled(s, l)
    ensures Apply(s, l).permits == Holders(Apply(s, l).callers) <= MAX_PARALLEL
  {
    if !l.Lose? {
      StepMoves(s, l);
      PermitMoves(s, l);
      HoldersUpdate(s.callers, l.i, Apply(s, l).callers[l.i]);
    }
  }

  /** Every step keeps the invariant. */
  lemma StepInv(s: State, l: Label)
    requires Inv(s) && Enabled(s, l)
    ensures Inv(Apply(s, l))
  {
    StepConsistent(s, l);
    StepPermits(s, l);
  }

  lemma {:induction false} ReachableInv(states: seq<State>, labels: seq<Label>, t: nat)
    requires IsRun(states, labels) && t < |states|
    ensures Inv(states[t])
  {
    if t == 0 {
      InitialInv(states[0]);
    } else {
      ReachableInv(states, labels, t - 1);
      StepInv(states[t - 1], labels[t - 1]);
    }
  }

  // ---------------------------------------------------------------- safety

  lemma LeaderIs(s: State, i: nat, c: nat)
    requires Inv(s) && i < |s.callers| && c in Leading(s.callers[i].phase)
    ensures c < |s.calls| && s.calls[c].leader == i
    ensures s.callers[i].key in s.inFlight && s.inFlight[s.callers[i].key] == c
  {
    assert CallerOk(s.callers, s.calls, i) && CallOk(s.callers, s.calls, s.inFlight, c);
  }

  /** Two callers never lead a call for the same key at once. */
  lemma OneLeader(s: State, i: nat, j: nat)
    requires Inv(s) && i < |s.callers| && j < |s.callers| && i != j
    requires s.callers[i].key == s.callers[j].key
    ensures Leading(s.callers[i].phase) == {} || Leading(s.callers[j].phase) == {}
  {
    if c, d :| c in Leading(s.callers[i].phase) && d in Leading(s.callers[j].phase) {
      LeaderIs(s, i, c);
      LeaderIs(s, j, d);
    }
  }

  /** A joiner that has returned got exactly what its leader wrote and returns or is about to return. */
  lemma JoinerSharesOutcome(s: State, i: nat)
    requires Inv(s) && i < |s.callers|
    requires s.callers[i].phase.Done? && s.callers[i].phase.via.Joined?
    ensures var c := s.callers[i].phase.via.call;
            c < |s.calls| && s.calls[c].leader < |s.callers| &&
            var leader := s.callers[s.calls[c].leader];
            && leader.key == s.callers[i].key
            && ((leader.phase == Forget(c) && s.calls[c].out == s.callers[i].phase.out)
                || leader.phase == Done(Led(c), s.callers[i].phase.out))
  {
    var c := s.callers[i].phase.via.call;
    assert CallerOk(s.callers, s.calls, i) && CallOk(s.callers, s.calls, s.inFlight, c);
    assert CallerOk(s.callers, s.calls, s.calls[c].leader);
  }

  /** What a leader writes to its record is what it and all its joiners return, for good. */
  lemma {:induction false} RecordIsFinal(states: seq<State>, labels: seq<Label>, t: nat, u: nat, c: nat)
    requires IsRun(states, labels) && t <= u < |states|
    requires c < |states[t].calls| && states[t].calls[c].closed
    ensures c < |states[u].calls| && states[u].calls[c] == states[t].calls[c]
  {
    if t < u {
      RecordIsFinal(states, labels, t, u - 1, c);
      ReachableInv(states, labels, u - 1);
      var s, l := states[u - 1], labels[u - 1];
      ClosedRemains(s, l, c);
    }
  }

  lemma ClosedRemains(s: State, l: Label, c: nat)
    requires Inv(s) && Enabled(s, l) && c < |s.calls| && s.calls[c].closed
    ensures c < |Apply(s, l).calls| && Apply(s, l).calls[c] == s.calls[c]
  {
    assert CallOk(s.callers, s.calls, s.inFlight, c);
    if l.Write? || l.Close? {
      assert CallerOk(s.callers, s.calls, l.i);
      assert s.callers[l.i].phase.call in Leading(s.callers[l.i].phase);
    }
  }

  function Fetching(callers: seq<Caller>): nat {
    if callers == [] then 0
    else Fetching(callers[..|callers| - 1]) + if callers[|callers| - 1].phase.Fetch? then 1 else 0
  }

  lemma {:induction false} FetchersHold(callers: seq<Caller>)
    ensures Fetching(callers) <= Holders(callers)
  {
    if callers != [] {
      FetchersHold(callers[..|callers| - 1]);
    }
  }

  /** The permits in use are exactly the callers holding one, and at most four downloads run at once. */
  lemma BoundedDownloads(states: seq<State>, labels: seq<Label>, t: nat)
    requires IsRun(states, labels) && t < |states|
    ensures states[t].permits == Holders(states[t].callers)
    ensures Fetching(states[t].callers) <= states[t].permits <= 4
  {
    ReachableInv(states, labels, t);
    FetchersHold(states[t].callers);
  }

  // ---------------------------------------------------------------- download once

  /** The label is a provider download of `key` that succeeds with `path`. */
  predicate Succeeds(s: State, l: Label, key: string, path: string) {
    l.Try? && l.i < |s.callers| && s.callers[l.i].key == key && l.result == Fetched(path)
  }

  predicate Caches(s: State, l: Label, key: string) {
    l.Put? && l.i < |s.callers| && s.callers[l.i].key == key
  }

  /** The cached path of `key` is evicted or expires, or a leader's re-check finds it invalid. */
  predicate Spoils(s: State, l: Label, key: string) {
    || l == Lose(key)
    || (l.RecheckInvalid? && l.i < |s.callers| && s.callers[l.i].key == key)
  }

  /** A successful download of `key` is waiting to be put into the cache. */
  ghost predicate Won(s: State, key: string, path: string) {
    exists i :: 0 <= i < |s.callers| && s.callers[i].key == key && s.callers[i].phase.Store?
                && s.callers[i].phase.path == path
  }

  /** `key` is cached and no leader for it has decided to download. */
  ghost predicate Settled(s: State, key: string, path: string) {
    && key in s.cache && s.cache[key] == path
    && forall i :: 0 <= i < |s.callers| && s.callers[i].key == key ==>
         !s.callers[i].phase.Acquire? && !s.callers[i].phase.Fetch? && !s.callers[i].phase.Store?
  }

  lemma WonStep(s: State, l: Label, key: string, path: string)
    requires Inv(s) && Enabled(s, l) && Won(s, key, path)
    ensures !l.Try? || s.callers[l.i].key != key
    ensures if Caches(s, l, key) then Settled(Apply(s, l), key, path) else Won(Apply(s, l), key, path)
  {
    var i :| 0 <= i < |s.callers| && s.callers[i].key == key && s.callers[i].phase.Store?
             && s.callers[i].phase.path == path;
    forall j | 0 <= j < |s.callers| && j != i && s.callers[j].key == key
      ensures Leading(s.callers[j].phase) == {}
    {
      OneLeader(s, i, j);
    }
    if !Caches(s, l, key) {
      var t := Apply(s, l);
      assert t.callers[i] == s.callers[i];
    }
  }

  lemma SettledStep(s: State, l: Label, key: string, path: string)
    requires Inv(s) && Enabled(s, l) && Settled(s, key, path)
    ensures !l.Try? || s.callers[l.i].key != key
    ensures !Spoils(s, l, key) ==> Settled(Apply(s, l), key, path)
    ensures l.RecheckInvalid? && s.callers[l.i].key == key ==> !IsRemote(path)
  {
  }

  /** From a success on, the download stays won until it is cached. */
  lemma {:induction false} WonUntilCached(states: seq<State>, labels: seq<Label>, t: nat, u: nat,
                                          key: string, path: string)
    returns (p: nat)
    requires IsRun(states, labels) && t <= u < |labels|
    requires Won(states[t], key, path)
    requires labels[u].Try? && states[u].callers[labels[u].i].key == key
    ensures t <= p < u && Caches(states[p], labels[p], key)
    ensures Settled(states[p + 1], key, path)
    decreases u - t
  {
    ReachableInv(states, labels, t);
    WonStep(states[t], labels[t], key, path);
    if Caches(states[t], labels[t], key) {
      p := t;
    } else {
      p := WonUntilCached(states, labels, t + 1, u, key, path);
    }
  }

  /** Once cached, `key` is not downloaded again until its entry is spoiled. */
  lemma {:induction false} SettledUntilSpoiled(states: seq<State>, labels: seq<Label>, t: nat, u: nat,
                                               key: string, path: string)
    returns (q: nat)
    requires IsRun(states, labels) && t <= u < |labels|
    requires Settled(states[t], key, path)
    requires labels[u].Try? && states[u].callers[labels[u].i].key == key
    ensures t <= q < u && Spoils(states[q], labels[q], key)
    ensures labels[q].RecheckInvalid? ==> !IsRemote(path)
    decreases u - t
  {
    ReachableInv(states, labels, t);
    SettledStep(states[t], labels[t], key, path);
    if Spoils(states[t], labels[t], key) {
      q := t;
    } else {
      q := SettledUntilSpoiled(states, labels, t + 1, u, key, path);
    }
  }

  /** Download once: between a successful download of a key and any later attempt to download that
      key, the path was first cached and then lost or found invalid; a remote path can only be lost. */
  lemma DownloadOnce(states: seq<State>, labels: seq<Label>, t: nat, u: nat, key: string, path: string)
    requires IsRun(states, labels) && t < u < |labels|
    requires Succeeds(states[t], labels[t], key, path)
    requires labels[u].Try? && states[u].callers[labels[u].i].key == key
    ensures exists p, q ::
      && t < p < q < u && Caches(states[p], labels[p], key) && Spoils(states[q], labels[q], key)
      && (IsRemote(path) ==> labels[q] == Lose(key))
  {
    assert Won(states[t + 1], key, path) by {
      assert states[t + 1].callers[labels[t].i].phase.Store?;
    }
    var p := WonUntilCached(states, labels, t + 1, u, key, path);
    var q := SettledUntilSpoiled(states, labels, p + 1, u, key, path);
  }

  // ---------------------------------------------------------------- what callers are answered

  /** Caller `i`'s answer is decided: it is on its way out with `o`, or has returned it. */
  ghost predicate Fate(s: State, i: nat, o: Outcome) {
    i < |s.callers| &&
    match s.callers[i].phase
    case Store(_, path) => o == Ok(path)
    case Release(_, out) => out == o
    case Publish(_, out) => out == o
    case CloseDone(c) => c < |s.calls| && s.calls[c].out == o
    case Forget(c) => c < |s.calls| && s.calls[c].out == o
    case Done(_, out) => out == o
    case _ => false
  }

  /** Another caller's step does not touch a record this caller leads. */
  lemma OthersKeepRecord(s: State, l: Label, i: nat, c: nat)
    requires Inv(s) && Enabled(s, l) && i < |s.callers| && c in Leading(s.callers[i].phase)
    requires l.Lose? || l.i != i
    ensures c < |s.calls| && c < |Apply(s, l).calls| && Apply(s, l).calls[c] == s.calls[c]
    ensures i < |Apply(s, l).callers| && Apply(s, l).callers[i] == s.callers[i]
  {
    LeaderIs(s, i, c);
    if l.Write? || l.Close? {
      assert s.callers[l.i].phase.call in Leading(s.callers[l.i].phase);
      LeaderIs(s, l.i, s.callers[l.i].phase.call);
    }
  }

  lemma OthersKeepCaller(s: State, l: Label, i: nat)
    requires Enabled(s, l) && i < |s.callers| && (l.Lose? || l.i != i)
    ensures i < |Apply(s, l).callers| && Apply(s, l).callers[i] == s.callers[i]
  {
  }

  lemma FateStep(s: State, l: Label, i: nat, o: Outcome)
    requires Inv(s) && Enabled(s, l) && Fate(s, i, o)
    ensures Fate(Apply(s, l), i, o)
  {
    if l.Lose? || l.i != i {
      OthersKeepCaller(s, l, i);
      if s.callers[i].phase.CloseDone? || s.callers[i].phase.Forget? {
        OthersKeepRecord(s, l, i, s.callers[i].phase.call);
      }
    } else {
      assert CallerOk(s.callers, s.calls, i);
    }
  }

  lemma {:induction false} FateLasts(states: seq<State>, labels: seq<Label>, t: nat, u: nat, i: nat, o: Outcome)
    requires IsRun(states, labels) && t <= u < |states| && Fate(states[t], i, o)
    ensures Fate(states[u], i, o)
  {
    if t < u {
      FateLasts(states, labels, t, u - 1, i, o);
      ReachableInv(states, labels, u - 1);
      FateStep(states[u - 1], labels[u - 1], i, o);
      assert states[u - 1 + 1] == Apply(states[u - 1], labels[u - 1]);
    }
  }

  /** Whoever joined the call that a decided caller led got the same answer. */
  lemma FateShared(s: State, i: nat, o: Outcome, j: nat, c: nat)
    requires Inv(s) && Fate(s, i, o) && j < |s.callers| && c < |s.calls| && s.calls[c].leader == i
    requires s.callers[j].phase.Done? && s.callers[j].phase.via == Joined(c)
    ensures s.callers[j].phase.out == o
  {
    assert CallerOk(s.callers, s.calls, j) && CallOk(s.callers, s.calls, s.inFlight, c);
    assert CallerOk(s.callers, s.calls, i);
  }

  /** Everyone who joined call `c` and has returned got `o`. */
  ghost predicate JoinersGot(s: State, c: nat, o: Outcome) {
    forall j :: 0 <= j < |s.callers| && s.callers[j].phase.Done? && s.callers[j].phase.via == Joined(c) ==>
                  s.callers[j].phase.out == o
  }

  /** Who made a record never changes. */
  lemma {:induction false} LeaderLasts(states: seq<State>, labels: seq<Label>, t: nat, u: nat, c: nat)
    requires IsRun(states, labels) && t <= u < |states| && c < |states[t].calls|
    ensures c < |states[u].calls| && states[u].calls[c].leader == states[t].calls[c].leader
  {
    if t < u {
      LeaderLasts(states, labels, t, u - 1, c);
      LeaderKept(states[u - 1], labels[u - 1], c);
      assert states[u - 1 + 1] == Apply(states[u - 1], labels[u - 1]);
    }
  }

  lemma LeaderKept(s: State, l: Label, c: nat)
    requires Enabled(s, l) && c < |s.calls|
    ensures c < |Apply(s, l).calls| && Apply(s, l).calls[c].leader == s.calls[c].leader
  {
  }

  /** After a provider attempt its caller tries again or its answer is decided. */
  lemma TryStep(s: State, i: nat, r: Attempt)
    requires Inv(s) && Enabled(s, Try(i, r))
    ensures var t := Apply(s, Try(i, r));
            && (r.Fetched? || (r.Failed? && !r.retryable) ==> !t.callers[i].phase.Fetch?)
            && (!t.callers[i].phase.Fetch? ==>
                  Fate(t, i, match r
                             case Fetched(path) => Ok(path)
                             case Failed(error, false) => Err(error)
                             case Failed(error, true) => Err("download failed after 3 attempts: " + error)
                             case Broken(_, error) => Err("download failed after 3 attempts: " + error)))
  {
  }

  /** A caller that is to try again does so before anything else. */
  lemma {:induction false} FetchLasts(states: seq<State>, labels: seq<Label>, t: nat, u: nat, i: nat)
    requires IsRun(states, labels) && t <= u < |states|
    requires i < |states[t].callers| && states[t].callers[i].phase.Fetch?
    requires forall k :: t <= k < u && labels[k].Try? ==> labels[k].i != i
    ensures i < |states[u].callers| && states[u].callers[i].phase.Fetch?
  {
    if t < u {
      FetchLasts(states, labels, t, u - 1, i);
      var s, l := states[u - 1], labels[u - 1];
      if l.Lose? || l.i != i {
        OthersKeepCaller(s, l, i);
      }
      assert states[u - 1 + 1] == Apply(s, l);
    }
  }

  /** The last provider attempt of a caller decides what it returns, and what everyone who joined its
      call returns: the path, a permanent error as it is, or a retryable one as the last of three. */
  lemma LastAttemptDecides(states: seq<State>, labels: seq<Label>, t: nat, u: nat, i: nat, r: Attempt)
    requires IsRun(states, labels) && t < u < |states| && labels[t] == Try(i, r)
    requires forall k :: t < k < u && labels[k].Try? ==> labels[k].i != i
    ensures i < |states[t].callers| && i < |states[u].callers| && states[t].callers[i].phase.Fetch?
    ensures var out := match r
                       case Fetched(path) => Ok(path)
                       case Failed(error, false) => Err(error)
                       case Failed(error, true) => Err("download failed after 3 attempts: " + error)
                       case Broken(_, error) => Err("download failed after 3 attempts: " + error);
            && (states[u].callers[i].phase.Done? ==> states[u].callers[i].phase.out == out)
            && (!states[u].callers[i].phase.Fetch? ==> JoinersGot(states[u], states[t].callers[i].phase.call, out))
  {
    var s, c := states[t], states[t].callers[i].phase.call;
    var out := match r
               case Fetched(path) => Ok(path)
               case Failed(error, false) => Err(error)
               case Failed(error, true) => Err("download failed after 3 attempts: " + error)
               case Broken(_, error) => Err("download failed after 3 attempts: " + error);
    ReachableInv(states, labels, t);
    ReachableInv(states, labels, u);
    TryStep(s, i, r);
    LeaderIs(s, i, c);
    LeaderLasts(states, labels, t, u, c);
    assert states[t + 1] == Apply(s, labels[t]);
    if states[t + 1].callers[i].phase.Fetch? {
      FetchLasts(states, labels, t + 1, u, i);
    } else {
      FateLasts(states, labels, t + 1, u, i, out);
      forall j | 0 <= j < |states[u].callers| && states[u].callers[j].phase.Done?
                 && states[u].callers[j].phase.via == Joined(c)
        ensures states[u].callers[j].phase.out == out
      {
        FateShared(states[u], i, out, j, c);
      }
    }
  }

  /** Provider attempts caller `i` has made. */
  function Tries(labels: seq<Label>, i: nat): nat {
    if labels == [] then 0
    else
      var n := |labels| - 1;
      Tries(labels[..n], i) + if labels[n].Try? && labels[n].i == i then 1 else 0
  }

  /** What the program point says about the attempts made so far. */
  predicate TriesAt(p: Phase, n: nat) {
    match p
    case FirstCheck => n == 0
    case Enter => n == 0
    case Wait(_) => n == 0
    case Recheck(_) => n == 0
    case Acquire(_) => n == 0
    case Fetch(_, attempt) => attempt == n + 1 <= 3
    case _ => n <= 3
  }

  lemma {:induction false} TriesTracked(states: seq<State>, labels: seq<Label>, t: nat, i: nat)
    requires IsRun(states, labels) && t < |states| && i < |states[t].callers|
    ensures TriesAt(states[t].callers[i].phase, Tries(labels[..t], i))
  {
    if t > 0 {
      var s, l := states[t - 1], labels[t - 1];
      assert states[t - 1 + 1] == Apply(s, l) && labels[..t][..t - 1] == labels[..t - 1];
      CallersKept(s, l);
      TriesTracked(states, labels, t - 1, i);
      if l.Lose? || l.i != i {
        OthersKeepCaller(s, l, i);
      }
    }
  }

  lemma CallersKept(s: State, l: Label)
    requires Enabled(s, l)
    ensures |Apply(s, l).callers| == |s.callers|
  {
  }

  /** No caller makes more than three provider attempts, and one that gives up on a retryable error has
      made exactly three. */
  lemma ThreeAttempts(states: seq<State>, labels: seq<Label>, t: nat, i: nat)
    requires IsRun(states, labels) && t < |states| && i < |states[t].callers|
    ensures Tries(labels[..t], i) <= 3
    ensures t > 0 && labels[t - 1].Try? && labels[t - 1].i == i && !states[t].callers[i].phase.Fetch?
            && (labels[t - 1].result.Broken? || (labels[t - 1].result.Failed? && labels[t - 1].result.retryable)) ==>
              Tries(labels[..t], i) == 3
  {
    TriesTracked(states, labels, t, i);
    if t > 0 && labels[t - 1].Try? && labels[t - 1].i == i {
      CallersKept(states[t - 1], labels[t - 1]);
      TriesTracked(states, labels, t - 1, i);
      assert labels[..t][..t - 1] == labels[..t - 1];
      assert states[t - 1 + 1] == Apply(states[t - 1], labels[t - 1]);
    }
  }

  /** A caller that takes the cached path, at either check, returns it, and so does everyone who joined
      its call. */
  lemma HitAnswersCached(states: seq<State>, labels: seq<Label>, t: nat, u: nat, i: nat)
    requires IsRun(states, labels) && t < u < |states|
    requires labels[t] == CheckHit(i) || labels[t] == RecheckHit(i)
    ensures i < |states[t].callers| && i < |states[u].callers| && states[t].callers[i].key in states[t].cache
    ensures var path := states[t].cache[states[t].callers[i].key];
            && path != ""
            && (states[u].callers[i].phase.Done? ==> states[u].callers[i].phase.out == Ok(path))
            && (labels[t].CheckHit? ==> states[u].callers[i].phase == Done(Cached, Ok(path)))
            && (labels[t].RecheckHit? ==>
                  states[t].callers[i].phase.Recheck?
                  && JoinersGot(states[u], states[t].callers[i].phase.call, Ok(path)))
  {
    var s := states[t];
    var path := s.cache[s.callers[i].key];
    ReachableInv(states, labels, t);
    ReachableInv(states, labels, u);
    assert states[t + 1] == Apply(s, labels[t]);
    FateLasts(states, labels, t + 1, u, i, Ok(path));
    if labels[t].CheckHit? {
      DoneLasts(states, labels, t + 1, u, i);
    } else {
      var c := s.callers[i].phase.call;
      LeaderIs(s, i, c);
      LeaderLasts(states, labels, t, u, c);
      forall j | 0 <= j < |states[u].callers| && states[u].callers[j].phase.Done?
                 && states[u].callers[j].phase.via == Joined(c)
        ensures states[u].callers[j].phase.out == Ok(path)
      {
        FateShared(states[u], i, Ok(path), j, c);
      }
    }
  }

  lemma {:induction false} DoneLasts(states: seq<State>, labels: seq<Label>, t: nat, u: nat, i: nat)
    requires IsRun(states, labels) && t <= u < |states|
    requires i < |states[t].callers| && states[t].callers[i].phase.Done?
    ensures i < |states[u].callers| && states[u].callers[i] == states[t].callers[i]
  {
    if t < u {
      DoneLasts(states, labels, t, u - 1, i);
      OthersKeepCaller(states[u - 1], labels[u - 1], i);
      assert states[u - 1 + 1] == Apply(states[u - 1], labels[u - 1]);
    }
  }

  /** Before step `u` caller `i`, leading a call, found the path cached after all or attempted a download. */
  ghost predicate Worked(labels: seq<Label>, u: nat, i: nat) {
    exists t :: 0 <= t < u && t < |labels| && (labels[t] == RecheckHit(i) || (labels[t].Try? && labels[t].i == i))
  }

  predicate PastFetch(p: Phase) {
    p.Store? || p.Release? || p.Publish? || p.CloseDone? || p.Forget? || (p.Done? && p.via.Led?)
  }

  lemma {:induction false} LeaderWorked(states: seq<State>, labels: seq<Label>, u: nat, i: nat)
    requires IsRun(states, labels) && u < |states| && i < |states[u].callers| && PastFetch(states[u].callers[i].phase)
    ensures Worked(labels, u, i)
  {
    var s, l := states[u - 1], labels[u - 1];
    assert states[u - 1 + 1] == Apply(s, l);
    CallersKept(s, l);
    if l.Lose? || l.i != i { OthersKeepCaller(s, l, i); }
    if PastFetch(s.callers[i].phase) {
      LeaderWorked(states, labels, u - 1, i);
    } else {
      assert l == RecheckHit(i) || (l.Try? && l.i == i);
    }
  }

  lemma {:induction false} CachedWasHit(states: seq<State>, labels: seq<Label>, u: nat, i: nat)
    requires IsRun(states, labels) && u < |states| && i < |states[u].callers|
    requires states[u].callers[i].phase.Done? && states[u].callers[i].phase.via == Cached
    ensures exists t :: 0 <= t < u && labels[t] == CheckHit(i)
  {
    var s, l := states[u - 1], labels[u - 1];
    assert states[u - 1 + 1] == Apply(s, l);
    CallersKept(s, l);
    if l.Lose? || l.i != i { OthersKeepCaller(s, l, i); }
    if s.callers[i].phase.Done? {
      CachedWasHit(states, labels, u - 1, i);
    }
  }

  /** Nobody returns without cause: a caller answered from the cache hit it, one that led a call found
      the path cached after all or attempted a download, and one that joined did so to a leader of whom
      that holds.  `LastAttemptDecides` and `HitAnswersCached` say which answer follows. */
  lemma AnswerHasCause(states: seq<State>, labels: seq<Label>, u: nat, i: nat)
    requires IsRun(states, labels) && u < |states| && i < |states[u].callers| && states[u].callers[i].phase.Done?
    ensures match states[u].callers[i].phase.via
            case Cached => exists t :: 0 <= t < u && labels[t] == CheckHit(i)
            case Led(_) => Worked(labels, u, i)
            case Joined(c) => c < |states[u].calls| && Worked(labels, u, states[u].calls[c].leader)
  {
    var s := states[u];
    ReachableInv(states, labels, u);
    match s.callers[i].phase.via
    case Cached => CachedWasHit(states, labels, u, i);
    case Led(_) => LeaderWorked(states, labels, u, i);
    case Joined(c) =>
      assert CallerOk(s.callers, s.calls, i);
      assert CallOk(s.callers, s.calls, s.inFlight, c);
      LeaderWorked(states, labels, u, s.calls[c].leader);
  }

  // ---------------------------------------------------------------- progress and termination

  /** The next step a caller is ready for, if it is blocked on nobody. */
  function Ready(s: State, i: nat): Label
    requires i < |s.callers|
  {
    var key := s.callers[i].key;
    match s.callers[i].phase
    case FirstCheck => if key in s.cache && MayBeValid(s.cache[key]) then CheckHit(i) else CheckMiss(i)
    case Enter => if key in s.inFlight then Join(i) else Lead(i)
    case Wait(_) => Wake(i)
    case Recheck(_) =>
      if key !in s.cache then RecheckMiss(i)
      else if MayBeValid(s.cache[key]) then RecheckHit(i) else RecheckInvalid(i)
    case Acquire(_) => Take(i)
    case Fetch(_, _) => Try(i, Failed("", false))
    case Store(_, _) => Put(i)
    case Release(_, _) => Give(i)
    case Publish(_, _) => Write(i)
    case CloseDone(_) => Close(i)
    case Forget(_) => Leave(i)
    case Done(_, _) => Wake(i)
  }

  /** Only joiners and callers waiting for a permit can be blocked. */
  lemma NotBlocked(s: State, i: nat)
    requires Inv(s) && i < |s.callers|
    requires !s.callers[i].phase.Wait? && !s.callers[i].phase.Acquire? && !s.callers[i].phase.Done?
    ensures Enabled(s, Ready(s, i))
  {
    var p := s.callers[i].phase;
    if !p.FirstCheck? && !p.Enter? {
      LeaderIs(s, i, p.call);
    }
    if s.callers[i].phase.Release? && s.permits == 0 {
      HoldersUpdate(s.callers, i, s.callers[i].(phase := Enter));
    }
  }

  /** No deadlock: while some caller has not returned, some caller can take a step. */
  lemma Progress(s: State)
    requires Inv(s)
    requires exists i :: 0 <= i < |s.callers| && !s.callers[i].phase.Done?
    ensures exists i :: 0 <= i < |s.callers| && !s.callers[i].phase.Done? && Enabled(s, Ready(s, i))
  {
    var i :| 0 <= i < |s.callers| && !s.callers[i].phase.Done?;
    if free :| 0 <= free < |s.callers| && !s.callers[free].phase.Wait? && !s.callers[free].phase.Acquire?
               && !s.callers[free].phase.Done? {
      NotBlocked(s, free);
    } else {
      HoldersNone(s.callers);
      if s.callers[i].phase.Wait? {
        var c := s.callers[i].phase.call;
        assert CallerOk(s.callers, s.calls, i) && CallOk(s.callers, s.calls, s.inFlight, c);
        var leader := s.calls[c].leader;
        if !s.callers[leader].phase.Done? {
          assert s.callers[leader].phase.Acquire? && Enabled(s, Ready(s, leader));
        } else {
          assert Enabled(s, Ready(s, i));
        }
      } else {
        assert Enabled(s, Ready(s, i));
      }
    }
  }

  /** An upper bound on the steps a caller still takes. */
  function Rank(p: Phase): nat {
    match p
    case FirstCheck => 13
    case Enter => 12
    case Wait(_) => 1
    case Recheck(_) => 11
    case Acquire(_) => 10
    case Fetch(_, attempt) => if attempt <= MAX_RETRIES then 9 - attempt else 6
    case Store(_, _) => 5
    case Release(_, _) => 4
    case Publish(_, _) => 3
    case CloseDone(_) => 2
    case Forget(_) => 1
    case Done(_, _) => 0
  }

  function Ranks(callers: seq<Caller>): nat {
    if callers == [] then 0 else Ranks(callers[..|callers| - 1]) + Rank(callers[|callers| - 1].phase)
  }

  lemma {:induction false} RanksUpdate(callers: seq<Caller>, i: nat, c: Caller)
    requires i < |callers|
    ensures Ranks(callers[i := c]) == Ranks(callers) - Rank(callers[i].phase) + Rank(c.phase)
  {
    var n := |callers| - 1;
    if i < n {
      RanksUpdate(callers[..n], i, c);
      assert callers[i := c][..n] == callers[..n][i := c];
    } else {
      assert callers[i := c][..n] == callers[..n];
    }
  }

  /** Storing a path may add a cache entry that can be lost later, so ranks weigh twice. */
  function Measure(s: State): nat {
    2 * Ranks(s.callers) + |s.cache|
  }

  lemma RankDrops(s: State, l: Label)
    requires Inv(s) && Enabled(s, l) && !l.Lose?
    ensures Rank(Apply(s, l).callers[l.i].phase) < Rank(s.callers[l.i].phase)
  {
    assert CallerOk(s.callers, s.calls, l.i);
  }

  lemma MapSizes(m: map<string, string>, key: string, path: string)
    ensures |m[key := path]| <= |m| + 1
    ensures key in m ==> |m - {key}| == |m| - 1
  {
    assert m[key := path].Keys == m.Keys + {key};
    assert (m - {key}).Keys == m.Keys - {key};
  }

  lemma MeasureDrops(s: State, l: Label)
    requires Inv(s) && Enabled(s, l)
    ensures Measure(Apply(s, l)) < Measure(s)
  {
    if l.Lose? {
      MapSizes(s.cache, l.key, "");
    } else {
      if l.Put? {
        MapSizes(s.cache, s.callers[l.i].key, s.callers[l.i].phase.path);
      }
      RankDrops(s, l);
      RanksUpdate(s.callers, l.i, Apply(s, l).callers[l.i]);
    }
  }

  lemma {:induction false} RanksInitial(callers: seq<Caller>)
    requires forall i :: 0 <= i < |callers| ==> callers[i].phase == FirstCheck
    ensures Ranks(callers) == 13 * |callers|
  {
    if callers != [] {
      RanksInitial(callers[..|callers| - 1]);
    }
  }

  lemma {:induction false} MeasureBound(states: seq<State>, labels: seq<Label>, t: nat)
    requires IsRun(states, labels) && t < |states|
    ensures Measure(states[t]) + t <= Measure(states[0])
  {
    if t > 0 {
      var s, l := states[t - 1], labels[t - 1];
      MeasureBound(states, labels, t - 1);
      ReachableInv(states, labels, t - 1);
      MeasureDrops(s, l);
      assert states[t - 1 + 1] == Apply(s, l);
    }
  }

  /** Every run is finite, with an explicit bound, and a run in which no caller can go on - whatever is
      still cached - has returned to every caller. */
  lemma AllReturn(states: seq<State>, labels: seq<Label>)
    requires IsRun(states, labels)
    ensures |labels| <= 26 * |states[0].callers| + |states[0].cache|
    ensures (forall l :: Enabled(states[|labels|], l) ==> l.Lose?) ==>
              forall i :: 0 <= i < |states[|labels|].callers| ==> states[|labels|].callers[i].phase.Done?
  {
    MeasureBound(states, labels, |labels|);
    RanksInitial(states[0].callers);
    ReachableInv(states, labels, |labels|);
    if exists i :: 0 <= i < |states[|labels|].callers| && !states[|labels|].callers[i].phase.Done? {
      Progress(states[|labels|]);
    }
  }
}
