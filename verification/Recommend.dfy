/** The recommendation history: `src/core/db/recommendations.go` and the selection loop of
    `TriggerRecommendations` (src/handlers/recommend.go).

    Per chat the store remembers the keys of the last suggestions; the cache is a lossy copy.  Whether
    a store call succeeds, and whether the cached copy gets lost in between, is an argument. */
module Recommend {

  const MAX_HISTORY := 100
  const MAX_RECOMMENDATIONS := 5

  datatype Candidate = Candidate(platform: string, id: string)

  function Key(c: Candidate): (k: string)
    ensures k != ""
  {
    c.platform + ":" + c.id
  }

  /** The key is platform and id around a colon; as platform names have none, it tells any two tracks
      apart. */
  lemma KeysDiffer(a: Candidate, b: Candidate)
    requires ':' !in a.platform && ':' !in b.platform
    ensures Key(a)[..|a.platform| + 1] == a.platform + ":" && Key(a)[|a.platform| + 1..] == a.id
    ensures Key(a) == Key(b) <==> a == b
  {
    FirstColon(a);
    FirstColon(b);
    if Key(a) == Key(b) {
      assert |a.platform| == |b.platform|;
      assert a.platform == Key(a)[..|a.platform|] == b.platform;
    }
  }

  lemma FirstColon(c: Candidate)
    requires ':' !in c.platform
    ensures Key(c)[|c.platform|] == ':' && forall j :: 0 <= j < |c.platform| ==> Key(c)[j] != ':'
    ensures Key(c)[|c.platform| + 1..] == c.id
  {
    forall j | 0 <= j < |c.platform| ensures Key(c)[j] != ':' {
      assert c.platform[j] in c.platform;
    }
  }

  ghost predicate Distinct(keys: seq<string>) {
    forall i, j :: 0 <= i < j < |keys| ==> keys[i] != keys[j]
  }

  function Last<T>(s: seq<T>, n: nat): seq<T> {
    if |s| > n then s[|s| - n..] else s
  }

  // ---------------------------------------------------------------- selecting and merging

  /** The first `n` candidate keys that are neither known nor repeated. */
  function Select(cands: seq<Candidate>, known: seq<string>, n: nat): seq<string> {
    if cands == [] then []
    else
      var i := |cands| - 1;
      var before, key := Select(cands[..i], known, n), Key(cands[i]);
      if |before| >= n || key in known || key in before then before else before + [key]
  }

  /** The history with the new keys at its end; keys it knows and empty keys are skipped. */
  function Merge(existing: seq<string>, keys: seq<string>): seq<string> {
    if keys == [] then existing
    else
      var i := |keys| - 1;
      var before := Merge(existing, keys[..i]);
      if keys[i] == "" || keys[i] in before then before else before + [keys[i]]
  }

  /** The selection: distinct keys of candidates, none of them known, at most `n`; fewer only if every
      candidate is known or selected. */
  lemma {:induction false} Selected(cands: seq<Candidate>, known: seq<string>, n: nat)
    ensures Distinct(Select(cands, known, n)) && |Select(cands, known, n)| <= n
    ensures forall k :: k in Select(cands, known, n) ==> k !in known && k != "" && exists c :: c in cands && Key(c) == k
    ensures |Select(cands, known, n)| < n ==>
              forall c :: c in cands ==> Key(c) in known || Key(c) in Select(cands, known, n)
  {
    if cands != [] {
      var i := |cands| - 1;
      var before := Select(cands[..i], known, n);
      Selected(cands[..i], known, n);
      assert cands == cands[..i] + [cands[i]];
      forall k | k in Select(cands, known, n)
        ensures k !in known && k != "" && exists c :: c in cands && Key(c) == k
      {
        if k in before {
          var c :| c in cands[..i] && Key(c) == k;
          assert c in cands;
        } else {
          assert cands[i] in cands && Key(cands[i]) == k;
        }
      }
    }
  }

  /** Candidates are taken in order: whatever comes before the first candidate with a selected key is
      known or was selected before it.  With `Selected` this leaves one possible selection. */
  lemma {:induction false} SelectInOrder(cands: seq<Candidate>, known: seq<string>, n: nat, a: nat, p: nat)
    requires a < |cands| && p < |Select(cands, known, n)|
    requires forall j :: 0 <= j <= a ==> Key(cands[j]) != Select(cands, known, n)[p]
    ensures Key(cands[a]) in known || Key(cands[a]) in Select(cands, known, n)[..p]
  {
    var i, keys := |cands| - 1, Select(cands, known, n);
    var before := Select(cands[..i], known, n);
    if p < |before| {
      var j := SelectedAt(cands[..i], known, n, p);
      assert Key(cands[j]) == keys[p] && a < j;
      SelectInOrder(cands[..i], known, n, a, p);
      assert before[..p] == keys[..p];
    } else {
      Selected(cands[..i], known, n);
      assert a < i && cands[..i][a] == cands[a] && keys[..p] == before;
    }
  }

  lemma SelectedAt(cands: seq<Candidate>, known: seq<string>, n: nat, p: nat) returns (j: nat)
    requires p < |Select(cands, known, n)|
    ensures j < |cands| && Key(cands[j]) == Select(cands, known, n)[p]
  {
    var k := Select(cands, known, n)[p];
    Selected(cands, known, n);
    assert k in Select(cands, known, n);
    var c :| c in cands && Key(c) == k;
    j :| 0 <= j < |cands| && cands[j] == c;
  }

  /** A smaller limit selects a prefix. */
  lemma {:induction false} SelectPrefix(cands: seq<Candidate>, known: seq<string>, m: nat, n: nat)
    requires m <= n
    ensures Select(cands, known, m) ==
            if |Select(cands, known, n)| <= m then Select(cands, known, n) else Select(cands, known, n)[..m]
  {
    if cands != [] {
      var i := |cands| - 1;
      SelectPrefix(cands[..i], known, m, n);
    }
  }

  /** Merging keeps the history in front; behind it come, each once, the keys that are new to it and not
      empty. */
  lemma {:induction false} MergeAdds(existing: seq<string>, keys: seq<string>, p: nat)
    ensures existing <= Merge(existing, keys)
    ensures forall k :: k in Merge(existing, keys) <==> k in existing || (k in keys && k != "")
    ensures |existing| <= p < |Merge(existing, keys)| ==>
              Merge(existing, keys)[p] != "" && Merge(existing, keys)[p] !in Merge(existing, keys)[..p]
  {
    if keys != [] {
      var i := |keys| - 1;
      var before, after := Merge(existing, keys[..i]), Merge(existing, keys);
      MergeAdds(existing, keys[..i], p);
      assert keys == keys[..i] + [keys[i]];
      if p < |before| {
        assert after[..p] == before[..p];
      } else if p < |after| {
        assert after[..p] == before;
      }
    }
  }

  /** They come in the order of the new keys: what comes before the first `Merge(existing, keys)[p]` is
      merged before it. */
  lemma {:induction false} MergeInOrder(existing: seq<string>, keys: seq<string>, a: nat, p: nat)
    requires a < |keys| && keys[a] != "" && |existing| <= p < |Merge(existing, keys)|
    requires forall j :: 0 <= j <= a ==> keys[j] != Merge(existing, keys)[p]
    ensures keys[a] in Merge(existing, keys)[..p]
  {
    var i, after := |keys| - 1, Merge(existing, keys);
    var before := Merge(existing, keys[..i]);
    MergeAdds(existing, keys[..i], p);
    if p < |before| {
      assert after[..p] == before[..p];
      AddedFromKeys(existing, keys[..i], p);
      var j :| 0 <= j < i && keys[..i][j] == before[p];
      assert keys[j] == after[p] && a < j;
      MergeInOrder(existing, keys[..i], a, p);
    } else {
      assert after[..p] == before;
      assert a < i && keys[..i][a] == keys[a];
    }
  }

  lemma {:induction false} AddedFromKeys(existing: seq<string>, keys: seq<string>, p: nat)
    requires |existing| <= p < |Merge(existing, keys)|
    ensures Merge(existing, keys)[p] in keys
  {
    var i := |keys| - 1;
    if p < |Merge(existing, keys[..i])| {
      AddedFromKeys(existing, keys[..i], p);
    }
  }

  /** Unknown distinct keys are appended as they are. */
  lemma {:induction false} MergeNew(existing: seq<string>, keys: seq<string>)
    requires Distinct(keys) && forall k :: k in keys ==> k != "" && k !in existing
    ensures Merge(existing, keys) == existing + keys
  {
    if keys != [] {
      var i := |keys| - 1;
      forall k | k in keys[..i] ensures k in keys { }
      MergeNew(existing, keys[..i]);
      assert keys == keys[..i] + [keys[i]];
      assert keys[i] in keys;
    }
  }

  // ---------------------------------------------------------------- store and cache

  datatype State = State(store: map<int, seq<string>>, cache: map<int, seq<string>>)

  function GetStep(s: State, chat: int, readOk: bool): (State, seq<string>) {
    if chat in s.cache then (s, s.cache[chat])
    else if !readOk || chat !in s.store then (s, [])
    else (s.(cache := s.cache[chat := s.store[chat]]), s.store[chat])
  }

  function AddStep(s: State, chat: int, keys: seq<string>, readOk: bool, writeOk: bool): State {
    if keys == [] then s
    else
      var (s', existing) := GetStep(s, chat, readOk);
      var merged := Last(Merge(existing, keys), MAX_HISTORY);
      if writeOk then State(s'.store[chat := merged], s'.cache[chat := merged]) else s'
  }

  function LoseStep(s: State, chat: int): State {
    s.(cache := s.cache - {chat})
  }

  /** What the outside world decides during one suggestion. */
  datatype Luck = Luck(readOk: bool, lost: bool, rereadOk: bool, writeOk: bool)

  /** One suggestion: the keys shown to the chat, and the state afterwards. */
  function SuggestStep(s: State, chat: int, cands: seq<Candidate>, l: Luck): (State, seq<string>) {
    if cands == [] then (s, [])
    else
      var (s1, known) := GetStep(s, chat, l.readOk);
      var keys := Select(cands, known, MAX_RECOMMENDATIONS);
      var s2 := if l.lost then LoseStep(s1, chat) else s1;
      (AddStep(s2, chat, keys, l.rereadOk, l.writeOk), keys)
  }

  datatype Op =
    | Suggest(chat: int, cands: seq<Candidate>, luck: Luck)
    | Lose(chat: int)

  function Step(s: State, op: Op): State {
    match op
    case Suggest(chat, cands, luck) => SuggestStep(s, chat, cands, luck).0
    case Lose(chat) => LoseStep(s, chat)
  }

  function Run(ops: seq<Op>): State {
    if ops == [] then State(map[], map[]) else Step(Run(ops[..|ops| - 1]), ops[|ops| - 1])
  }

  /** Everything ever suggested to a chat. */
  function Log(ops: seq<Op>, chat: int): seq<string> {
    if ops == [] then []
    else
      var n := |ops| - 1;
      Log(ops[..n], chat) +
      if ops[n].Suggest? && ops[n].chat == chat
      then SuggestStep(Run(ops[..n]), chat, ops[n].cands, ops[n].luck).1 else []
  }

  function History(s: State, chat: int): seq<string> {
    if chat in s.store then s.store[chat] else []
  }

  ghost predicate Coherent(s: State) {
    forall c :: c in s.cache ==> c in s.store && s.cache[c] == s.store[c]
  }

  /** The selection is made knowing the chat's history. */
  predicate SelectionSees(s: State, chat: int, l: Luck) {
    chat in s.cache || l.readOk || chat !in s.store
  }

  /** The new keys are merged into the chat's history. */
  predicate UpdateSees(s: State, chat: int, l: Luck) {
    l.rereadOk || (!l.lost && (chat in s.cache || l.readOk)) || chat !in s.store
  }

  /** The operation, run in this state, works on the chat's history throughout and records it.  It does
      whenever all its store calls succeed. */
  predicate Remembers(s: State, op: Op) {
    op.Suggest? ==> SelectionSees(s, op.chat, op.luck) && UpdateSees(s, op.chat, op.luck) && op.luck.writeOk
  }

  /** No key among any `n + 1` consecutive ones occurs twice. */
  ghost predicate Window(log: seq<string>, n: nat) {
    forall i, j :: 0 <= i < j < |log| && j - i <= n ==> log[i] != log[j]
  }

  lemma SuggestCoherent(s: State, chat: int, cands: seq<Candidate>, l: Luck)
    requires Coherent(s)
    ensures Coherent(SuggestStep(s, chat, cands, l).0)
  {
  }

  lemma {:induction false} RunCoherent(ops: seq<Op>)
    ensures Coherent(Run(ops))
  {
    if ops != [] {
      var n := |ops| - 1;
      RunCoherent(ops[..n]);
      if ops[n].Suggest? {
        SuggestCoherent(Run(ops[..n]), ops[n].chat, ops[n].cands, ops[n].luck);
      }
    }
  }

  lemma LastOfLast<T>(s: seq<T>, t: seq<T>, n: nat)
    ensures Last(Last(s, n) + t, n) == Last(s + t, n)
  {
  }

  /** New keys that are distinct and not among the last `n` keep every window duplicate-free. */
  lemma WindowExtends(log: seq<string>, keys: seq<string>, n: nat)
    requires Window(log, n) && Distinct(keys)
    requires forall k :: k in keys ==> k !in Last(log, n)
    ensures Window(log + keys, n)
  {
    var all := log + keys;
    forall i, j | 0 <= i < j < |all| && j - i <= n ensures all[i] != all[j] {
      if i < |log| <= j {
        var recent := Last(log, n);
        assert recent[i - (|log| - |recent|)] == log[i];
        assert keys[j - |log|] in keys;
      }
    }
  }

  /** What is known when selecting, and what the update leaves. */
  lemma SuggestReads(s: State, chat: int, cands: seq<Candidate>, l: Luck)
    requires Coherent(s) && cands != []
    ensures var (s', keys) := SuggestStep(s, chat, cands, l);
            && keys == Select(cands, if SelectionSees(s, chat, l) then History(s, chat) else [], MAX_RECOMMENDATIONS)
            && (l.writeOk && keys != [] ==>
                  History(s', chat) ==
                  Last(Merge(if UpdateSees(s, chat, l) then History(s, chat) else [], keys), MAX_HISTORY))
            && (!l.writeOk || keys == [] ==> History(s', chat) == History(s, chat))
            && forall c :: c != chat ==> History(s', c) == History(s, c)
  {
  }

  /** A suggestion that works on the chat's history shows keys outside it and appends them. */
  lemma SuggestExtends(s: State, chat: int, cands: seq<Candidate>, l: Luck)
    requires Coherent(s) && Remembers(s, Suggest(chat, cands, l))
    ensures var (s', keys) := SuggestStep(s, chat, cands, l);
            && Distinct(keys) && (forall k :: k in keys ==> k !in History(s, chat))
            && History(s', chat) ==
               (if keys == [] then History(s, chat) else Last(History(s, chat) + keys, MAX_HISTORY))
            && forall c :: c != chat ==> History(s', c) == History(s, c)
  {
    if cands != [] {
      var keys := SuggestStep(s, chat, cands, l).1;
      SuggestReads(s, chat, cands, l);
      Selected(cands, History(s, chat), MAX_RECOMMENDATIONS);
      MergeNew(History(s, chat), keys);
    }
  }

  /** Every operation of the run works on its chat's history, in the state in which it runs. */
  ghost predicate AllRemember(ops: seq<Op>) {
    forall n :: 0 <= n < |ops| ==> Remembers(Run(ops[..n]), ops[n])
  }

  lemma AllRememberInit(ops: seq<Op>, n: nat)
    requires AllRemember(ops) && n <= |ops|
    ensures AllRemember(ops[..n])
  {
    forall k | 0 <= k < n ensures Remembers(Run(ops[..n][..k]), ops[..n][k]) {
      assert ops[..n][..k] == ops[..k];
    }
  }

  /** Recommendation window: over every run whose suggestions all work on the chat's history, whatever
      the cache loses, the stored history is the last hundred suggestions (all of them if fewer), and
      any 101 consecutive suggestions to a chat are pairwise different. */
  lemma RecommendationWindow(ops: seq<Op>, chat: int)
    requires AllRemember(ops)
    ensures var log, stored := Log(ops, chat), History(Run(ops), chat);
            && stored == (if |log| > 100 then log[|log| - 100..] else log)
            && forall i, j :: 0 <= i < j < |log| && j - i <= 100 ==> log[i] != log[j]
  {
    LogWindow(ops, chat);
  }

  lemma {:induction false} LogWindow(ops: seq<Op>, chat: int)
    requires AllRemember(ops)
    ensures History(Run(ops), chat) == Last(Log(ops, chat), MAX_HISTORY)
    ensures Window(Log(ops, chat), MAX_HISTORY)
  {
    if ops != [] {
      var n := |ops| - 1;
      var s, op := Run(ops[..n]), ops[n];
      AllRememberInit(ops, n);
      LogWindow(ops[..n], chat);
      RunCoherent(ops[..n]);
      if op.Suggest? {
        assert Remembers(s, op);
        SuggestExtends(s, op.chat, op.cands, op.luck);
        if op.chat == chat {
          var keys := SuggestStep(s, chat, op.cands, op.luck).1;
          WindowExtends(Log(ops[..n], chat), keys, MAX_HISTORY);
          LastOfLast(Log(ops[..n], chat), keys, MAX_HISTORY);
          if keys == [] { assert Log(ops[..n], chat) + keys == Log(ops[..n], chat); }
        }
      }
    }
  }

  /** A failed read counts as an empty history.  If it is the update's read, the written history is the
      new keys alone; so the old history is kept, as far as the cap allows, exactly if the update sees
      it or the new keys happen to begin with it. */
  lemma HistoryKept(s: State, chat: int, cands: seq<Candidate>, l: Luck)
    requires Coherent(s) && l.writeOk && SuggestStep(s, chat, cands, l).1 != []
    ensures var (s', keys) := SuggestStep(s, chat, cands, l);
            && (History(s', chat) == Last(Merge(History(s, chat), keys), MAX_HISTORY)
                <==> UpdateSees(s, chat, l) || History(s, chat) <= keys)
            && (!UpdateSees(s, chat, l) ==> History(s', chat) == keys)
            && (SelectionSees(s, chat, l) ==> forall k :: k in keys ==> k !in History(s, chat))
  {
    var known := if SelectionSees(s, chat, l) then History(s, chat) else [];
    var keys := SuggestStep(s, chat, cands, l).1;
    SuggestReads(s, chat, cands, l);
    Selected(cands, known, MAX_RECOMMENDATIONS);
    MergeNew([], keys);
    assert [] + keys == keys;
    MergeIsKeys(History(s, chat), keys);
  }

  /** In particular a history longer than one batch shrinks exactly if the update does not see it. */
  lemma HistoryShrinks(s: State, chat: int, cands: seq<Candidate>, l: Luck)
    requires Coherent(s) && l.writeOk && SuggestStep(s, chat, cands, l).1 != []
    requires MAX_RECOMMENDATIONS < |History(s, chat)| <= MAX_HISTORY
    ensures |History(SuggestStep(s, chat, cands, l).0, chat)| < |History(s, chat)| <==> !UpdateSees(s, chat, l)
  {
    var keys := SuggestStep(s, chat, cands, l).1;
    SuggestReads(s, chat, cands, l);
    Selected(cands, if SelectionSees(s, chat, l) then History(s, chat) else [], MAX_RECOMMENDATIONS);
    HistoryKept(s, chat, cands, l);
    MergeExtends(History(s, chat), keys);
  }

  lemma {:induction false} MergeExtends(existing: seq<string>, keys: seq<string>)
    ensures existing <= Merge(existing, keys)
    ensures forall k :: k in keys && k != "" ==> k in Merge(existing, keys)
  {
    if keys != [] {
      MergeExtends(existing, keys[..|keys| - 1]);
    }
  }

  /** Merging a few distinct keys yields just these keys, within the cap, exactly if they begin with
      what was there. */
  lemma MergeIsKeys(existing: seq<string>, keys: seq<string>)
    requires Distinct(keys) && |keys| < MAX_HISTORY && forall k :: k in keys ==> k != ""
    ensures Last(Merge(existing, keys), MAX_HISTORY) == keys <==> existing <= keys
  {
    MergeExtends(existing, keys);
    if existing <= keys {
      MergePrefix(existing, |existing|);
      assert keys[..|existing|] == existing == existing[..|existing|];
      MergeFrom(existing, keys, |existing|);
    }
  }

  /** Known keys add nothing. */
  lemma {:induction false} MergePrefix(existing: seq<string>, n: nat)
    requires n <= |existing|
    ensures Merge(existing, existing[..n]) == existing
  {
    if n > 0 {
      MergePrefix(existing, n - 1);
      assert existing[..n][..n - 1] == existing[..n - 1];
    }
  }

  /** From there on, new keys are appended one by one. */
  lemma {:induction false} MergeFrom(existing: seq<string>, all: seq<string>, n: nat)
    requires |existing| <= n <= |all| && existing <= all && Distinct(all)
    requires forall k :: k in all ==> k != ""
    requires Merge(existing, all[..n]) == all[..n]
    ensures Merge(existing, all) == all
    decreases |all| - n
  {
    if n < |all| {
      assert all[..n + 1][..n] == all[..n];
      assert all[n] !in all[..n] && all[n] in all;
      MergeFrom(existing, all, n + 1);
    } else {
      assert all[..n] == all;
    }
  }

  // ---------------------------------------------------------------- the database object

  class Database {
    var store: map<int, seq<string>>
    var cache: map<int, seq<string>>

    ghost function Value(): State
      reads this
    {
      State(store, cache)
    }

    constructor ()
      ensures Value() == Run([])
    {
      store, cache := map[], map[];
    }

    method GetRecommendHistory(chat: int, readOk: bool) returns (keys: seq<string>)
      modifies this`cache
      ensures (Value(), keys) == GetStep(old(Value()), chat, readOk)
    {
      if chat in cache {
        return cache[chat];
      }
      if !readOk || chat !in store {
        return [];
      }
      cache := cache[chat := store[chat]];
      return store[chat];
    }

    method AddRecommendedTracks(chat: int, trackKeys: seq<string>, readOk: bool, writeOk: bool) returns (failed: bool)
      modifies this
      ensures Value() == AddStep(old(Value()), chat, trackKeys, readOk, writeOk)
      ensures failed <==> trackKeys != [] && !writeOk
    {
      if trackKeys == [] {
        return false;
      }
      var existing := GetRecommendHistory(chat, readOk);
      var merged := MergeKeys(existing, trackKeys);
      if |merged| > MAX_HISTORY {
        merged := merged[|merged| - MAX_HISTORY..];
      }
      if !writeOk {
        return true;
      }
      store, cache := store[chat := merged], cache[chat := merged];
      return false;
    }

    /** The keys of the suggestions made, in order; none if every candidate is known. */
    method TriggerRecommendations(chat: int, candidates: seq<Candidate>, l: Luck) returns (newKeys: seq<string>)
      modifies this
      ensures (Value(), newKeys) == SuggestStep(old(Value()), chat, candidates, l)
      ensures |newKeys| <= 5
    {
      if candidates == [] {
        return [];
      }
      var history := GetRecommendHistory(chat, l.readOk);
      newKeys := SelectFresh(candidates, history);
      if l.lost {
        cache := cache - {chat};
      }
      if newKeys == [] {
        return;
      }
      var _ := AddRecommendedTracks(chat, newKeys, l.rereadOk, l.writeOk);
    }
  }

  ghost predicate SameElements(seen: set<string>, keys: seq<string>) {
    forall k :: k in seen <==> k in keys
  }

  method MergeKeys(existing: seq<string>, trackKeys: seq<string>) returns (merged: seq<string>)
    ensures merged == Merge(existing, trackKeys)
  {
    var seen := set k | k in existing;
    merged := existing;
    for i := 0 to |trackKeys|
      invariant merged == Merge(existing, trackKeys[..i]) && SameElements(seen, merged)
    {
      var k := trackKeys[i];
      assert trackKeys[..i + 1][..i] == trackKeys[..i];
      if k == "" || k in seen {
        continue;
      }
      seen := seen + {k};
      merged := merged + [k];
    }
    assert trackKeys[..|trackKeys|] == trackKeys;
  }

  /** Once the limit is reached, the rest of the candidates is not looked at. */
  lemma {:induction false} SelectFull(cands: seq<Candidate>, i: nat, known: seq<string>, n: nat)
    requires i <= |cands| && |Select(cands[..i], known, n)| >= n
    ensures Select(cands, known, n) == Select(cands[..i], known, n)
    decreases |cands| - i
  {
    if i < |cands| {
      assert cands[..i + 1][..i] == cands[..i];
      SelectFull(cands, i + 1, known, n);
    } else {
      assert cands[..i] == cands;
    }
  }

  method SelectFresh(candidates: seq<Candidate>, history: seq<string>) returns (newKeys: seq<string>)
    ensures newKeys == Select(candidates, history, MAX_RECOMMENDATIONS)
    ensures |newKeys| <= 5
    ensures |newKeys| < 5 ==> forall c :: c in candidates ==> Key(c) in history || Key(c) in newKeys
  {
    Selected(candidates, history, MAX_RECOMMENDATIONS);
    var seen := set k | k in history;
    newKeys := [];
    for i := 0 to |candidates|
      invariant newKeys == Select(candidates[..i], history, MAX_RECOMMENDATIONS) && |newKeys| < MAX_RECOMMENDATIONS
      invariant forall k :: k in seen <==> k in history || k in newKeys
    {
      var key := Key(candidates[i]);
      assert candidates[..i + 1][..i] == candidates[..i];
      if key in seen {
        continue;
      }
      seen := seen + {key};
      newKeys := newKeys + [key];
      if |newKeys| >= MAX_RECOMMENDATIONS {
        SelectFull(candidates, i + 1, history, MAX_RECOMMENDATIONS);
        return;
      }
    }
    assert candidates[..|candidates|] == candidates;
  }
}
