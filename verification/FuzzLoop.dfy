/** The fuzzer's loop: nondeterministic calls and harvests under logical time. */
module FuzzLoop {
  import opened Wrappers
  import opened KvTypes
  import opened Online
  import opened Offline
  import opened HistoryModule
  import opened Random

  // `Waiting(c)`: a harvest was chosen and the loop blocks for client `c`'s response.
  // `Failed`: the loop broke off with the test not passed.
  datatype Phase = Running | Waiting(c: nat) | Failed

  datatype Fuzz = Fuzz(
    timestamp: nat,
    flying: seq<bool>,
    memo: seq<(nat, Option<Update>)>,
    hist: Hist,
    called: nat,
    waited: nat,
    phase: Phase)

  function Begin(n: nat, pool: set<string>): Fuzz {
    Fuzz(0, seq(n, _ => false), seq(n, _ => (0, None)), Online.Fresh(n, pool), 0, 0, Running)
  }

  function Count(flying: seq<bool>): nat {
    if flying == [] then 0 else Count(flying[..|flying| - 1]) + if flying[|flying| - 1] then 1 else 0
  }

  // ---- One iteration, as steps on values ----

  function StartCall(f: Fuzz, c: nat, call: KvCall): Fuzz
    requires c < |f.flying| == |f.memo|
  {
    f.(timestamp := f.timestamp + 1,
       memo := f.memo[c := (f.timestamp + 1, UpdateInfo(call))],
       flying := f.flying[c := true],
       called := f.called + 1)
  }

  function StartWait(f: Fuzz, c: nat): Fuzz {
    f.(timestamp := f.timestamp + 1, phase := Waiting(c))
  }

  function EventOf(f: Fuzz, c: nat, resp: KvResp): Event
    requires c < |f.memo|
  {
    Event(c, f.memo[c].0, f.timestamp, resp, f.memo[c].1)
  }

  /** A response comes in: a Stop or a failed check ends the loop. */
  ghost function TakeResponse(f: Fuzz, c: nat, resp: KvResp): Fuzz
    requires c < |f.flying| == |f.memo| == |f.hist.maxtr| && Shape(f.hist, |f.hist.maxtr|)
  {
    if resp.Stop? then f.(phase := Phase.Failed)
    else
      var (hist, verdict) := Observe(f.hist, EventOf(f, c, resp));
      var f1 := f.(memo := f.memo[c := (0, None)], hist := hist);
      if verdict.Some? then f1.(phase := Phase.Failed)
      else f1.(flying := f.flying[c := false], waited := f.waited + 1, phase := Running)
  }

  // ---- What every iteration keeps ----

  /** The time of the last finished step; a chosen harvest has its own time already. */
  function Clock(f: Fuzz): nat {
    if f.phase.Waiting? && f.timestamp > 0 then f.timestamp - 1 else f.timestamp
  }

  ghost predicate Accounts(total: nat, f: Fuzz) {
    && f.called == f.waited + Count(f.flying)
    && f.called <= total
    && f.timestamp == f.called + f.waited + if f.phase.Waiting? then 1 else 0
  }

  ghost predicate Pending(f: Fuzz, log: seq<Event>, c: nat)
    requires c < |f.memo|
  {
    0 < f.memo[c].0 <= Clock(f) && forall i :: 0 <= i < |log| && log[i].cidx == c ==> log[i].tsResp < f.memo[c].0
  }

  /** The loop's state agrees with the events harvested so far, none of which failed a check. */
  ghost predicate Healthy(n: nat, pool: set<string>, total: nat, f: Fuzz, log: seq<Event>) {
    && |f.flying| == |f.memo| == n
    && Accounts(total, f)
    && WellFormed(n, log) && |log| == f.waited
    && Run(n, pool, log) == (f.hist, None)
    && (forall i :: 0 <= i < |log| ==> log[i].tsResp <= Clock(f))
    && (forall c :: 0 <= c < n && f.flying[c] ==> Pending(f, log, c))
    && !f.phase.Failed?
    && (f.phase.Waiting? ==> f.phase.c < n && f.flying[f.phase.c])
  }

  lemma {:induction false} CountBounds(flying: seq<bool>)
    ensures Count(flying) <= |flying|
    ensures Count(flying) == 0 <==> NoneSet(flying)
  {
    if flying == [] {
    } else {
      var rest := flying[..|flying| - 1];
      CountBounds(rest);
      assert forall c :: 0 <= c < |rest| ==> flying[c] == rest[c];
      assert NoneSet(flying) <==> NoneSet(rest) && !flying[|flying| - 1];
    }
  }

  lemma {:induction false} CountUpdate(flying: seq<bool>, c: nat, b: bool)
    requires c < |flying| && flying[c] != b
    ensures Count(flying[c := b]) == Count(flying) + if b then 1 else -1
  {
    var after := flying[c := b];
    if c == |flying| - 1 {
      assert after[..c] == flying[..c];
    } else {
      assert after[..|flying| - 1] == flying[..|flying| - 1][c := b];
      CountUpdate(flying[..|flying| - 1], c, b);
    }
  }

  lemma BeginHealthy(n: nat, pool: set<string>, total: nat)
    ensures Healthy(n, pool, total, Begin(n, pool), [])
  {
    CountBounds(Begin(n, pool).flying);
  }

  lemma CallHealthy(n: nat, pool: set<string>, total: nat, f: Fuzz, log: seq<Event>, c: nat, call: KvCall)
    requires Healthy(n, pool, total, f, log) && f.phase.Running? && c < n && !f.flying[c] && f.called < total
    ensures Healthy(n, pool, total, StartCall(f, c, call), log)
  {
    hide Run;
    hide WellFormed;
    CountUpdate(f.flying, c, true);
    var f1 := StartCall(f, c, call);
    forall b | 0 <= b < n && f1.flying[b] ensures Pending(f1, log, b) {
      assert b != c ==> Pending(f, log, b);
    }
  }

  lemma WaitHealthy(n: nat, pool: set<string>, total: nat, f: Fuzz, log: seq<Event>, c: nat)
    requires Healthy(n, pool, total, f, log) && f.phase.Running? && c < n && f.flying[c]
    ensures Healthy(n, pool, total, StartWait(f, c), log)
  {
    hide Run;
    hide WellFormed;
    var f1 := StartWait(f, c);
    forall b | 0 <= b < n && f1.flying[b] ensures Pending(f1, log, b) {
      assert Pending(f, log, b);
    }
  }

  /** The event of a harvest extends a well-formed log. */
  lemma {:induction false} EventFits(n: nat, pool: set<string>, total: nat, f: Fuzz, log: seq<Event>, resp: KvResp)
    requires Healthy(n, pool, total, f, log) && f.phase.Waiting?
    ensures WellFormed(n, log + [EventOf(f, f.phase.c, resp)])
    ensures |f.hist.maxtr| == n && Shape(f.hist, n) && f.hist.spans.Keys == pool
    ensures Run(n, pool, log + [EventOf(f, f.phase.c, resp)]) == Observe(f.hist, EventOf(f, f.phase.c, resp))
  {
    hide Observe;
    var e := EventOf(f, f.phase.c, resp);
    var log1 := log + [e];
    assert Pending(f, log, f.phase.c);
    assert log1[..|log|] == log;
  }

  lemma ResponseHealthy(n: nat, pool: set<string>, total: nat, f: Fuzz, log: seq<Event>, resp: KvResp)
    requires Healthy(n, pool, total, f, log) && f.phase.Waiting? && !resp.Stop?
    requires |f.hist.maxtr| == n && Shape(f.hist, n)
    requires Observe(f.hist, EventOf(f, f.phase.c, resp)).1.None?
    ensures Healthy(n, pool, total, TakeResponse(f, f.phase.c, resp), log + [EventOf(f, f.phase.c, resp)])
  {
    var c := f.phase.c;
    EventFits(n, pool, total, f, log, resp);
    hide Run;
    hide WellFormed;
    hide Observe;
    CountUpdate(f.flying, c, false);
    var f1 := TakeResponse(f, c, resp);
    var log1 := log + [EventOf(f, c, resp)];
    forall b | 0 <= b < n && f1.flying[b] ensures Pending(f1, log1, b) {
      assert Pending(f, log, b);
    }
  }

  /** The debug assertions of the history hold at every harvest. */
  lemma {:induction false} HistoryAssertionsHold(n: nat, pool: set<string>, log: seq<Event>, e: Event)
    requires n > 0 && WellFormed(n, log + [e]) && WellFormed(n, log) && Run(n, pool, log).1.None? && e.cidx < n
    ensures var h := Run(n, pool, log).0;
      && (h.queue == [] || h.queue[|h.queue| - 1].tsResp < e.tsResp)
      && forall key :: key in h.spans ==>
           var s := h.spans[key][e.cidx]; s != [] && s[|s| - 1].tsResp < e.tsCall
  {
    var log1 := log + [e];
    assert log1[|log|] == e && log1[..|log|] == log;
    var h := Run(n, pool, log).0;
    if log != [] {
      QueueAfterRun(n, pool, log);
      assert log1[|log| - 1] == log[|log| - 1];
    }
    forall key | key in h.spans
      ensures var s := h.spans[key][e.cidx]; s != [] && s[|s| - 1].tsResp < e.tsCall
    {
      NewestSpanBehind(n, pool, log, e, key);
    }
  }

  lemma {:induction false} NewestSpanBehind(n: nat, pool: set<string>, log: seq<Event>, e: Event, key: string)
    requires n > 0 && WellFormed(n, log + [e]) && WellFormed(n, log) && Run(n, pool, log).1.None?
    requires e.cidx < n && key in pool
    ensures var s := Run(n, pool, log).0.spans[key][e.cidx]; s != [] && s[|s| - 1].tsResp < e.tsCall
  {
    hide Run;
    var log1 := log + [e];
    assert log1[|log|] == e && forall i :: 0 <= i < |log| ==> log1[i] == log[i];
    TrimmingAlongRuns(n, pool, log, key, e.cidx);
    LogSequential(n, log, key, e.cidx);
    LastUpdateWitness(log, e.cidx);
    var full := ClientSpans(log, key, e.cidx);
    assert full[|full| - 1].tsResp <= LastUpdate(log, e.cidx);
  }

  // ---- Harvests and choices ----

  /** Everything a harvest needs of the state it happens in. */
  lemma {:induction false} HarvestAllowed(n: nat, pool: set<string>, total: nat, f: Fuzz, log: seq<Event>, resp: KvResp)
    requires n > 0 && Healthy(n, pool, total, f, log) && f.phase.Waiting?
    ensures CanRecord(f.hist, EventOf(f, f.phase.c, resp))
    ensures WellFormed(n, log + [EventOf(f, f.phase.c, resp)]) && |f.hist.maxtr| == n && Shape(f.hist, n)
    ensures Run(n, pool, log + [EventOf(f, f.phase.c, resp)]) == Observe(f.hist, EventOf(f, f.phase.c, resp))
  {
    hide Run;
    hide Observe;
    EventFits(n, pool, total, f, log, resp);
    HistoryAssertionsHold(n, pool, log, EventOf(f, f.phase.c, resp));
    assert Pending(f, log, f.phase.c);
  }

  /** The history's debug assertions, for one event. */
  ghost predicate CanRecord(h: Hist, e: Event) {
    && Shape(h, |h.maxtr|) && e.cidx < |h.maxtr| && e.tsCall < e.tsResp
    && (h.queue == [] || h.queue[|h.queue| - 1].tsResp < e.tsResp)
    && forall key :: key in h.spans ==> var s := h.spans[key][e.cidx]; s != [] && s[|s| - 1].tsResp < e.tsCall
  }

  /** Feeding one harvested response, and the update its call made, to the history. */
  method RecordResponse(history: History, cidx: nat, tsCall: nat, tsResp: nat, resp: KvResp, updateInfo: Option<Update>)
    returns (failure: Verdict)
    requires CanRecord(history.View(), Event(cidx, tsCall, tsResp, resp, updateInfo))
    modifies history
    ensures (history.View(), failure) == Observe(old(history.View()), Event(cidx, tsCall, tsResp, resp, updateInfo))
  {
    history.AddToQueue(tsCall, tsResp, resp);
    failure := None;
    if updateInfo.Some? {
      var (updateKey, updateValue) := updateInfo.value;
      failure := history.ApplyUpdate(cidx, tsCall, tsResp, updateKey, updateValue);
    }
  }

  /** Either choice the loop makes satisfies the assertion of the client picker. */
  lemma ChoiceAllowed(n: nat, pool: set<string>, total: nat, f: Fuzz, log: seq<Event>, coin: bool)
    requires n > 0 && Healthy(n, pool, total, f, log) && f.phase.Running? && f.waited < total
    ensures |f.flying| == |f.memo| == n
    ensures var call := GenCallVsWait(f.called, total, f.flying, coin);
      CanPick(f.flying, !call) && (call ==> f.called < total)
    ensures f.called <= total && (NoneSet(f.flying) <==> f.waited == f.called) && f.waited <= f.called
  {
    CountBounds(f.flying);
  }

  // ---- The verdict of the log ----

  /** What a finished run reports: every response behind the watermark is accepted by
      the full log of the run, and the others remain unchecked. */
  ghost predicate PassedRun(n: nat, pool: set<string>, total: nat, log: seq<Event>, remaining: nat) {
    && |log| == total && Tracked(pool, log)
    && (forall i :: 0 <= i < Behind(log, Low(n, log)) ==> Accepts(n, pool, log, log[i]))
    && remaining == Unchecked(n, log)
  }

  /** The responses that some client has not moved past. */
  ghost function Unchecked(n: nat, log: seq<Event>): nat {
    |log| - Behind(log, Low(n, log))
  }

  /** The full log rejects a response behind the watermark. */
  ghost predicate RejectedRun(n: nat, pool: set<string>, log: seq<Event>) {
    exists i :: 0 <= i < Behind(log, Low(n, log)) && !Accepts(n, pool, log, log[i])
  }

  lemma RunEnds(n: nat, pool: set<string>, total: nat, f: Fuzz, log: seq<Event>)
    requires n > 0 && Healthy(n, pool, total, f, log) && f.phase.Running? && f.waited >= total
    ensures PassedRun(n, pool, total, log, |f.hist.queue|)
    ensures f.timestamp == 2 * total && WellFormed(n, log)
  {
    hide Run;
    hide Accepts;
    CountBounds(f.flying);
    OnlineRefinesOffline(n, pool, log);
  }

  /** Where every update key is tracked, the online checker fails exactly the rejected runs. */
  lemma {:induction false} FailsIffRejected(n: nat, pool: set<string>, log: seq<Event>)
    requires n > 0 && WellFormed(n, log) && Tracked(pool, log)
    ensures Run(n, pool, log).1.Some? <==> RejectedRun(n, pool, log)
  {
    hide Run;
    hide Accepts;
    OnlineRefinesOffline(n, pool, log);
  }

  predicate Until(log: seq<Event>, t: nat) {
    forall i :: 0 <= i < |log| ==> log[i].tsResp <= t
  }

  // ---- Where the events of a run come from ----

  /** The update is that of some call the fuzzer can generate from these keys. */
  ghost predicate Made(keys: seq<string>, u: Option<Update>) {
    exists call :: Generated(keys, call) && UpdateInfo(call) == u
  }

  /** The event pairs a generated call with what the environment answered at that time. */
  ghost predicate Exchanged(keys: seq<seq<string>>, answer: nat -> KvResp, e: Event) {
    e.cidx < |keys| && e.resp == answer(e.tsResp) && !e.resp.Stop? && Made(keys[e.cidx], e.update)
  }

  ghost predicate Traced(keys: seq<seq<string>>, answer: nat -> KvResp, log: seq<Event>) {
    forall i :: 0 <= i < |log| ==> Exchanged(keys, answer, log[i])
  }

  ghost predicate Remembered(keys: seq<seq<string>>, flying: seq<bool>, callMemo: seq<(nat, Option<Update>)>) {
    |flying| == |callMemo| == |keys| && forall c :: 0 <= c < |keys| && flying[c] ==> Made(keys[c], callMemo[c].1)
  }

  /** Generated updates only touch keys of the pool, so no update key is ever unexpected. */
  lemma TracedTracked(keys: seq<seq<string>>, answer: nat -> KvResp, log: seq<Event>)
    requires Traced(keys, answer, log)
    ensures Tracked(PoolOf(keys), log)
  {
    forall i | 0 <= i < |log| && log[i].update.Some? ensures log[i].update.value.0 in PoolOf(keys) {
      assert Exchanged(keys, answer, log[i]);
      var c := log[i].cidx;
      var call :| Generated(keys[c], call) && UpdateInfo(call) == log[i].update;
      assert log[i].update.value.0 in keys[c];
      var k :| 0 <= k < |keys[c]| && keys[c][k] == log[i].update.value.0;
    }
  }

  // ---- The run that the random draws and the clients' answers determine ----

  // `draws(t)` are the random numbers of the turn at logical time `t`, and `answer(t)` is the
  // response that a harvest at that time meets.
  datatype Scenario = Scenario(keys: seq<seq<string>>, total: nat, draws: nat -> Draws, answer: nat -> KvResp)

  // `log`: the events harvested so far; `stopped`: the last harvest met a Stop.
  datatype Loop = Loop(f: Fuzz, log: seq<Event>, stopped: bool)

  ghost predicate Playable(sc: Scenario) {
    && |sc.keys| > 0 && (forall c :: 0 <= c < |sc.keys| ==> sc.keys[c] != [])
    && forall t: nat :: ReachesAll(sc.draws(t).clients, |sc.keys|)
  }

  /** Whatever the clients answer, there are draws to play by. */
  lemma PlayableDraws(keys: seq<seq<string>>, total: nat, answer: nat -> KvResp) returns (draws: nat -> Draws)
    requires |keys| > 0 && forall c :: 0 <= c < |keys| ==> keys[c] != []
    ensures Playable(Scenario(keys, total, draws, answer))
  {
    var clients := EveryClientPicked(seq(|keys|, _ => false), false, 0);
    var d := Draws(false, clients, 0, 0, 0, clients);
    draws := (t: nat) => d;
  }

  predicate Going(sc: Scenario, s: Loop) {
    s.f.phase.Running? && s.f.waited < sc.total
  }

  ghost predicate InStep(sc: Scenario, s: Loop) {
    Healthy(|sc.keys|, PoolOf(sc.keys), sc.total, s.f, s.log) && Remembered(sc.keys, s.f.flying, s.f.memo)
  }

  /** The turn at time `t`: a call is made, or a response harvested and recorded. */
  ghost function Turn(sc: Scenario, t: nat, s: Loop): Loop
    requires Playable(sc) && InStep(sc, s) && Going(sc, s)
  {
    var f, d := s.f, sc.draws(t);
    ChoiceAllowed(|sc.keys|, PoolOf(sc.keys), sc.total, f, s.log, d.coin);
    FairDrawsPick(f.flying, !GenCallVsWait(f.called, sc.total, f.flying, d.coin), d.clients);
    if GenCallVsWait(f.called, sc.total, f.flying, d.coin) then
      var c := PickedClient(f.flying, false, d.clients);
      Loop(StartCall(f, c, DrawnCall(sc.keys[c], d)), s.log, false)
    else
      var c := PickedClient(f.flying, true, d.clients);
      WaitHealthy(|sc.keys|, PoolOf(sc.keys), sc.total, f, s.log, c);
      Harvested(sc, StartWait(f, c), s.log, c, sc.answer(t))
  }

  ghost function Harvested(sc: Scenario, f: Fuzz, log: seq<Event>, c: nat, resp: KvResp): Loop
    requires Healthy(|sc.keys|, PoolOf(sc.keys), sc.total, f, log) && f.phase == Waiting(c)
  {
    EventFits(|sc.keys|, PoolOf(sc.keys), sc.total, f, log, resp);
    Loop(TakeResponse(f, c, resp), if resp.Stop? then log else log + [EventOf(f, c, resp)], resp.Stop?)
  }

  /** What holds after `t` turns: while the loop goes on its state agrees with the log, and
      a loop that broke off had met a Stop, or a response that failed its check. */
  ghost predicate LoopInv(sc: Scenario, t: nat, s: Loop) {
    && WellFormed(|sc.keys|, s.log) && Traced(sc.keys, sc.answer, s.log) && Until(s.log, t)
    && s.f.timestamp <= t
    && (if s.f.phase.Failed? then
          && (s.stopped ==> sc.answer(s.f.timestamp).Stop?)
          && (Run(|sc.keys|, PoolOf(sc.keys), s.log).1.Some? <==> !s.stopped)
        else
          s.f.phase.Running? && !s.stopped && InStep(sc, s) && (Going(sc, s) ==> s.f.timestamp == t))
  }

  /** The state of the loop after `t` turns, or where it ended before. */
  ghost function LoopAt(sc: Scenario, t: nat): (s: Loop)
    requires Playable(sc)
    ensures LoopInv(sc, t, s)
  {
    if t == 0 then
      BeginInv(sc);
      Loop(Begin(|sc.keys|, PoolOf(sc.keys)), [], false)
    else
      var s := LoopAt(sc, t - 1);
      if Going(sc, s) then
        TurnInv(sc, t, s);
        Turn(sc, t, s)
      else s
  }

  lemma BeginInv(sc: Scenario)
    requires Playable(sc)
    ensures LoopInv(sc, 0, Loop(Begin(|sc.keys|, PoolOf(sc.keys)), [], false))
  {
    BeginHealthy(|sc.keys|, PoolOf(sc.keys), sc.total);
  }

  lemma CallInStep(sc: Scenario, t: nat, s: Loop, c: nat, call: KvCall)
    requires InStep(sc, s) && Going(sc, s) && c < |sc.keys| && !s.f.flying[c] && s.f.called < sc.total
    requires Generated(sc.keys[c], call)
    ensures InStep(sc, Loop(StartCall(s.f, c, call), s.log, false))
  {
    hide Generated;
    CallHealthy(|sc.keys|, PoolOf(sc.keys), sc.total, s.f, s.log, c, call);
    hide Healthy;
    assert Made(sc.keys[c], UpdateInfo(call));
  }

  lemma {:induction false} HarvestInv(sc: Scenario, t: nat, f: Fuzz, log: seq<Event>, c: nat)
    requires Playable(sc) && WellFormed(|sc.keys|, log) && Traced(sc.keys, sc.answer, log) && Until(log, t)
    requires Healthy(|sc.keys|, PoolOf(sc.keys), sc.total, f, log) && Remembered(sc.keys, f.flying, f.memo)
    requires f.phase == Waiting(c) && f.timestamp == t
    ensures LoopInv(sc, t, Harvested(sc, f, log, c, sc.answer(t)))
  {
    hide Made;
    hide PoolOf;
    hide Healthy;
    hide WellFormed;
    hide Run;
    hide Observe;
    var n, pool, resp := |sc.keys|, PoolOf(sc.keys), sc.answer(t);
    EventFits(n, pool, sc.total, f, log, resp);
    HealthyClock(n, pool, sc.total, f, log);
    var e := EventOf(f, c, resp);
    if !resp.Stop? {
      assert Exchanged(sc.keys, sc.answer, e);
      if Observe(f.hist, e).1.None? {
        ResponseHealthy(n, pool, sc.total, f, log, resp);
      }
    }
  }

  lemma {:induction false} HealthyClock(n: nat, pool: set<string>, total: nat, f: Fuzz, log: seq<Event>)
    requires Healthy(n, pool, total, f, log)
    ensures |f.flying| == |f.memo| == n && Run(n, pool, log) == (f.hist, None)
    ensures f.timestamp == f.called + f.waited + if f.phase.Waiting? then 1 else 0
    ensures f.phase.Waiting? ==> f.phase.c < n && f.flying[f.phase.c]
  {
  }

  lemma TurnInv(sc: Scenario, t: nat, s: Loop)
    requires Playable(sc) && t > 0 && LoopInv(sc, t - 1, s) && Going(sc, s)
    ensures LoopInv(sc, t, Turn(sc, t, s))
  {
    var f, d, n, pool := s.f, sc.draws(t), |sc.keys|, PoolOf(sc.keys);
    ChoiceAllowed(n, pool, sc.total, f, s.log, d.coin);
    FairDrawsPick(f.flying, !GenCallVsWait(f.called, sc.total, f.flying, d.coin), d.clients);
    hide Healthy;
    hide WellFormed;
    hide Run;
    hide Made;
    hide PoolOf;
    hide Harvested;
    if GenCallVsWait(f.called, sc.total, f.flying, d.coin) {
      var c := PickedClient(f.flying, false, d.clients);
      DrawnIsGenerated(sc.keys[c], d);
      CallInStep(sc, t, s, c, DrawnCall(sc.keys[c], d));
    } else {
      var c := PickedClient(f.flying, true, d.clients);
      WaitHealthy(n, pool, sc.total, f, s.log, c);
      HarvestInv(sc, t, StartWait(f, c), s.log, c);
    }
  }

  /** Once over, the loop stays where it ended. */
  lemma {:induction false} StaysOver(sc: Scenario, t: nat, u: nat)
    requires Playable(sc) && t <= u && !Going(sc, LoopAt(sc, t))
    ensures LoopAt(sc, u) == LoopAt(sc, t)
    decreases u
  {
    hide LoopInv;
    hide Turn;
    if t == u {
    } else {
      StaysOver(sc, t, u - 1);
    }
  }

  /** The loop is over after 2 * total turns at the latest. */
  lemma {:induction false} OverInTime(sc: Scenario, t: nat)
    requires Playable(sc) && Going(sc, LoopAt(sc, t))
    ensures t < 2 * sc.total
  {
    var s := LoopAt(sc, t);
    ChoiceAllowed(|sc.keys|, PoolOf(sc.keys), sc.total, s.f, s.log, false);
  }

  ghost function Final(sc: Scenario): Loop
    requires Playable(sc)
  {
    LoopAt(sc, 2 * sc.total)
  }

  /** How every run of the loop ends, whatever is drawn and answered: it breaks off exactly
      when it meets a Stop or a response that the log of the run rejects; otherwise it has
      made and harvested every call in 2 * total turns, and its queue holds the responses
      that some client has not moved past. */
  lemma {:induction false} FinalVerdict(sc: Scenario)
    requires Playable(sc)
    ensures var s, n, pool := Final(sc), |sc.keys|, PoolOf(sc.keys);
      && WellFormed(n, s.log) && Traced(sc.keys, sc.answer, s.log) && Tracked(pool, s.log)
      && (s.f.phase.Failed? <==> s.stopped || RejectedRun(n, pool, s.log))
      && (s.stopped ==> sc.answer(s.f.timestamp).Stop? && !RejectedRun(n, pool, s.log))
      && (!s.f.phase.Failed? ==> s.f.timestamp == 2 * sc.total && PassedRun(n, pool, sc.total, s.log, |s.f.hist.queue|))
  {
    var s, n, pool := Final(sc), |sc.keys|, PoolOf(sc.keys);
    TracedTracked(sc.keys, sc.answer, s.log);
    FailsIffRejected(n, pool, s.log);
    hide Accepts;
    hide PoolOf;
    hide RejectedRun;
    if Going(sc, s) {
      OverInTime(sc, 2 * sc.total);
    } else if s.f.phase.Running? {
      RunEnds(n, pool, sc.total, s.f, s.log);
    }
  }

  /** Wherever the loop ends, that is its final state. */
  lemma {:induction false} EndVerdict(sc: Scenario, t: nat)
    requires Playable(sc) && t <= 2 * sc.total && !Going(sc, LoopAt(sc, t))
    ensures var s, n, pool := LoopAt(sc, t), |sc.keys|, PoolOf(sc.keys);
      && Final(sc) == s && (s.f.phase.Failed? <==> s.stopped || RejectedRun(n, pool, s.log))
      && (!s.f.phase.Failed? ==> |s.f.hist.queue| == Unchecked(n, s.log) && |s.log| == sc.total)
  {
    hide LoopInv;
    hide RejectedRun;
    StaysOver(sc, t, 2 * sc.total);
    FinalVerdict(sc);
  }

  // ---- The loop itself ----

  // How a harvest ended: the loop goes on, or breaks off with the test failed.
  datatype Turned = GoesOn | GotStop | CheckFailed

  /** The calling branch of the loop body. */
  method MakeCall(keys: seq<seq<string>>, d: Draws, timestamp: nat, flying: seq<bool>,
                  callMemo: seq<(nat, Option<Update>)>)
    returns (flying1: seq<bool>, callMemo1: seq<(nat, Option<Update>)>)
    requires |flying| == |callMemo| == |keys| && WillPick(flying, false, d.clients)
    requires forall c :: 0 <= c < |keys| ==> keys[c] != []
    ensures var c := PickedClient(flying, false, d.clients);
      && flying1 == flying[c := true]
      && callMemo1 == callMemo[c := (timestamp, UpdateInfo(DrawnCall(keys[c], d)))]
  {
    var cidx := GenRandClient(flying, false, d.clients);
    var call := GenRandKvCall(keys[cidx], d);
    callMemo1 := callMemo[cidx := (timestamp, UpdateInfo(call))];
    flying1 := flying[cidx := true];
  }

  /** The harvesting branch of the loop body, for whatever response comes in. */
  method HarvestOne(history: History, d: Draws, resp: KvResp, timestamp: nat, flying: seq<bool>,
                    callMemo: seq<(nat, Option<Update>)>)
    returns (turned: Turned, flying1: seq<bool>, callMemo1: seq<(nat, Option<Update>)>)
    requires |flying| == |callMemo| && WillPick(flying, true, d.clients)
    requires var c := PickedClient(flying, true, d.clients);
      CanRecord(history.View(), Event(c, callMemo[c].0, timestamp, resp, callMemo[c].1))
    modifies history
    ensures var c := PickedClient(flying, true, d.clients);
      if resp.Stop? then
        turned == GotStop && history.View() == old(history.View()) && flying1 == flying && callMemo1 == callMemo
      else
        var (hist, verdict) := Observe(old(history.View()), Event(c, callMemo[c].0, timestamp, resp, callMemo[c].1));
        && history.View() == hist && callMemo1 == callMemo[c := (0, None)]
        && (if verdict.Some? then turned == CheckFailed && flying1 == flying
            else turned == GoesOn && flying1 == flying[c := false])
  {
    hide Observe;
    flying1, callMemo1 := flying, callMemo;
    var cidx := GenRandClient(flying, true, d.clients);
    if resp.Stop? {
      return GotStop, flying1, callMemo1;
    }
    var (tsCall, updateInfo) := callMemo[cidx];
    callMemo1 := callMemo[cidx := (0, None)];
    var failure := RecordResponse(history, cidx, tsCall, timestamp, resp, updateInfo);
    if failure.Some? {
      return CheckFailed, flying1, callMemo1;
    }
    flying1 := flying[cidx := false];
    turned := GoesOn;
  }

  /** What the loop needs to know of a turn before it takes it. */
  lemma {:induction false} TurnReady(sc: Scenario, t: nat, s: Loop)
    requires Playable(sc) && t > 0 && LoopInv(sc, t - 1, s) && Going(sc, s)
    ensures var f, d := s.f, sc.draws(t);
      && |f.flying| == |f.memo| == |sc.keys| && f.waited <= f.called <= sc.total
      && f.timestamp == f.called + f.waited == t - 1
      && (forall c :: 0 <= c < |sc.keys| ==> sc.keys[c] != [])
      && var call := GenCallVsWait(f.called, sc.total, f.flying, d.coin);
         WillPick(f.flying, !call, d.clients) && (if call then f.called < sc.total else f.waited < f.called)
  {
    var f, d := s.f, sc.draws(t);
    ChoiceAllowed(|sc.keys|, PoolOf(sc.keys), sc.total, f, s.log, d.coin);
    FairDrawsPick(f.flying, !GenCallVsWait(f.called, sc.total, f.flying, d.coin), d.clients);
    HealthyClock(|sc.keys|, PoolOf(sc.keys), sc.total, s.f, s.log);
  }

  lemma {:induction false} LoopBegins(sc: Scenario)
    requires Playable(sc)
    ensures LoopAt(sc, 0) ==
      Loop(Fuzz(0, seq(|sc.keys|, _ => false), seq(|sc.keys|, _ => (0, None)), Online.Fresh(|sc.keys|, PoolOf(sc.keys)),
                0, 0, Running), [], false)
  {
  }

  lemma {:induction false} LoopTurns(sc: Scenario, t: nat)
    requires Playable(sc) && t > 0 && Going(sc, LoopAt(sc, t - 1))
    ensures InStep(sc, LoopAt(sc, t - 1)) && LoopInv(sc, t - 1, LoopAt(sc, t - 1))
    ensures LoopAt(sc, t) == Turn(sc, t, LoopAt(sc, t - 1))
  {
    hide Turn;
    hide InStep;
  }

  lemma {:induction false} TurnCalls(sc: Scenario, t: nat, s: Loop)
    requires Playable(sc) && InStep(sc, s) && Going(sc, s)
    requires GenCallVsWait(s.f.called, sc.total, s.f.flying, sc.draws(t).coin)
    requires |s.f.flying| == |s.f.memo| == |sc.keys|
    requires WillPick(s.f.flying, false, sc.draws(t).clients)
    ensures var c := PickedClient(s.f.flying, false, sc.draws(t).clients);
      && sc.keys[c] != []
      && Turn(sc, t, s) == Loop(StartCall(s.f, c, DrawnCall(sc.keys[c], sc.draws(t))), s.log, false)
  {
    hide InStep;
    hide GenCallVsWait;
    hide WillPick;
    hide PickedClient;
    hide DrawnCall;
    hide StartCall;
    hide Harvested;
  }

  lemma {:induction false} CallTaken(sc: Scenario, t: nat)
    requires Playable(sc) && t > 0
    requires var s := LoopAt(sc, t - 1);
      Going(sc, s) && GenCallVsWait(s.f.called, sc.total, s.f.flying, sc.draws(t).coin)
    ensures var s, d := LoopAt(sc, t - 1), sc.draws(t);
      var f := s.f;
      && |f.flying| == |f.memo| == |sc.keys| && WillPick(f.flying, false, d.clients)
      && var c := PickedClient(f.flying, false, d.clients);
         sc.keys[c] != [] && LoopAt(sc, t) ==
           Loop(Fuzz(t, f.flying[c := true], f.memo[c := (t, UpdateInfo(DrawnCall(sc.keys[c], d)))],
                     f.hist, f.called + 1, f.waited, Running), s.log, false)
  {
    var s := LoopAt(sc, t - 1);
    LoopTurns(sc, t);
    TurnReady(sc, t, s);
    hide LoopAt;
    hide LoopInv;
    hide InStep;
    hide DrawnCall;
    hide GenCallVsWait;
    hide WillPick;
    hide PickedClient;
    hide Playable;
    TurnCalls(sc, t, s);
    hide Turn;
  }

  lemma {:induction false} TurnHarvests(sc: Scenario, t: nat, s: Loop)
    requires Playable(sc) && InStep(sc, s) && Going(sc, s)
    requires !GenCallVsWait(s.f.called, sc.total, s.f.flying, sc.draws(t).coin)
    requires |s.f.flying| == |s.f.memo| == |sc.keys| && WillPick(s.f.flying, true, sc.draws(t).clients)
    ensures var c, n, pool := PickedClient(s.f.flying, true, sc.draws(t).clients), |sc.keys|, PoolOf(sc.keys);
      && Healthy(n, pool, sc.total, StartWait(s.f, c), s.log)
      && Turn(sc, t, s) == Harvested(sc, StartWait(s.f, c), s.log, c, sc.answer(t))
  {
    hide GenCallVsWait;
    hide WillPick;
    hide PickedClient;
    hide Harvested;
    WaitHealthy(|sc.keys|, PoolOf(sc.keys), sc.total, s.f, s.log, PickedClient(s.f.flying, true, sc.draws(t).clients));
    hide Healthy;
    hide PoolOf;
  }

  lemma {:induction false} HarvestTaken(sc: Scenario, t: nat)
    requires Playable(sc) && t > 0
    requires var s := LoopAt(sc, t - 1);
      Going(sc, s) && !GenCallVsWait(s.f.called, sc.total, s.f.flying, sc.draws(t).coin)
    ensures var s, d, resp := LoopAt(sc, t - 1), sc.draws(t), sc.answer(t);
      var f := s.f;
      && |f.flying| == |f.memo| == |sc.keys| && WillPick(f.flying, true, d.clients)
      && var c := PickedClient(f.flying, true, d.clients);
         var e := Event(c, f.memo[c].0, t, resp, f.memo[c].1);
         && CanRecord(f.hist, e)
         && LoopAt(sc, t).stopped == resp.Stop? && LoopAt(sc, t).f.called == f.called
         && LoopAt(sc, t).log == s.log + (if resp.Stop? then [] else [e])
         && var broken := resp.Stop? || Observe(f.hist, e).1.Some?;
         && (broken ==> LoopAt(sc, t).f.phase.Failed?)
         && (!broken ==>
               LoopAt(sc, t) ==
               Loop(Fuzz(t, f.flying[c := false], f.memo[c := (0, None)], Observe(f.hist, e).0,
                    f.called, f.waited + 1, Running),
                    s.log + [e], false))
  {
    hide LoopAt;
    hide LoopInv;
    hide GenCallVsWait;
    hide WillPick;
    hide Playable;
    hide PickedClient;
    hide Turn;
    hide Healthy;
    hide CanRecord;
    hide Observe;
    hide PoolOf;
    var s, d := LoopAt(sc, t - 1), sc.draws(t);
    var f := s.f;
    var n, pool := |sc.keys|, PoolOf(sc.keys);
    LoopTurns(sc, t);
    TurnReady(sc, t, s);
    TurnHarvests(sc, t, s);
    var c := PickedClient(f.flying, true, d.clients);
    HarvestAllowed(n, pool, sc.total, StartWait(f, c), s.log, sc.answer(t));
  }

  /** Calls and harvests interleave freely: while operations are left and some client is idle,
      a turn whose coin is set makes a call, in flight or not; while some client is flying,
      a turn whose coin is not set harvests. */
  lemma {:induction false} TurnFollowsCoin(sc: Scenario, t: nat)
    requires Playable(sc) && t > 0 && Going(sc, LoopAt(sc, t - 1))
    ensures var s, s', coin := LoopAt(sc, t - 1), LoopAt(sc, t), sc.draws(t).coin;
      && (coin && s.f.called < sc.total && !All(s.f.flying) ==> s'.f.called == s.f.called + 1 && s'.log == s.log)
      && (!coin && !NoneSet(s.f.flying) ==> s'.f.called == s.f.called && (s'.stopped || |s'.log| == |s.log| + 1))
  {
    var s := LoopAt(sc, t - 1);
    TurnReady(sc, t, s);
    hide LoopAt;
    hide LoopInv;
    hide Playable;
    hide Observe;
    hide CanRecord;
    hide PickedClient;
    hide WillPick;
    hide All;
    hide NoneSet;
    if GenCallVsWait(s.f.called, sc.total, s.f.flying, sc.draws(t).coin) {
      CallTaken(sc, t);
    } else {
      HarvestTaken(sc, t);
    }
  }

  /** The loop of `fuzz_test`, against clients that may answer anything. It ends where the
      run that its draws and answers determine ends. */
  method RunLoop(totalOps: nat, numClis: nat, keys: seq<seq<string>>, draws: nat -> Draws, answer: nat -> KvResp)
    returns (result: Option<nat>)
    requires totalOps >= 1000 && |keys| == numClis
    requires Playable(Scenario(keys, totalOps, draws, answer))
    ensures var s := Final(Scenario(keys, totalOps, draws, answer));
      && (result.Some? <==> !s.stopped && !RejectedRun(numClis, PoolOf(keys), s.log))
      && (result.Some? ==> result.value == Unchecked(numClis, s.log) && |s.log| == totalOps)
  {
    hide Playable;
    hide LoopAt;
    hide Fresh;
    hide PickedClient;
    hide LoopInv;
    hide PoolOf;
    hide CanRecord;
    hide RejectedRun;
    hide Unchecked;
    hide Observe;
    hide GenCallVsWait;
    hide WillPick;
    hide DrawnCall;
    hide Final;
    assert totalOps / 100 != 0; // the progress report divides by it
    ghost var sc := Scenario(keys, totalOps, draws, answer);
    var flying := seq(numClis, _ => false);
    var timestamp := 0;
    var callMemo: seq<(nat, Option<Update>)> := seq(numClis, _ => (0, None));
    var history := new History(numClis, keys);
    var opsCalled, opsWaited := 0, 0;
    var passed := true;
    ghost var s := LoopAt(sc, 0);
    LoopBegins(sc);
    while opsWaited < totalOps
      invariant fresh(history)
      invariant s == LoopAt(sc, timestamp)
      invariant s ==
        Loop(Fuzz(timestamp, flying, callMemo, history.View(), opsCalled, opsWaited, Running), s.log, false)
      invariant passed && opsWaited <= opsCalled <= totalOps && timestamp == opsCalled + opsWaited
      decreases 2 * totalOps - opsCalled - opsWaited
    {
      OverInTime(sc, timestamp);
      timestamp := timestamp + 1;
      TurnReady(sc, timestamp, s);
      s := LoopAt(sc, timestamp);
      var d := draws(timestamp);
      if GenCallVsWait(opsCalled, totalOps, flying, d.coin) {
        CallTaken(sc, timestamp);
        flying, callMemo := MakeCall(keys, d, timestamp, flying, callMemo);
        opsCalled := opsCalled + 1;
      } else {
        HarvestTaken(sc, timestamp);
        var turned;
        turned, flying, callMemo := HarvestOne(history, d, answer(timestamp), timestamp, flying, callMemo);
        if !turned.GoesOn? {
          passed := false;
          break;
        }
        opsWaited := opsWaited + 1;
      }
    }
    EndVerdict(sc, timestamp);
    result := None;
    if passed {
      var len := history.QueueLen();
      result := Some(len);
    }
  }

  /** `fuzz_test`: it passes exactly when the run that its draws and answers determine meets
      neither a Stop nor a response that its log rejects; then every client's share of
      operations has been made and harvested, and the result is how many were left unchecked. */
  method FuzzTest(numOps: nat, numClis: nat, keys: seq<seq<string>>, draws: nat -> Draws, answer: nat -> KvResp)
    returns (result: Option<nat>)
    requires numClis != 0 && numOps >= 1000 && |keys| == numClis
    requires Playable(Scenario(keys, numOps * numClis, draws, answer))
    ensures var s := Final(Scenario(keys, numOps * numClis, draws, answer));
      && (result.Some? <==> !s.stopped && !RejectedRun(numClis, PoolOf(keys), s.log))
      && (result.Some? ==> result.value == Unchecked(numClis, s.log) && |s.log| == numOps * numClis)
  {
    hide Playable;
    hide Final;
    hide RejectedRun;
    hide Unchecked;
    var totalOps := numOps * numClis;
    assert totalOps >= numOps;
    result := RunLoop(totalOps, numClis, keys, draws, answer);
  }

  // ---- The verdict on the run ----

  const REMAIN_THRESH: nat := 1000

  datatype Conclusion = Passed | Unfair | Failed

  function Conclude(result: Option<nat>): Conclusion {
    match result
    case Some(remaining) => if remaining >= REMAIN_THRESH then Unfair else Conclusion.Passed
    case None => Conclusion.Failed
  }

  /** The whole test, from its settings to the printed result. A failure means that the
      run met a Stop or a response that its log rejects; otherwise every response
      behind the slowest client was accepted, and the run is called unfair exactly when
      at least a thousand responses were not behind it. */
  method Judge(numOps: nat, numClis: nat, keys: seq<seq<string>>, draws: nat -> Draws, answer: nat -> KvResp)
    returns (verdict: Conclusion)
    requires numClis != 0 && numOps >= 1000 && |keys| == numClis
    requires Playable(Scenario(keys, numOps * numClis, draws, answer))
    ensures var s := Final(Scenario(keys, numOps * numClis, draws, answer));
      && (verdict.Failed? <==> s.stopped || RejectedRun(numClis, PoolOf(keys), s.log))
      && (verdict.Unfair? <==> !verdict.Failed? && Unchecked(numClis, s.log) >= 1000)
      && (!verdict.Failed? ==> |s.log| == numOps * numClis)
  {
    hide Playable;
    hide Final;
    hide RejectedRun;
    hide Unchecked;
    var result := FuzzTest(numOps, numClis, keys, draws, answer);
    verdict := Conclude(result);
  }
}
