/** No interleaving of the fuzz test deadlocks or runs forever: each ends in a pass. */
module Liveness {
  import opened Wrappers
  import opened KvTypes
  import opened HistoryModule
  import opened StoreModule
  import opened Linear
  import opened Recorder
  import opened Text
  import opened Server
  import opened Protocol
  import opened Random
  import opened FuzzLoop
  import opened SystemModule

  // ---- Some action is always enabled ----

  lemma HealthyFormed(n: nat, pool: set<string>, total: nat, f: Fuzz, log: seq<Online.Event>)
    requires Healthy(n, pool, total, f, log)
    ensures |f.flying| == |f.memo| == |f.hist.maxtr| == n && Online.Shape(f.hist, n) && !f.phase.Failed?
    ensures f.called == f.waited + Count(f.flying) && f.called <= total
    ensures f.timestamp == f.called + f.waited + if f.phase.Waiting? then 1 else 0
    ensures f.phase.Waiting? ==> f.phase.c < n && f.flying[f.phase.c]
  {
  }

  lemma InvFormed(cfg: Config, m0: Store, s: State)
    requires Inv(cfg, m0, s)
    ensures Formed(cfg, s) && !s.fuzz.phase.Failed?
    ensures s.fuzz.called == s.fuzz.waited + Count(s.fuzz.flying) && s.fuzz.called <= cfg.total
    ensures s.fuzz.timestamp == s.fuzz.called + s.fuzz.waited + if s.fuzz.phase.Waiting? then 1 else 0
    ensures s.fuzz.phase.Waiting? ==> s.fuzz.phase.c < |cfg.keys| && s.fuzz.flying[s.fuzz.phase.c]
  {
    hide Healthy;
    hide Sound;
    hide Exclusive;
    hide Stage;
    HealthyFormed(|cfg.keys|, PoolOf(cfg.keys), cfg.total, s.fuzz, s.rec.es);
  }

  /** Between turns the fuzzer can always call or choose a harvest. */
  lemma FuzzerCanTurn(cfg: Config, s: State) returns (a: Action)
    requires Formed(cfg, s) && |cfg.keys| > 0 && (forall c :: 0 <= c < |cfg.keys| ==> cfg.keys[c] != [])
    requires Looping(cfg, s.fuzz) && s.fuzz.called == s.fuzz.waited + Count(s.fuzz.flying)
    ensures Enabled(cfg, s, a)
  {
    var f := s.fuzz;
    CountBounds(f.flying);
    if GenCallVsWait(f.called, cfg.total, f.flying, true) {
      var c :| 0 <= c < |cfg.keys| && !f.flying[c];
      assert cfg.keys[c][0] in cfg.keys[c];
      a := FuzzCall(c, KvCall.Get(cfg.keys[c][0]));
    } else {
      var c :| 0 <= c < |cfg.keys| && f.flying[c];
      a := FuzzWait(c);
    }
  }

  /** The service is never stuck while a handler is at work or blocked. */
  lemma ServiceCanMove(cfg: Config, m: Store, s: State, c: nat) returns (a: Action)
    requires Formed(cfg, s) && Exclusive(m, s.svc) && c < |cfg.keys|
    requires s.svc.handlers[c].Blocked? || s.svc.handlers[c].Inside?
    ensures Enabled(cfg, s, a) && (a.SvcLock? || a.SvcStep? || a.SvcUnlock?)
    ensures a.c == c || (s.svc.handlers[c].Blocked? && s.svc.mutex == Some(a.c))
  {
    hide Progress;
    hide ToMap;
    hide KeysIncrease;
    hide PrintCall;
    if s.svc.mutex.None? {
      a := SvcLock(c);
    } else {
      var t := s.svc.mutex.value;
      a := if s.svc.handlers[t].pc.Replied? then SvcUnlock(t) else SvcStep(t);
    }
  }

  /** The call of a flying client can always make its next hop until the response has arrived,
      whatever the fuzzer is doing; only at the mutex may it be another client's turn. */
  lemma PipelineMoves(cfg: Config, m0: Store, s: State, c: nat) returns (a: Action)
    requires Inv(cfg, m0, s) && Formed(cfg, s) && c < |cfg.keys| && s.fuzz.flying[c] && s.clients[c].resps == []
    ensures Enabled(cfg, s, a) && !a.FuzzCall? && !a.FuzzWait? && !a.FuzzHarvest?
    ensures a.c == c || (s.svc.handlers[c].Blocked? && s.svc.mutex == Some(a.c))
  {
    hide Inv;
    hide TokenResp;
    hide PrintResp;
    hide PrintCall;
    hide ParseResp;
    hide Exclusive;
    InvAt(cfg, m0, s, c);
    var cl, h := s.clients[c], s.svc.handlers[c];
    if s.rec.op[c].Called? {
      if cl.calls != [] {
        a := DriverSend(c);
      } else if h.Idle? {
        CallHasNewline(s.rec.op[c].call);
        a := ProcRead(c);
      } else {
        a := ServiceCanMove(cfg, Replay(m0, s.rec.lin), s, c);
      }
    } else {
      var resp := s.rec.lin[s.rec.op[c].pos].resp;
      if h.Idle? {
        PrintedRead(resp, "");
        assert PrintResp(resp) + "" == PrintResp(resp);
        a := DriverParse(c);
      } else {
        a := ProcPrint(c);
      }
    }
  }

  /** The client the fuzzer waits for can always move. */
  lemma PipelineCanMove(cfg: Config, m0: Store, s: State, c: nat) returns (a: Action)
    requires Inv(cfg, m0, s) && Formed(cfg, s) && s.fuzz.phase == Waiting(c) && c < |cfg.keys| && s.fuzz.flying[c]
    ensures Enabled(cfg, s, a)
  {
    hide Inv;
    if s.clients[c].resps == [] {
      a := PipelineMoves(cfg, m0, s, c);
    } else {
      a := FuzzHarvest(c);
    }
  }

  lemma CallHasNewline(call: KvCall)
    ensures '\n' in PrintCall(call)
  {
    hide LineOf;
    LineNotEmpty(CallWords(call));
    var text := PrintCall(call);
    assert text[|text| - 1] == '\n';
  }

  ghost predicate WellSet(cfg: Config, m0: Store) {
    && |cfg.keys| > 0 && (forall c :: 0 <= c < |cfg.keys| ==> cfg.keys[c] != [])
    && WordKeys(cfg) && forall key :: key in PoolOf(cfg.keys) ==> key !in m0
  }

  ghost predicate Finished(cfg: Config, s: State) {
    s.fuzz.phase.Running? && s.fuzz.waited == cfg.total
  }

  /** No deadlock: until every response is harvested some action is enabled. */
  lemma CanMove(cfg: Config, m0: Store, s: State) returns (a: Action)
    requires Inv(cfg, m0, s) && WellSet(cfg, m0) && !Finished(cfg, s)
    ensures Enabled(cfg, s, a)
  {
    hide Inv;
    hide Enabled;
    InvFormed(cfg, m0, s);
    CountBounds(s.fuzz.flying);
    if s.fuzz.phase.Waiting? {
      a := PipelineCanMove(cfg, m0, s, s.fuzz.phase.c);
    } else {
      a := FuzzerCanTurn(cfg, s);
    }
  }

  /** Any number of clients, all of them included, can have calls in flight at once. */
  lemma {:induction false} AllCanFly(cfg: Config, data: Entries, k: nat) returns (acts: seq<Action>)
    requires Setup(cfg, data) && k <= |cfg.keys| && k <= cfg.total
    ensures Execute(cfg, Initial(cfg, data), acts).Some?
    ensures var s := Execute(cfg, Initial(cfg, data), acts).value;
      && |s.fuzz.flying| == |cfg.keys| && (forall c :: 0 <= c < |cfg.keys| ==> (s.fuzz.flying[c] <==> c < k))
      && s.fuzz.called == k && s.fuzz.waited == 0 && s.fuzz.phase.Running?
  {
    if k == 0 {
      acts := [];
    } else {
      var before := AllCanFly(cfg, data, k - 1);
      acts := OneMoreFlies(cfg, data, before, k - 1);
    }
  }

  lemma {:induction false} OneMoreFlies(cfg: Config, data: Entries, before: seq<Action>, c: nat)
    returns (acts: seq<Action>)
    requires Setup(cfg, data) && Execute(cfg, Initial(cfg, data), before).Some?
    requires var f := Execute(cfg, Initial(cfg, data), before).value.fuzz;
      && c < |f.flying| == |cfg.keys| && !f.flying[c] && f.phase.Running?
      && f.waited < cfg.total && f.called < cfg.total
    ensures Execute(cfg, Initial(cfg, data), acts).Some?
    ensures var f := Execute(cfg, Initial(cfg, data), before).value.fuzz;
      var f' := Execute(cfg, Initial(cfg, data), acts).value.fuzz;
      f'.flying == f.flying[c := true] && f'.called == f.called + 1 && f'.waited == f.waited && f'.phase == f.phase
  {
    hide ToMap;
    hide Inv;
    hide Initial;
    var s, a := Execute(cfg, Initial(cfg, data), before).value, FuzzCall(c, KvCall.Get(cfg.keys[c][0]));
    InvAlways(cfg, data, before);
    InvFormed(cfg, ToMap(data), s);
    TurnsAreFree(cfg, s, c, a.call);
    acts := before + [a];
    assert acts[..|acts| - 1] == before;
    assert Execute(cfg, Initial(cfg, data), acts) == Some(Next(cfg, s, a));
    hide Execute;
    hide Setup;
  }

  // ---- Every action brings the end nearer ----

  /** How many hops a client's call or response still has to make. */
  function Hops(cl: Client, h: Handler): nat {
    if cl.calls != [] then 7
    else if cl.stdin != "" then 6
    else
      match h
      case Blocked(_) => 5
      case Inside(_, _) => 4
      case Returned(_, _) => 3
      case Idle => if cl.stdout != "" then 2 else if cl.resps != [] then 1 else 0
  }

  function Sum(s: seq<nat>): nat {
    if s == [] then 0 else Sum(s[..|s| - 1]) + s[|s| - 1]
  }

  function AllHops(s: State): seq<nat>
    requires |s.clients| == |s.svc.handlers|
  {
    seq(|s.clients|, c requires 0 <= c < |s.clients| => Hops(s.clients[c], s.svc.handlers[c]))
  }

  /** How many steps the holder of the mutex still takes inside, at most. */
  function StepsLeft(data: Entries, pc: Pc): nat {
    match pc
    case Start => 4 + 2 * |data|
    case PutFound(_) => 2
    case SwapMissed => 2
    case SwapHit(_) => 3
    case SwapRead(_, _) => 2
    case GetHit(_) => 2
    case DeleteHit => 2
    case ScanLoop(it, result) => 2 + |result| + if it <= |data| then 2 * (|data| - it) else 0
    case ScanCopy(result, list) => 1 + if |list| <= |result| then |result| - |list| else 0
    case PutDone(_) => 1
    case SwapDone(_) => 1
    case GetDone(_) => 1
    case DeleteDone(_) => 1
    case Replied(_) => 0
    case Undefined => 0
  }

  function InsideLeft(svc: Service): nat {
    match svc.mutex
    case Some(t) =>
      if t < |svc.handlers| && svc.handlers[t].Inside? then StepsLeft(svc.data, svc.handlers[t].pc) else 0
    case None => 0
  }

  function TimeLeft(cfg: Config, f: Fuzz): nat {
    if f.timestamp <= 2 * cfg.total then 2 * cfg.total - f.timestamp else 0
  }

  /** Lexicographically smaller: less logical time to go, or fewer hops, or fewer steps inside. */
  ghost predicate Nearer(cfg: Config, s': State, s: State)
    requires |s.clients| == |s.svc.handlers| && |s'.clients| == |s'.svc.handlers|
  {
    || TimeLeft(cfg, s'.fuzz) < TimeLeft(cfg, s.fuzz)
    || (TimeLeft(cfg, s'.fuzz) == TimeLeft(cfg, s.fuzz)
        && (|| Sum(AllHops(s')) < Sum(AllHops(s))
            || (Sum(AllHops(s')) == Sum(AllHops(s)) && InsideLeft(s'.svc) < InsideLeft(s.svc))))
  }

  lemma {:induction false} SumUpdate(s: seq<nat>, c: nat, x: nat)
    requires c < |s|
    ensures Sum(s[c := x]) == Sum(s) - s[c] + x
  {
    if c == |s| - 1 {
      assert s[c := x][..c] == s[..c];
    } else {
      assert s[c := x][..|s| - 1] == s[..|s| - 1][c := x];
      SumUpdate(s[..|s| - 1], c, x);
    }
  }

  lemma HopsUpdate(s: State, s': State, c: nat)
    requires |s.clients| == |s.svc.handlers| == |s'.clients| == |s'.svc.handlers| && c < |s.clients|
    requires forall b :: 0 <= b < |s.clients| && b != c ==>
      s'.clients[b] == s.clients[b] && s'.svc.handlers[b] == s.svc.handlers[b]
    ensures Sum(AllHops(s')) ==
      Sum(AllHops(s)) - Hops(s.clients[c], s.svc.handlers[c]) + Hops(s'.clients[c], s'.svc.handlers[c])
  {
    SumUpdate(AllHops(s), c, Hops(s'.clients[c], s'.svc.handlers[c]));
    assert AllHops(s') == AllHops(s)[c := Hops(s'.clients[c], s'.svc.handlers[c])];
  }

  lemma StepGetsNearer(m: Store, data: Entries, req: Request, pc: Pc)
    requires KeysIncrease(data) && Progress(m, data, req, pc) && !pc.Replied?
    ensures StepsLeft(Advance(data, req, pc).0, Advance(data, req, pc).1) < StepsLeft(data, pc)
  {
    hide ToMap;
    hide KeysIncrease;
    hide IsRangeOf;
    hide After;
    hide Answers;
  }

  lemma FuzzerGetsNearer(cfg: Config, m0: Store, s: State, a: Action)
    requires Inv(cfg, m0, s) && Enabled(cfg, s, a) && (a.FuzzCall? || a.FuzzWait?)
    ensures |Next(cfg, s, a).clients| == |Next(cfg, s, a).svc.handlers| == |s.clients| == |s.svc.handlers|
    ensures TimeLeft(cfg, Next(cfg, s, a).fuzz) < TimeLeft(cfg, s.fuzz)
  {
    hide Inv;
    hide Generated;
    InvFormed(cfg, m0, s);
    CountBounds(s.fuzz.flying);
    if a.FuzzWait? {
      assert !NoneSet(s.fuzz.flying);
    }
  }

  lemma ServiceGetsNearer(cfg: Config, m0: Store, s: State, c: nat)
    requires Inv(cfg, m0, s) && Enabled(cfg, s, SvcStep(c))
    ensures var s' := Next(cfg, s, SvcStep(c)); |s'.clients| == |s'.svc.handlers| == |s.clients| == |s.svc.handlers|
    ensures Nearer(cfg, Next(cfg, s, SvcStep(c)), s)
  {
    hide Inv;
    hide Progress;
    hide Advance;
    hide StepsLeft;
    hide ToMap;
    hide KeysIncrease;
    InvAt(cfg, m0, s, c);
    var s' := Next(cfg, s, SvcStep(c));
    var h := s.svc.handlers[c];
    StepGetsNearer(Replay(m0, s.rec.lin), s.svc.data, h.req, h.pc);
    HopsUpdate(s, s', c);
  }

  /** Every other action moves one call or response of one client a hop on. */
  lemma HopGetsNearer(cfg: Config, m0: Store, s: State, a: Action)
    requires Inv(cfg, m0, s) && Enabled(cfg, s, a) && WordKeys(cfg)
    requires !a.FuzzCall? && !a.FuzzWait? && !a.SvcStep?
    ensures |Next(cfg, s, a).clients| == |Next(cfg, s, a).svc.handlers| == |s.clients| == |s.svc.handlers|
    ensures Nearer(cfg, Next(cfg, s, a), s)
  {
    hide Inv;
    hide Enabled;
    hide Next;
    hide Hops;
    hide InsideLeft;
    var s' := Next(cfg, s, a);
    InvSizes(cfg, m0, s);
    EnabledClient(cfg, s, a);
    OneHop(cfg, m0, s, a);
    HopsUpdate(s, s', a.c);
  }

  lemma OneHop(cfg: Config, m0: Store, s: State, a: Action)
    requires Inv(cfg, m0, s) && Enabled(cfg, s, a) && WordKeys(cfg)
    requires !a.FuzzCall? && !a.FuzzWait? && !a.SvcStep?
    ensures var s' := Next(cfg, s, a);
      && |s'.clients| == |s'.svc.handlers| == |s.clients| == |s.svc.handlers|
      && s'.fuzz.timestamp == s.fuzz.timestamp
      && (forall b :: 0 <= b < |s.clients| && b != a.c ==>
           s'.clients[b] == s.clients[b] && s'.svc.handlers[b] == s.svc.handlers[b])
      && Hops(s'.clients[a.c], s'.svc.handlers[a.c]) < Hops(s.clients[a.c], s.svc.handlers[a.c])
  {
    hide Inv;
    hide TokenResp;
    hide PrintResp;
    hide PrintCall;
    hide ParseResp;
    hide ParseCommand;
    hide Exclusive;
    hide Generated;
    hide Decode;
    hide EffectTaken;
    hide Answered;
    hide Online.Observe;
    InvAt(cfg, m0, s, a.c);
    StageNonEmpty(s, a.c);
    match a {
      case ProcRead(c) => ReadsCall(cfg, m0, s, c);
      case DriverParse(c) => ParsesResponse(cfg, m0, s, c);
      case _ =>
    }
  }

  lemma InvSizes(cfg: Config, m0: Store, s: State)
    requires Inv(cfg, m0, s)
    ensures |s.clients| == |s.svc.handlers| == |cfg.keys|
  {
  }

  lemma EnabledClient(cfg: Config, s: State, a: Action)
    requires Enabled(cfg, s, a)
    ensures a.c < |cfg.keys|
  {
  }

  /** Every action, by whichever process, strictly lowers the same well-founded measure. */
  lemma EveryActionGetsNearer(cfg: Config, m0: Store, s: State, a: Action)
    requires Inv(cfg, m0, s) && Enabled(cfg, s, a) && WordKeys(cfg)
    ensures |s.clients| == |s.svc.handlers| && |Next(cfg, s, a).clients| == |Next(cfg, s, a).svc.handlers|
    ensures Nearer(cfg, Next(cfg, s, a), s)
  {
    hide Inv;
    hide Enabled;
    hide Next;
    InvSizes(cfg, m0, s);
    match a {
      case FuzzCall(c, call) => FuzzerGetsNearer(cfg, m0, s, a);
      case FuzzWait(c) => FuzzerGetsNearer(cfg, m0, s, a);
      case SvcStep(c) => ServiceGetsNearer(cfg, m0, s, c);
      case _ => HopGetsNearer(cfg, m0, s, a);
    }
  }

  /** The schedule `run`, `acts` takes an enabled action at moment `i`. */
  ghost predicate Proceeds(cfg: Config, run: nat -> State, acts: nat -> Action, i: nat) {
    Enabled(cfg, run(i), acts(i)) && run(i + 1) == Next(cfg, run(i), acts(i))
  }

  lemma {:induction false} ScheduleStops(cfg: Config, m0: Store, run: nat -> State, acts: nat -> Action, i: nat)
    returns (j: nat)
    requires Inv(cfg, m0, run(i)) && WellSet(cfg, m0) && |run(i).clients| == |run(i).svc.handlers|
    ensures !Proceeds(cfg, run, acts, j)
    decreases TimeLeft(cfg, run(i).fuzz), Sum(AllHops(run(i))), InsideLeft(run(i).svc)
  {
    hide Inv;
    hide Enabled;
    hide Next;
    if Proceeds(cfg, run, acts, i) {
      InvKept(cfg, m0, run(i), acts(i));
      EveryActionGetsNearer(cfg, m0, run(i), acts(i));
      j := ScheduleStops(cfg, m0, run, acts, i + 1);
    } else {
      j := i;
    }
  }

  lemma SetupWellSet(cfg: Config, data: Entries)
    requires Setup(cfg, data)
    ensures WellSet(cfg, ToMap(data))
  {
  }

  /** Whatever the schedule, it comes to a halt: no run is infinite. */
  lemma NoRunIsInfinite(cfg: Config, data: Entries, run: nat -> State, acts: nat -> Action)
    requires Setup(cfg, data) && run(0) == Initial(cfg, data)
    ensures exists j :: !Proceeds(cfg, run, acts, j)
  {
    hide Inv;
    hide ToMap;
    hide Proceeds;
    InitialInv(cfg, data);
    SetupWellSet(cfg, data);
    InvSizes(cfg, ToMap(data), run(0));
    var j := ScheduleStops(cfg, ToMap(data), run, acts, 0);
  }

  /** And where a run comes to a halt, the whole test has run and passed: every call was
      made and answered, in 2 * total steps of logical time. */
  lemma {:induction false} RunsHaltOnlyPassed(cfg: Config, data: Entries, acts: seq<Action>)
    requires Setup(cfg, data) && Execute(cfg, Initial(cfg, data), acts).Some?
    ensures var s, es := Execute(cfg, Initial(cfg, data), acts).value, Harvests(cfg, Initial(cfg, data), acts);
      (forall a :: !Enabled(cfg, s, a)) ==>
        && Finished(cfg, s) && s.fuzz.called == cfg.total && s.fuzz.timestamp == 2 * cfg.total
        && |es| == cfg.total && Offline.WellFormed(|cfg.keys|, es)
        && Online.Run(|cfg.keys|, PoolOf(cfg.keys), es) == (s.fuzz.hist, None)
  {
    hide Inv;
    hide ToMap;
    hide Execute;
    hide Enabled;
    hide Online.Run;
    hide Harvests;
    hide Releases;
    InvAlways(cfg, data, acts);
    SetupWellSet(cfg, data);
    NoRunFails(cfg, data, acts);
    RecordIsRun(cfg, data, acts);
    RunAccounts(cfg, data, acts);
    var s := Execute(cfg, Initial(cfg, data), acts).value;
    LogLength(cfg, ToMap(data), s);
    if !Finished(cfg, s) {
      var a := CanMove(cfg, ToMap(data), s);
    }
  }

  lemma LogLength(cfg: Config, m0: Store, s: State)
    requires Inv(cfg, m0, s)
    ensures |s.rec.es| == s.fuzz.waited
  {
  }
}
