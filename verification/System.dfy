/** The whole fuzz test as one closed system: the fuzzer, a channel pair, driver thread
    and client process for every client, their pipes, and the service under its mutex. */
module SystemModule {
  import opened Wrappers
  import opened KvTypes
  import opened Online
  import opened Offline
  import opened HistoryModule
  import opened StoreModule
  import opened Linear
  import opened Recorder
  import opened Text
  import opened Server
  import opened Protocol
  import opened Random
  import opened FuzzLoop

  /** The key pool of every client and the number of operations to run. */
  datatype Config = Config(keys: seq<seq<string>>, total: nat)

  datatype Driver = Receiving | Reading | Dead
  datatype Proc = AtInput | InCall(req: Request) | Exited

  // Everything between the fuzzer and the service for one client: the call channel,
  // the driver thread, both pipes of the client process, and the response channel.
  datatype Client = Client(calls: seq<KvCall>, driver: Driver, stdin: string, proc: Proc, stdout: string,
    resps: seq<KvResp>)

  datatype State = State(fuzz: Fuzz, clients: seq<Client>, svc: Service, rec: Record)

  datatype Action =
    | FuzzCall(c: nat, call: KvCall)
    | FuzzWait(c: nat)
    | FuzzHarvest(c: nat)
    | DriverSend(c: nat)
    | ProcRead(c: nat)
    | SvcLock(c: nat)
    | SvcStep(c: nat)
    | SvcUnlock(c: nat)
    | ProcPrint(c: nat)
    | DriverParse(c: nat)

  const QUIET := Client([], Receiving, "", AtInput, "", [])

  function Initial(cfg: Config, data: Entries): State {
    var n := |cfg.keys|;
    State(Begin(n, PoolOf(cfg.keys)), seq(n, _ => QUIET), Idlers(n, data), NoRecord(n))
  }

  ghost predicate Formed(cfg: Config, s: State) {
    var n := |cfg.keys|;
    && |s.fuzz.flying| == |s.fuzz.memo| == |s.clients| == |s.svc.handlers| == |s.rec.op| == n
    && |s.fuzz.hist.maxtr| == n && Shape(s.fuzz.hist, n)
  }

  /** The loop has another turn to take. */
  predicate Looping(cfg: Config, f: Fuzz) {
    f.phase.Running? && f.waited < cfg.total
  }

  ghost predicate Enabled(cfg: Config, s: State, a: Action) {
    && Formed(cfg, s)
    && a.c < |cfg.keys|
    && var cl := s.clients[a.c];
       match a
       case FuzzCall(c, call) =>
         Looping(cfg, s.fuzz) && GenCallVsWait(s.fuzz.called, cfg.total, s.fuzz.flying, true)
         && !s.fuzz.flying[c] && Generated(cfg.keys[c], call)
       case FuzzWait(c) =>
         Looping(cfg, s.fuzz) && !GenCallVsWait(s.fuzz.called, cfg.total, s.fuzz.flying, false) && s.fuzz.flying[c]
       case FuzzHarvest(c) => s.fuzz.phase == Waiting(c) && cl.resps != []
       case DriverSend(c) => cl.driver.Receiving? && cl.calls != []
       case ProcRead(c) => cl.proc.AtInput? && '\n' in cl.stdin && s.svc.handlers[c].Idle?
       case SvcLock(c) => CanLock(s.svc, c)
       case SvcStep(c) => CanStep(s.svc, c)
       case SvcUnlock(c) => CanUnlock(s.svc, c)
       case ProcPrint(c) => cl.proc.InCall? && CanReturn(s.svc, c)
       case DriverParse(c) => cl.driver.Reading? && !ParseResp(cl.stdout).Hangs?
  }

  function SetClient(s: State, c: nat, cl: Client): State
    requires c < |s.clients|
  {
    s.(clients := s.clients[c := cl])
  }

  /** The client process takes one line of its input. */
  function ReadLine(s: State, c: nat): State
    requires c < |s.clients| && c < |s.svc.handlers|
  {
    var cl := s.clients[c];
    var n := LineLen(cl.stdin);
    var rest := cl.(stdin := cl.stdin[n..]);
    match ParseCommand(cl.stdin[..n])
    case Do(req) => SetClient(s, c, rest.(proc := InCall(req))).(svc := Receive(s.svc, c, req))
    case Halt => SetClient(s, c, rest.(proc := Exited, stdout := cl.stdout + "STOP\n"))
    case Invalid => SetClient(s, c, rest.(proc := Exited))
    case _ => SetClient(s, c, rest)
  }

  /** The driver takes one response from its client's output. */
  function ParseOutput(s: State, c: nat): State
    requires c < |s.clients|
  {
    var cl := s.clients[c];
    match ParseResp(cl.stdout)
    case Parsed(resp, rest) => SetClient(s, c, cl.(stdout := rest, resps := cl.resps + [resp], driver := Receiving))
    case Malformed(rest) => SetClient(s, c, cl.(stdout := rest, driver := Dead))
    case Hangs => s
  }

  ghost function Next(cfg: Config, s: State, a: Action): State
    requires Enabled(cfg, s, a)
  {
    var cl := s.clients[a.c];
    match a
    case FuzzCall(c, call) =>
      SetClient(s, c, cl.(calls := cl.calls + [call]))
      .(fuzz := StartCall(s.fuzz, c, call), rec := CallMade(s.rec, c, s.fuzz.timestamp + 1, call))
    case FuzzWait(c) => s.(fuzz := StartWait(s.fuzz, c))
    case FuzzHarvest(c) =>
      SetClient(s, c, cl.(resps := cl.resps[1..]))
      .(fuzz := TakeResponse(s.fuzz, c, cl.resps[0]), rec := Answered(s.rec, c, s.fuzz.timestamp, cl.resps[0]))
    case DriverSend(c) =>
      SetClient(s, c, cl.(calls := cl.calls[1..], stdin := cl.stdin + PrintCall(cl.calls[0]), driver := Reading))
    case ProcRead(c) => ReadLine(s, c)
    case SvcLock(c) => s.(svc := Lock(s.svc, c))
    case SvcStep(c) => s.(svc := Step(s.svc, c))
    case SvcUnlock(c) =>
      var h := s.svc.handlers[c];
      s.(svc := Unlock(s.svc, c), rec := EffectTaken(s.rec, c, Decode(h.req, h.pc.reply)))
    case ProcPrint(c) =>
      var h := s.svc.handlers[c];
      SetClient(s, c, cl.(stdout := cl.stdout + PrintReply(h.req, h.reply), proc := AtInput)).(svc := Deliver(s.svc, c))
    case DriverParse(c) => ParseOutput(s, c)
  }

  ghost function Execute(cfg: Config, s0: State, acts: seq<Action>): Option<State> {
    if acts == [] then Some(s0)
    else
      match Execute(cfg, s0, acts[..|acts| - 1])
      case Some(s) => if Enabled(cfg, s, acts[|acts| - 1]) then Some(Next(cfg, s, acts[|acts| - 1])) else None
      case None => None
  }

  // ---- Nothing in the model serialises the clients ----

  /** Between turns any idle client can be given any generated call while operations are left,
      and the response of any flying client can be waited for. */
  lemma TurnsAreFree(cfg: Config, s: State, c: nat, call: KvCall)
    requires Formed(cfg, s) && c < |cfg.keys| && Looping(cfg, s.fuzz)
    ensures s.fuzz.called < cfg.total && !s.fuzz.flying[c] && Generated(cfg.keys[c], call) ==>
      Enabled(cfg, s, FuzzCall(c, call))
    ensures s.fuzz.flying[c] ==> Enabled(cfg, s, FuzzWait(c))
  {
  }

  /** Whether a driver, a client process or a handler can take its step depends on its own
      client and, for taking the mutex, on the mutex: on no other client and not on the fuzzer. */
  lemma StepsAreLocal(cfg: Config, s: State, s': State, a: Action)
    requires Formed(cfg, s) && Formed(cfg, s') && a.c < |cfg.keys| && !a.FuzzCall? && !a.FuzzWait? && !a.FuzzHarvest?
    requires s.clients[a.c] == s'.clients[a.c] && s.svc.handlers[a.c] == s'.svc.handlers[a.c]
    requires a.SvcLock? ==> s.svc.mutex == s'.svc.mutex
    ensures Enabled(cfg, s, a) <==> Enabled(cfg, s', a)
  {
  }

  // ---- The invariant ----

  /** Where the one call of a client is: on its way to the service, in the service, or
      on its way back; everything else between fuzzer and service is empty. */
  ghost predicate Stage(lin: seq<LinOp>, op: Op, cl: Client, h: Handler) {
    match op
    case NoOp => cl == QUIET && h.Idle?
    case Called(_, call) =>
      && !call.Stop?
      && var req := RequestOf(call);
         || (cl == QUIET.(calls := [call]) && h.Idle?)
         || (cl == QUIET.(driver := Reading, stdin := PrintCall(call)) && h.Idle?)
         || (cl == QUIET.(driver := Reading, proc := InCall(req)) && (h == Blocked(req) || (h.Inside? && h.req == req)))
    case Effective(_, call, pos) =>
      && !call.Stop? && pos < |lin|
      && var req, resp := RequestOf(call), lin[pos].resp;
         && !resp.Stop? && TokenResp(resp) && Unambiguous(resp)
         && (|| (cl == QUIET.(driver := Reading, proc := InCall(req))
                 && h.Returned? && h.req == req && Fitting(req, h.reply) && Decode(req, h.reply) == resp)
             || (cl == QUIET.(driver := Reading, stdout := PrintResp(resp)) && h.Idle?)
             || (cl == QUIET.(resps := [resp]) && h.Idle?))
  }

  ghost predicate Remembered(cfg: Config, f: Fuzz, op: Op, c: nat)
    requires c < |f.flying| == |f.memo| == |cfg.keys|
  {
    && (f.flying[c] <==> !op.NoOp?)
    && (!op.NoOp? ==> f.memo[c] == (op.tsCall, UpdateInfo(op.call)) && Generated(cfg.keys[c], op.call))
  }

  /** The stored map can be sent over the text protocol. */
  ghost predicate Sendable(pool: set<string>, m: Store) {
    TokenMap(m) && forall key :: key in pool ==> Lookup(m, key) != Some("null")
  }

  ghost predicate PoolCalls(pool: set<string>, lin: seq<LinOp>) {
    forall j :: 0 <= j < |lin| ==> InPool(pool, lin[j].call)
  }

  ghost predicate Inv(cfg: Config, m0: Store, s: State) {
    var n, pool := |cfg.keys|, PoolOf(cfg.keys);
    && |s.fuzz.flying| == |s.fuzz.memo| == |s.clients| == |s.svc.handlers| == |s.rec.op| == n
    && Healthy(n, pool, cfg.total, s.fuzz, s.rec.es)
    && Sound(n, m0, s.rec, Clock(s.fuzz))
    && Exclusive(Replay(m0, s.rec.lin), s.svc)
    && Sendable(pool, Replay(m0, s.rec.lin))
    && PoolCalls(pool, s.rec.lin)
    && (forall c :: 0 <= c < n ==> Remembered(cfg, s.fuzz, s.rec.op[c], c))
    && (forall c :: 0 <= c < n ==> Stage(s.rec.lin, s.rec.op[c], s.clients[c], s.svc.handlers[c]))
  }

  /** What the test is set up with: clients with word keys, and a store without pool
      keys whose entries can be printed. */
  ghost predicate Setup(cfg: Config, data: Entries) {
    && |cfg.keys| > 0 && (forall c :: 0 <= c < |cfg.keys| ==> cfg.keys[c] != [])
    && (forall key :: key in PoolOf(cfg.keys) ==> Token(key))
    && KeysIncrease(data) && TokenMap(ToMap(data))
    && forall key :: key in PoolOf(cfg.keys) ==> key !in ToMap(data)
  }

  /** Word keys and an empty store are enough to start from. */
  lemma EmptyStoreSetsUp(cfg: Config)
    requires |cfg.keys| > 0 && forall c :: 0 <= c < |cfg.keys| ==> cfg.keys[c] != []
    requires forall c, i :: 0 <= c < |cfg.keys| && 0 <= i < |cfg.keys[c]| ==> Token(cfg.keys[c][i])
    ensures Setup(cfg, [])
  {
    hide Token;
    assert ToMap([]) == map[];
  }

  lemma InitialInv(cfg: Config, data: Entries)
    requires Setup(cfg, data)
    ensures Inv(cfg, ToMap(data), Initial(cfg, data))
  {
    hide Healthy;
    hide Sound;
    hide ToMap;
    hide TokenMap;
    BeginHealthy(|cfg.keys|, PoolOf(cfg.keys), cfg.total);
    NoRecordSound(|cfg.keys|, ToMap(data));
  }

  // ---- Calls the fuzzer makes ----

  lemma KeyInPool(keys: seq<seq<string>>, c: nat, key: string)
    requires c < |keys| && key in keys[c]
    ensures key in PoolOf(keys)
  {
    var i :| 0 <= i < |keys[c]| && keys[c][i] == key;
    assert keys[c][i] in PoolOf(keys);
  }

  lemma RandomValueReadable(v: string)
    requires RandomValue(v)
    ensures Token(v) && v != "null" && v != "END"
  {
  }

  ghost predicate WordKeys(cfg: Config) {
    forall key :: key in PoolOf(cfg.keys) ==> Token(key)
  }

  lemma GeneratedCall(cfg: Config, c: nat, call: KvCall)
    requires c < |cfg.keys| && Generated(cfg.keys[c], call) && WordKeys(cfg)
    ensures !call.Stop? && TokenCall(call) && InPool(PoolOf(cfg.keys), call) && ReadableCall(call)
  {
    hide Token;
    hide RandomValue;
    hide PoolOf;
    match call {
      case Put(key, value) => KeyInPool(cfg.keys, c, key); RandomValueReadable(value);
      case Swap(key, value) => KeyInPool(cfg.keys, c, key); RandomValueReadable(value);
      case Get(key) => KeyInPool(cfg.keys, c, key);
      case Scan(a, b) => KeyInPool(cfg.keys, c, a); KeyInPool(cfg.keys, c, b);
      case Delete(key) => KeyInPool(cfg.keys, c, key);
    }
  }

  /** The map stays sendable under the fuzzer's calls, and its answers can be read back. */
  lemma SendableKept(pool: set<string>, m: Store, call: KvCall, resp: KvResp)
    requires Sendable(pool, m) && TokenCall(call) && InPool(pool, call) && ReadableCall(call) && Answers(m, call, resp)
    ensures Sendable(pool, After(m, call))
    ensures !resp.Stop? && TokenResp(resp) && Unambiguous(resp)
  {
    hide Token;
    AnswerSurvives(m, call, resp);
  }

  lemma AnswerFits(m: Store, req: Request, reply: Reply)
    requires Answers(m, CallOf(req), Decode(req, reply))
    ensures Fitting(req, reply)
  {
  }

  // ---- Every action keeps the invariant ----

  lemma CallInv(cfg: Config, m0: Store, s: State, c: nat, call: KvCall)
    requires Inv(cfg, m0, s) && Enabled(cfg, s, FuzzCall(c, call)) && WordKeys(cfg)
    ensures Inv(cfg, m0, Next(cfg, s, FuzzCall(c, call)))
  {
    hide Healthy;
    hide Sound;
    hide Exclusive;
    hide Sendable;
    hide PoolCalls;
    hide PoolOf;
    var n, pool := |cfg.keys|, PoolOf(cfg.keys);
    GeneratedCall(cfg, c, call);
    ChoiceBounds(n, pool, cfg.total, s.fuzz, s.rec.es);
    CallHealthy(n, pool, cfg.total, s.fuzz, s.rec.es, c, call);
    CallSound(n, m0, s.rec, s.fuzz.timestamp, c, call);
    var s' := Next(cfg, s, FuzzCall(c, call));
    forall b | 0 <= b < n ensures Stage(s'.rec.lin, s'.rec.op[b], s'.clients[b], s'.svc.handlers[b]) {
      assert Stage(s.rec.lin, s.rec.op[b], s.clients[b], s.svc.handlers[b]);
    }
    forall b | 0 <= b < n ensures Remembered(cfg, s'.fuzz, s'.rec.op[b], b) {
      assert Remembered(cfg, s.fuzz, s.rec.op[b], b);
    }
  }

  lemma ChoiceBounds(n: nat, pool: set<string>, total: nat, f: Fuzz, log: seq<Event>)
    requires Healthy(n, pool, total, f, log)
    ensures f.called <= total
  {
  }

  lemma WaitInv(cfg: Config, m0: Store, s: State, c: nat)
    requires Inv(cfg, m0, s) && Enabled(cfg, s, FuzzWait(c))
    ensures Inv(cfg, m0, Next(cfg, s, FuzzWait(c)))
  {
    hide Healthy;
    hide Sound;
    hide Exclusive;
    hide Sendable;
    hide PoolCalls;
    hide PoolOf;
    hide Stage;
    WaitHealthy(|cfg.keys|, PoolOf(cfg.keys), cfg.total, s.fuzz, s.rec.es, c);
    var s' := Next(cfg, s, FuzzWait(c));
    forall b | 0 <= b < |cfg.keys| ensures Remembered(cfg, s'.fuzz, s'.rec.op[b], b) {
      assert Remembered(cfg, s.fuzz, s.rec.op[b], b);
    }
  }

  /** A response that arrives is the one fixed when its operation took effect, and no
      check it triggers can fail. */
  lemma HarvestChecks(cfg: Config, m0: Store, s: State, c: nat)
    requires Inv(cfg, m0, s) && Enabled(cfg, s, FuzzHarvest(c))
    requires |cfg.keys| > 0 && forall key :: key in PoolOf(cfg.keys) ==> key !in m0
    ensures var n, f, resp := |cfg.keys|, s.fuzz, s.clients[c].resps[0];
      var rec1 := Answered(s.rec, c, f.timestamp, resp);
      && s.rec.op[c].Effective? && s.clients[c].resps == [resp] && !resp.Stop?
      && rec1.es == s.rec.es + [EventOf(f, c, resp)] && rec1.lin == s.rec.lin && rec1.op == s.rec.op[c := NoOp]
      && Sound(n, m0, rec1, f.timestamp)
      && Observe(f.hist, EventOf(f, c, resp)).1.None?
      && Healthy(n, PoolOf(cfg.keys), cfg.total, TakeResponse(f, c, resp), rec1.es)
  {
    hide Sound;
    hide Healthy;
    hide Run;
    hide Observe;
    hide Exclusive;
    hide Sendable;
    hide PoolOf;
    hide WellFormed;
    hide Explains;
    hide TokenResp;
    hide TakeResponse;
    var n, pool, f, resp := |cfg.keys|, PoolOf(cfg.keys), s.fuzz, s.clients[c].resps[0];
    assert Stage(s.rec.lin, s.rec.op[c], s.clients[c], s.svc.handlers[c]);
    assert Remembered(cfg, f, s.rec.op[c], c);
    TimePositive(n, pool, cfg.total, f, s.rec.es);
    AnswerSound(n, m0, s.rec, f.timestamp - 1, c);
    var rec1 := Answered(s.rec, c, f.timestamp, resp);
    SoundExplains(n, m0, rec1, f.timestamp);
    NoFalseAlarms(n, pool, m0, rec1.lin, rec1.es, rec1.at);
    HarvestAllowed(n, pool, cfg.total, f, s.rec.es, resp);
    ResponseHealthy(n, pool, cfg.total, f, s.rec.es, resp);
  }

  lemma TimePositive(n: nat, pool: set<string>, total: nat, f: Fuzz, log: seq<Event>)
    requires Healthy(n, pool, total, f, log) && f.phase.Waiting?
    ensures f.timestamp > 0 && WellFormed(n, log)
  {
  }

  lemma SoundExplains(n: nat, m0: Store, r: Record, clock: nat)
    requires Sound(n, m0, r, clock)
    ensures Explains(n, m0, r.lin, r.es, r.at) && WellFormed(n, r.es)
  {
  }

  lemma HarvestInv(cfg: Config, m0: Store, s: State, c: nat)
    requires Inv(cfg, m0, s) && Enabled(cfg, s, FuzzHarvest(c))
    requires |cfg.keys| > 0 && forall key :: key in PoolOf(cfg.keys) ==> key !in m0
    ensures Inv(cfg, m0, Next(cfg, s, FuzzHarvest(c)))
  {
    hide Sound;
    hide Healthy;
    hide Observe;
    hide Exclusive;
    hide Sendable;
    hide PoolOf;
    hide PoolCalls;
    hide Answered;
    HarvestChecks(cfg, m0, s, c);
    assert Stage(s.rec.lin, s.rec.op[c], s.clients[c], s.svc.handlers[c]);
    var s' := Next(cfg, s, FuzzHarvest(c));
    forall b | 0 <= b < |cfg.keys| ensures Stage(s'.rec.lin, s'.rec.op[b], s'.clients[b], s'.svc.handlers[b]) {
      assert Stage(s.rec.lin, s.rec.op[b], s.clients[b], s.svc.handlers[b]);
    }
    forall b | 0 <= b < |cfg.keys| ensures Remembered(cfg, s'.fuzz, s'.rec.op[b], b) {
      assert Remembered(cfg, s.fuzz, s.rec.op[b], b);
    }
  }

  /** A step of one client's pipeline that leaves the fuzzer and the record alone. */
  lemma {:induction false} LocalInv(cfg: Config, m0: Store, s: State, s': State, c: nat)
    requires Inv(cfg, m0, s) && c < |cfg.keys|
    requires s'.fuzz == s.fuzz && s'.rec == s.rec
    requires |s'.clients| == |s'.svc.handlers| == |cfg.keys|
    requires forall b :: 0 <= b < |cfg.keys| && b != c ==>
      s'.clients[b] == s.clients[b] && s'.svc.handlers[b] == s.svc.handlers[b]
    requires Exclusive(Replay(m0, s.rec.lin), s'.svc)
    requires Stage(s.rec.lin, s.rec.op[c], s'.clients[c], s'.svc.handlers[c])
    ensures Inv(cfg, m0, s')
  {
    hide Sound;
    hide Healthy;
    hide Exclusive;
    hide Sendable;
    hide PoolOf;
    hide PoolCalls;
    hide Remembered;
    forall b | 0 <= b < |cfg.keys| ensures Stage(s'.rec.lin, s'.rec.op[b], s'.clients[b], s'.svc.handlers[b]) {
      assert Stage(s.rec.lin, s.rec.op[b], s.clients[b], s.svc.handlers[b]);
    }
  }

  lemma {:induction false} InvAt(cfg: Config, m0: Store, s: State, c: nat)
    requires Inv(cfg, m0, s) && c < |cfg.keys|
    ensures |s.fuzz.flying| == |s.fuzz.memo| == |s.clients| == |s.svc.handlers| == |s.rec.op| == |cfg.keys|
    ensures Exclusive(Replay(m0, s.rec.lin), s.svc)
    ensures Stage(s.rec.lin, s.rec.op[c], s.clients[c], s.svc.handlers[c])
    ensures Remembered(cfg, s.fuzz, s.rec.op[c], c)
  {
    hide Healthy;
    hide Sound;
    hide Exclusive;
    hide Stage;
    hide Remembered;
  }

  lemma SendInv(cfg: Config, m0: Store, s: State, c: nat)
    requires Inv(cfg, m0, s) && Enabled(cfg, s, DriverSend(c))
    ensures Inv(cfg, m0, Next(cfg, s, DriverSend(c)))
  {
    hide Inv;
    hide Exclusive;
    hide TokenResp;
    hide PrintResp;
    hide Decode;
    hide PrintCall;
    InvAt(cfg, m0, s, c);
    assert "" + PrintCall(s.clients[c].calls[0]) == PrintCall(s.clients[c].calls[0]);
    LocalInv(cfg, m0, s, Next(cfg, s, DriverSend(c)), c);
  }

  lemma ReceiveExclusive(m: Store, svc: Service, t: nat, req: Request)
    requires Exclusive(m, svc) && t < |svc.handlers| && svc.handlers[t].Idle?
    ensures Exclusive(m, Receive(svc, t, req))
  {
    hide ToMap;
    hide KeysIncrease;
    hide Progress;
  }

  lemma DeliverExclusive(m: Store, svc: Service, t: nat)
    requires Exclusive(m, svc) && CanReturn(svc, t)
    ensures Exclusive(m, Deliver(svc, t))
  {
    hide ToMap;
    hide KeysIncrease;
    hide Progress;
  }

  /** The client process reads its whole input as the one call in flight. */
  lemma ReadsCall(cfg: Config, m0: Store, s: State, c: nat)
    requires Inv(cfg, m0, s) && Enabled(cfg, s, ProcRead(c)) && WordKeys(cfg)
    ensures s.rec.op[c].Called? && !s.rec.op[c].call.Stop?
    ensures var req := RequestOf(s.rec.op[c].call);
      && s.clients[c] == QUIET.(driver := Reading, stdin := PrintCall(s.rec.op[c].call))
      && Next(cfg, s, ProcRead(c)) ==
         s.(clients := s.clients[c := QUIET.(driver := Reading, proc := InCall(req))], svc := Receive(s.svc, c, req))
  {
    hide Inv;
    hide PrintCall;
    hide ParseCommand;
    hide Generated;
    hide Exclusive;
    hide TokenResp;
    InvAt(cfg, m0, s, c);
    var call := s.rec.op[c].call;
    GeneratedCall(cfg, c, call);
    CallRoundTrip(call);
    var text := s.clients[c].stdin;
    assert text + "" == text;
    LineLenOneLine(text, "");
    assert text[..|text|] == text && text[|text|..] == "";
  }

  lemma ReadInv(cfg: Config, m0: Store, s: State, c: nat)
    requires Inv(cfg, m0, s) && Enabled(cfg, s, ProcRead(c)) && WordKeys(cfg)
    ensures Inv(cfg, m0, Next(cfg, s, ProcRead(c)))
  {
    hide Inv;
    hide Exclusive;
    hide PrintCall;
    hide Next;
    hide TokenResp;
    InvAt(cfg, m0, s, c);
    ReadsCall(cfg, m0, s, c);
    ReceiveExclusive(Replay(m0, s.rec.lin), s.svc, c, RequestOf(s.rec.op[c].call));
    LocalInv(cfg, m0, s, Next(cfg, s, ProcRead(c)), c);
  }

  lemma LockInv(cfg: Config, m0: Store, s: State, c: nat)
    requires Inv(cfg, m0, s) && Enabled(cfg, s, SvcLock(c))
    ensures Inv(cfg, m0, Next(cfg, s, SvcLock(c)))
  {
    hide Inv;
    InvAt(cfg, m0, s, c);
    hide Exclusive;
    LockExclusive(Replay(m0, s.rec.lin), s.svc, c);
    LocalInv(cfg, m0, s, Next(cfg, s, SvcLock(c)), c);
  }

  lemma StepInv(cfg: Config, m0: Store, s: State, c: nat)
    requires Inv(cfg, m0, s) && Enabled(cfg, s, SvcStep(c))
    ensures Inv(cfg, m0, Next(cfg, s, SvcStep(c)))
  {
    hide Inv;
    InvAt(cfg, m0, s, c);
    hide Exclusive;
    hide Advance;
    StepExclusive(Replay(m0, s.rec.lin), s.svc, c);
    LocalInv(cfg, m0, s, Next(cfg, s, SvcStep(c)), c);
  }

  lemma PrintInv(cfg: Config, m0: Store, s: State, c: nat)
    requires Inv(cfg, m0, s) && Enabled(cfg, s, ProcPrint(c))
    ensures Inv(cfg, m0, Next(cfg, s, ProcPrint(c)))
  {
    hide Inv;
    InvAt(cfg, m0, s, c);
    hide Exclusive;
    hide PrintReply;
    hide PrintResp;
    hide Decode;
    hide TokenResp;
    var h := s.svc.handlers[c];
    DeliverExclusive(Replay(m0, s.rec.lin), s.svc, c);
    ReplyPrintsAsResponse(h.req, h.reply);
    assert "" + PrintReply(h.req, h.reply) == PrintReply(h.req, h.reply);
    LocalInv(cfg, m0, s, Next(cfg, s, ProcPrint(c)), c);
  }

  /** Nothing is read from an empty pipe, and a printed response is read as itself. */
  lemma ParsesResponse(cfg: Config, m0: Store, s: State, c: nat)
    requires Inv(cfg, m0, s) && Enabled(cfg, s, DriverParse(c))
    ensures s.rec.op[c].Effective? && s.rec.op[c].pos < |s.rec.lin|
    ensures var resp := s.rec.lin[s.rec.op[c].pos].resp;
      && s.clients[c] == QUIET.(driver := Reading, stdout := PrintResp(resp))
      && Next(cfg, s, DriverParse(c)) == s.(clients := s.clients[c := QUIET.(resps := [resp])])
  {
    EmptyHangs();
    hide Inv;
    hide Exclusive;
    hide PrintResp;
    hide ParseResp;
    hide TokenResp;
    InvAt(cfg, m0, s, c);
    var resp := s.rec.lin[s.rec.op[c].pos].resp;
    PrintedRead(resp, "");
    assert PrintResp(resp) + "" == PrintResp(resp);
    assert s.clients[c].resps + [resp] == [resp];
  }

  lemma ParseInv(cfg: Config, m0: Store, s: State, c: nat)
    requires Inv(cfg, m0, s) && Enabled(cfg, s, DriverParse(c))
    ensures Inv(cfg, m0, Next(cfg, s, DriverParse(c)))
  {
    hide Inv;
    hide Exclusive;
    hide PrintResp;
    hide Next;
    hide TokenResp;
    hide ParseResp;
    InvAt(cfg, m0, s, c);
    ParsesResponse(cfg, m0, s, c);
    LocalInv(cfg, m0, s, Next(cfg, s, DriverParse(c)), c);
  }

  lemma EmptyHangs()
    ensures ParseResp("").Hangs?
  {
  }

  lemma RequestStandsForCall(call: KvCall)
    requires !call.Stop?
    ensures CallOf(RequestOf(call)) == call
  {
  }

  lemma StageLater(lin: seq<LinOp>, x: LinOp, op: Op, cl: Client, h: Handler)
    requires Stage(lin, op, cl, h)
    ensures Stage(lin + [x], op, cl, h)
  {
    hide TokenResp;
    hide PrintCall;
    hide PrintResp;
    hide Decode;
  }

  /** The handler that releases the mutex has the answer the map at that moment gives. */
  lemma {:induction false} UnlockChecks(cfg: Config, m0: Store, s: State, c: nat)
    requires Inv(cfg, m0, s) && Enabled(cfg, s, SvcUnlock(c)) && WordKeys(cfg)
    ensures var n, h, m := |cfg.keys|, s.svc.handlers[c], Replay(m0, s.rec.lin);
      var resp := Decode(h.req, h.pc.reply);
      var rec1 := EffectTaken(s.rec, c, resp);
      && s.rec.op[c].Called? && h.req == RequestOf(s.rec.op[c].call) && !s.rec.op[c].call.Stop?
      && Fitting(h.req, h.pc.reply) && !resp.Stop? && TokenResp(resp) && Unambiguous(resp)
      && s.clients[c] == QUIET.(driver := Reading, proc := InCall(h.req))
      && rec1.lin == s.rec.lin + [LinOp(c, s.rec.op[c].tsCall, s.rec.op[c].call, resp)]
      && Sound(n, m0, rec1, Clock(s.fuzz))
      && Exclusive(Replay(m0, rec1.lin), Unlock(s.svc, c))
      && Sendable(PoolOf(cfg.keys), Replay(m0, rec1.lin))
      && InPool(PoolOf(cfg.keys), s.rec.op[c].call)
  {
    hide Healthy;
    hide Sound;
    hide PoolOf;
    hide TokenResp;
    hide Generated;
    hide Sendable;
    hide Exclusive;
    hide Decode;
    hide PrintCall;
    hide PrintResp;
    var h := s.svc.handlers[c];
    var resp := Decode(h.req, h.pc.reply);
    InvAt(cfg, m0, s, c);
    var call := s.rec.op[c].call;
    var m := Replay(m0, s.rec.lin);
    RequestStandsForCall(call);
    GeneratedCall(cfg, c, call);
    UnlockExclusive(m, s.svc, c);
    AnswerFits(m, h.req, h.pc.reply);
    SendableKept(PoolOf(cfg.keys), m, call, resp);
    EffectSound(|cfg.keys|, m0, s.rec, Clock(s.fuzz), c, resp);
    ReplayAppend(m0, s.rec.lin, LinOp(c, s.rec.op[c].tsCall, call, resp));
  }

  lemma UnlockInv(cfg: Config, m0: Store, s: State, c: nat)
    requires Inv(cfg, m0, s) && Enabled(cfg, s, SvcUnlock(c)) && WordKeys(cfg)
    ensures Inv(cfg, m0, Next(cfg, s, SvcUnlock(c)))
  {
    hide Healthy;
    hide Sound;
    hide PoolOf;
    hide TokenResp;
    hide Generated;
    hide Sendable;
    hide Exclusive;
    hide Decode;
    hide PrintCall;
    hide PrintResp;
    UnlockChecks(cfg, m0, s, c);
    var s' := Next(cfg, s, SvcUnlock(c));
    var x := s'.rec.lin[|s.rec.lin|];
    forall b | 0 <= b < |cfg.keys| ensures Stage(s'.rec.lin, s'.rec.op[b], s'.clients[b], s'.svc.handlers[b]) {
      if b != c {
        assert Stage(s.rec.lin, s.rec.op[b], s.clients[b], s.svc.handlers[b]);
        StageLater(s.rec.lin, x, s.rec.op[b], s.clients[b], s.svc.handlers[b]);
      }
    }
    forall b | 0 <= b < |cfg.keys| ensures Remembered(cfg, s'.fuzz, s'.rec.op[b], b) {
      assert Remembered(cfg, s.fuzz, s.rec.op[b], b);
    }
  }

  lemma InvKept(cfg: Config, m0: Store, s: State, a: Action)
    requires Inv(cfg, m0, s) && Enabled(cfg, s, a) && WordKeys(cfg)
    requires |cfg.keys| > 0 && forall key :: key in PoolOf(cfg.keys) ==> key !in m0
    ensures Inv(cfg, m0, Next(cfg, s, a))
  {
    hide Inv;
    hide Enabled;
    hide Next;
    match a {
      case FuzzCall(c, call) => CallInv(cfg, m0, s, c, call);
      case FuzzWait(c) => WaitInv(cfg, m0, s, c);
      case FuzzHarvest(c) => HarvestInv(cfg, m0, s, c);
      case DriverSend(c) => SendInv(cfg, m0, s, c);
      case ProcRead(c) => ReadInv(cfg, m0, s, c);
      case SvcLock(c) => LockInv(cfg, m0, s, c);
      case SvcStep(c) => StepInv(cfg, m0, s, c);
      case SvcUnlock(c) => UnlockInv(cfg, m0, s, c);
      case ProcPrint(c) => PrintInv(cfg, m0, s, c);
      case DriverParse(c) => ParseInv(cfg, m0, s, c);
    }
  }

  lemma {:induction false} InvAlways(cfg: Config, data: Entries, acts: seq<Action>)
    requires Setup(cfg, data) && Execute(cfg, Initial(cfg, data), acts).Some?
    ensures Inv(cfg, ToMap(data), Execute(cfg, Initial(cfg, data), acts).value)
  {
    hide Inv;
    hide Enabled;
    hide Next;
    hide ToMap;
    if acts == [] {
      InitialInv(cfg, data);
    } else {
      InvAlways(cfg, data, acts[..|acts| - 1]);
      InvKept(cfg, ToMap(data), Execute(cfg, Initial(cfg, data), acts[..|acts| - 1]).value, acts[|acts| - 1]);
    }
  }

  // ---- The harvests and the releases of a run ----

  /** The event of a harvest: the client's memo, the time, and the response that arrived. */
  ghost function HarvestOf(cfg: Config, s: State, a: Action): seq<Event>
    requires Enabled(cfg, s, a)
  {
    if a.FuzzHarvest? then [EventOf(s.fuzz, a.c, s.clients[a.c].resps[0])] else []
  }

  /** The operation of a release: the handler's request and reply, under the client's memo. */
  ghost function ReleaseOf(cfg: Config, s: State, a: Action): seq<LinOp>
    requires Enabled(cfg, s, a)
  {
    if a.SvcUnlock? then
      var h := s.svc.handlers[a.c];
      [LinOp(a.c, s.fuzz.memo[a.c].0, CallOf(h.req), Decode(h.req, h.pc.reply))]
    else []
  }

  /** All responses harvested during a run, in order. */
  ghost function Harvests(cfg: Config, s0: State, acts: seq<Action>): seq<Event>
    requires Execute(cfg, s0, acts).Some?
  {
    if acts == [] then []
    else
      var before := acts[..|acts| - 1];
      Harvests(cfg, s0, before) + HarvestOf(cfg, Execute(cfg, s0, before).value, acts[|acts| - 1])
  }

  /** All operations of a run in the order in which they released the mutex. */
  ghost function Releases(cfg: Config, s0: State, acts: seq<Action>): seq<LinOp>
    requires Execute(cfg, s0, acts).Some?
  {
    if acts == [] then []
    else
      var before := acts[..|acts| - 1];
      Releases(cfg, s0, before) + ReleaseOf(cfg, Execute(cfg, s0, before).value, acts[|acts| - 1])
  }

  lemma HarvestRecorded(cfg: Config, m0: Store, s: State, c: nat)
    requires Inv(cfg, m0, s) && Enabled(cfg, s, FuzzHarvest(c))
    requires |cfg.keys| > 0 && forall key :: key in PoolOf(cfg.keys) ==> key !in m0
    ensures Next(cfg, s, FuzzHarvest(c)).rec.es == s.rec.es + HarvestOf(cfg, s, FuzzHarvest(c))
    ensures Next(cfg, s, FuzzHarvest(c)).rec.lin == s.rec.lin
  {
    hide Inv;
    hide Sound;
    hide Healthy;
    hide Observe;
    hide TakeResponse;
    hide Answered;
    HarvestChecks(cfg, m0, s, c);
  }

  lemma ReleaseRecorded(cfg: Config, m0: Store, s: State, c: nat)
    requires Inv(cfg, m0, s) && Enabled(cfg, s, SvcUnlock(c)) && WordKeys(cfg)
    ensures Next(cfg, s, SvcUnlock(c)).rec.lin == s.rec.lin + ReleaseOf(cfg, s, SvcUnlock(c))
    ensures Next(cfg, s, SvcUnlock(c)).rec.es == s.rec.es
  {
    hide Inv;
    hide Sound;
    hide Exclusive;
    hide Sendable;
    hide Stage;
    hide Decode;
    hide TokenResp;
    hide Generated;
    InvAt(cfg, m0, s, c);
    UnlockChecks(cfg, m0, s, c);
    RequestStandsForCall(s.rec.op[c].call);
  }

  lemma ActionRecorded(cfg: Config, m0: Store, s: State, a: Action)
    requires Inv(cfg, m0, s) && Enabled(cfg, s, a) && WordKeys(cfg)
    requires |cfg.keys| > 0 && forall key :: key in PoolOf(cfg.keys) ==> key !in m0
    ensures Next(cfg, s, a).rec.es == s.rec.es + HarvestOf(cfg, s, a)
    ensures Next(cfg, s, a).rec.lin == s.rec.lin + ReleaseOf(cfg, s, a)
  {
    hide Inv;
    if a.FuzzHarvest? {
      HarvestRecorded(cfg, m0, s, a.c);
    } else if a.SvcUnlock? {
      ReleaseRecorded(cfg, m0, s, a.c);
    } else {
      OtherActionRecorded(cfg, s, a);
    }
  }

  lemma OtherActionRecorded(cfg: Config, s: State, a: Action)
    requires Enabled(cfg, s, a) && !a.FuzzHarvest? && !a.SvcUnlock?
    ensures Next(cfg, s, a).rec.es == s.rec.es && Next(cfg, s, a).rec.lin == s.rec.lin
  {
    hide ParseCommand;
    hide ParseResp;
  }

  /** The bookkeeping invents and misses nothing: its events are the responses harvested,
      and its order is that of the releases. */
  lemma {:induction false} RecordIsRun(cfg: Config, data: Entries, acts: seq<Action>)
    requires Setup(cfg, data) && Execute(cfg, Initial(cfg, data), acts).Some?
    ensures var s0 := Initial(cfg, data);
      var rec := Execute(cfg, s0, acts).value.rec;
      rec.es == Harvests(cfg, s0, acts) && rec.lin == Releases(cfg, s0, acts)
  {
    hide Inv;
    hide Enabled;
    hide Next;
    hide ToMap;
    hide HarvestOf;
    hide ReleaseOf;
    if acts == [] {
    } else {
      var before := acts[..|acts| - 1];
      RecordIsRun(cfg, data, before);
      InvAlways(cfg, data, before);
      ActionRecorded(cfg, ToMap(data), Execute(cfg, Initial(cfg, data), before).value, acts[|acts| - 1]);
    }
  }

  // ---- What holds in every interleaving ----

  /** No false alarms: in every interleaving, with any number of clients, the checker
      never fails a response; it holds exactly what the responses harvested so far leave,
      and the order in which the handlers released the mutex explains them all. */
  lemma {:induction false} NoRunFails(cfg: Config, data: Entries, acts: seq<Action>)
    requires Setup(cfg, data) && Execute(cfg, Initial(cfg, data), acts).Some?
    ensures var s0, s := Initial(cfg, data), Execute(cfg, Initial(cfg, data), acts).value;
      var n, es := |cfg.keys|, Harvests(cfg, s0, acts);
      && !s.fuzz.phase.Failed?
      && WellFormed(n, es)
      && Run(n, PoolOf(cfg.keys), es) == (s.fuzz.hist, None)
      && Explains(n, ToMap(data), Releases(cfg, s0, acts), es, s.rec.at)
  {
    hide Execute;
    hide Explains;
    hide Run;
    hide WellFormed;
    hide Harvests;
    hide Releases;
    InvAlways(cfg, data, acts);
    RecordIsRun(cfg, data, acts);
  }

  /** The bookkeeping of the loop at every moment, and at the end of a run. */
  lemma {:induction false} RunAccounts(cfg: Config, data: Entries, acts: seq<Action>)
    requires Setup(cfg, data) && Execute(cfg, Initial(cfg, data), acts).Some?
    ensures var f := Execute(cfg, Initial(cfg, data), acts).value.fuzz;
      && f.called == f.waited + Count(f.flying) && f.called <= cfg.total
      && f.timestamp == f.called + f.waited + (if f.phase.Waiting? then 1 else 0)
      && (f.phase.Running? && !Looping(cfg, f) ==> f.waited == f.called == cfg.total && f.timestamp == 2 * cfg.total)
  {
    hide Execute;
    InvAlways(cfg, data, acts);
    CountBounds(Execute(cfg, Initial(cfg, data), acts).value.fuzz.flying);
  }

  function Load(cl: Client, h: Handler): nat {
    |cl.calls| + (if cl.stdin != "" then 1 else 0) + (if h.Idle? then 0 else 1)
    + (if cl.stdout != "" then 1 else 0) + |cl.resps|
  }

  /** Calls and responses stay paired: a client is flying exactly when one call of it is
      somewhere between fuzzer and service, otherwise nothing is; no driver or client
      dies; and a response that has arrived answers the call the fuzzer remembers. */
  lemma {:induction false} CallsStayPaired(cfg: Config, data: Entries, acts: seq<Action>, c: nat)
    requires Setup(cfg, data) && Execute(cfg, Initial(cfg, data), acts).Some? && c < |cfg.keys|
    ensures var s := Execute(cfg, Initial(cfg, data), acts).value;
      var lin := Releases(cfg, Initial(cfg, data), acts);
      && |s.fuzz.flying| == |s.fuzz.memo| == |s.clients| == |s.svc.handlers| == |cfg.keys|
      && var cl := s.clients[c];
         && Load(cl, s.svc.handlers[c]) == (if s.fuzz.flying[c] then 1 else 0)
         && !cl.driver.Dead? && !cl.proc.Exited?
         && forall resp :: resp in cl.resps ==>
              exists j :: 0 <= j < |lin| && lin[j].cidx == c && lin[j].resp == resp
                          && s.fuzz.memo[c] == (lin[j].tsCall, UpdateInfo(lin[j].call))
                          && Answers(Replay(ToMap(data), lin[..j]), lin[j].call, resp)
  {
    hide Execute;
    hide Releases;
    RecordIsRun(cfg, data, acts);
    hide Answers;
    hide ToMap;
    hide TokenResp;
    InvAlways(cfg, data, acts);
    var s := Execute(cfg, Initial(cfg, data), acts).value;
    hide Inv;
    PairedAt(cfg, ToMap(data), s, c);
  }

  lemma {:induction false} PairedAt(cfg: Config, m0: Store, s: State, c: nat)
    requires Inv(cfg, m0, s) && c < |cfg.keys|
    ensures |s.fuzz.flying| == |s.fuzz.memo| == |s.clients| == |s.svc.handlers| == |cfg.keys|
    ensures var cl := s.clients[c];
      && Load(cl, s.svc.handlers[c]) == (if s.fuzz.flying[c] then 1 else 0)
      && !cl.driver.Dead? && !cl.proc.Exited?
      && forall resp :: resp in cl.resps ==>
           exists j :: 0 <= j < |s.rec.lin| && s.rec.lin[j].cidx == c && s.rec.lin[j].resp == resp
                       && s.fuzz.memo[c] == (s.rec.lin[j].tsCall, UpdateInfo(s.rec.lin[j].call))
                       && Answers(Replay(m0, s.rec.lin[..j]), s.rec.lin[j].call, resp)
  {
    hide Inv;
    hide TokenResp;
    hide Generated;
    hide Answers;
    InvAt(cfg, m0, s, c);
    EffectivePlaced(cfg, m0, s, c);
    StageNonEmpty(s, c);
  }

  lemma {:induction false} EffectivePlaced(cfg: Config, m0: Store, s: State, c: nat)
    requires Inv(cfg, m0, s) && c < |cfg.keys|
    ensures s.rec.op[c].Effective? ==>
      var pos := s.rec.op[c].pos;
      && pos < |s.rec.lin|
      && s.rec.lin[pos] == LinOp(c, s.rec.op[c].tsCall, s.rec.op[c].call, s.rec.lin[pos].resp)
      && Answers(Replay(m0, s.rec.lin[..pos]), s.rec.op[c].call, s.rec.lin[pos].resp)
  {
    assert Standing(s.rec, Clock(s.fuzz), c);
  }

  /** The texts in flight are not empty. */
  lemma StageNonEmpty(s: State, c: nat)
    requires c < |s.rec.op| == |s.clients| == |s.svc.handlers|
    requires Stage(s.rec.lin, s.rec.op[c], s.clients[c], s.svc.handlers[c])
    ensures s.rec.op[c].Called? ==> PrintCall(s.rec.op[c].call) != ""
    ensures s.rec.op[c].Effective? ==> PrintResp(s.rec.lin[s.rec.op[c].pos].resp) != ""
  {
    hide TokenResp;
    if s.rec.op[c].Called? {
      LineNotEmpty(CallWords(s.rec.op[c].call));
    }
    if s.rec.op[c].Effective? {
      var resp := s.rec.lin[s.rec.op[c].pos].resp;
      FirstLine(resp);
      LineNotEmpty(HeadWords(resp));
    }
  }

  lemma {:induction false} LineNotEmpty(words: seq<string>)
    ensures LineOf(words) != "" && LineOf(words)[|LineOf(words)| - 1] == '\n'
  {
    if |words| <= 1 {
    } else {
      LineNotEmpty(words[1..]);
    }
  }
}
