/** Every interleaving of the service's handlers is linearizable. */
module ServerRuns {
  import opened Wrappers
  import opened KvTypes
  import opened StoreModule
  import opened Server
  import opened Recorder
  import opened Online
  import opened Offline
  import opened Linear

  // `clock` counts the requests received and replies sent; it labels both.
  datatype State = State(svc: Service, clock: nat, rec: Record)

  datatype Action =
    | Invoke(t: nat, req: Request)
    | Acquire(t: nat)
    | Work(t: nat)
    | Release(t: nat)
    | Respond(t: nat)

  function Initial(n: nat, data: Entries): State {
    State(Idlers(n, data), 0, NoRecord(n))
  }

  predicate Enabled(n: nat, s: State, a: Action) {
    && |s.svc.handlers| == |s.rec.op| == n
    && a.t < n
    && match a
       case Invoke(t, _) => s.svc.handlers[t].Idle?
       case Acquire(t) => CanLock(s.svc, t)
       case Work(t) => CanStep(s.svc, t)
       case Release(t) => CanUnlock(s.svc, t)
       case Respond(t) => CanReturn(s.svc, t)
  }

  function Next(n: nat, s: State, a: Action): State
    requires Enabled(n, s, a)
  {
    match a
    case Invoke(t, req) => State(Receive(s.svc, t, req), s.clock + 1, CallMade(s.rec, t, s.clock + 1, CallOf(req)))
    case Acquire(t) => s.(svc := Lock(s.svc, t))
    case Work(t) => s.(svc := Step(s.svc, t))
    case Release(t) =>
      var h := s.svc.handlers[t];
      State(Unlock(s.svc, t), s.clock, EffectTaken(s.rec, t, Decode(h.req, h.pc.reply)))
    case Respond(t) =>
      var h := s.svc.handlers[t];
      State(Deliver(s.svc, t), s.clock + 1, Answered(s.rec, t, s.clock + 1, Decode(h.req, h.reply)))
  }

  /** The state after a sequence of actions, if each was enabled in its turn. */
  function Execute(n: nat, s0: State, acts: seq<Action>): Option<State> {
    if acts == [] then Some(s0)
    else
      match Execute(n, s0, acts[..|acts| - 1])
      case Some(s) => if Enabled(n, s, acts[|acts| - 1]) then Some(Next(n, s, acts[|acts| - 1])) else None
      case None => None
  }

  ghost predicate Coupled(rec: Record, op: Op, h: Handler) {
    match h
    case Idle => op.NoOp?
    case Blocked(req) => op.Called? && op.call == CallOf(req)
    case Inside(req, _) => op.Called? && op.call == CallOf(req)
    case Returned(req, reply) =>
      op.Effective? && op.call == CallOf(req) && op.pos < |rec.lin| && rec.lin[op.pos].resp == Decode(req, reply)
  }

  ghost predicate Inv(n: nat, m0: Store, s: State) {
    && |s.svc.handlers| == n
    && Sound(n, m0, s.rec, s.clock)
    && Exclusive(Replay(m0, s.rec.lin), s.svc)
    && forall t :: 0 <= t < n ==> Coupled(s.rec, s.rec.op[t], s.svc.handlers[t])
  }

  lemma ReleaseKeepsInv(n: nat, m0: Store, s: State, t: nat)
    requires Inv(n, m0, s) && Enabled(n, s, Release(t))
    ensures Inv(n, m0, Next(n, s, Release(t)))
  {
    hide Sound;
    hide Progress;
    hide Exclusive;
    hide Decode;
    hide Answers;
    hide CallOf;
    var h := s.svc.handlers[t];
    var resp := Decode(h.req, h.pc.reply);
    assert Coupled(s.rec, s.rec.op[t], h);
    UnlockExclusive(Replay(m0, s.rec.lin), s.svc, t);
    EffectSound(n, m0, s.rec, s.clock, t, resp);
    ReplayAppend(m0, s.rec.lin, LinOp(t, s.rec.op[t].tsCall, s.rec.op[t].call, resp));
  }

  lemma InvKept(n: nat, m0: Store, s: State, a: Action)
    requires Inv(n, m0, s) && Enabled(n, s, a)
    ensures Inv(n, m0, Next(n, s, a))
  {
    hide Sound;
    hide Progress;
    hide Advance;
    hide ToMap;
    hide KeysIncrease;
    var m := Replay(m0, s.rec.lin);
    assert Coupled(s.rec, s.rec.op[a.t], s.svc.handlers[a.t]);
    match a {
      case Invoke(t, req) => CallSound(n, m0, s.rec, s.clock, t, CallOf(req));
      case Acquire(t) => LockExclusive(m, s.svc, t);
      case Work(t) => StepExclusive(m, s.svc, t);
      case Release(t) => ReleaseKeepsInv(n, m0, s, t);
      case Respond(t) => AnswerSound(n, m0, s.rec, s.clock, t);
    }
  }

  lemma {:induction false} InvAlways(n: nat, m0: Store, s0: State, acts: seq<Action>)
    requires Inv(n, m0, s0) && Execute(n, s0, acts).Some?
    ensures Inv(n, m0, Execute(n, s0, acts).value)
  {
    if acts == [] {
    } else {
      InvAlways(n, m0, s0, acts[..|acts| - 1]);
      InvKept(n, m0, Execute(n, s0, acts[..|acts| - 1]).value, acts[|acts| - 1]);
    }
  }

  lemma InitialInv(n: nat, data: Entries)
    requires KeysIncrease(data)
    ensures Inv(n, ToMap(data), Initial(n, data))
  {
    NoRecordSound(n, ToMap(data));
  }

  // ---- The replies, seen from the service alone ----

  /** When thread `t` last received a request, 0 if never. */
  ghost function ReceivedAt(n: nat, s0: State, acts: seq<Action>, t: nat): nat
    requires Execute(n, s0, acts).Some?
  {
    if acts == [] then 0
    else
      var before, a := acts[..|acts| - 1], acts[|acts| - 1];
      if a.Invoke? && a.t == t then Execute(n, s0, before).value.clock + 1 else ReceivedAt(n, s0, before, t)
  }

  /** The event of a reply that leaves the service: its handler's request and reply. */
  ghost function SentBy(n: nat, s0: State, acts: seq<Action>, t: nat): Event
    requires Execute(n, s0, acts).Some? && CanReturn(Execute(n, s0, acts).value.svc, t)
  {
    var s := Execute(n, s0, acts).value;
    var h := s.svc.handlers[t];
    Event(t, ReceivedAt(n, s0, acts, t), s.clock + 1, Decode(h.req, h.reply), UpdateInfo(CallOf(h.req)))
  }

  /** All replies that leave the service during a run, in order. */
  ghost function Sent(n: nat, s0: State, acts: seq<Action>): seq<Event>
    requires Execute(n, s0, acts).Some?
  {
    if acts == [] then []
    else
      var before, a := acts[..|acts| - 1], acts[|acts| - 1];
      Sent(n, s0, before) + if a.Respond? then [SentBy(n, s0, before, a.t)] else []
  }

  /** The operation whose handler releases the mutex: its request and the reply it has ready. */
  ghost function ReleasedBy(n: nat, s0: State, acts: seq<Action>, t: nat): LinOp
    requires Execute(n, s0, acts).Some? && CanUnlock(Execute(n, s0, acts).value.svc, t)
  {
    var h := Execute(n, s0, acts).value.svc.handlers[t];
    LinOp(t, ReceivedAt(n, s0, acts, t), CallOf(h.req), Decode(h.req, h.pc.reply))
  }

  /** All operations in the order in which they released the mutex. */
  ghost function Released(n: nat, s0: State, acts: seq<Action>): seq<LinOp>
    requires Execute(n, s0, acts).Some?
  {
    if acts == [] then []
    else
      var before, a := acts[..|acts| - 1], acts[|acts| - 1];
      Released(n, s0, before) + if a.Release? then [ReleasedBy(n, s0, before, a.t)] else []
  }

  function Responds(acts: seq<Action>): nat {
    if acts == [] then 0 else Responds(acts[..|acts| - 1]) + if acts[|acts| - 1].Respond? then 1 else 0
  }

  lemma {:induction false} OneEventPerRespond(n: nat, s0: State, acts: seq<Action>)
    requires Execute(n, s0, acts).Some?
    ensures |Sent(n, s0, acts)| == Responds(acts)
  {
    hide Next;
    hide Enabled;
    hide SentBy;
    if acts == [] {
    } else {
      OneEventPerRespond(n, s0, acts[..|acts| - 1]);
    }
  }

  /** The record holds the operations released and the replies sent, each with the time its request came in. */
  ghost predicate Faithful(n: nat, s0: State, acts: seq<Action>)
    requires Execute(n, s0, acts).Some?
  {
    var s := Execute(n, s0, acts).value;
    && |s.rec.op| == |s.svc.handlers| == n
    && s.rec.es == Sent(n, s0, acts) && s.rec.lin == Released(n, s0, acts)
    && forall t :: 0 <= t < n && !s.rec.op[t].NoOp? ==> s.rec.op[t].tsCall == ReceivedAt(n, s0, acts, t)
  }

  lemma {:induction false} LastStep(n: nat, s0: State, acts: seq<Action>)
    requires acts != [] && Execute(n, s0, acts).Some?
    ensures var before, a := acts[..|acts| - 1], acts[|acts| - 1];
      && Execute(n, s0, before).Some? && Enabled(n, Execute(n, s0, before).value, a)
      && Execute(n, s0, acts) == Some(Next(n, Execute(n, s0, before).value, a))
  {
    hide Next;
    hide Enabled;
  }

  lemma {:induction false} LastReceived(n: nat, s0: State, acts: seq<Action>, t: nat)
    requires acts != [] && Execute(n, s0, acts).Some? && Execute(n, s0, acts[..|acts| - 1]).Some?
    ensures var before, a := acts[..|acts| - 1], acts[|acts| - 1];
      ReceivedAt(n, s0, acts, t) ==
      if a.Invoke? && a.t == t then Execute(n, s0, before).value.clock + 1 else ReceivedAt(n, s0, before, t)
  {
    hide Execute;
  }

  /** What one action does to the record, read off the handler that takes it. */
  ghost predicate Recorded(n: nat, r: Record, r': Record, clock: nat, h: Handler, a: Action) {
    && |r.op| == |r'.op| == n && a.t < n
    && (forall t :: 0 <= t < n && t != a.t ==> r'.op[t] == r.op[t])
    && (a.Respond? ==> h.Returned? && !r.op[a.t].NoOp? && r'.op[a.t].NoOp?)
    && r'.es == r.es + (if a.Respond? && h.Returned? && !r.op[a.t].NoOp? then
                          [Event(a.t, r.op[a.t].tsCall, clock + 1, Decode(h.req, h.reply), UpdateInfo(CallOf(h.req)))]
                        else [])
    && (a.Release? ==> h.Inside? && h.pc.Replied? && !r.op[a.t].NoOp?)
    && r'.lin == r.lin + (if a.Release? && h.Inside? && h.pc.Replied? && !r.op[a.t].NoOp? then
                            [LinOp(a.t, r.op[a.t].tsCall, CallOf(h.req), Decode(h.req, h.pc.reply))]
                          else [])
    && (!r'.op[a.t].NoOp? ==>
          if a.Invoke? then r'.op[a.t].tsCall == clock + 1
          else !r.op[a.t].NoOp? && r'.op[a.t].tsCall == r.op[a.t].tsCall)
  }

  lemma RecordStep(n: nat, m0: Store, s: State, a: Action)
    requires Inv(n, m0, s) && Enabled(n, s, a)
    ensures |Next(n, s, a).svc.handlers| == n
    ensures Recorded(n, s.rec, Next(n, s, a).rec, s.clock, s.svc.handlers[a.t], a)
  {
    assert Coupled(s.rec, s.rec.op[a.t], s.svc.handlers[a.t]);
    hide Inv;
    hide Recorded;
    CoupledStep(n, s, a);
  }

  lemma CoupledStep(n: nat, s: State, a: Action)
    requires Enabled(n, s, a) && Coupled(s.rec, s.rec.op[a.t], s.svc.handlers[a.t])
    ensures |Next(n, s, a).svc.handlers| == n
    ensures Recorded(n, s.rec, Next(n, s, a).rec, s.clock, s.svc.handlers[a.t], a)
  {
    hide Decode;
    hide Advance;
    match a {
      case Invoke(_, _) =>
      case Acquire(_) =>
      case Work(_) =>
      case Release(_) =>
      case Respond(_) =>
    }
  }

  lemma {:induction false} LastSent(n: nat, s0: State, acts: seq<Action>)
    requires acts != [] && Execute(n, s0, acts).Some? && Execute(n, s0, acts[..|acts| - 1]).Some?
    ensures var before, a := acts[..|acts| - 1], acts[|acts| - 1];
      && (a.Respond? ==> CanReturn(Execute(n, s0, before).value.svc, a.t))
      && Sent(n, s0, acts) == Sent(n, s0, before) + if a.Respond? then [SentBy(n, s0, before, a.t)] else []
  {
    LastStep(n, s0, acts);
    hide Execute;
    hide SentBy;
    hide Next;
  }

  lemma RecordedEvents(n: nat, r: Record, r': Record, clock: nat, h: Handler, a: Action)
    requires Recorded(n, r, r', clock, h, a)
    ensures |r.op| == n && a.t < n && (a.Respond? ==> h.Returned? && !r.op[a.t].NoOp?)
    ensures r'.es == r.es + if a.Respond? then
      [Event(a.t, r.op[a.t].tsCall, clock + 1, Decode(h.req, h.reply), UpdateInfo(CallOf(h.req)))] else []
  {
    hide Decode;
  }

  lemma EnabledSizes(n: nat, s: State, a: Action)
    requires Enabled(n, s, a)
    ensures |s.svc.handlers| == |s.rec.op| == n && a.t < n
  {
  }

  lemma {:induction false} EventSent(n: nat, s0: State, before: seq<Action>, t: nat)
    requires Execute(n, s0, before).Some? && Faithful(n, s0, before) && t < n
    requires CanReturn(Execute(n, s0, before).value.svc, t) && !Execute(n, s0, before).value.rec.op[t].NoOp?
    ensures var s := Execute(n, s0, before).value;
      var h := s.svc.handlers[t];
      SentBy(n, s0, before, t) ==
        Event(t, s.rec.op[t].tsCall, s.clock + 1, Decode(h.req, h.reply), UpdateInfo(CallOf(h.req)))
  {
    hide Execute;
    hide Sent;
    hide Released;
    hide ReceivedAt;
    hide Decode;
  }

  lemma {:induction false} EventsFaithful(n: nat, m0: Store, s0: State, acts: seq<Action>)
    requires acts != [] && Execute(n, s0, acts).Some? && Execute(n, s0, acts[..|acts| - 1]).Some?
    requires Inv(n, m0, Execute(n, s0, acts[..|acts| - 1]).value) && Faithful(n, s0, acts[..|acts| - 1])
    ensures Execute(n, s0, acts).value.rec.es == Sent(n, s0, acts)
  {
    hide Execute;
    hide Enabled;
    hide Inv;
    hide Next;
    hide Sent;
    hide SentBy;
    hide Recorded;
    var before, a := acts[..|acts| - 1], acts[|acts| - 1];
    var s := Execute(n, s0, before).value;
    LastStep(n, s0, acts);
    LastSent(n, s0, acts);
    EnabledSizes(n, s, a);
    RecordStep(n, m0, s, a);
    RecordedEvents(n, s.rec, Next(n, s, a).rec, s.clock, s.svc.handlers[a.t], a);
    if a.Respond? {
      EventSent(n, s0, before, a.t);
    }
  }

  lemma {:induction false} OrderFaithful(n: nat, m0: Store, s0: State, acts: seq<Action>)
    requires acts != [] && Execute(n, s0, acts).Some? && Execute(n, s0, acts[..|acts| - 1]).Some?
    requires Inv(n, m0, Execute(n, s0, acts[..|acts| - 1]).value) && Faithful(n, s0, acts[..|acts| - 1])
    ensures Execute(n, s0, acts).value.rec.lin == Released(n, s0, acts)
  {
    var before, a := acts[..|acts| - 1], acts[|acts| - 1];
    LastStep(n, s0, acts);
    RecordStep(n, m0, Execute(n, s0, before).value, a);
    hide Execute;
    hide Enabled;
    hide Inv;
    hide Next;
    hide Decode;
    hide ReceivedAt;
    hide Sent;
  }

  lemma {:induction false} FaithfulStep(n: nat, m0: Store, s0: State, acts: seq<Action>)
    requires acts != [] && Execute(n, s0, acts).Some? && Execute(n, s0, acts[..|acts| - 1]).Some?
    requires Inv(n, m0, Execute(n, s0, acts[..|acts| - 1]).value) && Faithful(n, s0, acts[..|acts| - 1])
    ensures Faithful(n, s0, acts)
  {
    var before, a := acts[..|acts| - 1], acts[|acts| - 1];
    EventsFaithful(n, m0, s0, acts);
    OrderFaithful(n, m0, s0, acts);
    LastStep(n, s0, acts);
    var s := Execute(n, s0, before).value;
    RecordStep(n, m0, s, a);
    hide Execute;
    hide Enabled;
    hide Inv;
    hide Next;
    hide Sent;
    hide Released;
    var s' := Next(n, s, a);
    forall t | 0 <= t < n && !s'.rec.op[t].NoOp? ensures s'.rec.op[t].tsCall == ReceivedAt(n, s0, acts, t) {
      LastReceived(n, s0, acts, t);
    }
  }

  lemma {:induction false} AlwaysFaithful(n: nat, m0: Store, s0: State, acts: seq<Action>)
    requires Inv(n, m0, s0) && s0.rec == NoRecord(n) && Execute(n, s0, acts).Some?
    ensures Faithful(n, s0, acts)
  {
    hide Next;
    hide Enabled;
    if acts == [] {
    } else {
      AlwaysFaithful(n, m0, s0, acts[..|acts| - 1]);
      InvAlways(n, m0, s0, acts[..|acts| - 1]);
      FaithfulStep(n, m0, s0, acts);
    }
  }

  /** The bookkeeping invents and misses nothing: its events are the replies sent, one for
      every Respond, and its order is that of the releases. */
  lemma {:induction false} RepliesRecorded(n: nat, data: Entries, acts: seq<Action>)
    requires KeysIncrease(data) && Execute(n, Initial(n, data), acts).Some?
    ensures Execute(n, Initial(n, data), acts).value.rec.es == Sent(n, Initial(n, data), acts)
    ensures Execute(n, Initial(n, data), acts).value.rec.lin == Released(n, Initial(n, data), acts)
    ensures |Sent(n, Initial(n, data), acts)| == Responds(acts)
  {
    hide Execute;
    hide Sent;
    hide Released;
    hide ToMap;
    InitialInv(n, data);
    AlwaysFaithful(n, ToMap(data), Initial(n, data), acts);
    OneEventPerRespond(n, Initial(n, data), acts);
  }

  /** Whatever the interleaving, the order in which the handlers released the mutex
      explains every reply sent: it respects real time, and replaying it on a plain
      map gives exactly those replies. */
  lemma {:induction false} Linearizable(n: nat, data: Entries, acts: seq<Action>)
    requires KeysIncrease(data) && Execute(n, Initial(n, data), acts).Some?
    ensures var s0, at := Initial(n, data), Execute(n, Initial(n, data), acts).value.rec.at;
      Explains(n, ToMap(data), Released(n, s0, acts), Sent(n, s0, acts), at)
  {
    hide Execute;
    hide Explains;
    hide WellFormed;
    hide Sent;
    hide Released;
    hide ToMap;
    InitialInv(n, data);
    InvAlways(n, ToMap(data), Initial(n, data), acts);
    RepliesRecorded(n, data, acts);
  }

  /** The replies carry increasing times, and no client has two calls open at once. */
  lemma {:induction false} RepliesInOrder(n: nat, data: Entries, acts: seq<Action>)
    requires KeysIncrease(data) && Execute(n, Initial(n, data), acts).Some?
    ensures WellFormed(n, Sent(n, Initial(n, data), acts))
  {
    hide Execute;
    hide WellFormed;
    hide Sent;
    hide ToMap;
    InitialInv(n, data);
    InvAlways(n, ToMap(data), Initial(n, data), acts);
    RepliesRecorded(n, data, acts);
  }

  /** While the mutex is free the store holds exactly the map that this order leaves. */
  lemma {:induction false} StoreIsReplay(n: nat, data: Entries, acts: seq<Action>)
    requires KeysIncrease(data) && Execute(n, Initial(n, data), acts).Some?
    ensures var svc := Execute(n, Initial(n, data), acts).value.svc;
      && KeysIncrease(svc.data)
      && (svc.mutex.None? ==> ToMap(svc.data) == Replay(ToMap(data), Released(n, Initial(n, data), acts)))
  {
    hide Execute;
    hide Sound;
    hide Released;
    hide ToMap;
    InitialInv(n, data);
    InvAlways(n, ToMap(data), Initial(n, data), acts);
    RepliesRecorded(n, data, acts);
  }

  /** Nothing serialises the threads but the mutex: in every reachable state an idle thread can
      receive any request, one inside can go on, one with a reply can send it, and a blocked
      one can enter as soon as the mutex is free. */
  lemma {:induction false} EveryThreadMoves(n: nat, data: Entries, acts: seq<Action>, t: nat, req: Request)
    requires KeysIncrease(data) && Execute(n, Initial(n, data), acts).Some? && t < n
    ensures var s := Execute(n, Initial(n, data), acts).value;
      && t < |s.svc.handlers|
      && match s.svc.handlers[t]
         case Idle => Enabled(n, s, Invoke(t, req))
         case Blocked(_) => s.svc.mutex.None? ==> Enabled(n, s, Acquire(t))
         case Inside(_, _) => Enabled(n, s, Work(t)) || Enabled(n, s, Release(t))
         case Returned(_, _) => Enabled(n, s, Respond(t))
  {
    hide Execute;
    hide ToMap;
    hide Exclusive;
    hide Coupled;
    InitialInv(n, data);
    InvAlways(n, ToMap(data), Initial(n, data), acts);
  }

  /** At most one handler is ever inside, and none uses an iterator another has invalidated. */
  lemma {:induction false} MutualExclusion(n: nat, data: Entries, acts: seq<Action>)
    requires KeysIncrease(data) && Execute(n, Initial(n, data), acts).Some?
    ensures var hs := Execute(n, Initial(n, data), acts).value.svc.handlers;
      && (forall t, u :: 0 <= t < u < |hs| ==> !(hs[t].Inside? && hs[u].Inside?))
      && (forall t :: 0 <= t < |hs| && hs[t].Inside? ==> !hs[t].pc.Undefined?)
  {
    hide Execute;
    hide Sound;
    hide ToMap;
    InitialInv(n, data);
    InvAlways(n, ToMap(data), Initial(n, data), acts);
  }
}
