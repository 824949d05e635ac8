/** The service's handlers at the grain of single store operations, under one mutex. */
module Server {
  import opened Wrappers
  import opened Lex
  import opened KvTypes
  import opened StoreModule

  datatype Request =
    | Put(key: string, newValue: string)
    | Swap(key: string, newValue: string)
    | Get(key: string)
    | Scan(startKey: string, endKey: string)
    | Delete(key: string)

  // An absent value travels as `found` false and a cleared string.
  datatype Reply =
    | Put(found: bool)
    | Swap(found: bool, oldValue: string)
    | Get(found: bool, value: string)
    | Scan(list: Entries)
    | Delete(found: bool)

  function CallOf(req: Request): KvCall {
    match req
    case Put(key, newValue) => KvCall.Put(key, newValue)
    case Swap(key, newValue) => KvCall.Swap(key, newValue)
    case Get(key) => KvCall.Get(key)
    case Scan(startKey, endKey) => KvCall.Scan(startKey, endKey)
    case Delete(key) => KvCall.Delete(key)
  }

  function OptionOf(found: bool, value: string): Option<string> {
    if found then Some(value) else None
  }

  /** What a reply means to the client that sent the request. */
  function Decode(req: Request, reply: Reply): KvResp {
    match (req, reply)
    case (Put(key, _), Put(found)) => KvResp.Put(key, found)
    case (Swap(key, _), Swap(found, oldValue)) => KvResp.Swap(key, OptionOf(found, oldValue))
    case (Get(key), Get(found, value)) => KvResp.Get(key, OptionOf(found, value))
    case (Scan(startKey, endKey), Scan(list)) => KvResp.Scan(startKey, endKey, list)
    case (Delete(key), Delete(found)) => KvResp.Delete(key, found)
    case _ => KvResp.Stop
  }

  // How far a handler has come while it holds the mutex; `it` is an iterator into the store.
  datatype Pc =
    | Start
    | PutFound(found: bool)
    | PutDone(found: bool)
    | SwapMissed
    | SwapHit(it: nat)
    | SwapRead(it: nat, prior: string)
    | SwapDone(oldValue: Option<string>)
    | GetHit(it: nat)
    | GetDone(value: Option<string>)
    | ScanLoop(it: nat, result: Entries)
    | ScanCopy(result: Entries, list: Entries)
    | DeleteHit
    | DeleteDone(found: bool)
    | Replied(reply: Reply)
    | Undefined // an iterator that no longer points at an entry was used

  datatype Handler =
    | Idle
    | Blocked(req: Request)
    | Inside(req: Request, pc: Pc)
    | Returned(req: Request, reply: Reply)

  /** One step of a handler inside the critical section. */
  function Advance(data: Entries, req: Request, pc: Pc): (Entries, Pc) {
    match (req, pc)
    case (Put(key, _), Start) => (data, PutFound(FindIndex(data, key) < |data|))
    case (Put(key, newValue), PutFound(found)) => (Assign(data, key, newValue), PutDone(found))
    case (Put(_, _), PutDone(found)) => (data, Replied(Reply.Put(found)))

    case (Swap(key, _), Start) =>
      (data, if FindIndex(data, key) == |data| then SwapMissed else SwapHit(FindIndex(data, key)))
    case (Swap(key, newValue), SwapMissed) => (Assign(data, key, newValue), SwapDone(None))
    case (Swap(_, _), SwapHit(it)) => (data, if it < |data| then SwapRead(it, data[it].1) else Undefined)
    case (Swap(_, newValue), SwapRead(it, prior)) =>
      if it < |data| then (data[it := (data[it].0, newValue)], SwapDone(Some(prior))) else (data, Undefined)
    case (Swap(_, _), SwapDone(oldValue)) =>
      (data, Replied(if oldValue.Some? then Reply.Swap(true, oldValue.value) else Reply.Swap(false, "")))

    case (Get(key), Start) =>
      (data, if FindIndex(data, key) == |data| then GetDone(None) else GetHit(FindIndex(data, key)))
    case (Get(_), GetHit(it)) => (data, if it < |data| then GetDone(Some(data[it].1)) else Undefined)
    case (Get(_), GetDone(value)) =>
      (data, Replied(if value.Some? then Reply.Get(true, value.value) else Reply.Get(false, "")))

    case (Scan(startKey, _), Start) => (data, ScanLoop(LowerBound(data, startKey), []))
    case (Scan(_, endKey), ScanLoop(it, result)) =>
      (data,
       if it == |data| then ScanCopy(result, [])
       else if it > |data| then Undefined
       else if LessEq(data[it].0, endKey) then ScanLoop(it + 1, result + [data[it]])
       else ScanCopy(result, []))
    case (Scan(_, _), ScanCopy(result, list)) =>
      (data, if |list| < |result| then ScanCopy(result, list + [result[|list|]]) else Replied(Reply.Scan(list)))

    case (Delete(key), Start) => (data, if FindIndex(data, key) == |data| then DeleteDone(false) else DeleteHit)
    case (Delete(key), DeleteHit) => (Erase(data, key), DeleteDone(true))
    case (Delete(_), DeleteDone(found)) => (data, Replied(Reply.Delete(found)))

    case _ => (data, Undefined)
  }

  /** What a handler has established when it took the mutex on a store holding `m`. */
  ghost predicate Progress(m: Store, data: Entries, req: Request, pc: Pc)
    requires KeysIncrease(data)
  {
    var now := ToMap(data);
    match (req, pc)
    case (_, Start) => now == m
    case (Put(key, _), PutFound(found)) => now == m && found == (key in m)
    case (Put(key, _), PutDone(found)) => now == After(m, CallOf(req)) && found == (key in m)
    case (Swap(key, _), SwapMissed) => now == m && key !in m
    case (Swap(key, _), SwapHit(it)) => now == m && it < |data| && data[it].0 == key
    case (Swap(key, _), SwapRead(it, prior)) =>
      now == m && it < |data| && data[it].0 == key && Lookup(m, key) == Some(prior)
    case (Swap(key, _), SwapDone(oldValue)) => now == After(m, CallOf(req)) && oldValue == Lookup(m, key)
    case (Get(key), GetHit(it)) => now == m && it < |data| && data[it].0 == key
    case (Get(key), GetDone(value)) => now == m && value == Lookup(m, key)
    case (Scan(a, b), ScanLoop(it, result)) =>
      && now == m && LowerBound(data, a) <= it <= |data| && result == data[LowerBound(data, a)..it]
      && forall j :: LowerBound(data, a) <= j < it ==> LessEq(data[j].0, b)
    case (Scan(a, b), ScanCopy(result, list)) => now == m && IsRangeOf(m, a, b, result) && list <= result
    case (Delete(key), DeleteHit) => now == m && key in m
    case (Delete(key), DeleteDone(found)) => now == After(m, CallOf(req)) && found == (key in m)
    case (_, Replied(reply)) => now == After(m, CallOf(req)) && Answers(m, CallOf(req), Decode(req, reply))
    case _ => false
  }

  ghost predicate Advances(m: Store, data: Entries, req: Request, pc: Pc) {
    && KeysIncrease(Advance(data, req, pc).0)
    && Progress(m, Advance(data, req, pc).0, req, Advance(data, req, pc).1)
  }

  lemma PutAdvances(m: Store, data: Entries, key: string, newValue: string, pc: Pc)
    requires var req := Request.Put(key, newValue); KeysIncrease(data) && Progress(m, data, req, pc) && !pc.Replied?
    ensures Advances(m, data, Request.Put(key, newValue), pc)
  {
    hide ToMap;
    hide KeysIncrease;
    hide IsRangeOf;
    FindAgrees(data, key);
    AssignAgrees(data, key, newValue);
  }

  lemma SwapAdvances(m: Store, data: Entries, key: string, newValue: string, pc: Pc)
    requires var req := Request.Swap(key, newValue); KeysIncrease(data) && Progress(m, data, req, pc) && !pc.Replied?
    ensures Advances(m, data, Request.Swap(key, newValue), pc)
  {
    hide ToMap;
    hide KeysIncrease;
    hide IsRangeOf;
    FindAgrees(data, key);
    AssignAgrees(data, key, newValue);
    if pc.SwapHit? || pc.SwapRead? {
      EntryInMap(data, pc.it);
      WriteThroughAgrees(data, pc.it, newValue);
    }
  }

  lemma GetAdvances(m: Store, data: Entries, key: string, pc: Pc)
    requires var req := Request.Get(key); KeysIncrease(data) && Progress(m, data, req, pc) && !pc.Replied?
    ensures Advances(m, data, Request.Get(key), pc)
  {
    hide ToMap;
    hide KeysIncrease;
    hide IsRangeOf;
    FindAgrees(data, key);
    if pc.GetHit? {
      EntryInMap(data, pc.it);
    }
  }

  lemma DeleteAdvances(m: Store, data: Entries, key: string, pc: Pc)
    requires var req := Request.Delete(key); KeysIncrease(data) && Progress(m, data, req, pc) && !pc.Replied?
    ensures Advances(m, data, Request.Delete(key), pc)
  {
    hide ToMap;
    hide KeysIncrease;
    hide IsRangeOf;
    FindAgrees(data, key);
    EraseAgrees(data, key);
  }

  lemma ScanAdvances(m: Store, data: Entries, a: string, b: string, pc: Pc)
    requires var req := Request.Scan(a, b); KeysIncrease(data) && Progress(m, data, req, pc) && !pc.Replied?
    ensures Advances(m, data, Request.Scan(a, b), pc)
  {
    hide ToMap;
    hide KeysIncrease;
    hide IsRangeOf;
    match pc {
      case Start =>
        assert data[LowerBound(data, a)..LowerBound(data, a)] == [];
      case ScanLoop(it, result) =>
        if it == |data| || !LessEq(data[it].0, b) {
          SliceIsRange(data, a, b, it);
        }
      case ScanCopy(result, list) =>
        assert |list| == |result| ==> list == result;
      case _ =>
    }
  }

  /** A handler left alone in the critical section moves from one stage to the next,
      never through a dangling iterator, until its reply answers the request. */
  lemma AdvanceProgresses(m: Store, data: Entries, req: Request, pc: Pc)
    requires KeysIncrease(data) && Progress(m, data, req, pc) && !pc.Replied?
    ensures Advances(m, data, req, pc)
  {
    hide Progress;
    hide Advances;
    match req {
      case Put(key, newValue) => PutAdvances(m, data, key, newValue, pc);
      case Swap(key, newValue) => SwapAdvances(m, data, key, newValue, pc);
      case Get(key) => GetAdvances(m, data, key, pc);
      case Scan(a, b) => ScanAdvances(m, data, a, b, pc);
      case Delete(key) => DeleteAdvances(m, data, key, pc);
    }
  }

  // ---- The mutex and the handlers ----

  datatype Service = Service(data: Entries, mutex: Option<nat>, handlers: seq<Handler>)

  function Idlers(n: nat, data: Entries): Service {
    Service(data, None, seq(n, _ => Idle))
  }

  function Receive(s: Service, t: nat, req: Request): Service
    requires t < |s.handlers|
  {
    s.(handlers := s.handlers[t := Blocked(req)])
  }

  predicate CanLock(s: Service, t: nat) {
    t < |s.handlers| && s.handlers[t].Blocked? && s.mutex.None?
  }

  function Lock(s: Service, t: nat): Service
    requires CanLock(s, t)
  {
    s.(mutex := Some(t), handlers := s.handlers[t := Inside(s.handlers[t].req, Start)])
  }

  predicate CanStep(s: Service, t: nat) {
    t < |s.handlers| && s.handlers[t].Inside? && !s.handlers[t].pc.Replied?
  }

  function Step(s: Service, t: nat): Service
    requires CanStep(s, t)
  {
    var h := s.handlers[t];
    var (data, pc) := Advance(s.data, h.req, h.pc);
    s.(data := data, handlers := s.handlers[t := Inside(h.req, pc)])
  }

  predicate CanUnlock(s: Service, t: nat) {
    t < |s.handlers| && s.handlers[t].Inside? && s.handlers[t].pc.Replied?
  }

  function Unlock(s: Service, t: nat): Service
    requires CanUnlock(s, t)
  {
    var h := s.handlers[t];
    s.(mutex := None, handlers := s.handlers[t := Returned(h.req, h.pc.reply)])
  }

  predicate CanReturn(s: Service, t: nat) {
    t < |s.handlers| && s.handlers[t].Returned?
  }

  function Deliver(s: Service, t: nat): Service
    requires CanReturn(s, t)
  {
    s.(handlers := s.handlers[t := Idle])
  }

  /** Only the holder of the mutex is inside; the store holds `m` whenever the mutex
      is free, and the holder has made progress on `m` otherwise. */
  ghost predicate Exclusive(m: Store, s: Service) {
    && KeysIncrease(s.data)
    && (forall t :: 0 <= t < |s.handlers| && s.handlers[t].Inside? ==> s.mutex == Some(t))
    && match s.mutex
       case None => ToMap(s.data) == m
       case Some(t) =>
         && t < |s.handlers| && s.handlers[t].Inside?
         && Progress(m, s.data, s.handlers[t].req, s.handlers[t].pc)
  }

  lemma StepExclusive(m: Store, s: Service, t: nat)
    requires Exclusive(m, s) && CanStep(s, t)
    ensures Exclusive(m, Step(s, t))
  {
    hide Progress;
    hide Advance;
    AdvanceProgresses(m, s.data, s.handlers[t].req, s.handlers[t].pc);
  }

  lemma LockExclusive(m: Store, s: Service, t: nat)
    requires Exclusive(m, s) && CanLock(s, t)
    ensures Exclusive(m, Lock(s, t))
  {
    hide ToMap;
    hide KeysIncrease;
  }

  lemma UnlockExclusive(m: Store, s: Service, t: nat)
    requires Exclusive(m, s) && CanUnlock(s, t)
    ensures var h := s.handlers[t];
      && Answers(m, CallOf(h.req), Decode(h.req, h.pc.reply))
      && Exclusive(After(m, CallOf(h.req)), Unlock(s, t))
  {
    hide ToMap;
    hide KeysIncrease;
    hide Decode;
  }
}
