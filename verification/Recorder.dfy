/** The bookkeeping that every concurrent machine here carries beside its state: the
    order in which operations took effect, the answered events, and where each
    client's current operation stands. */
module Recorder {
  import opened KvTypes
  import opened Online
  import opened Offline
  import opened Linear

  datatype Op =
    | NoOp
    | Called(tsCall: nat, call: KvCall)
    | Effective(tsCall: nat, call: KvCall, pos: nat)

  datatype Record = Record(lin: seq<LinOp>, es: seq<Event>, at: seq<nat>, op: seq<Op>)

  function NoRecord(n: nat): Record {
    Record([], [], [], seq(n, _ => NoOp))
  }

  function CallMade(r: Record, c: nat, ts: nat, call: KvCall): Record
    requires c < |r.op|
  {
    r.(op := r.op[c := Called(ts, call)])
  }

  function EffectTaken(r: Record, c: nat, resp: KvResp): Record
    requires c < |r.op|
  {
    match r.op[c]
    case Called(ts, call) =>
      r.(lin := r.lin + [LinOp(c, ts, call, resp)], op := r.op[c := Effective(ts, call, |r.lin|)])
    case _ => r
  }

  function Answered(r: Record, c: nat, tsResp: nat, resp: KvResp): Record
    requires c < |r.op|
  {
    match r.op[c]
    case Effective(ts, call, pos) =>
      r.(es := r.es + [Event(c, ts, tsResp, resp, UpdateInfo(call))], at := r.at + [pos], op := r.op[c := NoOp])
    case _ => r
  }

  /** Where client `c` stands agrees with the order and the events. */
  ghost predicate Standing(r: Record, clock: nat, c: nat)
    requires c < |r.op|
  {
    match r.op[c]
    case NoOp => forall j :: 0 <= j < |r.lin| && r.lin[j].cidx == c ==> j in r.at
    case Called(ts, call) =>
      Fresh(r, clock, c, ts) && forall j :: 0 <= j < |r.lin| && r.lin[j].cidx == c ==> j in r.at
    case Effective(ts, call, pos) =>
      && Fresh(r, clock, c, ts) && pos < |r.lin| && pos !in r.at
      && r.lin[pos] == LinOp(c, ts, call, r.lin[pos].resp)
      && forall j :: 0 <= j < |r.lin| && r.lin[j].cidx == c && j !in r.at ==> j == pos
  }

  /** A call time after every answer of its client, different from all other answer times. */
  ghost predicate Fresh(r: Record, clock: nat, c: nat, ts: nat) {
    && 0 < ts <= clock
    && (forall i :: 0 <= i < |r.es| ==> r.es[i].tsResp != ts)
    && (forall i :: 0 <= i < |r.es| && r.es[i].cidx == c ==> r.es[i].tsResp < ts)
  }

  ghost predicate Sound(n: nat, m0: Store, r: Record, clock: nat) {
    && Explains(n, m0, r.lin, r.es, r.at)
    && WellFormed(n, r.es)
    && |r.op| == n
    && (forall j :: 0 <= j < |r.lin| ==> r.lin[j].tsCall <= clock)
    && (forall i :: 0 <= i < |r.es| ==> r.es[i].tsResp <= clock)
    && (forall c :: 0 <= c < n ==> Standing(r, clock, c))
  }

  lemma NoRecordSound(n: nat, m0: Store)
    ensures Sound(n, m0, NoRecord(n), 0)
  {
  }

  lemma CallSound(n: nat, m0: Store, r: Record, clock: nat, c: nat, call: KvCall)
    requires Sound(n, m0, r, clock) && c < n && r.op[c].NoOp?
    ensures Sound(n, m0, CallMade(r, c, clock + 1, call), clock + 1)
  {
    hide Explains;
    hide WellFormed;
    var r' := CallMade(r, c, clock + 1, call);
    var clock' := clock + 1;
    forall b | 0 <= b < n ensures Standing(r', clock', b) {
      assert Standing(r, clock, b);
    }
  }

  lemma PositionsInRange(n: nat, m0: Store, r: Record, clock: nat)
    requires Sound(n, m0, r, clock)
    ensures forall k :: k in r.at ==> k < |r.lin|
  {
    forall k | k in r.at ensures k < |r.lin| {
      var i :| 0 <= i < |r.at| && r.at[i] == k;
    }
  }

  lemma StandingAfterEffect(r: Record, clock: nat, c: nat, resp: KvResp, b: nat)
    requires c < |r.op| && b < |r.op| && r.op[c].Called?
    requires Standing(r, clock, b) && forall k :: k in r.at ==> k < |r.lin|
    ensures Standing(EffectTaken(r, c, resp), clock, b)
  {
    var r' := EffectTaken(r, c, resp);
    assert forall j :: 0 <= j < |r.lin| ==> r'.lin[j] == r.lin[j];
  }

  lemma {:induction false} EffectSound(n: nat, m0: Store, r: Record, clock: nat, c: nat, resp: KvResp)
    requires Sound(n, m0, r, clock) && c < n && r.op[c].Called?
    requires Answers(Replay(m0, r.lin), r.op[c].call, resp)
    ensures Sound(n, m0, EffectTaken(r, c, resp), clock)
  {
    hide Explains;
    hide WellFormed;
    assert Standing(r, clock, c);
    TakeEffect(n, m0, r.lin, r.es, r.at, LinOp(c, r.op[c].tsCall, r.op[c].call, resp));
    PositionsInRange(n, m0, r, clock);
    forall b | 0 <= b < n ensures Standing(EffectTaken(r, c, resp), clock, b) {
      StandingAfterEffect(r, clock, c, resp, b);
    }
  }

  lemma WellFormedAppend(n: nat, es: seq<Event>, e: Event)
    requires WellFormed(n, es) && e.cidx < n && 0 < e.tsCall < e.tsResp
    requires forall i :: 0 <= i < |es| ==> es[i].tsResp < e.tsResp
    requires forall i :: 0 <= i < |es| && es[i].cidx == e.cidx ==> es[i].tsResp < e.tsCall
    ensures WellFormed(n, es + [e])
  {
  }

  lemma StandingAfterAnswer(r: Record, clock: nat, c: nat, resp: KvResp, b: nat)
    requires c < |r.op| && b < |r.op| && r.op[c].Effective? && r.op[c].pos < |r.lin| && r.lin[r.op[c].pos].cidx == c
    requires Standing(r, clock, b) && Standing(r, clock, c)
    ensures Standing(Answered(r, c, clock + 1, resp), clock + 1, b)
  {
    var r' := Answered(r, c, clock + 1, resp);
    assert forall k :: k in r'.at <==> k in r.at || k == r.op[c].pos;
    if r.op[b].Effective? && b != c {
      assert r.lin[r.op[b].pos].cidx == b;
    }
  }

  /** The answer harvested at the next tick is the one fixed when the operation took effect. */
  lemma AnswerSound(n: nat, m0: Store, r: Record, clock: nat, c: nat)
    requires Sound(n, m0, r, clock) && c < n && r.op[c].Effective? && r.op[c].pos < |r.lin|
    ensures Sound(n, m0, Answered(r, c, clock + 1, r.lin[r.op[c].pos].resp), clock + 1)
  {
    hide Explains;
    hide WellFormed;
    var pos := r.op[c].pos;
    assert Standing(r, clock, c);
    var e := Event(c, r.op[c].tsCall, clock + 1, r.lin[pos].resp, UpdateInfo(r.op[c].call));
    Harvest(n, m0, r.lin, r.es, r.at, pos, e);
    WellFormedAppend(n, r.es, e);
    var clock' := clock + 1;
    var r' := Answered(r, c, clock', r.lin[pos].resp);
    forall b | 0 <= b < n ensures Standing(r', clock', b) {
      assert Standing(r, clock, b);
      StandingAfterAnswer(r, clock, c, r.lin[pos].resp, b);
    }
  }
}
