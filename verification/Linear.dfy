/** Linearizable runs never fail the checker. */
module Linear {
  import opened Wrappers
  import opened Lex
  import opened KvTypes
  import opened Spans
  import opened Online
  import opened Offline

  /** An operation at the point where it took effect. */
  datatype LinOp = LinOp(cidx: nat, tsCall: nat, call: KvCall, resp: KvResp)

  function Replay(m0: Store, lin: seq<LinOp>): Store {
    if lin == [] then m0 else After(Replay(m0, lin[..|lin| - 1]), lin[|lin| - 1].call)
  }

  lemma {:induction false} ReplayAppend(m0: Store, lin: seq<LinOp>, op: LinOp)
    ensures Replay(m0, lin + [op]) == After(Replay(m0, lin), op.call)
  {
    assert (lin + [op])[..|lin|] == lin;
  }

  /** Replaying the order on a plain map gives exactly the responses. */
  ghost predicate Legal(m0: Store, lin: seq<LinOp>) {
    forall j :: 0 <= j < |lin| ==> Answers(Replay(m0, lin[..j]), lin[j].call, lin[j].resp)
  }

  /** `lin` is a total order that explains the harvested events: event `i` is the
      operation at position `at[i]`, an operation answered before another was called
      precedes it, and whatever else took effect is still in flight. */
  ghost predicate Explains(n: nat, m0: Store, lin: seq<LinOp>, es: seq<Event>, at: seq<nat>) {
    && Legal(m0, lin)
    && |at| == |es|
    && (forall i :: 0 <= i < |es| ==> at[i] < |lin| && Matching(lin[at[i]], es[i]))
    && (forall i, j :: 0 <= i < |es| && 0 <= j < |lin| ==> es[i].tsResp != lin[j].tsCall)
    && (forall i, j :: 0 <= i < |es| && 0 <= j < |lin| && es[i].tsResp < lin[j].tsCall ==> at[i] < j)
    && (forall j :: 0 <= j < |lin| ==> lin[j].cidx < n && (j in at || InFlight(lin[j], es)))
  }

  predicate Matching(op: LinOp, e: Event) {
    op.cidx == e.cidx && op.tsCall == e.tsCall && op.resp == e.resp && UpdateInfo(op.call) == e.update
  }

  /** The operation was called after its client's last answer. */
  ghost predicate InFlight(op: LinOp, es: seq<Event>) {
    forall i :: 0 <= i < |es| && es[i].cidx == op.cidx ==> es[i].tsResp < op.tsCall
  }

  /** Calls the fuzzer makes: no Stop, and single keys come from the pool. */
  predicate InPool(pool: set<string>, call: KvCall) {
    match call
    case Put(key, _) => key in pool
    case Swap(key, _) => key in pool
    case Get(key) => key in pool
    case Delete(key) => key in pool
    case Scan(_, _) => true
    case Stop => false
  }

  predicate Writes(op: LinOp, key: string) {
    UpdateInfo(op.call).Some? && UpdateInfo(op.call).value.0 == key
  }

  // ---- Extending an explained run ----

  /** An operation takes effect: it goes to the end of the order. */
  lemma {:induction false} TakeEffect(n: nat, m0: Store, lin: seq<LinOp>, es: seq<Event>, at: seq<nat>, op: LinOp)
    requires Explains(n, m0, lin, es, at)
    requires op.cidx < n && Answers(Replay(m0, lin), op.call, op.resp)
    requires InFlight(op, es) && forall i :: 0 <= i < |es| ==> es[i].tsResp != op.tsCall
    ensures Explains(n, m0, lin + [op], es, at)
  {
    var lin' := lin + [op];
    forall j | 0 <= j < |lin'| ensures Answers(Replay(m0, lin'[..j]), lin'[j].call, lin'[j].resp) {
      assert lin'[..j] == if j < |lin| then lin[..j] else lin;
    }
  }

  /** The answer of an operation that took effect is harvested. */
  lemma Harvest(n: nat, m0: Store, lin: seq<LinOp>, es: seq<Event>, at: seq<nat>, j: nat, e: Event)
    requires Explains(n, m0, lin, es, at)
    requires j < |lin| && Matching(lin[j], e)
    requires forall k :: 0 <= k < |lin| ==> lin[k].tsCall < e.tsResp
    requires forall k :: 0 <= k < |lin| && lin[k].cidx == e.cidx && k !in at ==> k == j
    ensures Explains(n, m0, lin, es + [e], at + [j])
  {
    hide Legal;
    hide Matching;
    var es', at' := es + [e], at + [j];
    forall k | 0 <= k < |lin| ensures k in at' || InFlight(lin[k], es') {
      if k in at {
        var i :| 0 <= i < |at| && at[i] == k;
        assert at'[i] == k;
      } else if k == j {
        assert at'[|at|] == k;
      }
    }
  }

  // ---- The span behind every answer ----

  lemma {:induction false} SpanHasEvent(es: seq<Event>, key: string, c: nat, p: nat) returns (x: nat)
    requires 0 < p < |ClientSpans(es, key, c)|
    ensures x < |es| && es[x].cidx == c && es[x].update.Some? && es[x].update.value.0 == key
    ensures ClientSpans(es, key, c)[p] == UpdateSpan(es[x].tsCall, es[x].tsResp, es[x].update.value.1)
  {
    var es' := es[..|es| - 1];
    if p < |ClientSpans(es', key, c)| {
      x := SpanHasEvent(es', key, c, p);
    } else {
      x := |es| - 1;
    }
  }

  lemma {:induction false} EventHasSpan(es: seq<Event>, key: string, x: nat) returns (p: nat)
    requires x < |es| && es[x].update.Some? && es[x].update.value.0 == key
    ensures var s := ClientSpans(es, key, es[x].cidx);
      0 < p < |s| && s[p] == UpdateSpan(es[x].tsCall, es[x].tsResp, es[x].update.value.1)
    decreases |es|
  {
    var es' := es[..|es| - 1];
    ClientSpansNonEmpty(es', key, es[x].cidx);
    if x < |es'| {
      p := EventHasSpan(es', key, x);
    } else {
      p := |ClientSpans(es', key, es[x].cidx)|;
    }
  }

  lemma {:induction false} ClientSpansNonEmpty(es: seq<Event>, key: string, c: nat)
    ensures ClientSpans(es, key, c) != []
    ensures ClientSpans(es, key, c)[0] == DUMMY
  {
    if es == [] {
    } else {
      ClientSpansNonEmpty(es[..|es| - 1], key, c);
    }
  }

  /** The value of a key at position `j` was written by the last writer before `j`, or by none. */
  lemma {:induction false} LastWriter(m0: Store, lin: seq<LinOp>, j: nat, key: string) returns (w: int)
    requires j <= |lin| && key !in m0
    ensures -1 <= w < j
    ensures forall k :: w < k < j ==> !Writes(lin[k], key)
    ensures w >= 0 ==> Writes(lin[w], key) && Lookup(Replay(m0, lin[..j]), key) == UpdateInfo(lin[w].call).value.1
    ensures w < 0 ==> Lookup(Replay(m0, lin[..j]), key) == None
    decreases j
  {
    if j == 0 {
      w := -1;
      assert lin[..0] == [];
    } else {
      assert lin[..j][..j - 1] == lin[..j - 1];
      w := LastWriter(m0, lin, j - 1, key);
      if Writes(lin[j - 1], key) {
        w := j - 1;
      }
    }
  }

  /** No update of the key that took effect before position `j` completed behind the
      visible span: so when none did, the dummy span is visible. */
  lemma DummyVisible(n: nat, m0: Store, lin: seq<LinOp>, es: seq<Event>, at: seq<nat>, i: nat, key: string)
    requires WellFormed(n, es) && Explains(n, m0, lin, es, at) && i < |es|
    requires forall k :: 0 <= k < at[i] ==> !Writes(lin[k], key)
    ensures Justified(KeyLog(n, es, key), es[i].tsCall, es[i].tsResp, Exactly(None))
  {
    var s := ClientSpans(es, key, 0);
    ClientSpansNonEmpty(es, key, 0);
    forall p | 0 < p < |s| ensures es[i].tsCall <= s[p].tsResp {
      var x := SpanHasEvent(es, key, 0, p);
      assert Writes(lin[at[x]], key);
    }
    assert Visible(s, es[i].tsCall, es[i].tsResp, 0);
    assert JustifiedBy(KeyLog(n, es, key)[0], es[i].tsCall, es[i].tsResp, Exactly(None));
  }

  /** A writer that precedes a response behind the watermark has itself been answered. */
  lemma WriterAnswered(n: nat, m0: Store, lin: seq<LinOp>, es: seq<Event>, at: seq<nat>, i: nat, w: nat)
    returns (x: nat)
    requires WellFormed(n, es) && Explains(n, m0, lin, es, at)
    requires i < |es| && es[i].tsResp < Low(n, es) && w < at[i]
    ensures x < |es| && at[x] == w
  {
    if w in at {
      x :| 0 <= x < |at| && at[x] == w;
    } else {
      var c := lin[w].cidx;
      assert Watermarks(n, es)[c] == LastUpdate(es, c);
      LastUpdateWitness(es, c);
      assert false;
    }
  }

  lemma WriterVisible(n: nat, m0: Store, lin: seq<LinOp>, es: seq<Event>, at: seq<nat>, i: nat, key: string, x: nat)
    requires WellFormed(n, es) && Explains(n, m0, lin, es, at) && i < |es| && x < |es|
    requires at[x] < at[i] && Writes(lin[at[x]], key)
    requires forall k :: at[x] < k < at[i] ==> !Writes(lin[k], key)
    ensures Justified(KeyLog(n, es, key), es[i].tsCall, es[i].tsResp, Exactly(es[x].update.value.1))
  {
    var c := es[x].cidx;
    var s := ClientSpans(es, key, c);
    var p := EventHasSpan(es, key, x);
    LogSequential(n, es, key, c);
    forall q | p < q < |s| ensures es[i].tsCall <= s[q].tsResp {
      var y := SpanHasEvent(es, key, c, q);
      assert es[x].tsResp < lin[at[y]].tsCall;
      assert at[x] < at[y] && Writes(lin[at[y]], key);
    }
    assert es[i].tsResp != lin[at[x]].tsCall;
    assert Visible(s, es[i].tsCall, es[i].tsResp, p);
    assert JustifiedBy(KeyLog(n, es, key)[c], es[i].tsCall, es[i].tsResp, Exactly(es[x].update.value.1));
  }

  /** The true value of every key, at the moment an operation took effect, is justified
      by the log: its last writer is applied, untrimmed and reachable. */
  lemma {:induction false} TruthJustified(n: nat, m0: Store, lin: seq<LinOp>, es: seq<Event>, at: seq<nat>, i: nat,
                                          key: string)
    requires WellFormed(n, es) && Explains(n, m0, lin, es, at) && key !in m0
    requires i < |es| && es[i].tsResp < Low(n, es)
    ensures Justified(KeyLog(n, es, key), es[i].tsCall, es[i].tsResp, Exactly(Lookup(Replay(m0, lin[..at[i]]), key)))
  {
    var w := LastWriter(m0, lin, at[i], key);
    if w < 0 {
      DummyVisible(n, m0, lin, es, at, i, key);
    } else {
      var x := WriterAnswered(n, m0, lin, es, at, i, w);
      WriterVisible(n, m0, lin, es, at, i, key, x);
    }
  }

  lemma ExactImpliesPresence(keySpans: seq<seq<UpdateSpan>>, tsCall: nat, tsResp: nat, value: Option<string>)
    requires Justified(keySpans, tsCall, tsResp, Exactly(value))
    ensures Justified(keySpans, tsCall, tsResp, Presence(value.Some?))
  {
    var c :| 0 <= c < |keySpans| && JustifiedBy(keySpans[c], tsCall, tsResp, Exactly(value));
    var i :| Visible(keySpans[c], tsCall, tsResp, i) && Matches(Exactly(value), keySpans[c][i].value);
    assert JustifiedBy(keySpans[c], tsCall, tsResp, Presence(value.Some?));
  }

  /** A table that justifies the true value of every key accepts the true answer. */
  lemma TruthAccepted(spans: SpanTable, m: Store, call: KvCall, entry: QueuedSpan)
    requires Answers(m, call, entry.resp) && InPool(spans.Keys, call)
    requires forall key :: key in spans ==> Justified(spans[key], entry.tsCall, entry.tsResp, Exactly(Lookup(m, key)))
    ensures CallJustified(spans, entry)
  {
    match call {
      case Put(key, _) => ExactImpliesPresence(spans[key], entry.tsCall, entry.tsResp, Lookup(m, key));
      case Delete(key) => ExactImpliesPresence(spans[key], entry.tsCall, entry.tsResp, Lookup(m, key));
      case Scan(a, b) =>
        StrictTotalOrder();
        forall key | key in spans && InRange(a, b, key)
          ensures Justified(spans[key], entry.tsCall, entry.tsResp, Exactly(Find(entry.resp.entries, key)))
        {
          RangeLookup(m, a, b, entry.resp.entries, key);
        }
      case _ =>
    }
  }

  lemma TrueAnswerAccepted(n: nat, pool: set<string>, m0: Store, lin: seq<LinOp>, es: seq<Event>, at: seq<nat>, i: nat)
    requires WellFormed(n, es) && Explains(n, m0, lin, es, at)
    requires forall key :: key in pool ==> key !in m0
    requires i < |es| && es[i].tsResp < Low(n, es) && InPool(pool, lin[at[i]].call)
    ensures Accepts(n, pool, es, es[i])
  {
    var m := Replay(m0, lin[..at[i]]);
    var full := FullTable(n, pool, es);
    forall key | key in pool
      ensures Justified(full[key], es[i].tsCall, es[i].tsResp, Exactly(Lookup(m, key)))
    {
      TruthJustified(n, m0, lin, es, at, i, key);
    }
    assert full.Keys == pool;
    TruthAccepted(full, m, lin[at[i]].call, Entry(es[i]));
  }

  /** A run that some total order explains passes the online checker. */
  lemma {:induction false} NoFalseAlarms(n: nat, pool: set<string>, m0: Store, lin: seq<LinOp>, es: seq<Event>,
                                         at: seq<nat>)
    requires n > 0 && WellFormed(n, es) && Explains(n, m0, lin, es, at)
    requires forall key :: key in pool ==> key !in m0
    requires forall j :: 0 <= j < |lin| ==> InPool(pool, lin[j].call)
    ensures Run(n, pool, es).1 == None
  {
    hide Accepts;
    hide Run;
    forall i | 0 <= i < |es| && es[i].tsResp < Low(n, es) ensures Accepts(n, pool, es, es[i]) {
      TrueAnswerAccepted(n, pool, m0, lin, es, at, i);
    }
    forall i | 0 <= i < |es| && es[i].update.Some? ensures es[i].update.value.0 in pool {
      assert InPool(pool, lin[at[i]].call);
    }
    OnlineRefinesOffline(n, pool, es);
  }

  /** What the checker rejects no total order explains. */
  lemma {:induction false} RejectedIsNotLinearizable(n: nat, pool: set<string>, es: seq<Event>)
    requires n > 0 && WellFormed(n, es) && Run(n, pool, es).1.Some?
    ensures forall m0: Store, lin: seq<LinOp>, at: seq<nat> ::
      (forall key :: key in pool ==> key !in m0) && (forall j :: 0 <= j < |lin| ==> InPool(pool, lin[j].call))
      ==> !Explains(n, m0, lin, es, at)
  {
    forall m0: Store, lin: seq<LinOp>, at: seq<nat> | (forall key :: key in pool ==> key !in m0)
        && (forall j :: 0 <= j < |lin| ==> InPool(pool, lin[j].call)) && Explains(n, m0, lin, es, at)
      ensures false
    {
      NoFalseAlarms(n, pool, m0, lin, es, at);
    }
  }
}
