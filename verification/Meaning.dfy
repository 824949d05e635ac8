/** When acceptance means the truth: one client, and responses that its own update cannot excuse. */
module Meaning {
  import opened Wrappers
  import opened Lex
  import opened KvTypes
  import opened Spans
  import opened Online
  import opened Offline
  import opened OneClient
  import opened Linear

  /** The event is a response of the kind the call asked for, about the call's own keys. */
  predicate Asked(call: KvCall, e: Event) {
    && e.update == UpdateInfo(call)
    && match call
       case Put(key, _) => e.resp.Put? && e.resp.key == key
       case Swap(key, _) => e.resp.Swap? && e.resp.key == key
       case Get(key) => e.resp.Get? && e.resp.key == key
       case Scan(keyStart, keyEnd) => e.resp.Scan? && e.resp.keyStart == keyStart && e.resp.keyEnd == keyEnd
       case Delete(key) => e.resp.Delete? && e.resp.key == key
       case Stop => false
  }

  /** The response can be trusted once it is accepted: the operation's own update does not
      match it, and a Scan lists pool keys in order. */
  ghost predicate Telling(pool: set<string>, e: Event) {
    match e.resp
    case Put(_, found) => !found
    case Swap(_, oldValue) => e.update.Some? && oldValue != e.update.value.1
    case Get(_, _) => true
    case Scan(_, _, entries) => KeysIncrease(entries) && forall i :: 0 <= i < |entries| ==> entries[i].0 in pool
    case Delete(_, found) => found
    case Stop => false
  }

  /** These are exactly the responses on one key that the operation's own update does not match. */
  lemma TellingIff(pool: set<string>, call: KvCall, e: Event)
    requires Asked(call, e) && !call.Scan?
    ensures Telling(pool, e) <==>
      (e.update.Some? ==> ClaimOf(e.resp).Some? && !Matches(ClaimOf(e.resp).value.1, e.update.value.1))
  {
  }

  /** And every true Scan of a store that holds pool keys only is one of them. */
  lemma TrueScanIsTelling(pool: set<string>, m: Store, e: Event)
    requires e.resp.Scan? && m.Keys <= pool && IsRangeOf(m, e.resp.keyStart, e.resp.keyEnd, e.resp.entries)
    ensures Telling(pool, e)
  {
    var entries := e.resp.entries;
    forall i | 0 <= i < |entries| ensures entries[i].0 in pool {
      assert Lookup(m, entries[i].0) == Some(entries[i].1);
    }
  }

  lemma {:induction false} OnlyPoolKeys(pool: set<string>, es: seq<Event>)
    requires Tracked(pool, es)
    ensures OneClient.Replay(map[], es).Keys <= pool
  {
    if es == [] {
    } else {
      OnlyPoolKeys(pool, es[..|es| - 1]);
    }
  }

  /** A sorted listing of pool keys is the range of the map exactly when it lies in the
      range and agrees with the map on every pool key there. */
  lemma {:induction false} ScanIsRange(pool: set<string>, m: Store, a: string, b: string, entries: Entries)
    requires m.Keys <= pool && KeysIncrease(entries) && forall i :: 0 <= i < |entries| ==> entries[i].0 in pool
    ensures IsRangeOf(m, a, b, entries) <==>
      && (forall i :: 0 <= i < |entries| ==> InRange(a, b, entries[i].0))
      && (forall key :: key in pool && InRange(a, b, key) ==> Find(entries, key) == Lookup(m, key))
  {
    if IsRangeOf(m, a, b, entries) {
      forall key | key in pool && InRange(a, b, key) ensures Find(entries, key) == Lookup(m, key) {
        RangeLookup(m, a, b, entries, key);
      }
    } else if (forall i :: 0 <= i < |entries| ==> InRange(a, b, entries[i].0))
              && (forall key :: key in pool && InRange(a, b, key) ==> Find(entries, key) == Lookup(m, key)) {
      ListedExactly(pool, m, a, b, entries);
    }
  }

  lemma {:induction false} ListedExactly(pool: set<string>, m: Store, a: string, b: string, entries: Entries)
    requires m.Keys <= pool && KeysIncrease(entries) && forall i :: 0 <= i < |entries| ==> entries[i].0 in pool
    requires forall i :: 0 <= i < |entries| ==> InRange(a, b, entries[i].0)
    requires forall key :: key in pool && InRange(a, b, key) ==> Find(entries, key) == Lookup(m, key)
    ensures IsRangeOf(m, a, b, entries)
  {
    hide InRange;
    forall i | 0 <= i < |entries| ensures Lookup(m, entries[i].0) == Some(entries[i].1) {
      KeysApart(entries, i);
      FindIn(entries, i);
    }
    forall key | key in m && InRange(a, b, key) ensures (key, m[key]) in entries {
      FindSound(entries, key);
    }
  }

  lemma {:induction false} KeysApart(entries: Entries, i: nat)
    requires KeysIncrease(entries) && i < |entries|
    ensures forall j :: 0 <= j < i ==> entries[j].0 != entries[i].0
  {
    LessIrreflexive(entries[i].0);
  }

  lemma {:induction false} KeysDistinct(entries: Entries)
    requires KeysIncrease(entries)
    ensures forall i, j :: 0 <= i < j < |entries| ==> entries[i].0 != entries[j].0
  {
    forall i, j | 0 <= i < j < |entries| ensures entries[i].0 != entries[j].0 {
      KeysApart(entries, j);
    }
  }

  /** For such a response of one client, acceptance means that it is the sequential map's answer. */
  lemma {:induction false} AcceptedIffTrue(pool: set<string>, es: seq<Event>, i: nat, call: KvCall)
    requires WellFormed(1, es) && Tracked(pool, es) && i < |es|
    requires Asked(call, es[i]) && Telling(pool, es[i]) && Linear.InPool(pool, call)
    ensures Accepts(1, pool, es, es[i]) <==> Answers(OneClient.Replay(map[], es[..i]), call, es[i].resp)
  {
    hide Accepts;
    var before := OneClient.Replay(map[], es[..i]);
    ExactByKind(pool, map[], es, i, call);
    OnlyPoolKeys(pool, es[..i]);
    if call.Scan? {
      var entries := es[i].resp.entries;
      KeysDistinct(entries);
      ScanIsRange(pool, before, call.keyStart, call.keyEnd, entries);
    }
  }

  // ---- Whole runs ----

  ghost predicate Told(pool: set<string>, es: seq<Event>, calls: seq<KvCall>) {
    && WellFormed(1, es) && |calls| == |es|
    && forall i :: 0 <= i < |es| ==> Asked(calls[i], es[i]) && Telling(pool, es[i]) && Linear.InPool(pool, calls[i])
  }

  lemma {:induction false} ToldTracked(pool: set<string>, es: seq<Event>, calls: seq<KvCall>)
    requires Told(pool, es, calls)
    ensures Tracked(pool, es)
  {
    forall i | 0 <= i < |es| && es[i].update.Some? ensures es[i].update.value.0 in pool {
      assert Asked(calls[i], es[i]) && Linear.InPool(pool, calls[i]);
    }
  }

  /** Both replays agree on operations that make the same updates. */
  lemma {:induction false} ReplaysAgree(m0: Store, lin: seq<LinOp>, es: seq<Event>)
    requires |lin| == |es| && forall i :: 0 <= i < |es| ==> UpdateInfo(lin[i].call) == es[i].update
    ensures Linear.Replay(m0, lin) == OneClient.Replay(m0, es)
  {
    if es == [] {
    } else {
      ReplaysAgree(m0, lin[..|lin| - 1], es[..|es| - 1]);
    }
  }

  function InOrder(es: seq<Event>, calls: seq<KvCall>, d: nat): seq<LinOp>
    requires d <= |es| == |calls|
  {
    seq(d, i requires 0 <= i < d => LinOp(0, es[i].tsCall, calls[i], es[i].resp))
  }

  lemma {:induction false} TrueIsLegal(pool: set<string>, es: seq<Event>, calls: seq<KvCall>, d: nat)
    requires Told(pool, es, calls) && d <= |es|
    requires forall i :: 0 <= i < d ==> Answers(OneClient.Replay(map[], es[..i]), calls[i], es[i].resp)
    ensures Legal(map[], InOrder(es, calls, d))
  {
    hide Answers;
    var lin := InOrder(es, calls, d);
    forall j | 0 <= j < d ensures Answers(Linear.Replay(map[], lin[..j]), lin[j].call, lin[j].resp) {
      assert forall i :: 0 <= i < j ==> Asked(calls[i], es[i]);
      ReplaysAgree(map[], lin[..j], es[..j]);
    }
  }

  function UpTo(d: nat): (at: seq<nat>)
    ensures |at| == d && forall i :: 0 <= i < d ==> at[i] == i
  {
    seq(d, i => i)
  }

  /** True answers are explained by their own order. */
  lemma {:induction false} TrueIsExplained(pool: set<string>, es: seq<Event>, calls: seq<KvCall>, d: nat)
    requires Told(pool, es, calls) && d <= |es|
    requires forall i :: 0 <= i < d ==> Answers(OneClient.Replay(map[], es[..i]), calls[i], es[i].resp)
    ensures Explains(1, map[], InOrder(es, calls, d), es[..d], UpTo(d))
  {
    var lin, at := InOrder(es, calls, d), UpTo(d);
    TrueIsLegal(pool, es, calls, d);
    TimesInOrder(es, d);
    forall j | 0 <= j < d ensures Matching(lin[j], es[j]) && j in at {
      assert Asked(calls[j], es[j]) && at[j] == j;
    }
    hide Legal;
    hide Told;
    hide Asked;
    hide UpTo;
    hide WellFormed;
    hide Matching;
    hide Telling;
  }

  lemma TimesInOrder(es: seq<Event>, d: nat)
    requires WellFormed(1, es) && d <= |es|
    ensures forall i, j :: 0 <= i < d && 0 <= j < d ==> es[i].tsResp != es[j].tsCall
    ensures forall i, j :: 0 <= i < d && 0 <= j < d && es[i].tsResp < es[j].tsCall ==> i < j
  {
    forall i, j | 0 <= i < d && 0 <= j < d
      ensures es[i].tsResp != es[j].tsCall && (es[i].tsResp < es[j].tsCall ==> i < j)
    {
      if j < i {
        assert es[j].tsResp < es[i].tsCall;
      }
    }
  }

  /** An operation without an answer comes after every operation that has one. */
  lemma {:induction false} UnansweredLater(m0: Store, lin: seq<LinOp>, es: seq<Event>, at: seq<nat>, i: nat, j: nat)
    requires WellFormed(1, es) && Explains(1, m0, lin, es, at) && i < |es|
    ensures |at| == |es| && at[i] < |lin| && (j < |lin| ==> j in at || at[i] < j)
  {
    if j < |lin| && j !in at {
      assert InFlight(lin[j], es);
      assert es[i].tsResp < lin[j].tsCall;
    }
  }

  lemma {:induction false} AnsweredInTurn(m0: Store, lin: seq<LinOp>, es: seq<Event>, at: seq<nat>, i: nat, k: nat)
    requires WellFormed(1, es) && Explains(1, m0, lin, es, at) && i < k < |es|
    ensures |at| == |es| && at[i] < at[k]
  {
    assert Matching(lin[at[k]], es[k]);
    assert es[i].tsResp < es[k].tsCall;
  }

  /** With one client an order that explains the events must list them first, as they came. */
  lemma {:induction false} ExplainedInOrder(m0: Store, lin: seq<LinOp>, es: seq<Event>, at: seq<nat>, i: nat)
    requires WellFormed(1, es) && Explains(1, m0, lin, es, at) && i < |es|
    ensures |at| == |es| && at[i] == i < |lin|
  {
    UnansweredLater(m0, lin, es, at, i, i);
    hide Explains;
    if i == 0 {
    } else {
      ExplainedInOrder(m0, lin, es, at, i - 1);
      AnsweredInTurn(m0, lin, es, at, i - 1, i);
    }
    if i < at[i] {
      var k := AnswerAt(m0, lin, es, at, i);
      ExplainedInOrder(m0, lin, es, at, k);
    }
  }

  /** A position below an answered operation's own has been answered before it. */
  lemma {:induction false} AnswerAt(m0: Store, lin: seq<LinOp>, es: seq<Event>, at: seq<nat>, i: nat) returns (k: nat)
    requires WellFormed(1, es) && Explains(1, m0, lin, es, at) && i < |es| && |at| == |es| && i < at[i]
    ensures k < i && at[k] == i
  {
    UnansweredLater(m0, lin, es, at, i, i);
    hide Explains;
    k :| k < |at| && at[k] == i;
    if i < k {
      AnsweredInTurn(m0, lin, es, at, i, k);
    }
  }

  lemma {:induction false} ExplainedAnswer(m0: Store, lin: seq<LinOp>, es: seq<Event>, at: seq<nat>, i: nat)
    requires WellFormed(1, es) && Explains(1, m0, lin, es, at) && i < |es|
    ensures i < |lin| && UpdateInfo(lin[i].call) == es[i].update
    ensures Answers(OneClient.Replay(m0, es[..i]), lin[i].call, es[i].resp)
  {
    ExplainedInOrder(m0, lin, es, at, i);
    forall j | 0 <= j <= i ensures Matching(lin[j], es[j]) {
      ExplainedInOrder(m0, lin, es, at, j);
      assert Matching(lin[at[j]], es[j]);
    }
    assert Answers(Linear.Replay(m0, lin[..i]), lin[i].call, lin[i].resp);
    hide Answers;
    hide Explains;
    ReplaysAgree(m0, lin[..i], es[..i]);
  }

  lemma {:induction false} ExplainedIsTrue(pool: set<string>, es: seq<Event>, calls: seq<KvCall>, d: nat,
                                           lin: seq<LinOp>, at: seq<nat>, i: nat)
    requires Told(pool, es, calls) && d <= |es| && i < d
    requires Explains(1, map[], lin, es[..d], at)
    ensures Answers(OneClient.Replay(map[], es[..i]), calls[i], es[i].resp)
  {
    hide Answers;
    hide Explains;
    PrefixWellFormed(1, es, d);
    ExplainedAnswer(map[], lin, es[..d], at, i);
    assert es[..d][..i] == es[..i];
    SameCall(OneClient.Replay(map[], es[..i]), lin[i].call, calls[i], es[i]);
  }

  /** The response and the update of an event determine its call. */
  lemma SameCall(m: Store, linCall: KvCall, call: KvCall, e: Event)
    requires Asked(call, e) && UpdateInfo(linCall) == e.update && Answers(m, linCall, e.resp)
    ensures linCall == call
  {
  }

  /** A one-client run of such responses passes exactly when some total order, on a store
      that starts empty, explains every response behind the watermark. */
  lemma {:induction false} PassesIffLinearizable(pool: set<string>, es: seq<Event>, calls: seq<KvCall>)
    requires Told(pool, es, calls)
    ensures Run(1, pool, es).1.None? <==>
      exists lin: seq<LinOp>, at: seq<nat> :: Explains(1, map[], lin, es[..Behind(es, Low(1, es))], at)
  {
    var d := Behind(es, Low(1, es));
    ToldTracked(pool, es, calls);
    hide Run;
    hide Accepts;
    hide Explains;
    OnlineRefinesOffline(1, pool, es);
    forall i | 0 <= i < |es|
      ensures Accepts(1, pool, es, es[i]) <==> Answers(OneClient.Replay(map[], es[..i]), calls[i], es[i].resp)
    {
      AcceptedIffTrue(pool, es, i, calls[i]);
    }
    if Run(1, pool, es).1.None? {
      TrueIsExplained(pool, es, calls, d);
    }
    if lin: seq<LinOp>, at: seq<nat> :| Explains(1, map[], lin, es[..d], at) {
      forall i | 0 <= i < d ensures Accepts(1, pool, es, es[i]) {
        ExplainedIsTrue(pool, es, calls, d, lin, at, i);
      }
    }
  }
}
