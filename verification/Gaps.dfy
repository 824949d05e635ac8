/** What the checker lets through: its acceptance is weaker than linearizability. */
module Gaps {
  import opened Wrappers
  import opened KvTypes
  import opened Spans
  import opened Online
  import opened Offline
  import opened Linear

  /** An operation is checked against a log that holds its own update. */
  lemma {:induction false} OwnUpdateJustifies(n: nat, es: seq<Event>, i: nat, claim: Claim)
    requires WellFormed(n, es) && i < |es| && es[i].update.Some? && Matches(claim, es[i].update.value.1)
    ensures Justified(KeyLog(n, es, es[i].update.value.0), es[i].tsCall, es[i].tsResp, claim)
  {
    var key, c := es[i].update.value.0, es[i].cidx;
    var s := ClientSpans(es, key, c);
    var p := EventHasSpan(es, key, i);
    LogSequential(n, es, key, c);
    assert Visible(s, es[i].tsCall, es[i].tsResp, p);
    assert KeyLog(n, es, key)[c] == s;
  }

  /** So a Put that reports an earlier value, a Delete that reports none, or a Swap that
      returns the value it has just written, always passes. */
  lemma {:induction false} BlindSpot(n: nat, pool: set<string>, es: seq<Event>, i: nat, key: string)
    requires WellFormed(n, es) && i < |es| && key in pool && es[i].update.Some? && es[i].update.value.0 == key
    requires || (es[i].resp == KvResp.Put(key, true) && es[i].update.value.1.Some?)
             || (es[i].resp == KvResp.Delete(key, false) && es[i].update.value.1.None?)
             || es[i].resp == KvResp.Swap(key, es[i].update.value.1)
    ensures Accepts(n, pool, es, es[i])
  {
    OwnUpdateJustifies(n, es, i, ClaimOf(es[i].resp).value.1);
  }

  // ---- The verdict on any response, read off the events of the run ----

  /** Event `x` is an update of the key by client `c`. */
  predicate Updates(es: seq<Event>, key: string, c: nat, x: nat)
    requires x < |es|
  {
    es[x].cidx == c && es[x].update.Some? && es[x].update.value.0 == key
  }

  ghost predicate UpdatedBefore(es: seq<Event>, key: string, c: nat, ts: nat) {
    exists x: nat :: x < |es| && Updates(es, key, c, x) && es[x].tsResp < ts
  }

  /** Client `c` wrote a value that matches the claim by an update it called before the
      response, and completed none of its later updates before the call. */
  ghost predicate WroteVisibly(es: seq<Event>, key: string, c: nat, i: nat, claim: Claim)
    requires i < |es|
  {
    exists x: nat :: x < |es| && VisibleWrite(es, key, c, i, x) && Matches(claim, es[x].update.value.1)
  }

  ghost predicate VisibleWrite(es: seq<Event>, key: string, c: nat, i: nat, x: nat)
    requires i < |es| && x < |es|
  {
    && Updates(es, key, c, x) && es[x].tsCall < es[i].tsResp
    && forall y: nat :: x < y < |es| && Updates(es, key, c, y) ==> es[i].tsCall <= es[y].tsResp
  }

  lemma {:induction false} DummySeen(n: nat, es: seq<Event>, i: nat, key: string, c: nat)
    requires WellFormed(n, es) && i < |es|
    ensures ClientSpans(es, key, c) != [] && ClientSpans(es, key, c)[0] == DUMMY
    ensures Visible(ClientSpans(es, key, c), es[i].tsCall, es[i].tsResp, 0) <==>
      !UpdatedBefore(es, key, c, es[i].tsCall)
  {
    var s := ClientSpans(es, key, c);
    ClientSpansNonEmpty(es, key, c);
    if UpdatedBefore(es, key, c, es[i].tsCall) {
      var x: nat :| x < |es| && Updates(es, key, c, x) && es[x].tsResp < es[i].tsCall;
      var p := EventHasSpan(es, key, x);
      assert s[p].tsResp < es[i].tsCall;
    } else {
      forall p | 0 < p < |s| ensures es[i].tsCall <= s[p].tsResp {
        var x := SpanHasEvent(es, key, c, p);
        assert Updates(es, key, c, x);
      }
    }
  }

  /** A client's spans are in the order of the updates they stand for. */
  lemma {:induction false} SpansInEventOrder(n: nat, es: seq<Event>, key: string, c: nat, p: nat, q: nat, x: nat,
                                             y: nat)
    requires WellFormed(n, es) && p < |ClientSpans(es, key, c)| && q < |ClientSpans(es, key, c)| && x < |es| && y < |es|
    requires ClientSpans(es, key, c)[p].tsResp == es[x].tsResp && ClientSpans(es, key, c)[q].tsResp == es[y].tsResp
    ensures p < q <==> x < y
  {
    var s := ClientSpans(es, key, c);
    LogSequential(n, es, key, c);
    assert p < q ==> s[p].tsResp < s[q].tsCall <= s[q].tsResp;
    assert q < p ==> s[q].tsResp < s[p].tsCall <= s[p].tsResp;
  }

  lemma {:induction false} SpanSeen(n: nat, es: seq<Event>, i: nat, key: string, c: nat, p: nat, x: nat)
    requires WellFormed(n, es) && i < |es| && x < |es| && Updates(es, key, c, x)
    requires 0 < p < |ClientSpans(es, key, c)|
    requires ClientSpans(es, key, c)[p] == UpdateSpan(es[x].tsCall, es[x].tsResp, es[x].update.value.1)
    ensures Visible(ClientSpans(es, key, c), es[i].tsCall, es[i].tsResp, p) <==> VisibleWrite(es, key, c, i, x)
  {
    hide ClientSpans;
    hide WellFormed;
    var s := ClientSpans(es, key, c);
    if Visible(s, es[i].tsCall, es[i].tsResp, p) {
      forall y: nat | x < y < |es| && Updates(es, key, c, y) ensures es[i].tsCall <= es[y].tsResp {
        var q := EventHasSpan(es, key, y);
        SpansInEventOrder(n, es, key, c, p, q, x, y);
      }
    }
    if VisibleWrite(es, key, c, i, x) {
      forall q | p < q < |s| ensures es[i].tsCall <= s[q].tsResp {
        var y := SpanHasEvent(es, key, c, q);
        SpansInEventOrder(n, es, key, c, p, q, x, y);
        assert Updates(es, key, c, y);
      }
    }
  }

  lemma {:induction false} ClientVerdict(n: nat, es: seq<Event>, i: nat, key: string, c: nat, claim: Claim)
    requires WellFormed(n, es) && i < |es|
    ensures JustifiedBy(ClientSpans(es, key, c), es[i].tsCall, es[i].tsResp, claim) <==> Vouches(es, key, c, i, claim)
  {
    hide ClientSpans;
    hide WellFormed;
    hide UpdatedBefore;
    hide Matches;
    var s := ClientSpans(es, key, c);
    DummySeen(n, es, i, key, c);
    if JustifiedBy(s, es[i].tsCall, es[i].tsResp, claim) {
      var p :| Visible(s, es[i].tsCall, es[i].tsResp, p) && Matches(claim, s[p].value);
      if p > 0 {
        var x := SpanHasEvent(es, key, c, p);
        SpanSeen(n, es, i, key, c, p, x);
      }
    }
    if WroteVisibly(es, key, c, i, claim) {
      var x: nat :| x < |es| && VisibleWrite(es, key, c, i, x) && Matches(claim, es[x].update.value.1);
      var p := EventHasSpan(es, key, x);
      SpanSeen(n, es, i, key, c, p, x);
    }
  }

  /** Client `c` wrote a matching value visibly or, where the claim allows an absent key,
      completed no update of the key before the call. */
  ghost predicate Vouches(es: seq<Event>, key: string, c: nat, i: nat, claim: Claim)
    requires i < |es|
  {
    (Matches(claim, None) && !UpdatedBefore(es, key, c, es[i].tsCall)) || WroteVisibly(es, key, c, i, claim)
  }

  ghost predicate SomeoneVouches(n: nat, es: seq<Event>, key: string, i: nat, claim: Claim)
    requires i < |es|
  {
    exists c: nat :: c < n && Vouches(es, key, c, i, claim)
  }

  lemma {:induction false} KeyAcceptedIff(n: nat, es: seq<Event>, i: nat, key: string, claim: Claim)
    requires WellFormed(n, es) && i < |es|
    ensures Justified(KeyLog(n, es, key), es[i].tsCall, es[i].tsResp, claim) <==> SomeoneVouches(n, es, key, i, claim)
  {
    hide Vouches;
    hide JustifiedBy;
    hide WellFormed;
    forall c: nat | c < n
      ensures JustifiedBy(KeyLog(n, es, key)[c], es[i].tsCall, es[i].tsResp, claim) <==> Vouches(es, key, c, i, claim)
    {
      ClientVerdict(n, es, i, key, c, claim);
    }
  }

  /** With any number of clients: a response on one pool key is accepted exactly when some
      client vouches for what it claims, and a Scan exactly when it lists distinct keys of
      its range and some client vouches for what it says, or leaves unsaid, of each pool key there. */
  lemma {:induction false} AcceptedIff(n: nat, pool: set<string>, es: seq<Event>, i: nat)
    requires WellFormed(n, es) && i < |es|
    ensures var resp := es[i].resp;
      Accepts(n, pool, es, es[i]) <==>
      if resp.Scan? then
        && (forall j :: 0 <= j < |resp.entries| ==> InRange(resp.keyStart, resp.keyEnd, resp.entries[j].0))
        && (forall j, k :: 0 <= j < k < |resp.entries| ==> resp.entries[j].0 != resp.entries[k].0)
        && (forall key :: key in pool && InRange(resp.keyStart, resp.keyEnd, key) ==>
              SomeoneVouches(n, es, key, i, Exactly(Find(resp.entries, key))))
      else
        ClaimOf(resp).Some? && ClaimOf(resp).value.0 in pool
        && SomeoneVouches(n, es, ClaimOf(resp).value.0, i, ClaimOf(resp).value.1)
  {
    hide SomeoneVouches;
    hide Justified;
    hide WellFormed;
    forall key, claim ensures
      Justified(KeyLog(n, es, key), es[i].tsCall, es[i].tsResp, claim) <==> SomeoneVouches(n, es, key, i, claim)
    {
      KeyAcceptedIff(n, es, i, key, claim);
    }
  }

  lemma DeletionMade(es: seq<Event>, key: string, c: nat, i: nat)
    requires i < |es| && WroteVisibly(es, key, c, i, Exactly(None))
    ensures exists x :: 0 <= x < |es| && es[x].update == Some((key, None))
  {
    var x: nat :| x < |es| && VisibleWrite(es, key, c, i, x) && Matches(Exactly(None), es[x].update.value.1);
    assert es[x].update.value == (es[x].update.value.0, None);
  }

  /** So for a key that nobody deletes, one client that completed no update of it before the
      call makes absence acceptable, whatever the others wrote; and nothing else does. */
  lemma {:induction false} IdleClientExcusesAbsence(n: nat, pool: set<string>, es: seq<Event>, i: nat, key: string)
    requires WellFormed(n, es) && i < |es| && key in pool && es[i].resp == KvResp.Get(key, None)
    requires forall x :: 0 <= x < |es| ==> es[x].update != Some((key, None))
    ensures Accepts(n, pool, es, es[i]) <==> exists c: nat :: c < n && !UpdatedBefore(es, key, c, es[i].tsCall)
  {
    hide UpdatedBefore;
    hide WellFormed;
    hide Accepts;
    hide WroteVisibly;
    AcceptedIff(n, pool, es, i);
    forall c: nat | c < n
      ensures Vouches(es, key, c, i, Exactly(None)) <==> !UpdatedBefore(es, key, c, es[i].tsCall)
    {
      if WroteVisibly(es, key, c, i, Exactly(None)) {
        DeletionMade(es, key, c, i);
      }
    }
  }

  // ---- A run that passes although no order explains it ----

  /** Client 0 writes the key; afterwards client 1 reads it as absent; both then write it again. */
  function StaleRead(key: string, value: string): seq<Event> {
    var put := Some((key, Some(value)));
    [Event(0, 1, 2, KvResp.Put(key, false), put),
     Event(1, 3, 4, KvResp.Get(key, None), None),
     Event(0, 5, 6, KvResp.Put(key, true), put),
     Event(1, 7, 8, KvResp.Put(key, true), put)]
  }

  lemma {:induction false} StaleReadTimes(key: string, value: string)
    ensures var es := StaleRead(key, value);
      && WellFormed(2, es) && Tracked({key}, es)
      && Low(2, es) == 6 && Behind(es, 6) == 2
  {
    var es := StaleRead(key, value);
    assert es[..3] == [es[0], es[1], es[2]];
    assert LastUpdate(es, 1) == 8;
    assert LastUpdate(es[..3], 0) == 6;
    assert Watermarks(2, es) == [6, 8];
    assert MinOf([6, 8], 0) == 6;
    BehindUnique(es, 6, 2);
  }

  lemma {:induction false} StaleReadPasses(key: string, value: string)
    ensures Run(2, {key}, StaleRead(key, value)).1.None?
  {
    var es, pool := StaleRead(key, value), {key};
    StaleReadTimes(key, value);
    FirstPutAccepted(key, value);
    assert !UpdatedBefore(es, key, 1, es[1].tsCall);
    IdleClientExcusesAbsence(2, pool, es, 1, key);
    OnlineRefinesOffline(2, pool, es);
  }

  lemma {:induction false} FirstPutAccepted(key: string, value: string)
    ensures Accepts(2, {key}, StaleRead(key, value), StaleRead(key, value)[0])
  {
    var es := StaleRead(key, value);
    StaleReadTimes(key, value);
    var s := ClientSpans(es, key, 1);
    ClientSpansNonEmpty(es, key, 1);
    forall p | 0 < p < |s| ensures 1 <= s[p].tsResp {
      var x := SpanHasEvent(es, key, 1, p);
    }
    assert Visible(s, 1, 2, 0);
    assert KeyLog(2, es, key)[1] == s;
  }

  lemma {:induction false} StaleReadPlaces(key: string, value: string, m0: Store, lin: seq<LinOp>, at: seq<nat>)
    requires Explains(2, m0, lin, StaleRead(key, value), at)
    ensures |at| == 4 && at[0] < at[1] < |lin| && at[1] < at[2] && at[1] < at[3]
    ensures Writes(lin[at[0]], key) && UpdateInfo(lin[at[0]].call).value.1 == Some(value)
    ensures lin[at[1]].resp == KvResp.Get(key, None)
    ensures forall j :: 0 <= j < |lin| && 4 < lin[j].tsCall ==> at[1] < j
    ensures forall j :: 0 <= j < |lin| && j !in at ==> 4 < lin[j].tsCall
  {
    var es := StaleRead(key, value);
    hide Legal;
    hide Replay;
    assert Matching(lin[at[0]], es[0]) && Matching(lin[at[1]], es[1]);
    assert Matching(lin[at[2]], es[2]) && Matching(lin[at[3]], es[3]);
    forall j | 0 <= j < |lin| && j !in at ensures 4 < lin[j].tsCall {
      assert InFlight(lin[j], es);
      assert es[2].tsResp == 6 && es[3].tsResp == 8;
    }
    forall j | 0 <= j < |lin| && 4 < lin[j].tsCall ensures at[1] < j {
      assert es[1].tsResp < lin[j].tsCall;
    }
  }

  /** In any order that explains the run, nothing but the first write precedes the read. */
  lemma {:induction false} StaleReadOrder(key: string, value: string, m0: Store, lin: seq<LinOp>, at: seq<nat>, j: nat)
    requires Explains(2, m0, lin, StaleRead(key, value), at) && j < |lin|
    ensures |at| == 4 && (j < at[1] ==> j == at[0])
  {
    StaleReadPlaces(key, value, m0, lin, at);
    hide Explains;
    if j in at {
      var i :| 0 <= i < |at| && at[i] == j;
      assert i == 0 || i == 1 || i == 2 || i == 3;
    }
  }

  lemma {:induction false} ReadMustSeeWrite(key: string, value: string, m0: Store, lin: seq<LinOp>, at: seq<nat>)
    requires Explains(2, m0, lin, StaleRead(key, value), at) && key !in m0
    ensures |at| == 4 && at[1] < |lin| && Lookup(Replay(m0, lin[..at[1]]), key) == Some(value)
  {
    StaleReadPlaces(key, value, m0, lin, at);
    var w := LastWriter(m0, lin, at[1], key);
    assert w >= at[0];
    StaleReadOrder(key, value, m0, lin, at, w);
  }

  lemma {:induction false} ReadSawNothing(key: string, value: string, m0: Store, lin: seq<LinOp>, at: seq<nat>)
    requires Explains(2, m0, lin, StaleRead(key, value), at)
    ensures |at| == 4 && at[1] < |lin| && Lookup(Replay(m0, lin[..at[1]]), key) == None
  {
    StaleReadPlaces(key, value, m0, lin, at);
    assert Answers(Replay(m0, lin[..at[1]]), lin[at[1]].call, lin[at[1]].resp);
  }

  /** The checker passes this run, and yet no total order on any store without the key explains it. */
  lemma {:induction false} AcceptanceIsNotLinearizability(key: string, value: string, m0: Store, lin: seq<LinOp>,
                                                          at: seq<nat>)
    requires key !in m0
    ensures Run(2, {key}, StaleRead(key, value)).1.None?
    ensures !Explains(2, m0, lin, StaleRead(key, value), at)
  {
    StaleReadPasses(key, value);
    if Explains(2, m0, lin, StaleRead(key, value), at) {
      ReadMustSeeWrite(key, value, m0, lin, at);
      ReadSawNothing(key, value, m0, lin, at);
    }
  }
}
