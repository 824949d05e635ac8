/** With a single client the checker is exact: it compares every response with the
    sequential map just before and just after the operation. */
module OneClient {
  import opened Wrappers
  import opened KvTypes
  import opened Spans
  import opened Online
  import opened Offline

  /** The map after the updates of a run, applied in response order. */
  function Replay(m0: Store, es: seq<Event>): Store {
    if es == [] then m0
    else
      var m := Replay(m0, es[..|es| - 1]);
      match es[|es| - 1].update
      case Some(u) => Write(m, u)
      case None => m
  }

  ghost predicate Untouched(pool: set<string>, m0: Store) {
    forall key :: key in pool ==> key !in m0
  }

  /** The response fits the map before the operation or the map after it. */
  ghost predicate FitsEither(pool: set<string>, before: Store, after: Store, resp: KvResp) {
    if resp.Scan? then
      && (forall i :: 0 <= i < |resp.entries| ==> InRange(resp.keyStart, resp.keyEnd, resp.entries[i].0))
      && (forall i, j :: 0 <= i < j < |resp.entries| ==> resp.entries[i].0 != resp.entries[j].0)
      && (forall key :: key in pool && InRange(resp.keyStart, resp.keyEnd, key) ==>
            Find(resp.entries, key) == Lookup(before, key) || Find(resp.entries, key) == Lookup(after, key))
    else
      match ClaimOf(resp)
      case Some((key, claim)) =>
        key in pool && (Matches(claim, Lookup(before, key)) || Matches(claim, Lookup(after, key)))
      case None => false
  }

  ghost predicate Fits(pool: set<string>, m0: Store, es: seq<Event>, i: nat)
    requires i < |es|
  {
    FitsEither(pool, Replay(m0, es[..i]), Replay(m0, es[..i + 1]), es[i].resp)
  }

  lemma {:induction false} LastSpanIsValue(m0: Store, es: seq<Event>, key: string)
    requires (forall i :: 0 <= i < |es| ==> es[i].cidx == 0) && key !in m0
    ensures var s := ClientSpans(es, key, 0);
      s != [] && s[|s| - 1].value == Lookup(Replay(m0, es), key)
  {
    if es == [] {
    } else {
      LastSpanIsValue(m0, es[..|es| - 1], key);
    }
  }

  /** Before the operation itself is recorded only the newest span is visible to it. */
  lemma VisibleBefore(s: seq<UpdateSpan>, tsCall: nat, tsResp: nat, claim: Claim)
    requires Sequential(s) && s != [] && tsCall < tsResp
    requires forall i :: 0 <= i < |s| ==> s[i].tsResp < tsCall
    ensures JustifiedBy(s, tsCall, tsResp, claim) <==> Matches(claim, s[|s| - 1].value)
  {
    assert Visible(s, tsCall, tsResp, |s| - 1);
  }

  lemma VisibleWithOwn(s: seq<UpdateSpan>, x: UpdateSpan, claim: Claim)
    requires Sequential(s) && s != [] && x.tsCall < x.tsResp
    requires forall i :: 0 <= i < |s| ==> s[i].tsResp < x.tsCall
    ensures JustifiedBy(s + [x], x.tsCall, x.tsResp, claim) <==>
      Matches(claim, s[|s| - 1].value) || Matches(claim, x.value)
  {
    var t := s + [x];
    assert Visible(t, x.tsCall, x.tsResp, |s|) && Visible(t, x.tsCall, x.tsResp, |s| - 1);
    assert t[|s| - 1] == s[|s| - 1];
  }

  /** When the only client makes a call, all it did before is complete. */
  lemma {:induction false} PastBehind(es: seq<Event>, i: nat, key: string)
    requires WellFormed(1, es) && i < |es|
    ensures es[i].tsCall < es[i].tsResp && forall j :: 0 <= j < |es| ==> es[j].cidx == 0
    ensures forall j :: i < j < |es| ==> es[i].tsResp < es[j].tsCall
    ensures var s := ClientSpans(es[..i], key, 0);
      s != [] && Sequential(s) && forall j :: 0 <= j < |s| ==> s[j].tsResp < es[i].tsCall
  {
    PrefixWellFormed(1, es, i);
    LogSequential(1, es[..i], key, 0);
    LastUpdateWitness(es[..i], 0);
  }

  lemma {:induction false} KeyVerdict(m0: Store, es: seq<Event>, i: nat, key: string, claim: Claim)
    requires WellFormed(1, es) && i < |es| && key !in m0
    ensures JustifiedBy(ClientSpans(es, key, 0), es[i].tsCall, es[i].tsResp, claim)
      <==> Matches(claim, Lookup(Replay(m0, es[..i]), key)) || Matches(claim, Lookup(Replay(m0, es[..i + 1]), key))
  {
    hide JustifiedBy;
    hide Matches;
    hide Lookup;
    hide Replay;
    hide WellFormed;
    hide Sequential;
    var e := es[i];
    var past, now := es[..i], es[..i + 1];
    assert now[..i] == past && now[i] == e;
    PastBehind(es, i, key);
    LastSpanIsValue(m0, past, key);
    var s := ClientSpans(past, key, 0);
    if ClientSpans(now, key, 0) == s {
      VisibleBefore(s, e.tsCall, e.tsResp, claim);
    } else {
      VisibleWithOwn(s, UpdateSpan(e.tsCall, e.tsResp, e.update.value.1), claim);
    }
    LastSpanIsValue(m0, now, key);
    LaterSpansInvisible(1, es, i + 1, key, 0, e.tsCall, e.tsResp, claim);
  }

  lemma {:induction false} RowVerdict(m0: Store, es: seq<Event>, i: nat, key: string, claim: Claim)
    requires WellFormed(1, es) && i < |es| && key !in m0
    ensures Justified(KeyLog(1, es, key), es[i].tsCall, es[i].tsResp, claim)
      <==> Matches(claim, Lookup(Replay(m0, es[..i]), key)) || Matches(claim, Lookup(Replay(m0, es[..i + 1]), key))
  {
    KeyVerdict(m0, es, i, key, claim);
    assert KeyLog(1, es, key)[0] == ClientSpans(es, key, 0);
  }

  /** The verdict on any response of a one-client run. */
  lemma ExactVerdict(pool: set<string>, m0: Store, es: seq<Event>, i: nat)
    requires WellFormed(1, es) && i < |es| && Untouched(pool, m0)
    ensures Accepts(1, pool, es, es[i]) <==> Fits(pool, m0, es, i)
  {
    forall key, claim | key in pool
      ensures Justified(FullTable(1, pool, es)[key], es[i].tsCall, es[i].tsResp, claim)
        <==> Matches(claim, Lookup(Replay(m0, es[..i]), key)) || Matches(claim, Lookup(Replay(m0, es[..i + 1]), key))
    {
      RowVerdict(m0, es, i, key, claim);
    }
  }

  /** Whole one-client runs, through all trimming: the online checker passes exactly
      the runs whose every checked response fits the sequential map. */
  lemma {:induction false} OnlineIsExact(pool: set<string>, m0: Store, es: seq<Event>)
    requires WellFormed(1, es) && Untouched(pool, m0)
    ensures Run(1, pool, es).1.None? <==>
      Tracked(pool, es) && forall i :: 0 <= i < Behind(es, Low(1, es)) ==> Fits(pool, m0, es, i)
  {
    hide Run;
    hide Fits;
    hide Accepts;
    OnlineRefinesOffline(1, pool, es);
    forall i | 0 <= i < |es| ensures Accepts(1, pool, es, es[i]) <==> Fits(pool, m0, es, i) {
      ExactVerdict(pool, m0, es, i);
    }
  }

  /** Read kind by kind, for a response of the kind its call asked for: a Get and a
      Scan must equal the map, a Swap may instead echo its own value, and a Put or
      Delete is only caught when it denies, or claims, a presence the map disproves. */
  lemma {:induction false} ExactByKind(pool: set<string>, m0: Store, es: seq<Event>, i: nat, call: KvCall)
    requires WellFormed(1, es) && i < |es| && Untouched(pool, m0) && es[i].update == UpdateInfo(call)
    ensures var before := Replay(m0, es[..i]);
      var ok := Accepts(1, pool, es, es[i]);
      match call
      case Put(key, value) => forall found :: es[i].resp == KvResp.Put(key, found) ==> (ok <==>
        key in pool && (found || key !in before))
      case Swap(key, value) => forall old' :: es[i].resp == KvResp.Swap(key, old') ==>
          (ok <==> key in pool && (old' == Lookup(before, key) || old' == Some(value)))
      case Get(key) => forall v :: es[i].resp == KvResp.Get(key, v) ==> (ok <==>
        key in pool && v == Lookup(before, key))
      case Delete(key) => forall found :: es[i].resp == KvResp.Delete(key, found) ==> (ok <==>
        key in pool && (!found || key in before))
      case Scan(a, b) => forall entries: Entries :: es[i].resp == KvResp.Scan(a, b, entries) ==>
          (ok <==> (forall j :: 0 <= j < |entries| ==> InRange(a, b, entries[j].0))
                   && (forall j, k :: 0 <= j < k < |entries| ==> entries[j].0 != entries[k].0)
                   && (forall key :: key in pool && InRange(a, b, key) ==> Find(entries, key) == Lookup(before, key)))
      case Stop => true
  {
    ExactVerdict(pool, m0, es, i);
    assert es[..i + 1][..i] == es[..i];
  }
}
