/** The offline checker, which reads the complete update log of a whole run, and
    the proof that the trimmed online checker reaches the same verdicts. */
module Offline {
  import opened Wrappers
  import opened Spans
  import opened Online

  /** Clients are sequential and response times increase along the run. */
  ghost predicate WellFormed(n: nat, es: seq<Event>) {
    && (forall i :: 0 <= i < |es| ==> es[i].cidx < n && 0 < es[i].tsCall < es[i].tsResp)
    && (forall i, j :: 0 <= i < j < |es| ==> es[i].tsResp < es[j].tsResp)
    && (forall i, j :: 0 <= i < j < |es| && es[i].cidx == es[j].cidx ==> es[i].tsResp < es[j].tsCall)
  }

  ghost predicate Tracked(pool: set<string>, es: seq<Event>) {
    forall i :: 0 <= i < |es| && es[i].update.Some? ==> es[i].update.value.0 in pool
  }

  function EntriesOf(es: seq<Event>): seq<QueuedSpan> {
    seq(|es|, i requires 0 <= i < |es| => Entry(es[i]))
  }

  /** Everything one client did to one key, never trimmed. */
  function ClientSpans(es: seq<Event>, key: string, c: nat): seq<UpdateSpan> {
    if es == [] then [DUMMY]
    else
      var s := ClientSpans(es[..|es| - 1], key, c);
      var e := es[|es| - 1];
      if e.cidx == c && e.update.Some? && e.update.value.0 == key
      then s + [UpdateSpan(e.tsCall, e.tsResp, e.update.value.1)]
      else s
  }

  function KeyLog(n: nat, es: seq<Event>, key: string): seq<seq<UpdateSpan>> {
    seq(n, c requires 0 <= c => ClientSpans(es, key, c))
  }

  function FullTable(n: nat, pool: set<string>, es: seq<Event>): SpanTable {
    map key | key in pool :: KeyLog(n, es, key)
  }

  /** The offline verdict on one response, from the complete log of the run. */
  ghost predicate Accepts(n: nat, pool: set<string>, es: seq<Event>, e: Event) {
    CallJustified(FullTable(n, pool, es), Entry(e))
  }

  /** The response time of the client's last update, 0 before the first. */
  function LastUpdate(es: seq<Event>, c: nat): nat {
    if es == [] then 0
    else
      var e := es[|es| - 1];
      if e.cidx == c && e.update.Some? then e.tsResp else LastUpdate(es[..|es| - 1], c)
  }

  function Watermarks(n: nat, es: seq<Event>): seq<nat> {
    seq(n, c requires 0 <= c => LastUpdate(es, c))
  }

  function Low(n: nat, es: seq<Event>): nat {
    MinOf(Watermarks(n, es), 0)
  }

  /** How many responses lie before the watermark of every client. */
  function Behind(es: seq<Event>, low: nat): (d: nat)
    ensures d <= |es|
    ensures forall i :: 0 <= i < d ==> es[i].tsResp < low
    ensures d < |es| ==> low <= es[d].tsResp
  {
    if es == [] || low <= es[0].tsResp then 0
    else
      var d := Behind(es[1..], low);
      assert forall i :: 1 <= i <= d ==> es[i] == es[1..][i - 1];
      1 + d
  }

  // ---- The log of a well-formed run ----

  ghost predicate Sequential(s: seq<UpdateSpan>) {
    && (forall i :: 0 <= i < |s| ==> s[i].tsCall <= s[i].tsResp)
    && (forall i, j :: 0 <= i < j < |s| ==> s[i].tsResp < s[j].tsCall)
  }

  lemma {:induction false} PrefixWellFormed(n: nat, es: seq<Event>, m: nat)
    requires WellFormed(n, es) && m <= |es|
    ensures WellFormed(n, es[..m])
  {
  }

  /** The watermark is the response time of an event of the client, or 0. */
  lemma {:induction false} LastUpdateWitness(es: seq<Event>, c: nat)
    ensures LastUpdate(es, c) == 0 || exists i :: 0 <= i < |es| && es[i].cidx == c && es[i].tsResp == LastUpdate(es, c)
  {
    if es == [] {
    } else {
      var es' := es[..|es| - 1];
      LastUpdateWitness(es', c);
      if LastUpdate(es', c) != 0 {
        var i :| 0 <= i < |es'| && es'[i].cidx == c && es'[i].tsResp == LastUpdate(es', c);
        assert es[i] == es'[i];
      }
    }
  }

  lemma {:induction false} LastUpdateBeforeCall(n: nat, es: seq<Event>, c: nat)
    requires WellFormed(n, es) && es != []
    ensures var e := es[|es| - 1];
      e.tsCall < e.tsResp && (e.cidx == c ==> LastUpdate(es[..|es| - 1], c) < e.tsCall)
  {
    LastUpdateWitness(es[..|es| - 1], c);
  }

  lemma {:induction false} LogSequential(n: nat, es: seq<Event>, key: string, c: nat)
    requires WellFormed(n, es)
    ensures var s := ClientSpans(es, key, c);
      s != [] && Sequential(s) && forall i :: 0 <= i < |s| ==> s[i].tsResp <= LastUpdate(es, c)
  {
    if es == [] {
    } else {
      hide WellFormed;
      PrefixWellFormed(n, es, |es| - 1);
      LogSequential(n, es[..|es| - 1], key, c);
      LastUpdateBeforeCall(n, es, c);
    }
  }

  lemma {:induction false} WatermarkGrows(n: nat, es: seq<Event>, m: nat, c: nat)
    requires WellFormed(n, es) && m <= |es|
    ensures LastUpdate(es[..m], c) <= LastUpdate(es, c)
    decreases |es|
  {
    hide WellFormed;
    if m == |es| {
      assert es[..m] == es;
    } else {
      PrefixWellFormed(n, es, |es| - 1);
      WatermarkGrows(n, es[..|es| - 1], m, c);
      assert es[..|es| - 1][..m] == es[..m];
      LastUpdateBeforeCall(n, es, c);
    }
  }

  lemma LowGrows(n: nat, es: seq<Event>, m: nat)
    requires WellFormed(n, es) && m <= |es|
    ensures Low(n, es[..m]) <= Low(n, es)
  {
    if n > 0 {
      var c :| 0 <= c < n && Watermarks(n, es)[c] == Low(n, es);
      WatermarkGrows(n, es, m, c);
      assert Watermarks(n, es[..m])[c] <= Low(n, es);
    }
  }

  // ---- Early decisions are final ----

  lemma AppendInvisible(s: seq<UpdateSpan>, x: UpdateSpan, tsCall: nat, tsResp: nat, claim: Claim)
    requires tsResp <= x.tsCall && tsCall <= x.tsResp
    ensures JustifiedBy(s + [x], tsCall, tsResp, claim) == JustifiedBy(s, tsCall, tsResp, claim)
  {
    var t := s + [x];
    forall i | 0 <= i < |s| ensures Visible(t, tsCall, tsResp, i) == Visible(s, tsCall, tsResp, i) {
      assert t[i] == s[i];
      assert forall j :: i < j < |s| ==> t[j] == s[j];
    }
    if JustifiedBy(s, tsCall, tsResp, claim) {
      var i :| Visible(s, tsCall, tsResp, i) && Matches(claim, s[i].value);
      assert Visible(t, tsCall, tsResp, i);
    }
  }

  /** Updates called after a response do not change which claims it may make. */
  lemma {:induction false} LaterSpansInvisible(n: nat, es: seq<Event>, m: nat, key: string, c: nat,
                                               tsCall: nat, tsResp: nat, claim: Claim)
    requires WellFormed(n, es) && m <= |es| && tsCall < tsResp
    requires forall i :: m <= i < |es| && es[i].cidx == c ==> tsResp < es[i].tsCall
    ensures JustifiedBy(ClientSpans(es[..m], key, c), tsCall, tsResp, claim)
         == JustifiedBy(ClientSpans(es, key, c), tsCall, tsResp, claim)
    decreases |es|
  {
    if m == |es| {
      assert es[..m] == es;
    } else {
      var es' := es[..|es| - 1];
      var e := es[|es| - 1];
      PrefixWellFormed(n, es, |es| - 1);
      assert es'[..m] == es[..m];
      LaterSpansInvisible(n, es', m, key, c, tsCall, tsResp, claim);
      if ClientSpans(es, key, c) != ClientSpans(es', key, c) {
        AppendInvisible(ClientSpans(es', key, c), UpdateSpan(e.tsCall, e.tsResp, e.update.value.1),
                        tsCall, tsResp, claim);
      }
    }
  }

  lemma TablesAgree(a: SpanTable, b: SpanTable, entry: QueuedSpan)
    requires a.Keys == b.Keys
    requires forall key, claim :: key in a ==>
               Justified(a[key], entry.tsCall, entry.tsResp, claim) ==
                 Justified(b[key], entry.tsCall, entry.tsResp, claim)
    ensures CallJustified(a, entry) == CallJustified(b, entry)
  {
  }

  lemma RowsAgree(a: seq<seq<UpdateSpan>>, b: seq<seq<UpdateSpan>>, tsCall: nat, tsResp: nat, claim: Claim)
    requires |a| == |b|
    requires forall c :: 0 <= c < |a| ==>
      JustifiedBy(a[c], tsCall, tsResp, claim) == JustifiedBy(b[c], tsCall, tsResp, claim)
    ensures Justified(a, tsCall, tsResp, claim) == Justified(b, tsCall, tsResp, claim)
  {
  }

  /** Every call made before a response older than all watermarks is already answered:
      the calls answered later were made after it. */
  lemma LaterCallsAreLater(n: nat, es: seq<Event>, m: nat, tsResp: nat)
    requires WellFormed(n, es) && m <= |es| && tsResp < Low(n, es[..m])
    ensures forall i :: m <= i < |es| ==> tsResp < es[i].tsCall
  {
    forall i | m <= i < |es| ensures tsResp < es[i].tsCall {
      var c := es[i].cidx;
      assert Watermarks(n, es[..m])[c] == LastUpdate(es[..m], c);
      LastUpdateWitness(es[..m], c);
    }
  }

  /** A response older than every watermark keeps its verdict whatever the run does
      next. */
  lemma DecisionIsFinal(n: nat, pool: set<string>, es: seq<Event>, m: nat, e: Event)
    requires WellFormed(n, es) && m <= |es|
    requires e.tsCall < e.tsResp < Low(n, es[..m])
    ensures Accepts(n, pool, es[..m], e) == Accepts(n, pool, es, e)
  {
    LaterCallsAreLater(n, es, m, e.tsResp);
    var now, whole := FullTable(n, pool, es[..m]), FullTable(n, pool, es);
    forall key, claim | key in pool
      ensures Justified(now[key], e.tsCall, e.tsResp, claim) == Justified(whole[key], e.tsCall, e.tsResp, claim)
    {
      forall c | 0 <= c < n
        ensures JustifiedBy(now[key][c], e.tsCall, e.tsResp, claim) ==
          JustifiedBy(whole[key][c], e.tsCall, e.tsResp, claim)
      {
        LaterSpansInvisible(n, es, m, key, c, e.tsCall, e.tsResp, claim);
      }
      RowsAgree(now[key], whole[key], e.tsCall, e.tsResp, claim);
    }
    TablesAgree(now, whole, Entry(e));
  }

  // ---- Trimming is safe and tight ----

  /** `kept` is a non-empty suffix of the full log; whatever was cut off lies behind
      a kept span that every queued and every future call started after. */
  ghost predicate SafeSuffix(kept: seq<UpdateSpan>, full: seq<UpdateSpan>, low: nat, queue: seq<QueuedSpan>) {
    && 0 < |kept| <= |full|
    && kept == full[|full| - |kept|..]
    && (|kept| < |full| ==>
          kept[0].tsResp < low && forall i :: 0 <= i < |queue| ==> kept[0].tsResp < queue[i].tsCall)
  }

  /** Cut spans are never reached by the reverse scan of a call that started after the head. */
  lemma SuffixSameVerdict(kept: seq<UpdateSpan>, full: seq<UpdateSpan>, tsCall: nat, tsResp: nat, claim: Claim)
    requires 0 < |kept| <= |full| && kept == full[|full| - |kept|..]
    requires |kept| < |full| ==> kept[0].tsResp < tsCall
    ensures JustifiedBy(kept, tsCall, tsResp, claim) == JustifiedBy(full, tsCall, tsResp, claim)
  {
    var cut := |full| - |kept|;
    if JustifiedBy(full, tsCall, tsResp, claim) {
      var i :| Visible(full, tsCall, tsResp, i) && Matches(claim, full[i].value);
      assert full[cut] == kept[0];
      assert Visible(kept, tsCall, tsResp, i - cut);
    }
    if JustifiedBy(kept, tsCall, tsResp, claim) {
      var i :| Visible(kept, tsCall, tsResp, i) && Matches(claim, kept[i].value);
      forall j | cut + i < j < |full| ensures tsCall <= full[j].tsResp {
        assert full[j] == kept[j - cut];
      }
      assert Visible(full, tsCall, tsResp, cut + i);
    }
  }

  lemma {:induction false} KeepTsWitness(s: seq<UpdateSpan>, low: nat, queued: nat)
    returns (w: int)
    ensures -1 <= w < |s|
    ensures KeepTs(s, low, queued) == if w < 0 then 0 else s[w].tsCall
    ensures w >= 0 ==> s[w].tsResp < low && s[w].tsResp < queued
    ensures forall j :: w < j < |s| ==> !(s[j].tsResp < low && s[j].tsResp < queued)
  {
    if s == [] {
      w := -1;
    } else if s[|s| - 1].tsResp < low && s[|s| - 1].tsResp < queued {
      w := |s| - 1;
    } else {
      w := KeepTsWitness(s[..|s| - 1], low, queued);
    }
  }

  lemma {:induction false} DropHeadsTo(s: seq<UpdateSpan>, w: nat)
    requires Sequential(s) && w < |s|
    ensures DropHeads(s, s[w].tsCall) == s[w..]
  {
    if w == 0 {
    } else {
      assert s[0].tsResp < s[w].tsCall;
      assert s[1..][w - 1] == s[w];
      DropHeadsTo(s[1..], w - 1);
      assert s[1..][w - 1..] == s[w..];
    }
  }

  /** Trimming cuts exactly the spans older than the newest one behind both horizons,
      so only the head of what remains may still be behind both. */
  lemma TrimIsSafeAndTight(s: seq<UpdateSpan>, low: nat, queued: nat)
    requires Sequential(s) && s != []
    ensures var kept := Trim(s, low, queued);
      && 0 < |kept| <= |s| && kept == s[|s| - |kept|..]
      && (|kept| < |s| ==> kept[0].tsResp < low && kept[0].tsResp < queued)
      && (forall j :: 1 <= j < |kept| ==> low <= kept[j].tsResp || queued <= kept[j].tsResp)
  {
    var w := KeepTsWitness(s, low, queued);
    if w >= 0 {
      DropHeadsTo(s, w);
    }
  }

  /** With no call queued the second horizon is the largest timestamp, which holds nothing back. */
  lemma {:induction false} NoQueueNoHorizon(s: seq<UpdateSpan>, low: nat, queued: nat)
    requires forall i :: 0 <= i < |s| ==> s[i].tsResp < queued && s[i].tsResp < 0xFFFF_FFFF_FFFF_FFFF
    ensures Trim(s, low, MinOf(Calls([]), U64_MAX)) == Trim(s, low, queued)
  {
    SameKeepTs(s, low, U64_MAX, queued);
    assert Calls([]) == [];
  }

  lemma {:induction false} SameKeepTs(s: seq<UpdateSpan>, low: nat, a: nat, b: nat)
    requires forall i :: 0 <= i < |s| ==> s[i].tsResp < a && s[i].tsResp < b
    ensures KeepTs(s, low, a) == KeepTs(s, low, b)
  {
    if s == [] {
    } else {
      SameKeepTs(s[..|s| - 1], low, a, b);
    }
  }

  // ---- The online run follows the offline one ----

  lemma {:induction false} DecideSpec(queue: seq<QueuedSpan>, spans: SpanTable, low: nat) returns (p: nat)
    ensures p <= |queue|
    ensures forall i :: 0 <= i < p ==> queue[i].tsResp < low && CallJustified(spans, queue[i])
    ensures var (rest, verdict) := Decide(queue, spans, low);
      match verdict
      case None => rest == queue[p..] && (p < |queue| ==> low <= queue[p].tsResp)
      case Some(failed) => p < |queue| && queue[p].tsResp < low && !CallJustified(spans, queue[p])
                           && failed == Some(queue[p].resp) && rest == queue[p + 1..]
  {
    p := 0;
    if queue == [] || queue[0].tsResp >= low || !CallJustified(spans, queue[0]) {
    } else {
      var q := DecideSpec(queue[1..], spans, low);
      p := q + 1;
      assert queue[1..][q..] == queue[p..];
      assert forall i :: 1 <= i < |queue| ==> queue[i] == queue[1..][i - 1];
      if q < |queue[1..]| {
        assert queue[1..][q + 1..] == queue[p + 1..];
      }
    }
  }

  ghost predicate SafeTable(n: nat, pool: set<string>, es: seq<Event>, spans: SpanTable, queue: seq<QueuedSpan>) {
    && spans.Keys == pool
    && forall key :: key in pool ==> SafeRow(n, es, key, spans[key], queue)
  }

  ghost predicate SafeRow(n: nat, es: seq<Event>, key: string, row: seq<seq<UpdateSpan>>, queue: seq<QueuedSpan>) {
    |row| == n && forall c :: 0 <= c < n ==> SafeSuffix(row[c], ClientSpans(es, key, c), Low(n, es), queue)
  }

  /** The state of the online checker after `es`: the first `d` responses are
      decided, the others queued in order, and every list is a safe suffix. */
  ghost predicate Tracks(n: nat, pool: set<string>, es: seq<Event>, h: Hist, d: nat) {
    && d <= |es|
    && h.maxtr == Watermarks(n, es)
    && h.queue == EntriesOf(es[d..])
    && (forall i :: 0 <= i < d ==> es[i].tsResp < Low(n, es))
    && (forall i :: d <= i < |es| ==> Low(n, es) <= es[i].tsResp)
    && SafeTable(n, pool, es, h.spans, h.queue)
  }

  /** The trimmed table decides a queued response as the full log does. */
  lemma SafeTableDecides(n: nat, pool: set<string>, es: seq<Event>, spans: SpanTable, queue: seq<QueuedSpan>, i: nat)
    requires SafeTable(n, pool, es, spans, queue) && i < |queue|
    ensures CallJustified(spans, queue[i]) == CallJustified(FullTable(n, pool, es), queue[i])
  {
    var full := FullTable(n, pool, es);
    var q := queue[i];
    forall key, claim | key in pool
      ensures Justified(spans[key], q.tsCall, q.tsResp, claim) == Justified(full[key], q.tsCall, q.tsResp, claim)
    {
      assert SafeRow(n, es, key, spans[key], queue);
      forall c | 0 <= c < n
        ensures JustifiedBy(spans[key][c], q.tsCall, q.tsResp, claim) ==
          JustifiedBy(full[key][c], q.tsCall, q.tsResp, claim)
      {
        SuffixSameVerdict(spans[key][c], full[key][c], q.tsCall, q.tsResp, claim);
      }
      RowsAgree(spans[key], full[key], q.tsCall, q.tsResp, claim);
    }
    TablesAgree(spans, full, q);
  }

  /** A client whose last update is below no watermark starts its next call after all of them. */
  lemma NextCallAboveLow(n: nat, es: seq<Event>)
    requires WellFormed(n, es) && es != []
    ensures Low(n, es[..|es| - 1]) < es[|es| - 1].tsCall
  {
    var es' := es[..|es| - 1];
    var c := es[|es| - 1].cidx;
    assert Watermarks(n, es')[c] == LastUpdate(es', c);
    LastUpdateWitness(es', c);
  }

  /** Queueing one more response and raising the watermark keeps an untouched list safe. */
  lemma SafeSuffixKept(n: nat, es: seq<Event>, kept: seq<UpdateSpan>, full: seq<UpdateSpan>, queue: seq<QueuedSpan>)
    requires WellFormed(n, es) && es != []
    requires SafeSuffix(kept, full, Low(n, es[..|es| - 1]), queue)
    ensures SafeSuffix(kept, full, Low(n, es), queue + [Entry(es[|es| - 1])])
  {
    NextCallAboveLow(n, es);
    LowGrows(n, es, |es| - 1);
  }

  lemma SafeSuffixPushed(kept: seq<UpdateSpan>, full: seq<UpdateSpan>, low: nat, queue: seq<QueuedSpan>, x: UpdateSpan)
    requires SafeSuffix(kept, full, low, queue)
    ensures SafeSuffix(kept + [x], full + [x], low, queue)
  {
  }

  lemma SafeSuffixTrimmed(kept: seq<UpdateSpan>, full: seq<UpdateSpan>, low: nat, queue: seq<QueuedSpan>)
    requires SafeSuffix(kept, full, low, queue) && Sequential(full)
    ensures SafeSuffix(Trim(kept, low, MinOf(Calls(queue), U64_MAX)), full, low, queue)
  {
    hide Sequential;
    hide Trim;
    var queued := MinOf(Calls(queue), U64_MAX);
    SuffixSequential(kept, full);
    TrimIsSafeAndTight(kept, low, queued);
    var trimmed := Trim(kept, low, queued);
    SuffixOfSuffix(trimmed, kept, full);
    BeforeQueued(queue, trimmed[0].tsResp);
  }

  lemma BeforeQueued(queue: seq<QueuedSpan>, t: nat)
    ensures t < MinOf(Calls(queue), U64_MAX) ==> forall i :: 0 <= i < |queue| ==> t < queue[i].tsCall
  {
    assert forall i :: 0 <= i < |queue| ==> Calls(queue)[i] == queue[i].tsCall;
  }

  lemma SuffixOfSuffix(inner: seq<UpdateSpan>, middle: seq<UpdateSpan>, outer: seq<UpdateSpan>)
    requires |inner| <= |middle| <= |outer|
    requires inner == middle[|middle| - |inner|..] && middle == outer[|outer| - |middle|..]
    ensures inner == outer[|outer| - |inner|..]
  {
  }

  lemma RowAfterRead(n: nat, es: seq<Event>, key: string, row: seq<seq<UpdateSpan>>, queue: seq<QueuedSpan>)
    requires WellFormed(n, es) && es != []
    requires SafeRow(n, es[..|es| - 1], key, row, queue)
    requires var u := es[|es| - 1].update; u.None? || u.value.0 != key
    ensures SafeRow(n, es, key, row, queue + [Entry(es[|es| - 1])])
  {
    forall c | 0 <= c < n
      ensures SafeSuffix(row[c], ClientSpans(es, key, c), Low(n, es), queue + [Entry(es[|es| - 1])])
    {
      SafeSuffixKept(n, es, row[c], ClientSpans(es[..|es| - 1], key, c), queue);
    }
  }

  lemma RowAfterUpdate(n: nat, es: seq<Event>, key: string, row: seq<seq<UpdateSpan>>, queue: seq<QueuedSpan>)
    requires WellFormed(n, es) && es != []
    requires SafeRow(n, es[..|es| - 1], key, row, queue)
    requires var u := es[|es| - 1].update; u.Some? && u.value.0 == key
    ensures var e := es[|es| - 1];
      var queue1 := queue + [Entry(e)];
      var pushed := Push(row, e.cidx, UpdateSpan(e.tsCall, e.tsResp, e.update.value.1));
      SafeRow(n, es, key, TrimAll(pushed, Low(n, es), MinOf(Calls(queue1), U64_MAX)), queue1)
  {
    var e := es[|es| - 1];
    var x := UpdateSpan(e.tsCall, e.tsResp, e.update.value.1);
    var queue1 := queue + [Entry(e)];
    var pushed := Push(row, e.cidx, x);
    var trimmed := TrimAll(pushed, Low(n, es), MinOf(Calls(queue1), U64_MAX));
    forall c | 0 <= c < n
      ensures SafeSuffix(trimmed[c], ClientSpans(es, key, c), Low(n, es), queue1)
    {
      var before := ClientSpans(es[..|es| - 1], key, c);
      SafeSuffixKept(n, es, row[c], before, queue);
      if c == e.cidx {
        SafeSuffixPushed(row[c], before, Low(n, es), queue1, x);
      }
      LogSequential(n, es, key, c);
      SafeSuffixTrimmed(pushed[c], ClientSpans(es, key, c), Low(n, es), queue1);
    }
  }

  lemma QueueGrows(es: seq<Event>, d: nat)
    requires es != [] && d < |es|
    ensures EntriesOf(es[..|es| - 1][d..]) + [Entry(es[|es| - 1])] == EntriesOf(es[d..])
  {
  }

  lemma ReadTracks(n: nat, pool: set<string>, es: seq<Event>, h: Hist, d: nat)
    requires WellFormed(n, es) && es != [] && es[|es| - 1].update.None?
    requires Tracks(n, pool, es[..|es| - 1], h, d)
    ensures Observe(h, es[|es| - 1]).1 == None
    ensures Tracks(n, pool, es, Observe(h, es[|es| - 1]).0, d)
  {
    var es' := es[..|es| - 1];
    assert Watermarks(n, es) == Watermarks(n, es');
    QueueGrows(es, d);
    NextCallAboveLow(n, es);
    forall key | key in pool ensures SafeRow(n, es, key, h.spans[key], EntriesOf(es[d..])) {
      RowAfterRead(n, es, key, h.spans[key], h.queue);
    }
  }

  lemma WatermarksAfterUpdate(n: nat, es: seq<Event>)
    requires WellFormed(n, es) && es != [] && es[|es| - 1].update.Some?
    ensures Watermarks(n, es) == Watermarks(n, es[..|es| - 1])[es[|es| - 1].cidx := es[|es| - 1].tsResp]
  {
  }

  /** The row an update pushes to and trims is safe, and so are the rows it does not touch. */
  lemma UpdatedTableSafe(n: nat, pool: set<string>, es: seq<Event>, spans: SpanTable, queue: seq<QueuedSpan>)
    requires WellFormed(n, es) && es != [] && es[|es| - 1].update.Some?
    requires es[|es| - 1].update.value.0 in pool
    requires SafeTable(n, pool, es[..|es| - 1], spans, queue)
    ensures var e := es[|es| - 1];
      var (key, value) := e.update.value;
      var queue1 := queue + [Entry(e)];
      var row := TrimAll(Push(spans[key], e.cidx, UpdateSpan(e.tsCall, e.tsResp, value)), Low(n, es),
        MinOf(Calls(queue1), U64_MAX));
      SafeTable(n, pool, es, spans[key := row], queue1)
  {
    var e := es[|es| - 1];
    var (key, value) := e.update.value;
    var queue1 := queue + [Entry(e)];
    var row := TrimAll(Push(spans[key], e.cidx, UpdateSpan(e.tsCall, e.tsResp, value)), Low(n, es),
      MinOf(Calls(queue1), U64_MAX));
    var spans1 := spans[key := row];
    assert spans1.Keys == pool;
    forall k | k in pool ensures SafeRow(n, es, k, spans1[k], queue1) {
      assert SafeRow(n, es[..|es| - 1], k, spans[k], queue);
      if k == key {
        RowAfterUpdate(n, es, k, spans[k], queue);
      } else {
        RowAfterRead(n, es, k, spans[k], queue);
      }
    }
  }

  lemma StillBehind(n: nat, es: seq<Event>, d: nat)
    requires WellFormed(n, es) && d < |es|
    requires var es' := es[..|es| - 1]; forall i :: 0 <= i < d ==> es'[i].tsResp < Low(n, es')
    ensures forall i :: 0 <= i < d ==> es[i].tsResp < Low(n, es)
  {
    LowGrows(n, es, |es| - 1);
    var es' := es[..|es| - 1];
    assert forall i :: 0 <= i < d ==> es'[i] == es[i];
  }

  /** What an update does to a tracked state: the table stays safe for every response
      then in the queue, and the queue is decided against that table. */
  lemma ObserveUpdate(n: nat, pool: set<string>, es: seq<Event>, h: Hist, d: nat) returns (h1: Hist, verdict: Verdict)
    requires WellFormed(n, es) && es != [] && es[|es| - 1].update.Some?
    requires es[|es| - 1].update.value.0 in pool
    requires Tracks(n, pool, es[..|es| - 1], h, d)
    ensures (h1, verdict) == Observe(h, es[|es| - 1])
    ensures h1.maxtr == Watermarks(n, es)
    ensures SafeTable(n, pool, es, h1.spans, EntriesOf(es[d..]))
    ensures (h1.queue, verdict) == Decide(EntriesOf(es[d..]), h1.spans, Low(n, es))
    ensures forall i :: 0 <= i < d ==> es[i].tsResp < Low(n, es)
  {
    StillBehind(n, es, d);
    UpdatedTableSafe(n, pool, es, h.spans, h.queue);
    WatermarksAfterUpdate(n, es);
    QueueGrows(es, d);
    var r := Observe(h, es[|es| - 1]);
    h1, verdict := r.0, r.1;
  }

  /** With a safe table the queue is decided from the front, each response by its offline verdict. */
  lemma DecideByLog(n: nat, pool: set<string>, es: seq<Event>, spans: SpanTable, d: nat) returns (p: nat)
    requires d <= |es| && SafeTable(n, pool, es, spans, EntriesOf(es[d..]))
    ensures d <= p <= |es|
    ensures forall i :: d <= i < p ==> es[i].tsResp < Low(n, es) && Accepts(n, pool, es, es[i])
    ensures var (rest, verdict) := Decide(EntriesOf(es[d..]), spans, Low(n, es));
      match verdict
      case None => rest == EntriesOf(es[p..]) && (p < |es| ==> Low(n, es) <= es[p].tsResp)
      case Some(failed) =>
        && p < |es| && failed == Some(es[p].resp)
        && es[p].tsResp < Low(n, es) && !Accepts(n, pool, es, es[p])
  {
    var queue := EntriesOf(es[d..]);
    var q := DecideSpec(queue, spans, Low(n, es));
    p := d + q;
    hide Decide;
    hide Low;
    hide Accepts;
    hide CallJustified;
    forall i | d <= i < p ensures es[i].tsResp < Low(n, es) && Accepts(n, pool, es, es[i]) {
      assert CallJustified(spans, queue[i - d]);
      EntryByLog(n, pool, es, spans, d, i);
    }
    if p < |es| {
      EntryByLog(n, pool, es, spans, d, p);
    }
    EntriesFrom(es, d, p);
  }

  lemma EntryByLog(n: nat, pool: set<string>, es: seq<Event>, spans: SpanTable, d: nat, i: nat)
    requires d <= i < |es| && SafeTable(n, pool, es, spans, EntriesOf(es[d..]))
    ensures EntriesOf(es[d..])[i - d] == Entry(es[i])
    ensures CallJustified(spans, Entry(es[i])) == Accepts(n, pool, es, es[i])
  {
    SafeTableDecides(n, pool, es, spans, EntriesOf(es[d..]), i - d);
  }

  lemma EntriesFrom(es: seq<Event>, d: nat, p: nat)
    requires d <= p <= |es|
    ensures EntriesOf(es[d..])[p - d..] == EntriesOf(es[p..])
  {
  }

  lemma SafeTableShorterQueue(n: nat, pool: set<string>, es: seq<Event>, spans: SpanTable, d: nat, p: nat)
    requires d <= p <= |es| && SafeTable(n, pool, es, spans, EntriesOf(es[d..]))
    ensures SafeTable(n, pool, es, spans, EntriesOf(es[p..]))
  {
    var long, short := EntriesOf(es[d..]), EntriesOf(es[p..]);
    assert forall i :: 0 <= i < |short| ==> short[i] == long[i + (p - d)];
    forall key | key in pool ensures SafeRow(n, es, key, spans[key], short) {
      assert SafeRow(n, es, key, spans[key], long);
    }
  }

  /** The state after the queue of `es` was decided against a safe table. */
  lemma DecidedTracks(n: nat, pool: set<string>, es: seq<Event>, h: Hist, verdict: Verdict, d: nat) returns (p: nat)
    requires d <= |es| && (forall i :: 0 <= i < d ==> es[i].tsResp < Low(n, es))
    requires WellFormed(n, es) && SafeTable(n, pool, es, h.spans, EntriesOf(es[d..])) && h.maxtr == Watermarks(n, es)
    requires (h.queue, verdict) == Decide(EntriesOf(es[d..]), h.spans, Low(n, es))
    ensures d <= p <= |es|
    ensures forall i :: d <= i < p ==> es[i].tsResp < Low(n, es) && Accepts(n, pool, es, es[i])
    ensures match verdict
      case None => Tracks(n, pool, es, h, p)
      case Some(failed) =>
        && p < |es| && failed == Some(es[p].resp)
        && es[p].tsResp < Low(n, es) && !Accepts(n, pool, es, es[p])
  {
    p := DecideByLog(n, pool, es, h.spans, d);
    if verdict.None? {
      SafeTableShorterQueue(n, pool, es, h.spans, d, p);
    }
  }

  /** One tracked update decides the responses from the `d`th to the `p`th by their offline verdicts. */
  lemma UpdateTracks(n: nat, pool: set<string>, es: seq<Event>, h: Hist, d: nat) returns (r: (Hist, Verdict), p: nat)
    requires WellFormed(n, es) && es != [] && es[|es| - 1].update.Some?
    requires es[|es| - 1].update.value.0 in pool
    requires Tracks(n, pool, es[..|es| - 1], h, d)
    ensures d <= p <= |es|
    ensures forall i :: d <= i < p ==> es[i].tsResp < Low(n, es) && Accepts(n, pool, es, es[i])
    ensures r == Observe(h, es[|es| - 1])
    ensures match r.1
      case None => Tracks(n, pool, es, r.0, p)
      case Some(failed) =>
        && p < |es| && failed == Some(es[p].resp)
        && es[p].tsResp < Low(n, es) && !Accepts(n, pool, es, es[p])
  {
    var h1, verdict := ObserveUpdate(n, pool, es, h, d);
    r := (h1, verdict);
    p := DecidedTracks(n, pool, es, h1, verdict, d);
  }

  /** What the online checker has concluded after the first `m` harvests of a run:
      it decided the first `d` responses as the offline checker does from the log of
      the whole run, and either still tracks it or stopped for a stated reason. */
  ghost predicate Concluded(n: nat, pool: set<string>, es: seq<Event>, m: nat, r: (Hist, Verdict), d: nat)
    requires m <= |es| && forall i :: 0 <= i < |es| ==> es[i].cidx < n
  {
    && d <= m
    && (forall i :: 0 <= i < d ==> Accepts(n, pool, es, es[i]))
    && match r.1
       case None => Tracks(n, pool, es[..m], r.0, d) && Tracked(pool, es[..m])
       case Some(None) => StoppedByKey(n, pool, es, m)
       case Some(Some(resp)) =>
         d < m && resp == es[d].resp && es[d].tsResp < Low(n, es[..m]) && !Accepts(n, pool, es, es[d])
  }

  /** The run passed up to some harvest, whose update then named an untracked key. */
  ghost predicate StoppedByKey(n: nat, pool: set<string>, es: seq<Event>, m: nat)
    requires m <= |es| && forall i :: 0 <= i < |es| ==> es[i].cidx < n
  {
    exists j :: 0 <= j < m && es[j].update.Some? && es[j].update.value.0 !in pool && Run(n, pool, es[..j]).1.None?
  }

  lemma StillConcluded(n: nat, pool: set<string>, es: seq<Event>, m: nat, r: (Hist, Verdict), d: nat, p: nat)
    requires WellFormed(n, es) && d <= p <= m <= |es|
    requires forall i :: 0 <= i < d ==> Accepts(n, pool, es, es[i])
    requires forall i :: d <= i < p ==> es[..m][i].tsResp < Low(n, es[..m]) && Accepts(n, pool, es[..m], es[..m][i])
    requires match r.1
      case None => Tracks(n, pool, es[..m], r.0, p) && Tracked(pool, es[..m])
      case Some(failed) => p < m && failed == Some(es[..m][p].resp) && es[..m][p].tsResp < Low(n, es[..m])
                           && !Accepts(n, pool, es[..m], es[..m][p])
    ensures Concluded(n, pool, es, m, r, p)
  {
    forall i | 0 <= i < p ensures Accepts(n, pool, es, es[i]) {
      if d <= i {
        assert es[..m][i] == es[i];
        DecisionIsFinal(n, pool, es, m, es[i]);
      }
    }
    if r.1.Some? {
      assert es[..m][p] == es[p];
      DecisionIsFinal(n, pool, es, m, es[p]);
    }
  }

  lemma TrackedGrows(pool: set<string>, es: seq<Event>, m: nat)
    requires m < |es| && Tracked(pool, es[..m])
    requires es[m].update.Some? ==> es[m].update.value.0 in pool
    ensures Tracked(pool, es[..m + 1])
  {
    assert forall i :: 0 <= i < m ==> es[..m + 1][i] == es[..m][i];
  }

  /** One harvest with no update or a tracked one. */
  lemma ObserveTracks(n: nat, pool: set<string>, es: seq<Event>, h: Hist, d: nat) returns (r: (Hist, Verdict), p: nat)
    requires WellFormed(n, es) && es != []
    requires es[|es| - 1].update.Some? ==> es[|es| - 1].update.value.0 in pool
    requires Tracks(n, pool, es[..|es| - 1], h, d)
    ensures d <= p <= |es|
    ensures forall i :: d <= i < p ==> es[i].tsResp < Low(n, es) && Accepts(n, pool, es, es[i])
    ensures r == Observe(h, es[|es| - 1])
    ensures match r.1
      case None => Tracks(n, pool, es, r.0, p)
      case Some(failed) =>
        && p < |es| && failed == Some(es[p].resp)
        && es[p].tsResp < Low(n, es) && !Accepts(n, pool, es, es[p])
  {
    if es[|es| - 1].update.None? {
      ReadTracks(n, pool, es, h, d);
      r, p := Observe(h, es[|es| - 1]), d;
    } else {
      r, p := UpdateTracks(n, pool, es, h, d);
    }
  }

  lemma ConcludedTracks(n: nat, pool: set<string>, es: seq<Event>, m: nat, h: Hist, d: nat)
    requires WellFormed(n, es) && m < |es| && Concluded(n, pool, es, m, (h, None), d)
    ensures d <= m && Tracks(n, pool, es[..m], h, d) && Tracked(pool, es[..m])
    ensures forall i :: 0 <= i < d ==> Accepts(n, pool, es, es[i])
  {
    hide Accepts;
    hide Tracks;
  }

  lemma TrackedConcluded(n: nat, pool: set<string>, es: seq<Event>, m: nat, h: Hist, d: nat)
    returns (r: (Hist, Verdict), p: nat)
    requires WellFormed(n, es) && m < |es|
    requires es[m].update.Some? ==> es[m].update.value.0 in pool
    requires Concluded(n, pool, es, m, (h, None), d)
    ensures r == Observe(h, es[m])
    ensures Concluded(n, pool, es, m + 1, r, p)
  {
    hide Accepts;
    hide SafeTable;
    hide Observe;
    hide Low;
    hide Tracked;
    hide Tracks;
    var now := es[..m + 1];
    assert now[..m] == es[..m] && now[m] == es[m];
    PrefixWellFormed(n, es, m + 1);
    TrackedGrows(pool, es, m);
    ConcludedTracks(n, pool, es, m, h, d);
    r, p := ObserveTracks(n, pool, now, h, d);
    StillConcluded(n, pool, es, m + 1, r, d, p);
  }

  lemma {:induction false} RunStep(n: nat, pool: set<string>, es: seq<Event>, m: nat)
    requires m < |es| && forall i :: 0 <= i < |es| ==> es[i].cidx < n
    ensures var before := Run(n, pool, es[..m]);
      Run(n, pool, es[..m + 1]) == if before.1.Some? then before else Observe(before.0, es[m])
  {
    assert es[..m + 1][..m] == es[..m];
  }

  lemma StoppedConcluded(n: nat, pool: set<string>, es: seq<Event>, m: nat, r: (Hist, Verdict), d: nat)
    requires WellFormed(n, es) && m < |es| && r.1.Some?
    requires Concluded(n, pool, es, m, r, d)
    ensures Concluded(n, pool, es, m + 1, r, d)
  {
    PrefixWellFormed(n, es, m + 1);
    assert es[..m + 1][..m] == es[..m];
    LowGrows(n, es[..m + 1], m);
  }

  lemma {:induction false} KeyConcluded(n: nat, pool: set<string>, es: seq<Event>, m: nat, r: (Hist, Verdict), d: nat)
    requires WellFormed(n, es) && m < |es| && es[m].update.Some? && es[m].update.value.0 !in pool
    requires r == Run(n, pool, es[..m]) && r.1.None? && Concluded(n, pool, es, m, r, d)
    ensures Concluded(n, pool, es, m + 1, Observe(r.0, es[m]), d)
  {
    hide Accepts;
    hide SafeTable;
    assert StoppedByKey(n, pool, es, m + 1);
  }

  lemma {:induction false} FreshConcluded(n: nat, pool: set<string>, es: seq<Event>)
    requires WellFormed(n, es) && n > 0
    ensures Concluded(n, pool, es, 0, Run(n, pool, es[..0]), 0)
  {
    FreshTracks(n, pool);
    assert es[..0] == [];
  }

  /** At every prefix of a well-formed run, honest or not, the online verdicts are the offline ones. */
  lemma {:induction false} RunConcluded(n: nat, pool: set<string>, es: seq<Event>, m: nat) returns (d: nat)
    requires WellFormed(n, es) && m <= |es| && n > 0
    ensures Concluded(n, pool, es, m, Run(n, pool, es[..m]), d)
    decreases m
  {
    hide Concluded;
    hide Observe;
    hide Run;
    if m == 0 {
      d := 0;
      FreshConcluded(n, pool, es);
    } else {
      d := RunConcluded(n, pool, es, m - 1);
      RunStep(n, pool, es, m - 1);
      var before := Run(n, pool, es[..m - 1]);
      var e := es[m - 1];
      if before.1.Some? {
        StoppedConcluded(n, pool, es, m - 1, before, d);
      } else if e.update.Some? && e.update.value.0 !in pool {
        KeyConcluded(n, pool, es, m - 1, before, d);
      } else {
        var r;
        r, d := TrackedConcluded(n, pool, es, m - 1, before.0, d);
      }
    }
  }

  lemma FreshTracks(n: nat, pool: set<string>)
    requires n > 0
    ensures Tracks(n, pool, [], Fresh(n, pool), 0)
  {
    var h := Fresh(n, pool);
    forall key | key in pool ensures SafeRow(n, [], key, h.spans[key], h.queue) {
    }
  }

  lemma {:induction false} BehindUnique(es: seq<Event>, low: nat, d: nat)
    requires d <= |es|
    requires forall i :: 0 <= i < d ==> es[i].tsResp < low
    requires d < |es| ==> low <= es[d].tsResp
    ensures Behind(es, low) == d
  {
  }

  /** The trimmed online checker refines the offline one. It passes a run exactly
      when every update key is tracked and the full log accepts every response behind
      the watermark; what then remains queued is every other response, in order; and
      a violation names the first response of the run that the full log rejects. */
  lemma {:induction false} OnlineRefinesOffline(n: nat, pool: set<string>, es: seq<Event>)
    requires WellFormed(n, es) && n > 0
    ensures var (h, verdict) := Run(n, pool, es);
      var d := Behind(es, Low(n, es));
      && (verdict.None? <==> Tracked(pool, es) && forall i :: 0 <= i < d ==> Accepts(n, pool, es, es[i]))
      && (verdict.None? ==> h.queue == EntriesOf(es[d..]))
      && (verdict == Some(None) ==> StoppedByKey(n, pool, es, |es|))
      && (verdict.Some? && verdict.value.Some? ==>
            exists i :: 0 <= i < d && verdict.value.value == es[i].resp && !Accepts(n, pool, es, es[i])
                        && forall j :: 0 <= j < i ==> Accepts(n, pool, es, es[j]))
  {
    hide Accepts;
    hide SafeTable;
    hide Run;
    var p := RunConcluded(n, pool, es, |es|);
    assert es[..|es|] == es;
    var d := Behind(es, Low(n, es));
    var r := Run(n, pool, es);
    match r.1 {
      case None =>
        assert Tracks(n, pool, es, r.0, p);
        BehindUnique(es, Low(n, es), p);
      case Some(Some(_)) => assert p < d;
      case Some(None) =>
    }
  }

  /** Along a run, every list of the table is a safe suffix of that client's log; and
      right after an update, in the lists of its key only the head may lie behind both
      the watermark and every call queued when the update came in. */
  lemma TrimmingAlongRuns(n: nat, pool: set<string>, es: seq<Event>, key: string, c: nat)
    requires WellFormed(n, es) && n > 0 && c < n && key in pool
    requires Run(n, pool, es).1.None?
    ensures var h := Run(n, pool, es).0;
      SafeSuffix(h.spans[key][c], ClientSpans(es, key, c), Low(n, es), h.queue)
    ensures var s := Run(n, pool, es).0.spans[key][c];
      es != [] && es[|es| - 1].update.Some? && es[|es| - 1].update.value.0 == key ==>
        var queued := MinOf(Calls(Run(n, pool, es[..|es| - 1]).0.queue + [Entry(es[|es| - 1])]), U64_MAX);
        forall j :: 1 <= j < |s| ==> Low(n, es) <= s[j].tsResp || queued <= s[j].tsResp
  {
    var d := RunConcluded(n, pool, es, |es|);
    assert es[..|es|] == es;
    var h := Run(n, pool, es).0;
    assert SafeRow(n, es, key, h.spans[key], h.queue);
    if es != [] && es[|es| - 1].update.Some? && es[|es| - 1].update.value.0 == key {
      LastUpdateTight(n, pool, es, c);
    }
  }

  lemma {:induction false} LastUpdateTight(n: nat, pool: set<string>, es: seq<Event>, c: nat)
    requires WellFormed(n, es) && n > 0 && c < n && es != [] && es[|es| - 1].update.Some?
    requires es[|es| - 1].update.value.0 in pool
    requires Run(n, pool, es).1.None?
    ensures var s := Run(n, pool, es).0.spans[es[|es| - 1].update.value.0][c];
      var queued := MinOf(Calls(Run(n, pool, es[..|es| - 1]).0.queue + [Entry(es[|es| - 1])]), U64_MAX);
      forall j :: 1 <= j < |s| ==> Low(n, es) <= s[j].tsResp || queued <= s[j].tsResp
  {
    var h := Run(n, pool, es[..|es| - 1]).0;
    SafeBeforeLast(n, pool, es);
    WatermarksAfterUpdate(n, es);
    ObservedRow(h, es[|es| - 1]);
    PushedRowTight(n, es, h.spans[es[|es| - 1].update.value.0], h.queue, c);
  }

  lemma SafeBeforeLast(n: nat, pool: set<string>, es: seq<Event>)
    requires WellFormed(n, es) && n > 0 && es != [] && Run(n, pool, es[..|es| - 1]).1.None?
    ensures var es' := es[..|es| - 1];
      var h := Run(n, pool, es').0;
      h.maxtr == Watermarks(n, es') && forall key :: key in pool ==> SafeRow(n, es', key, h.spans[key], h.queue)
  {
    var d := RunConcluded(n, pool, es, |es| - 1);
  }

  lemma ObservedRow(h: Hist, e: Event)
    requires Shape(h, |h.maxtr|) && e.cidx < |h.maxtr| && e.update.Some? && e.update.value.0 in h.spans
    ensures var (key, value) := e.update.value;
      Observe(h, e).0.spans[key] == TrimAll(Push(h.spans[key], e.cidx, UpdateSpan(e.tsCall, e.tsResp, value)),
                                            MinOf(h.maxtr[e.cidx := e.tsResp], 0),
                                            MinOf(Calls(h.queue + [Entry(e)]), U64_MAX))
  {
  }

  lemma {:induction false} PushedSequential(n: nat, es: seq<Event>, row: seq<seq<UpdateSpan>>,
                                            queue: seq<QueuedSpan>, c: nat)
    requires WellFormed(n, es) && c < n && es != [] && es[|es| - 1].update.Some?
    requires SafeRow(n, es[..|es| - 1], es[|es| - 1].update.value.0, row, queue)
    ensures |row| == n && es[|es| - 1].cidx < n
    ensures var e := es[|es| - 1];
      var pushed := Push(row, e.cidx, UpdateSpan(e.tsCall, e.tsResp, e.update.value.1))[c];
      pushed != [] && Sequential(pushed)
  {
    hide Sequential;
    hide Low;
    var e := es[|es| - 1];
    var key := e.update.value.0;
    var x := UpdateSpan(e.tsCall, e.tsResp, e.update.value.1);
    var before := ClientSpans(es[..|es| - 1], key, c);
    assert ClientSpans(es, key, c) == if e.cidx == c then before + [x] else before;
    assert SafeSuffix(row[c], before, Low(n, es[..|es| - 1]), queue);
    LogSequential(n, es, key, c);
    hide ClientSpans;
    if e.cidx == c {
      PushedSuffix(row[c], before, x);
      SuffixSequential(row[c] + [x], before + [x]);
    } else {
      SuffixSequential(row[c], before);
    }
  }

  lemma PushedRowTight(n: nat, es: seq<Event>, row: seq<seq<UpdateSpan>>, queue: seq<QueuedSpan>, c: nat)
    requires WellFormed(n, es) && c < n && es != [] && es[|es| - 1].update.Some?
    requires SafeRow(n, es[..|es| - 1], es[|es| - 1].update.value.0, row, queue)
    ensures var e := es[|es| - 1];
      var queued := MinOf(Calls(queue + [Entry(e)]), U64_MAX);
      var s := TrimAll(Push(row, e.cidx, UpdateSpan(e.tsCall, e.tsResp, e.update.value.1)), Low(n, es), queued)[c];
      forall j :: 1 <= j < |s| ==> Low(n, es) <= s[j].tsResp || queued <= s[j].tsResp
  {
    hide Sequential;
    hide Trim;
    hide WellFormed;
    hide SafeRow;
    hide Low;
    hide MinOf;
    var e := es[|es| - 1];
    PushedSequential(n, es, row, queue, c);
    var pushed := Push(row, e.cidx, UpdateSpan(e.tsCall, e.tsResp, e.update.value.1))[c];
    TrimIsSafeAndTight(pushed, Low(n, es), MinOf(Calls(queue + [Entry(e)]), U64_MAX));
  }

  lemma PushedSuffix(kept: seq<UpdateSpan>, full: seq<UpdateSpan>, x: UpdateSpan)
    requires |kept| <= |full| && kept == full[|full| - |kept|..]
    ensures kept + [x] == (full + [x])[|full + [x]| - |kept + [x]|..]
  {
  }

  lemma SuffixSequential(kept: seq<UpdateSpan>, full: seq<UpdateSpan>)
    requires |kept| <= |full| && kept == full[|full| - |kept|..] && Sequential(full)
    ensures Sequential(kept)
  {
  }

  /** The number of responses harvested since the last update, or in all when there was none. */
  function TrailingReads(es: seq<Event>): nat {
    if es == [] || es[|es| - 1].update.Some? then 0 else 1 + TrailingReads(es[..|es| - 1])
  }

  /** Checks are conserved: the queue ends with the newest response, holds only
      responses some client has not moved past, and after an update is never empty. */
  lemma {:induction false} QueueAfterRun(n: nat, pool: set<string>, es: seq<Event>)
    requires WellFormed(n, es) && n > 0 && es != []
    requires Run(n, pool, es).1.None?
    ensures var queue := Run(n, pool, es).0.queue;
      && queue != [] && queue[|queue| - 1] == Entry(es[|es| - 1])
      && (forall i :: 0 <= i < |queue| ==> Low(n, es) <= queue[i].tsResp)
  {
    hide Run;
    hide Accepts;
    hide Low;
    OnlineRefinesOffline(n, pool, es);
    var d := Behind(es, Low(n, es));
    LowNotAhead(n, es);
    assert es[|es| - 1].tsResp >= Low(n, es);
    assert d < |es|;
  }

  lemma LowNotAhead(n: nat, es: seq<Event>)
    requires WellFormed(n, es) && n > 0 && es != []
    ensures Low(n, es) <= es[|es| - 1].tsResp
  {
    assert Watermarks(n, es)[0] == LastUpdate(es, 0);
    LastUpdateWitness(es, 0);
  }

  /** With one client, what remains unchecked is the last update and the reads after it. */
  lemma {:induction false} OneClientRemainder(pool: set<string>, es: seq<Event>)
    requires WellFormed(1, es) && Run(1, pool, es).1.None?
    ensures |Run(1, pool, es).0.queue| ==
      if TrailingReads(es) == |es| then |es| else 1 + TrailingReads(es)
  {
    OnlineRefinesOffline(1, pool, es);
    hide Run;
    hide Accepts;
    var d := Behind(es, Low(1, es));
    assert |Run(1, pool, es).0.queue| == |es| - d;
    hide Behind;
    LastUpdateIsWatermark(es);
    hide TrailingReads;
    assert Low(1, es) == Watermarks(1, es)[0];
    var t := TrailingReads(es);
    BehindUnique(es, Low(1, es), if t == |es| then 0 else |es| - 1 - t);
  }

  lemma {:induction false} LastUpdateIsWatermark(es: seq<Event>)
    requires forall i :: 0 <= i < |es| ==> es[i].cidx == 0
    ensures TrailingReads(es) <= |es|
    ensures TrailingReads(es) == |es| ==> LastUpdate(es, 0) == 0
    ensures TrailingReads(es) < |es| ==> LastUpdate(es, 0) == es[|es| - 1 - TrailingReads(es)].tsResp
  {
    if es == [] {
    } else {
      LastUpdateIsWatermark(es[..|es| - 1]);
    }
  }
}
