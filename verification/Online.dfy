/** The online checker on values: a trimmed table of spans, a queue of undecided
    responses and one watermark per client. `History` implements it in place. */
module Online {
  import opened Wrappers
  import opened KvTypes
  import opened Spans

  const U64_MAX: nat := 0xFFFF_FFFF_FFFF_FFFF

  // `Some(Some(resp))`: the check of `resp` failed; `Some(None)`: unexpected update key.
  type Verdict = Option<Option<KvResp>>

  datatype Hist = Hist(queue: seq<QueuedSpan>, spans: SpanTable, maxtr: seq<nat>)

  /** One harvested response, with what its call remembered. */
  datatype Event = Event(cidx: nat, tsCall: nat, tsResp: nat, resp: KvResp, update: Option<Update>)

  function Entry(e: Event): QueuedSpan {
    QueuedSpan(e.tsCall, e.tsResp, e.resp)
  }

  function MinOf(s: seq<nat>, default: nat): (m: nat)
    ensures s == [] ==> m == default
    ensures s != [] ==> m in s
    ensures forall i :: 0 <= i < |s| ==> m <= s[i]
  {
    if s == [] then default
    else
      var rest := MinOf(s[1..], s[0]);
      assert forall i :: 1 <= i < |s| ==> s[i] == s[1..][i - 1];
      if s[0] <= rest then s[0] else rest
  }

  function Calls(queue: seq<QueuedSpan>): seq<nat> {
    seq(|queue|, i requires 0 <= i < |queue| => queue[i].tsCall)
  }

  ghost predicate Shape(h: Hist, n: nat) {
    |h.maxtr| == n && forall key :: key in h.spans ==> |h.spans[key]| == n
  }

  function Fresh(n: nat, pool: set<string>): Hist {
    Hist([], map key | key in pool :: seq(n, _ => [DUMMY]), seq(n, _ => 0))
  }

  /** The call time of the newest span behind both horizons, 0 when there is none. */
  function KeepTs(s: seq<UpdateSpan>, low: nat, queued: nat): nat {
    if s == [] then 0
    else
      var last := s[|s| - 1];
      if last.tsResp < low && last.tsResp < queued then last.tsCall
      else KeepTs(s[..|s| - 1], low, queued)
  }

  function DropHeads(s: seq<UpdateSpan>, keepTs: nat): seq<UpdateSpan> {
    if |s| > 1 && s[0].tsResp < keepTs then DropHeads(s[1..], keepTs) else s
  }

  function Trim(s: seq<UpdateSpan>, low: nat, queued: nat): seq<UpdateSpan> {
    DropHeads(s, KeepTs(s, low, queued))
  }

  /** Pop and check every queued response older than `low`, until one fails. */
  ghost function Decide(queue: seq<QueuedSpan>, spans: SpanTable, low: nat): (seq<QueuedSpan>, Verdict) {
    if queue == [] || low <= queue[0].tsResp then (queue, None)
    else if !CallJustified(spans, queue[0]) then (queue[1..], Some(Some(queue[0].resp)))
    else Decide(queue[1..], spans, low)
  }

  function Enqueue(h: Hist, entry: QueuedSpan): Hist {
    h.(queue := h.queue + [entry])
  }

  function Push(keySpans: seq<seq<UpdateSpan>>, cidx: nat, span: UpdateSpan): seq<seq<UpdateSpan>>
    requires cidx < |keySpans|
  {
    keySpans[cidx := keySpans[cidx] + [span]]
  }

  function TrimAll(keySpans: seq<seq<UpdateSpan>>, low: nat, queued: nat): seq<seq<UpdateSpan>> {
    seq(|keySpans|, c requires 0 <= c < |keySpans| => Trim(keySpans[c], low, queued))
  }

  ghost function ApplyUpdate(h: Hist, cidx: nat, span: UpdateSpan, key: string): (r: (Hist, Verdict))
    requires Shape(h, |h.maxtr|) && cidx < |h.maxtr|
    ensures Shape(r.0, |h.maxtr|) && r.0.spans.Keys == h.spans.Keys
  {
    if key !in h.spans then (h, Some(None))
    else
      var maxtr := h.maxtr[cidx := span.tsResp];
      var low := MinOf(maxtr, 0);
      var queued := MinOf(Calls(h.queue), U64_MAX);
      var spans := h.spans[key := TrimAll(Push(h.spans[key], cidx, span), low, queued)];
      var (queue, verdict) := Decide(h.queue, spans, low);
      (Hist(queue, spans, maxtr), verdict)
  }

  /** One harvest: queue the response, then apply the update its call made, if any. */
  ghost function Observe(h: Hist, e: Event): (r: (Hist, Verdict))
    requires Shape(h, |h.maxtr|) && e.cidx < |h.maxtr|
    ensures Shape(r.0, |h.maxtr|) && r.0.spans.Keys == h.spans.Keys
  {
    var h1 := Enqueue(h, Entry(e));
    match e.update
    case None => (h1, None)
    case Some((key, value)) => ApplyUpdate(h1, e.cidx, UpdateSpan(e.tsCall, e.tsResp, value), key)
  }

  /** A whole run of harvests, which stops at the first failure. */
  ghost function Run(n: nat, pool: set<string>, es: seq<Event>): (r: (Hist, Verdict))
    requires forall i :: 0 <= i < |es| ==> es[i].cidx < n
    ensures Shape(r.0, n) && r.0.spans.Keys == pool
  {
    if es == [] then (Fresh(n, pool), None)
    else
      var (h, verdict) := Run(n, pool, es[..|es| - 1]);
      if verdict.Some? then (h, verdict) else Observe(h, es[|es| - 1])
  }
}
