/** Update spans, the checks that read them, and what each check decides. */
module Spans {
  import opened Wrappers
  import opened Lex
  import opened KvTypes

  datatype UpdateSpan = UpdateSpan(tsCall: nat, tsResp: nat, value: Option<string>)

  datatype QueuedSpan = QueuedSpan(tsCall: nat, tsResp: nat, resp: KvResp)

  // Per key, one list of spans for every client, oldest first.
  type SpanTable = map<string, seq<seq<UpdateSpan>>>

  // The stand-in for a Delete before the run, at the bottom of every list.
  const DUMMY := UpdateSpan(0, 0, None)

  /** What a response says about the state of one key: that it was present or absent, or its exact value. */
  datatype Claim = Presence(found: bool) | Exactly(value: Option<string>)

  predicate Matches(claim: Claim, value: Option<string>) {
    match claim
    case Presence(found) => value.Some? == found
    case Exactly(v) => value == v
  }

  /** Span `i` was called before the response, and no later span of its client completed before the call. */
  ghost predicate Visible(s: seq<UpdateSpan>, tsCall: nat, tsResp: nat, i: int) {
    0 <= i < |s| && s[i].tsCall < tsResp && forall j :: i < j < |s| ==> tsCall <= s[j].tsResp
  }

  ghost predicate JustifiedBy(s: seq<UpdateSpan>, tsCall: nat, tsResp: nat, claim: Claim) {
    exists i :: Visible(s, tsCall, tsResp, i) && Matches(claim, s[i].value)
  }

  /** Some client has a visible span that matches the claim. */
  ghost predicate Justified(keySpans: seq<seq<UpdateSpan>>, tsCall: nat, tsResp: nat, claim: Claim) {
    exists c :: 0 <= c < |keySpans| && JustifiedBy(keySpans[c], tsCall, tsResp, claim)
  }

  ghost predicate ScanJustified(spans: SpanTable, tsCall: nat, tsResp: nat,
                                keyStart: string, keyEnd: string, entries: Entries) {
    && (forall i :: 0 <= i < |entries| ==> InRange(keyStart, keyEnd, entries[i].0))
    && (forall i, j :: 0 <= i < j < |entries| ==> entries[i].0 != entries[j].0)
    && (forall key :: key in spans && InRange(keyStart, keyEnd, key) ==>
          Justified(spans[key], tsCall, tsResp, Exactly(Find(entries, key))))
  }

  /** The claim a response on a single key makes; a Scan or a Stop makes none. */
  function ClaimOf(resp: KvResp): Option<(string, Claim)> {
    match resp
    case Put(key, found) => Some((key, Presence(found)))
    case Swap(key, oldValue) => Some((key, Exactly(oldValue)))
    case Get(key, value) => Some((key, Exactly(value)))
    case Delete(key, found) => Some((key, Presence(found)))
    case _ => None
  }

  /** The verdict on one queue entry against a table of spans. */
  ghost predicate CallJustified(spans: SpanTable, entry: QueuedSpan) {
    if entry.resp.Scan? then
      ScanJustified(spans, entry.tsCall, entry.tsResp, entry.resp.keyStart, entry.resp.keyEnd, entry.resp.entries)
    else
      match ClaimOf(entry.resp)
      case Some((key, claim)) => key in spans && Justified(spans[key], entry.tsCall, entry.tsResp, claim)
      case None => false
  }

  /** The loop of `check_put`, `check_swap`, `check_get` and `check_delete`: the
      four differ only in how a span's value is compared with the response. */
  method CheckClaim(keySpans: seq<seq<UpdateSpan>>, tsCall: nat, tsResp: nat, claim: Claim) returns (ok: bool)
    ensures ok <==> Justified(keySpans, tsCall, tsResp, claim)
  {
    for c := 0 to |keySpans|
      invariant forall b :: 0 <= b < c ==> !JustifiedBy(keySpans[b], tsCall, tsResp, claim)
    {
      var s := keySpans[c];
      var i := |s|;
      while i > 0
        invariant 0 <= i <= |s|
        invariant forall j :: i <= j < |s| ==> tsCall <= s[j].tsResp
        invariant forall j :: i <= j < |s| ==> !(Visible(s, tsCall, tsResp, j) && Matches(claim, s[j].value))
      {
        i := i - 1;
        if s[i].tsCall < tsResp && Matches(claim, s[i].value) {
          assert Visible(s, tsCall, tsResp, i);
          assert JustifiedBy(s, tsCall, tsResp, claim);
          return true;
        }
        if s[i].tsResp < tsCall {
          assert forall j :: 0 <= j < i ==> !Visible(s, tsCall, tsResp, j);
          break;
        }
      }
    }
    ok := false;
  }

  /** `check_scan`: the table is a hash map, so its keys are visited in an arbitrary order. */
  method CheckScan(spans: SpanTable, tsCall: nat, tsResp: nat, keyStart: string, keyEnd: string, entries: Entries)
    returns (ok: bool)
    ensures ok <==> ScanJustified(spans, tsCall, tsResp, keyStart, keyEnd, entries)
  {
    StrictTotalOrder();
    var entriesMap: map<string, string> := map[];
    for i := 0 to |entries|
      invariant forall j :: 0 <= j < i ==> InRange(keyStart, keyEnd, entries[j].0)
      invariant forall j, k :: 0 <= j < k < i ==> entries[j].0 != entries[k].0
      invariant forall key :: key in entriesMap <==> exists j :: 0 <= j < i && entries[j].0 == key
      invariant forall j :: 0 <= j < i ==> entriesMap[entries[j].0] == entries[j].1
    {
      var (key, value) := entries[i];
      if Less(key, keyStart) || Less(keyEnd, key) {
        return false;
      }
      if key in entriesMap {
        return false;
      }
      entriesMap := entriesMap[key := value];
    }
    forall key ensures Lookup(entriesMap, key) == Find(entries, key) {
      FindSound(entries, key);
    }
    var left := spans.Keys;
    while left != {}
      invariant left <= spans.Keys
      invariant forall key :: key in spans && key !in left && InRange(keyStart, keyEnd, key) ==>
                  Justified(spans[key], tsCall, tsResp, Exactly(Find(entries, key)))
      decreases |left|
    {
      var key :| key in left;
      left := left - {key};
      if LessEq(keyStart, key) && LessEq(key, keyEnd) {
        var found := CheckClaim(spans[key], tsCall, tsResp, Exactly(Lookup(entriesMap, key)));
        if !found {
          return false;
        }
      }
    }
    ok := true;
  }

  method CheckCall(spans: SpanTable, entry: QueuedSpan) returns (ok: bool)
    ensures ok <==> CallJustified(spans, entry)
  {
    match entry.resp {
      case Put(key, found) =>
        if key !in spans { return false; }
        ok := CheckClaim(spans[key], entry.tsCall, entry.tsResp, Presence(found));
      case Swap(key, oldValue) =>
        if key !in spans { return false; }
        ok := CheckClaim(spans[key], entry.tsCall, entry.tsResp, Exactly(oldValue));
      case Get(key, value) =>
        if key !in spans { return false; }
        ok := CheckClaim(spans[key], entry.tsCall, entry.tsResp, Exactly(value));
      case Scan(keyStart, keyEnd, entries) =>
        ok := CheckScan(spans, entry.tsCall, entry.tsResp, keyStart, keyEnd, entries);
      case Delete(key, found) =>
        if key !in spans { return false; }
        ok := CheckClaim(spans[key], entry.tsCall, entry.tsResp, Presence(found));
      case Stop =>
        ok := false;
    }
  }
}
