/** The trimmed history of acknowledged operations, updated in place. */
module HistoryModule {
  import opened Wrappers
  import opened KvTypes
  import opened Spans
  import opened Online

  /** The keys of all clients' pools together. */
  function PoolOf(keys: seq<seq<string>>): set<string> {
    set c, i | 0 <= c < |keys| && 0 <= i < |keys[c]| :: keys[c][i]
  }

  /** The newest span behind both horizons decides what is kept; older heads are popped. */
  method TrimHeads(s: seq<UpdateSpan>, low: nat, queued: nat) returns (kept: seq<UpdateSpan>)
    ensures kept == Trim(s, low, queued)
  {
    var keepTs := 0;
    var i := |s|;
    assert s[..|s|] == s;
    while i > 0
      invariant 0 <= i <= |s| && keepTs == 0
      invariant KeepTs(s, low, queued) == KeepTs(s[..i], low, queued)
    {
      i := i - 1;
      if s[i].tsResp < low && s[i].tsResp < queued {
        keepTs := s[i].tsCall;
        break;
      }
      assert s[..i + 1][..i] == s[..i];
    }
    kept := s;
    while |kept| > 1 && kept[0].tsResp < keepTs
      invariant DropHeads(s, keepTs) == DropHeads(kept, keepTs)
    {
      kept := kept[1..];
    }
  }

  class History {
    // Responses to check, ordered by response time.
    var queue: seq<QueuedSpan>
    // Per key and client, the trimmed acknowledged updates.
    var spans: SpanTable
    // Per client, the response time of its last update.
    var maxtr: seq<nat>

    ghost function View(): Hist
      reads this
    {
      Hist(queue, spans, maxtr)
    }

    constructor (numClis: nat, keys: seq<seq<string>>)
      ensures View() == Fresh(numClis, PoolOf(keys))
    {
      var table: SpanTable := map[];
      for c := 0 to |keys|
        invariant table == Fresh(numClis, PoolOf(keys[..c])).spans
      {
        var cliKeys := keys[c];
        for i := 0 to |cliKeys|
          invariant table == Fresh(numClis, PoolOf(keys[..c]) + PoolOf([cliKeys[..i]])).spans
        {
          if cliKeys[i] !in table {
            table := table[cliKeys[i] := seq(numClis, _ => [DUMMY])];
          }
          PoolStep(cliKeys, i);
        }
        PoolRows(keys, c);
      }
      assert keys[..|keys|] == keys;
      queue, spans, maxtr := [], table, seq(numClis, _ => 0);
    }

    method AddToQueue(tsCall: nat, tsResp: nat, resp: KvResp)
      requires tsCall < tsResp
      requires queue == [] || queue[|queue| - 1].tsResp < tsResp
      modifies this`queue
      ensures View() == Enqueue(old(View()), QueuedSpan(tsCall, tsResp, resp))
    {
      queue := queue + [QueuedSpan(tsCall, tsResp, resp)];
    }

    method QueueLen() returns (len: nat)
      ensures len == |View().queue|
    {
      len := |queue|;
    }

    /** Push the update, raise its client's watermark, trim the key's lists and
        check every response all clients have moved past, stopping at a failure. */
    method ApplyUpdate(cidx: nat, tsCall: nat, tsResp: nat, key: string, value: Option<string>)
      returns (failure: Verdict)
      requires Shape(View(), |maxtr|) && cidx < |maxtr|
      requires key in spans ==> spans[key][cidx] == [] || spans[key][cidx][|spans[key][cidx]| - 1].tsResp < tsCall
      modifies this
      ensures (View(), failure) == Online.ApplyUpdate(old(View()), cidx, UpdateSpan(tsCall, tsResp, value), key)
    {
      if key !in spans {
        return Some(None);
      }
      var keySpans := spans[key];
      keySpans := keySpans[cidx := keySpans[cidx] + [UpdateSpan(tsCall, tsResp, value)]];
      maxtr := maxtr[cidx := tsResp];
      var minComingTs := MinOf(maxtr, 0);
      var minQueuedTs := MinOf(Calls(queue), U64_MAX);

      ghost var pushed := keySpans;
      for c := 0 to |keySpans|
        invariant queue == old(queue) && spans == old(spans) && maxtr == old(maxtr)[cidx := tsResp]
        invariant |keySpans| == |pushed|
        invariant forall b :: 0 <= b < c ==> keySpans[b] == Trim(pushed[b], minComingTs, minQueuedTs)
        invariant forall b :: c <= b < |pushed| ==> keySpans[b] == pushed[b]
      {
        var kept := TrimHeads(keySpans[c], minComingTs, minQueuedTs);
        keySpans := keySpans[c := kept];
      }
      assert keySpans == TrimAll(pushed, minComingTs, minQueuedTs);
      spans := spans[key := keySpans];

      while queue != [] && queue[0].tsResp < minComingTs
        invariant spans == old(spans)[key := keySpans] && maxtr == old(maxtr)[cidx := tsResp]
        invariant Decide(old(queue), spans, minComingTs) == Decide(queue, spans, minComingTs)
      {
        var entry := queue[0];
        queue := queue[1..];
        var ok := CheckCall(spans, entry);
        if !ok {
          return Some(Some(entry.resp));
        }
      }
      failure := None;
    }
  }

  lemma PoolStep(cliKeys: seq<string>, i: nat)
    requires i < |cliKeys|
    ensures PoolOf([cliKeys[..i + 1]]) == PoolOf([cliKeys[..i]]) + {cliKeys[i]}
  {
    assert forall ks: seq<string>, k :: k in PoolOf([ks]) <==> k in ks by {
      forall ks: seq<string>, k | k in ks ensures k in PoolOf([ks]) {
        var j :| 0 <= j < |ks| && ks[j] == k;
        assert [ks][0][j] == k;
      }
    }
  }

  lemma PoolRows(keys: seq<seq<string>>, c: nat)
    requires c < |keys|
    ensures PoolOf(keys[..c + 1]) == PoolOf(keys[..c]) + PoolOf([keys[c][..|keys[c]|]])
  {
    var now, before, row := PoolOf(keys[..c + 1]), PoolOf(keys[..c]), PoolOf([keys[c][..|keys[c]|]]);
    forall k ensures k in now <==> k in before + row {
      if k in now {
        var b, i :| 0 <= b < c + 1 && 0 <= i < |keys[b]| && keys[b][i] == k;
        if b == c {
          assert [keys[c][..|keys[c]|]][0][i] == k;
        } else {
          assert keys[..c][b][i] == k;
        }
      }
      if k in before {
        var b, i :| 0 <= b < c && 0 <= i < |keys[..c][b]| && keys[..c][b][i] == k;
        assert keys[..c + 1][b][i] == k;
      }
      if k in row {
        var i :| 0 <= i < |keys[c]| && keys[c][i] == k;
        assert keys[..c + 1][c][i] == k;
      }
    }
  }
}
