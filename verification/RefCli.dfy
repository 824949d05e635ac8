/** The reference client: its own parser and a sequential map in place of a server. */
module RefCli {
  import opened Wrappers
  import opened Lex
  import opened KvTypes
  import opened StoreModule
  import opened Text
  import opened Protocol

  /** Words past those a command needs are ignored. */
  function ParseInputCall(line: string): Option<KvCall> {
    var w := Words(line);
    if |w| >= 3 && w[0] == "PUT" then Some(KvCall.Put(w[1], w[2]))
    else if |w| >= 3 && w[0] == "SWAP" then Some(KvCall.Swap(w[1], w[2]))
    else if |w| >= 2 && w[0] == "GET" then Some(KvCall.Get(w[1]))
    else if |w| >= 3 && w[0] == "SCAN" then Some(KvCall.Scan(w[1], w[2]))
    else if |w| >= 2 && w[0] == "DELETE" then Some(KvCall.Delete(w[1]))
    else if |w| >= 1 && w[0] == "STOP" then Some(KvCall.Stop)
    else None
  }

  /** Both parsers read a printed call as that call. */
  lemma ParsersAgree(call: KvCall)
    requires TokenCall(call)
    ensures ParseInputCall(PrintCall(call)) == Some(call)
    ensures ParseCommand(PrintCall(call)) == if call.Stop? then Halt else Do(RequestOf(call))
  {
    hide Words;
    hide PrintCall;
    hide Token;
    WordsOfCall(call);
    VerbsDiffer();
    CallRoundTrip(call);
  }

  /** A line is a call exactly when its words start with those of the call. */
  lemma {:induction false} InputCallIff(line: string, call: KvCall)
    ensures ParseInputCall(line) == Some(call) <==> CallWords(call) <= Words(line)
  {
    hide Words;
    VerbsDiffer();
    var w := Words(line);
    assert |w| >= 1 ==> w[..1] == [w[0]];
    assert |w| >= 2 ==> w[..2] == [w[0], w[1]];
    assert |w| >= 3 ==> w[..3] == [w[0], w[1], w[2]];
  }

  class RefState {
    var state: Entries

    ghost predicate Valid()
      reads this
    {
      KeysIncrease(state)
    }

    /** `handle_kv_call`; `None` stands for the panic of a range that starts after its end. */
    method HandleKvCall(call: KvCall) returns (resp: Option<KvResp>)
      requires Valid()
      modifies this
      ensures Valid()
      ensures resp.None? <==> call.Scan? && Less(call.keyEnd, call.keyStart)
      ensures ToMap(state) == After(ToMap(old(state)), call)
      ensures resp.Some? && !call.Scan? ==> Answers(ToMap(old(state)), call, resp.value)
      ensures resp.Some? && call.Scan? ==>
        && resp.value == KvResp.Scan(call.keyStart, call.keyEnd, HalfOpen(old(state), call.keyStart, call.keyEnd))
        && IsHalfOpenRangeOf(ToMap(old(state)), call.keyStart, call.keyEnd, resp.value.entries)
    {
      hide ToMap;
      hide IsHalfOpenRangeOf;
      hide HalfOpen;
      hide Less;
      hide LessEq;
      match call {
        case Put(key, value) =>
          FindAgrees(state, key);
          AssignAgrees(state, key, value);
          var found := FindIndex(state, key) < |state|;
          state := Assign(state, key, value);
          resp := Some(KvResp.Put(key, found));
        case Swap(key, value) =>
          FindAgrees(state, key);
          AssignAgrees(state, key, value);
          var it := FindIndex(state, key);
          var oldValue := if it < |state| then Some(state[it].1) else None;
          state := Assign(state, key, value);
          resp := Some(KvResp.Swap(key, oldValue));
        case Get(key) =>
          FindAgrees(state, key);
          var it := FindIndex(state, key);
          resp := Some(KvResp.Get(key, if it < |state| then Some(state[it].1) else None));
        case Scan(keyStart, keyEnd) =>
          if Less(keyEnd, keyStart) {
            return None;
          }
          LessEqIsNotGreater(keyStart, keyEnd);
          HalfOpenIsRange(state, keyStart, keyEnd);
          resp := Some(KvResp.Scan(keyStart, keyEnd, HalfOpen(state, keyStart, keyEnd)));
        case Delete(key) =>
          FindAgrees(state, key);
          EraseAgrees(state, key);
          var found := FindIndex(state, key) < |state|;
          state := Erase(state, key);
          resp := Some(KvResp.Delete(key, found));
        case Stop =>
          resp := Some(KvResp.Stop);
      }
    }
  }

  /** The entries from the start key up to the end key, which is left out. */
  function HalfOpen(data: Entries, keyStart: string, keyEnd: string): Entries {
    var lo, hi := LowerBound(data, keyStart), LowerBound(data, keyEnd);
    if lo <= hi then data[lo..hi] else []
  }

  lemma {:induction false} BoundsInOrder(data: Entries, keyStart: string, keyEnd: string)
    requires KeysIncrease(data) && LessEq(keyStart, keyEnd)
    ensures LowerBound(data, keyStart) <= LowerBound(data, keyEnd)
  {
    var lo, hi := LowerBound(data, keyStart), LowerBound(data, keyEnd);
    if hi < lo && keyStart != keyEnd {
      LessTransitive(data[hi].0, keyStart, keyEnd);
    }
  }

  /** `entries` lists the map's content from the start key up to the end key, which is left out, in key order. */
  ghost predicate IsHalfOpenRangeOf(m: Store, keyStart: string, keyEnd: string, entries: Entries) {
    && KeysIncrease(entries)
    && (forall i :: 0 <= i < |entries| ==>
          LessEq(keyStart, entries[i].0) && Less(entries[i].0, keyEnd) && Lookup(m, entries[i].0) == Some(entries[i].1))
    && (forall key :: key in m && LessEq(keyStart, key) && Less(key, keyEnd) ==> (key, m[key]) in entries)
  }

  /** The slice between the two bounds is that listing, whether or not the end key is stored. */
  lemma {:induction false} HalfOpenIsRange(data: Entries, keyStart: string, keyEnd: string)
    requires KeysIncrease(data) && LessEq(keyStart, keyEnd)
    ensures IsHalfOpenRangeOf(ToMap(data), keyStart, keyEnd, HalfOpen(data, keyStart, keyEnd))
  {
    hide ToMap;
    hide Less;
    hide LessEq;
    hide LowerBound;
    var lo, hi := LowerBound(data, keyStart), LowerBound(data, keyEnd);
    var list := HalfOpen(data, keyStart, keyEnd);
    BoundsInOrder(data, keyStart, keyEnd);
    forall i | 0 <= i < |list|
      ensures LessEq(keyStart, list[i].0) && Less(list[i].0, keyEnd) &&
        Lookup(ToMap(data), list[i].0) == Some(list[i].1)
    {
      assert list[i] == data[lo + i];
      AtOrAfterLowerBound(data, keyStart, lo + i);
      EntryInMap(data, lo + i);
    }
    forall key | key in ToMap(data) && LessEq(keyStart, key) && Less(key, keyEnd)
      ensures (key, ToMap(data)[key]) in list
    {
      var j := MapHasEntry(data, key);
      assert lo <= j < hi by {
        if j < lo {
          LessAsymmetric(key, keyStart);
        } else if hi <= j {
          AtOrAfterLowerBound(data, keyEnd, j);
          LessAsymmetric(key, keyEnd);
        }
      }
      assert list[j - lo] == data[j];
    }
  }

  /** On a range in order the reference client lists what the inclusive store lists,
      exactly when the end key is not stored. */
  lemma ScansAgreeIff(data: Entries, keyStart: string, keyEnd: string)
    requires KeysIncrease(data) && LessEq(keyStart, keyEnd)
    ensures IsRangeOf(ToMap(data), keyStart, keyEnd, HalfOpen(data, keyStart, keyEnd)) <==> keyEnd !in ToMap(data)
  {
    hide ToMap;
    var lo, hi := LowerBound(data, keyStart), LowerBound(data, keyEnd);
    BoundsInOrder(data, keyStart, keyEnd);
    FindAgrees(data, keyEnd);
    if keyEnd in ToMap(data) {
      EndKeyMissing(data, keyStart, keyEnd);
    } else {
      EndKeyNotReached(data, keyEnd);
      SliceIsRange(data, keyStart, keyEnd, hi);
    }
  }

  lemma {:induction false} EndKeyNotReached(data: Entries, keyEnd: string)
    requires KeysIncrease(data) && FindIndex(data, keyEnd) == |data|
    ensures var hi := LowerBound(data, keyEnd); hi < |data| ==> !LessEq(data[hi].0, keyEnd)
  {
  }

  lemma EndKeyMissing(data: Entries, keyStart: string, keyEnd: string)
    requires KeysIncrease(data) && LessEq(keyStart, keyEnd) && keyEnd in ToMap(data)
    ensures !IsRangeOf(ToMap(data), keyStart, keyEnd, HalfOpen(data, keyStart, keyEnd))
  {
    hide ToMap;
    var list := HalfOpen(data, keyStart, keyEnd);
    forall i | 0 <= i < |list| ensures list[i].0 != keyEnd {
      var j := LowerBound(data, keyStart) + i;
      assert list[i] == data[j];
      LessIrreflexive(keyEnd);
    }
    assert InRange(keyStart, keyEnd, keyEnd);
  }
}
