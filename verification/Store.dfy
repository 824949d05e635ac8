/** The in-memory store: a sorted sequence of entries in place of `std::map`. */
module StoreModule {
  import opened Wrappers
  import opened Lex
  import opened KvTypes

  function ToMap(data: Entries): Store
    requires KeysIncrease(data)
  {
    KeysDiffer(data);
    map i | 0 <= i < |data| :: data[i].0 := data[i].1
  }

  lemma KeysDiffer(data: Entries)
    requires KeysIncrease(data)
    ensures forall i, j :: 0 <= i < j < |data| ==> data[i].0 != data[j].0
  {
    forall i, j | 0 <= i < j < |data| ensures data[i].0 != data[j].0 {
      LessIrreflexive(data[i].0);
    }
  }

  lemma EntryInMap(data: Entries, i: nat)
    requires KeysIncrease(data) && i < |data|
    ensures Lookup(ToMap(data), data[i].0) == Some(data[i].1)
  {
    KeysDiffer(data);
  }

  lemma MapHasEntry(data: Entries, key: string) returns (i: nat)
    requires KeysIncrease(data) && key in ToMap(data)
    ensures i < |data| && data[i] == (key, ToMap(data)[key])
  {
    i :| i < |data| && data[i].0 == key;
    EntryInMap(data, i);
    assert data[i] == (data[i].0, data[i].1);
  }

  lemma AbsentFromMap(data: Entries, key: string)
    requires KeysIncrease(data) && forall i :: 0 <= i < |data| ==> data[i].0 != key
    ensures key !in ToMap(data)
  {
  }

  lemma SameMap(a: Store, b: Store)
    requires forall key :: Lookup(a, key) == Lookup(b, key)
    ensures a == b
  {
    forall key ensures key in a <==> key in b {
      assert Lookup(a, key) == Lookup(b, key);
    }
    forall key | key in a ensures a[key] == b[key] {
      assert Lookup(a, key) == Lookup(b, key);
    }
  }

  /** The position of the first entry whose key is not less than `key`, |data| when there is none. */
  function LowerBound(data: Entries, key: string): (i: nat)
    ensures i <= |data|
    ensures forall j :: 0 <= j < i ==> Less(data[j].0, key)
    ensures i < |data| ==> !Less(data[i].0, key)
  {
    if data == [] || !Less(data[0].0, key) then 0
    else
      var i := LowerBound(data[1..], key);
      assert forall j :: 1 <= j <= i ==> data[j] == data[1..][j - 1];
      1 + i
  }

  /** The position of the key, |data| (the end iterator) when it is absent. */
  function FindIndex(data: Entries, key: string): (i: nat)
    ensures i <= |data|
    ensures i < |data| ==> data[i].0 == key
  {
    var i := LowerBound(data, key);
    if i < |data| && data[i].0 == key then i else |data|
  }

  /** `data_[key] = value`. */
  function Assign(data: Entries, key: string, value: string): Entries {
    var i := LowerBound(data, key);
    if i < |data| && data[i].0 == key then data[i := (key, value)]
    else data[..i] + [(key, value)] + data[i..]
  }

  /** `data_.erase(key)`. */
  function Erase(data: Entries, key: string): Entries {
    var i := FindIndex(data, key);
    if i < |data| then data[..i] + data[i + 1..] else data
  }

  predicate Below(lo: Entries, key: string) {
    forall i :: 0 <= i < |lo| ==> Less(lo[i].0, key)
  }

  predicate Above(hi: Entries, key: string) {
    forall i :: 0 <= i < |hi| ==> Less(key, hi[i].0)
  }

  lemma {:induction false} LowerBoundSplits(data: Entries, key: string)
    requires KeysIncrease(data)
    ensures var i := LowerBound(data, key);
      && Below(data[..i], key)
      && (if i < |data| && data[i].0 == key then Above(data[i + 1..], key) else Above(data[i..], key))
  {
    var i := LowerBound(data, key);
    if i < |data| {
      LessTotal(data[i].0, key);
      forall j | i < j < |data| ensures Less(key, data[j].0) {
        if data[i].0 != key {
          LessTransitive(key, data[i].0, data[j].0);
        }
      }
    }
  }

  lemma SplicedIncreases(lo: Entries, e: (string, string), hi: Entries)
    requires KeysIncrease(lo + hi) && Below(lo, e.0) && Above(hi, e.0)
    ensures KeysIncrease(lo + [e] + hi)
  {
    var all, rest := lo + [e] + hi, lo + hi;
    forall i, j | 0 <= i < j < |all| ensures Less(all[i].0, all[j].0) {
      if i != |lo| && j != |lo| {
        var i', j' := if i < |lo| then i else i - 1, if j < |lo| then j else j - 1;
        assert Less(rest[i'].0, rest[j'].0);
      }
    }
  }

  /** Splicing an entry between smaller and larger keys adds exactly that key. */
  lemma SpliceAgrees(lo: Entries, e: (string, string), hi: Entries)
    requires KeysIncrease(lo + hi) && Below(lo, e.0) && Above(hi, e.0)
    ensures KeysIncrease(lo + [e] + hi)
    ensures e.0 !in ToMap(lo + hi) && ToMap(lo + [e] + hi) == ToMap(lo + hi)[e.0 := e.1]
  {
    hide ToMap;
    SplicedIncreases(lo, e, hi);
    LessIrreflexive(e.0);
    var all, rest := lo + [e] + hi, lo + hi;
    AbsentFromMap(rest, e.0);
    forall key ensures Lookup(ToMap(all), key) == Lookup(ToMap(rest)[e.0 := e.1], key) {
      if key == e.0 {
        EntryInMap(all, |lo|);
      } else if key in ToMap(all) {
        var i := MapHasEntry(all, key);
        EntryInMap(rest, if i < |lo| then i else i - 1);
      } else if key in ToMap(rest) {
        var i := MapHasEntry(rest, key);
        EntryInMap(all, if i < |lo| then i else i + 1);
      }
    }
    SameMap(ToMap(all), ToMap(rest)[e.0 := e.1]);
  }

  lemma UnsplicedIncreases(lo: Entries, e: (string, string), hi: Entries)
    requires KeysIncrease(lo + [e] + hi)
    ensures KeysIncrease(lo + hi)
  {
    var all, rest := lo + [e] + hi, lo + hi;
    forall i | 0 <= i < |rest| ensures rest[i] == all[if i < |lo| then i else i + 1] {
    }
  }

  lemma FindSplits(data: Entries, key: string)
    requires KeysIncrease(data) && FindIndex(data, key) < |data|
    ensures var i := FindIndex(data, key);
      && data == data[..i] + [data[i]] + data[i + 1..] && KeysIncrease(data[..i] + data[i + 1..])
      && Below(data[..i], key) && Above(data[i + 1..], key)
  {
    var i := FindIndex(data, key);
    LowerBoundSplits(data, key);
    UnsplicedIncreases(data[..i], data[i], data[i + 1..]);
  }

  /** The store finds a key exactly when the map holds it, with the map's value. */
  lemma FindAgrees(data: Entries, key: string)
    requires KeysIncrease(data)
    ensures Lookup(ToMap(data), key) ==
      if FindIndex(data, key) < |data| then Some(data[FindIndex(data, key)].1) else None
  {
    if FindIndex(data, key) < |data| {
      EntryInMap(data, FindIndex(data, key));
    } else {
      NotFoundAnywhere(data, key);
      AbsentFromMap(data, key);
    }
  }

  lemma {:induction false} NotFoundAnywhere(data: Entries, key: string)
    requires KeysIncrease(data) && FindIndex(data, key) == |data|
    ensures forall j :: 0 <= j < |data| ==> data[j].0 != key
  {
    var i := LowerBound(data, key);
    LowerBoundSplits(data, key);
    LessIrreflexive(key);
    forall j | 0 <= j < |data| ensures data[j].0 != key {
      if j < i {
        assert data[..i][j] == data[j];
      } else {
        assert data[i..][j - i] == data[j];
      }
    }
  }

  lemma AssignAgrees(data: Entries, key: string, value: string)
    requires KeysIncrease(data)
    ensures KeysIncrease(Assign(data, key, value))
    ensures ToMap(Assign(data, key, value)) == ToMap(data)[key := value]
  {
    var i := LowerBound(data, key);
    LowerBoundSplits(data, key);
    if i < |data| && data[i].0 == key {
      WriteThroughAgrees(data, i, value);
    } else {
      assert data[..i] + data[i..] == data;
      SpliceAgrees(data[..i], (key, value), data[i..]);
    }
  }

  lemma EraseAgrees(data: Entries, key: string)
    requires KeysIncrease(data)
    ensures KeysIncrease(Erase(data, key))
    ensures ToMap(Erase(data, key)) == ToMap(data) - {key}
  {
    hide ToMap;
    hide KeysIncrease;
    hide Less;
    hide LowerBound;
    hide Lookup;
    var i := FindIndex(data, key);
    if i < |data| {
      FindSplits(data, key);
      SpliceAgrees(data[..i], data[i], data[i + 1..]);
    } else {
      assert key !in ToMap(data) by {
        FindAgrees(data, key);
        assert Lookup(ToMap(data), key) == None;
        MissingKey(ToMap(data), key);
      }
      assert ToMap(data) - {key} == ToMap(data);
    }
  }

  lemma MissingKey(m: Store, key: string)
    requires Lookup(m, key) == None
    ensures key !in m
  {
  }

  /** Writing through a valid iterator is the map update of its key. */
  lemma WriteThroughAgrees(data: Entries, i: nat, value: string)
    requires KeysIncrease(data) && i < |data|
    ensures KeysIncrease(data[i := (data[i].0, value)])
    ensures ToMap(data[i := (data[i].0, value)]) == ToMap(data)[data[i].0 := value]
  {
    var key, after := data[i].0, data[i := (data[i].0, value)];
    hide ToMap;
    hide Less;
    assert KeysIncrease(after) by {
      assert forall j :: 0 <= j < |data| ==> after[j].0 == data[j].0;
    }
    hide KeysIncrease;
    EntryInMap(after, i);
    forall k | k != key ensures Lookup(ToMap(after), k) == Lookup(ToMap(data), k) {
      if k in ToMap(after) {
        var j := MapHasEntry(after, k);
        EntryInMap(data, j);
      } else if k in ToMap(data) {
        var j := MapHasEntry(data, k);
        EntryInMap(after, j);
      }
    }
    SameMap(ToMap(after), ToMap(data)[key := value]);
  }

  /** The entries from the lower bound up to the first key past the end are the range of the map. */
  lemma {:induction false} SliceIsRange(data: Entries, keyStart: string, keyEnd: string, end: nat)
    requires KeysIncrease(data) && LowerBound(data, keyStart) <= end <= |data|
    requires forall j :: LowerBound(data, keyStart) <= j < end ==> LessEq(data[j].0, keyEnd)
    requires end < |data| ==> !LessEq(data[end].0, keyEnd)
    ensures IsRangeOf(ToMap(data), keyStart, keyEnd, data[LowerBound(data, keyStart)..end])
  {
    hide ToMap;
    hide Less;
    hide LessEq;
    var lb := LowerBound(data, keyStart);
    hide LowerBound;
    var slice := data[lb..end];
    var m := ToMap(data);
    forall j | 0 <= j < |slice|
      ensures InRange(keyStart, keyEnd, slice[j].0) && Lookup(m, slice[j].0) == Some(slice[j].1)
    {
      AtOrAfterLowerBound(data, keyStart, lb + j);
      EntryInMap(data, lb + j);
    }
    forall key | key in m && InRange(keyStart, keyEnd, key) ensures (key, m[key]) in slice {
      var j := MapHasEntry(data, key);
      assert lb <= j < end by {
        if j < lb {
          LessAsymmetric(key, keyStart);
        } else if end <= j {
          PastTheEnd(data, keyEnd, end, j);
        }
      }
      assert slice[j - lb] == (key, m[key]);
    }
  }

  lemma {:induction false} AtOrAfterLowerBound(data: Entries, key: string, j: nat)
    requires KeysIncrease(data) && LowerBound(data, key) <= j < |data|
    ensures LessEq(key, data[j].0)
  {
    var lb := LowerBound(data, key);
    LowerBoundSplits(data, key);
    if lb < j {
      assert data[lb..][j - lb] == data[j] && data[lb + 1..][j - lb - 1] == data[j];
    } else {
      assert data[lb..][0] == data[j];
    }
  }

  lemma PastTheEnd(data: Entries, keyEnd: string, end: nat, j: nat)
    requires KeysIncrease(data) && end <= j < |data| && !LessEq(data[end].0, keyEnd)
    ensures !LessEq(data[j].0, keyEnd)
  {
    LessTotal(data[end].0, keyEnd);
    if end < j {
      LessTransitive(keyEnd, data[end].0, data[j].0);
    }
    LessAsymmetric(keyEnd, data[j].0);
  }

  class InMemoryKVStore {
    var data: Entries

    ghost predicate Valid()
      reads this
    {
      KeysIncrease(data)
    }

    ghost function Contents(): Store
      reads this
      requires Valid()
    {
      ToMap(data)
    }

    constructor ()
      ensures Valid() && Contents() == map[]
    {
      data := [];
    }

    method Put(key: string, newValue: string) returns (keyFound: bool)
      requires Valid()
      modifies this
      ensures Valid() && Contents() == After(old(Contents()), KvCall.Put(key, newValue))
      ensures Answers(old(Contents()), KvCall.Put(key, newValue), KvResp.Put(key, keyFound))
    {
      FindAgrees(data, key);
      AssignAgrees(data, key, newValue);
      keyFound := false;
      var it := FindIndex(data, key);
      if it != |data| {
        keyFound := true;
      }
      data := Assign(data, key, newValue);
    }

    method Swap(key: string, newValue: string) returns (oldValue: Option<string>)
      requires Valid()
      modifies this
      ensures Valid() && Contents() == After(old(Contents()), KvCall.Swap(key, newValue))
      ensures Answers(old(Contents()), KvCall.Swap(key, newValue), KvResp.Swap(key, oldValue))
    {
      FindAgrees(data, key);
      var it := FindIndex(data, key);
      if it == |data| {
        AssignAgrees(data, key, newValue);
        data := Assign(data, key, newValue);
        return None;
      }
      WriteThroughAgrees(data, it, newValue);
      oldValue := Some(data[it].1);
      data := data[it := (data[it].0, newValue)];
    }

    method Get(key: string) returns (value: Option<string>)
      requires Valid()
      ensures Answers(Contents(), KvCall.Get(key), KvResp.Get(key, value))
    {
      FindAgrees(data, key);
      var it := FindIndex(data, key);
      if it == |data| {
        return None;
      }
      value := Some(data[it].1);
    }

    method Scan(startKey: string, endKey: string) returns (result: Entries)
      requires Valid()
      ensures Answers(Contents(), KvCall.Scan(startKey, endKey), KvResp.Scan(startKey, endKey, result))
    {
      result := [];
      var it := LowerBound(data, startKey);
      while it != |data| && LessEq(data[it].0, endKey)
        invariant LowerBound(data, startKey) <= it <= |data|
        invariant result == data[LowerBound(data, startKey)..it]
        invariant forall j :: LowerBound(data, startKey) <= j < it ==> LessEq(data[j].0, endKey)
        decreases |data| - it
      {
        result := result + [data[it]];
        it := it + 1;
      }
      SliceIsRange(data, startKey, endKey, it);
    }

    method Delete(key: string) returns (found: bool)
      requires Valid()
      modifies this
      ensures Valid() && Contents() == After(old(Contents()), KvCall.Delete(key))
      ensures Answers(old(Contents()), KvCall.Delete(key), KvResp.Delete(key, found))
    {
      FindAgrees(data, key);
      EraseAgrees(data, key);
      var it := FindIndex(data, key);
      if it == |data| {
        return false;
      }
      data := Erase(data, key);
      found := true;
    }
  }
}
