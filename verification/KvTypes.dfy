/** Calls and responses of the stdin/stdout workload interface, and the sequential map they talk about. */
module KvTypes {
  import opened Wrappers
  import opened Lex

  datatype KvCall =
    | Put(key: string, value: string)
    | Swap(key: string, value: string)
    | Get(key: string)
    | Scan(keyStart: string, keyEnd: string)
    | Delete(key: string)
    | Stop

  type Entries = seq<(string, string)>

  datatype KvResp =
    | Put(key: string, found: bool)
    | Swap(key: string, oldValue: Option<string>)
    | Get(key: string, value: Option<string>)
    | Scan(keyStart: string, keyEnd: string, entries: Entries)
    | Delete(key: string, found: bool)
    | Stop

  // The key written by a call, with `None` as the value when the key is deleted.
  type Update = (string, Option<string>)

  function UpdateInfo(call: KvCall): Option<Update> {
    match call
    case Put(key, value) => Some((key, Some(value)))
    case Swap(key, value) => Some((key, Some(value)))
    case Delete(key) => Some((key, None))
    case _ => None
  }

  type Store = map<string, string>

  function Lookup(m: Store, key: string): Option<string> {
    if key in m then Some(m[key]) else None
  }

  function Write(m: Store, u: Update): Store {
    match u.1
    case Some(value) => m[u.0 := value]
    case None => m - {u.0}
  }

  /** The sequential map after a call. */
  function After(m: Store, call: KvCall): Store {
    match UpdateInfo(call)
    case Some(u) => Write(m, u)
    case None => m
  }

  function Find(entries: Entries, key: string): Option<string> {
    if entries == [] then None
    else if entries[0].0 == key then Some(entries[0].1)
    else Find(entries[1..], key)
  }

  predicate InRange(keyStart: string, keyEnd: string, key: string) {
    LessEq(keyStart, key) && LessEq(key, keyEnd)
  }

  predicate KeysIncrease(entries: Entries) {
    forall i, j :: 0 <= i < j < |entries| ==> Less(entries[i].0, entries[j].0)
  }

  /** `entries` lists the map's content between two keys, both included, in key order. */
  ghost predicate IsRangeOf(m: Store, keyStart: string, keyEnd: string, entries: Entries) {
    && KeysIncrease(entries)
    && (forall i :: 0 <= i < |entries| ==>
          InRange(keyStart, keyEnd, entries[i].0) && Lookup(m, entries[i].0) == Some(entries[i].1))
    && (forall key :: key in m && InRange(keyStart, keyEnd, key) ==> (key, m[key]) in entries)
  }

  /** The answer a sequential map holding `m` gives to `call`. */
  ghost predicate Answers(m: Store, call: KvCall, resp: KvResp) {
    match call
    case Put(key, _) => resp == KvResp.Put(key, key in m)
    case Swap(key, _) => resp == KvResp.Swap(key, Lookup(m, key))
    case Get(key) => resp == KvResp.Get(key, Lookup(m, key))
    case Scan(a, b) => resp.Scan? && resp == KvResp.Scan(a, b, resp.entries) && IsRangeOf(m, a, b, resp.entries)
    case Delete(key) => resp == KvResp.Delete(key, key in m)
    case Stop => resp == KvResp.Stop
  }

  lemma {:induction false} FindIn(entries: Entries, i: nat)
    requires i < |entries|
    requires forall j :: 0 <= j < i ==> entries[j].0 != entries[i].0
    ensures Find(entries, entries[i].0) == Some(entries[i].1)
  {
    if i == 0 {
    } else {
      assert entries[0].0 != entries[i].0;
      assert entries[1..][i - 1] == entries[i];
      FindIn(entries[1..], i - 1);
    }
  }

  lemma {:induction false} FindSound(entries: Entries, key: string)
    ensures match Find(entries, key)
            case Some(value) => (key, value) in entries
            case None => forall i :: 0 <= i < |entries| ==> entries[i].0 != key
  {
    if entries != [] && entries[0].0 != key {
      FindSound(entries[1..], key);
      forall i | 0 <= i < |entries| && Find(entries, key).None? ensures entries[i].0 != key {
        if i > 0 {
          assert entries[1..][i - 1] == entries[i];
        }
      }
    } else if entries != [] {
      assert entries[0] == (key, entries[0].1);
    }
  }

  /** A range listing read as a map agrees with the store on every key of the range. */
  lemma {:induction false} RangeLookup(m: Store, keyStart: string, keyEnd: string, entries: Entries, key: string)
    requires IsRangeOf(m, keyStart, keyEnd, entries) && InRange(keyStart, keyEnd, key)
    ensures Find(entries, key) == Lookup(m, key)
  {
    FindSound(entries, key);
  }

  /** A store and a range have one listing only. */
  lemma {:induction false} RangeUnique(m: Store, keyStart: string, keyEnd: string, xs: Entries, ys: Entries)
    requires IsRangeOf(m, keyStart, keyEnd, xs) && IsRangeOf(m, keyStart, keyEnd, ys)
    ensures xs == ys
  {
    SortedUnique(xs, ys);
  }

  lemma {:induction false} SortedUnique(xs: Entries, ys: Entries)
    requires KeysIncrease(xs) && KeysIncrease(ys)
    requires forall e :: e in xs <==> e in ys
    ensures xs == ys
  {
    StrictTotalOrder();
    assert ys != [] ==> ys[0] in xs;
    if xs == [] {
    } else {
      assert xs[0] in ys;
      var i :| 0 <= i < |ys| && ys[i] == xs[0];
      var j :| 0 <= j < |xs| && xs[j] == ys[0];
      assert xs[0] == ys[0];
      forall e ensures e in xs[1..] <==> e in ys[1..] {
        if e in xs[1..] {
          assert e != xs[0];
          assert e in ys && xs == [xs[0]] + xs[1..];
          assert ys == [ys[0]] + ys[1..];
        }
        if e in ys[1..] {
          assert e != ys[0];
          assert e in xs && ys == [ys[0]] + ys[1..];
          assert xs == [xs[0]] + xs[1..];
        }
      }
      SortedUnique(xs[1..], ys[1..]);
      assert xs == [xs[0]] + xs[1..] && ys == [ys[0]] + ys[1..];
    }
  }
}
