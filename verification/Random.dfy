/** Random choices: the raw numbers are inputs, and what the fuzzer makes of them is modelled. */
module Random {
  import opened Lex
  import opened KvTypes

  const VALUE_LEN: nat := 16
  const ALPHABET_LEN: nat := 62

  // The raw random numbers of one turn of the fuzzer's loop. `clients` are the attempts of
  // the client picker and `chars` the characters of a value, in the order they are drawn.
  datatype Draws = Draws(coin: bool, clients: nat -> nat, kind: nat, key: nat, endKey: nat, chars: nat -> nat)

  /** A raw number brought into [0, max). */
  function Index(raw: nat, max: nat): (i: nat)
    requires max != 0
    ensures i < max
    ensures raw < max ==> i == raw
  {
    raw % max
  }

  method GenRandIndex(max: nat, raw: nat) returns (i: nat)
    requires max != 0
    ensures i < max && i == Index(raw, max)
  {
    i := raw % max;
  }

  // ---- Call versus wait ----

  predicate All(flying: seq<bool>) {
    forall c :: 0 <= c < |flying| ==> flying[c]
  }

  predicate NoneSet(flying: seq<bool>) {
    forall c :: 0 <= c < |flying| ==> !flying[c]
  }

  /** The decision on call versus wait; `coin` is the random bit. */
  function GenCallVsWait(opsCalled: nat, numOps: nat, flying: seq<bool>, coin: bool): bool {
    if opsCalled == numOps || All(flying) then false
    else if NoneSet(flying) then true
    else coin
  }

  /** While operations are left, some client idle and some flying, the random bit alone decides;
      otherwise there is only one thing to do. */
  lemma ChoiceFollowsCoin(opsCalled: nat, numOps: nat, flying: seq<bool>, coin: bool)
    requires opsCalled <= numOps && CanPick(flying, false)
    ensures opsCalled < numOps && CanPick(flying, true) ==> GenCallVsWait(opsCalled, numOps, flying, coin) == coin
    ensures opsCalled < numOps && !CanPick(flying, true) ==> GenCallVsWait(opsCalled, numOps, flying, coin)
    ensures opsCalled == numOps ==> !GenCallVsWait(opsCalled, numOps, flying, coin)
  {
  }

  // ---- The client ----

  /** The assertion of the client picker: some client has the wanted status. */
  predicate CanPick(flying: seq<bool>, wantFlying: bool) {
    if wantFlying then !NoneSet(flying) else !All(flying)
  }

  ghost predicate ComesUp(clients: nat -> nat, n: nat, c: nat)
    requires n != 0
  {
    exists k: nat :: Index(clients(k), n) == c
  }

  /** Every client comes up sooner or later. */
  ghost predicate ReachesAll(clients: nat -> nat, n: nat) {
    n != 0 && forall c :: 0 <= c < n ==> ComesUp(clients, n, c)
  }

  predicate Picks(flying: seq<bool>, wantFlying: bool, clients: nat -> nat, k: nat)
    requires flying != []
  {
    flying[Index(clients(k), |flying|)] == wantFlying
  }

  /** Some drawn client has the wanted status: exactly then the retries end. */
  ghost predicate WillPick(flying: seq<bool>, wantFlying: bool, clients: nat -> nat) {
    flying != [] && exists k: nat :: Picks(flying, wantFlying, clients, k)
  }

  lemma FairDrawsPick(flying: seq<bool>, wantFlying: bool, clients: nat -> nat)
    requires CanPick(flying, wantFlying) && ReachesAll(clients, |flying|)
    ensures WillPick(flying, wantFlying, clients)
  {
    var c :| 0 <= c < |flying| && flying[c] == wantFlying;
    assert ComesUp(clients, |flying|, c);
    var w: nat :| Index(clients(w), |flying|) == c;
    assert Picks(flying, wantFlying, clients, w);
  }

  ghost predicate FirstPick(flying: seq<bool>, wantFlying: bool, clients: nat -> nat, k: nat)
    requires flying != []
  {
    Picks(flying, wantFlying, clients, k) && forall j: nat :: j < k ==> !Picks(flying, wantFlying, clients, j)
  }

  lemma {:induction false} SomePick(flying: seq<bool>, wantFlying: bool, clients: nat -> nat)
    requires WillPick(flying, wantFlying, clients)
    ensures exists k: nat :: FirstPick(flying, wantFlying, clients, k)
  {
    var w: nat :| Picks(flying, wantFlying, clients, w);
    var k := 0;
    while !Picks(flying, wantFlying, clients, k)
      invariant k <= w
      invariant forall j: nat :: j < k ==> !Picks(flying, wantFlying, clients, j)
      decreases w - k
    {
      k := k + 1;
    }
    assert FirstPick(flying, wantFlying, clients, k);
  }

  /** The first client of the drawn ones that has the wanted status. */
  ghost function PickedClient(flying: seq<bool>, wantFlying: bool, clients: nat -> nat): (c: nat)
    requires WillPick(flying, wantFlying, clients)
    ensures c < |flying| && flying[c] == wantFlying
  {
    SomePick(flying, wantFlying, clients);
    var k: nat :| FirstPick(flying, wantFlying, clients, k);
    Index(clients(k), |flying|)
  }

  method GenRandClient(flying: seq<bool>, wantFlying: bool, clients: nat -> nat) returns (cidx: nat)
    requires WillPick(flying, wantFlying, clients)
    ensures CanPick(flying, wantFlying) && cidx < |flying| && flying[cidx] == wantFlying
    ensures cidx == PickedClient(flying, wantFlying, clients)
  {
    SomePick(flying, wantFlying, clients);
    ghost var least: nat :| FirstPick(flying, wantFlying, clients, least);
    var k := 0;
    cidx := GenRandIndex(|flying|, clients(k));
    while flying[cidx] != wantFlying
      invariant k <= least && cidx == Index(clients(k), |flying|)
      invariant forall j: nat :: j < k ==> !Picks(flying, wantFlying, clients, j)
      decreases least - k
    {
      assert !Picks(flying, wantFlying, clients, k);
      k := k + 1;
      cidx := GenRandIndex(|flying|, clients(k));
    }
    assert FirstPick(flying, wantFlying, clients, k);
    FirstPickUnique(flying, wantFlying, clients, k);
  }

  lemma FirstPickUnique(flying: seq<bool>, wantFlying: bool, clients: nat -> nat, k: nat)
    requires WillPick(flying, wantFlying, clients) && FirstPick(flying, wantFlying, clients, k)
    ensures PickedClient(flying, wantFlying, clients) == Index(clients(k), |flying|)
  {
    forall j: nat | FirstPick(flying, wantFlying, clients, j) ensures j == k {
      assert !(j < k) && !(k < j);
    }
  }

  /** Any client with the wanted status can be the one that is picked. */
  lemma EveryClientPicked(flying: seq<bool>, wantFlying: bool, c: nat) returns (clients: nat -> nat)
    requires c < |flying| && flying[c] == wantFlying
    ensures ReachesAll(clients, |flying|) && WillPick(flying, wantFlying, clients)
    ensures PickedClient(flying, wantFlying, clients) == c
  {
    clients := (k: nat) => if k == 0 then c else k - 1;
    forall b | 0 <= b < |flying| ensures ComesUp(clients, |flying|, b) {
      assert Index(clients(b + 1), |flying|) == b;
    }
    assert Index(clients(0), |flying|) == c;
    assert FirstPick(flying, wantFlying, clients, 0);
    FirstPickUnique(flying, wantFlying, clients, 0);
  }

  // ---- The call ----

  predicate Alphanumeric(c: char) {
    'A' <= c <= 'Z' || 'a' <= c <= 'z' || '0' <= c <= '9'
  }

  predicate RandomValue(v: string) {
    |v| == VALUE_LEN && forall i :: 0 <= i < |v| ==> Alphanumeric(v[i])
  }

  /** The calls a client with these keys can be given. */
  predicate Generated(keys: seq<string>, call: KvCall) {
    match call
    case Put(key, value) => key in keys && RandomValue(value)
    case Swap(key, value) => key in keys && RandomValue(value)
    case Get(key) => key in keys
    case Scan(keyStart, keyEnd) => keyStart in keys && keyEnd in keys && LessEq(keyStart, keyEnd)
    case Delete(key) => key in keys
    case Stop => false
  }

  function CharAt(i: nat): (c: char)
    requires i < ALPHABET_LEN
    ensures Alphanumeric(c)
  {
    if i < 26 then ('A' as int + i) as char
    else if i < 52 then ('a' as int + (i - 26)) as char
    else ('0' as int + (i - 52)) as char
  }

  function PlaceOf(c: char): (i: nat)
    requires Alphanumeric(c)
    ensures i < ALPHABET_LEN && CharAt(i) == c
  {
    if 'A' <= c <= 'Z' then c as int - 'A' as int
    else if 'a' <= c <= 'z' then 26 + (c as int - 'a' as int)
    else 52 + (c as int - '0' as int)
  }

  function DrawnString(len: nat, chars: nat -> nat): (s: string)
    ensures |s| == len && forall i :: 0 <= i < len ==> s[i] == CharAt(Index(chars(i), ALPHABET_LEN))
  {
    if len == 0 then "" else DrawnString(len - 1, chars) + [CharAt(Index(chars(len - 1), ALPHABET_LEN))]
  }

  function DrawnCall(keys: seq<string>, d: Draws): KvCall
    requires keys != []
  {
    var kind, key := Index(d.kind, 10), keys[Index(d.key, |keys|)];
    if kind <= 1 then KvCall.Put(key, DrawnString(VALUE_LEN, d.chars))
    else if kind <= 3 then KvCall.Swap(key, DrawnString(VALUE_LEN, d.chars))
    else if kind <= 6 then KvCall.Get(key)
    else if kind <= 8 then
      var endKey := keys[Index(d.endKey, |keys|)];
      if Less(endKey, key) then KvCall.Scan(endKey, key) else KvCall.Scan(key, endKey)
    else KvCall.Delete(key)
  }

  /** A drawn call uses the given keys, a value of the fixed form and Scan bounds in order. */
  lemma DrawnIsGenerated(keys: seq<string>, d: Draws)
    requires keys != []
    ensures Generated(keys, DrawnCall(keys, d))
  {
    hide Index;
    hide Less;
    hide DrawnString;
    LessTotal(keys[Index(d.key, |keys|)], keys[Index(d.endKey, |keys|)]);
  }

  /** How many of the first `n` kinds draw a call with the given property. */
  function Tally(keys: seq<string>, d: Draws, wanted: KvCall -> bool, n: nat): nat
    requires keys != []
  {
    if n == 0 then 0
    else Tally(keys, d, wanted, n - 1) + if wanted(DrawnCall(keys, d.(kind := n - 1))) then 1 else 0
  }

  /** Of ten equally likely kinds two draw a Put, two a Swap, three a Get, two a Scan and one a Delete. */
  lemma {:induction false} CallWeights(keys: seq<string>, d: Draws)
    requires keys != []
    ensures Tally(keys, d, (call: KvCall) => call.Put?, 10) == 2
    ensures Tally(keys, d, (call: KvCall) => call.Swap?, 10) == 2
    ensures Tally(keys, d, (call: KvCall) => call.Get?, 10) == 3
    ensures Tally(keys, d, (call: KvCall) => call.Scan?, 10) == 2
    ensures Tally(keys, d, (call: KvCall) => call.Delete?, 10) == 1
  {
    TallyTen(keys, d, (call: KvCall) => call.Put?);
    TallyTen(keys, d, (call: KvCall) => call.Swap?);
    TallyTen(keys, d, (call: KvCall) => call.Get?);
    TallyTen(keys, d, (call: KvCall) => call.Scan?);
    TallyTen(keys, d, (call: KvCall) => call.Delete?);
  }

  function One(b: bool): nat {
    if b then 1 else 0
  }

  lemma {:induction false} TallyTen(keys: seq<string>, d: Draws, wanted: KvCall -> bool)
    requires keys != []
    ensures Tally(keys, d, wanted, 10) ==
      One(wanted(DrawnCall(keys, d.(kind := 0)))) + One(wanted(DrawnCall(keys, d.(kind := 1))))
      + One(wanted(DrawnCall(keys, d.(kind := 2)))) + One(wanted(DrawnCall(keys, d.(kind := 3))))
      + One(wanted(DrawnCall(keys, d.(kind := 4)))) + One(wanted(DrawnCall(keys, d.(kind := 5))))
      + One(wanted(DrawnCall(keys, d.(kind := 6)))) + One(wanted(DrawnCall(keys, d.(kind := 7))))
      + One(wanted(DrawnCall(keys, d.(kind := 8)))) + One(wanted(DrawnCall(keys, d.(kind := 9))))
  {
    hide DrawnCall;
    assert Tally(keys, d, wanted, 0) == 0;
    assert Tally(keys, d, wanted, 4) == Tally(keys, d, wanted, 2)
      + One(wanted(DrawnCall(keys, d.(kind := 2)))) + One(wanted(DrawnCall(keys, d.(kind := 3))));
    assert Tally(keys, d, wanted, 6) == Tally(keys, d, wanted, 4)
      + One(wanted(DrawnCall(keys, d.(kind := 4)))) + One(wanted(DrawnCall(keys, d.(kind := 5))));
    assert Tally(keys, d, wanted, 8) == Tally(keys, d, wanted, 6)
      + One(wanted(DrawnCall(keys, d.(kind := 6)))) + One(wanted(DrawnCall(keys, d.(kind := 7))));
  }

  lemma {:induction false} EveryValueDrawn(value: string) returns (chars: nat -> nat)
    requires forall i :: 0 <= i < |value| ==> Alphanumeric(value[i])
    ensures DrawnString(|value|, chars) == value
  {
    chars := (k: nat) => if k < |value| && Alphanumeric(value[k]) then PlaceOf(value[k]) else 0;
    var drawn := DrawnString(|value|, chars);
    forall i | 0 <= i < |value| ensures drawn[i] == value[i] {
      assert chars(i) == PlaceOf(value[i]);
    }
  }

  /** And every such call can be drawn. */
  lemma EveryCallDrawn(keys: seq<string>, call: KvCall) returns (d: Draws)
    requires Generated(keys, call)
    ensures keys != [] && DrawnCall(keys, d) == call
  {
    hide Index;
    hide Less;
    hide DrawnString;
    var chars: nat -> nat := (k: nat) => 0;
    if call.Put? || call.Swap? {
      chars := EveryValueDrawn(call.value);
    }
    var first := if call.Scan? then call.keyStart else call.key;
    var i: nat :| i < |keys| && keys[i] == first;
    match call {
      case Put(_, _) => d := Draws(false, chars, 0, i, i, chars);
      case Swap(_, _) => d := Draws(false, chars, 2, i, i, chars);
      case Get(_) => d := Draws(false, chars, 4, i, i, chars);
      case Scan(keyStart, keyEnd) =>
        var j: nat :| j < |keys| && keys[j] == keyEnd;
        d := Draws(false, chars, 7, i, j, chars);
        LessEqIsNotGreater(keyStart, keyEnd);
      case Delete(_) => d := Draws(false, chars, 9, i, i, chars);
    }
  }

  method GenRandString(len: nat, chars: nat -> nat) returns (s: string)
    requires len != 0
    ensures |s| == len && forall i :: 0 <= i < len ==> Alphanumeric(s[i])
    ensures s == DrawnString(len, chars)
  {
    s := "";
    while |s| < len
      invariant |s| <= len && s == DrawnString(|s|, chars)
      decreases len - |s|
    {
      var i := GenRandIndex(ALPHABET_LEN, chars(|s|));
      s := s + [CharAt(i)];
    }
  }

  method GenRandKvCall(keys: seq<string>, d: Draws) returns (call: KvCall)
    requires keys != []
    ensures Generated(keys, call) && call == DrawnCall(keys, d)
    ensures call.Put? || call.Swap? ==> |call.value| == 16
  {
    DrawnIsGenerated(keys, d);
    hide Index;
    hide Less;
    hide Generated;
    hide DrawnString;
    var pick := GenRandIndex(10, d.kind);
    var kidx := GenRandIndex(|keys|, d.key);
    if pick <= 1 {
      var value := GenRandString(VALUE_LEN, d.chars);
      call := KvCall.Put(keys[kidx], value);
    } else if pick <= 3 {
      var value := GenRandString(VALUE_LEN, d.chars);
      call := KvCall.Swap(keys[kidx], value);
    } else if pick <= 6 {
      call := KvCall.Get(keys[kidx]);
    } else if pick <= 8 {
      var keidx := GenRandIndex(|keys|, d.endKey);
      var keyStart, keyEnd := keys[kidx], keys[keidx];
      if Less(keyEnd, keyStart) {
        keyStart, keyEnd := keyEnd, keyStart;
      }
      call := KvCall.Scan(keyStart, keyEnd);
    } else {
      call := KvCall.Delete(keys[kidx]);
    }
  }
}
