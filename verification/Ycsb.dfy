/** The YCSB translator: benchmark lines become calls, and an index of inserted keys
    turns a scan count into the end key of a range. */
module Ycsb {
  import opened Wrappers
  import opened Lex
  import opened KvTypes
  import opened StoreModule
  import opened Text

  // A sorted set of keys is a sorted map whose values carry nothing.
  type KeySet = Entries

  function Members(ikeys: KeySet): set<string>
    requires KeysIncrease(ikeys)
  {
    ToMap(ikeys).Keys
  }

  datatype Outcome =
    | NotACall
    | Call(call: KvCall, op: string)
    | BadLine
    | Underflow // `scnt - 1` with a count of zero

  predicate Digit(c: char) {
    '0' <= c <= '9'
  }

  const USIZE_MAX: nat := 0xFFFF_FFFF_FFFF_FFFF

  predicate AllDigits(s: string) {
    forall i :: 0 <= i < |s| ==> Digit(s[i])
  }

  function Unsigned(s: string): string {
    if s != "" && s[0] == '+' then s[1..] else s
  }

  function DigitsValue(s: string): nat
    requires AllDigits(s)
  {
    if s == "" then 0
    else
      assert Digit(s[|s| - 1]);
      10 * DigitsValue(s[..|s| - 1]) + (s[|s| - 1] as int - '0' as int)
  }

  /** A decimal number that fits a machine word; a leading plus sign is allowed. */
  function ParseUsize(s: string): Option<nat> {
    var digits := Unsigned(s);
    if digits != "" && AllDigits(digits) && DigitsValue(digits) <= USIZE_MAX then Some(DigitsValue(digits)) else None
  }

  // ---- Numerals ----

  function DigitChar(d: nat): char
    requires d < 10
  {
    ('0' as int + d) as char
  }

  /** The usual decimal notation. */
  function Decimal(n: nat): (s: string)
    ensures s != "" && AllDigits(s)
  {
    if n < 10 then [DigitChar(n)] else Decimal(n / 10) + [DigitChar(n % 10)]
  }

  lemma {:induction false} DecimalValue(n: nat)
    ensures DigitsValue(Decimal(n)) == n
  {
    var s := Decimal(n);
    if n < 10 {
      assert s[..0] == "" && DigitsValue("") == 0;
    } else {
      DecimalValue(n / 10);
      assert s[..|s| - 1] == Decimal(n / 10);
    }
  }

  /** A number printed in decimal, with or without a plus sign, is read as that number if
      it fits a machine word, and otherwise refused. */
  lemma {:induction false} NumeralRoundTrip(n: nat)
    ensures ParseUsize(Decimal(n)) == if n <= 0xFFFF_FFFF_FFFF_FFFF then Some(n) else None
    ensures ParseUsize("+" + Decimal(n)) == ParseUsize(Decimal(n))
  {
    DecimalValue(n);
    assert Digit(Decimal(n)[0]);
    assert ("+" + Decimal(n))[1..] == Decimal(n);
    hide DigitsValue;
    hide Decimal;
  }

  /** Zeros in front of the digits change nothing. */
  lemma {:induction false} LeadingZero(s: string)
    requires s != "" && AllDigits(s)
    ensures ParseUsize("0" + s) == ParseUsize(s)
  {
    var t := "0" + s;
    forall i | 0 <= i < |t| ensures Digit(t[i]) {
      assert i > 0 ==> t[i] == s[i - 1];
    }
    assert Digit(s[0]);
    LeadingZeroValue(s);
  }

  lemma {:induction false} LeadingZeroValue(s: string)
    requires AllDigits(s) && AllDigits("0" + s)
    ensures DigitsValue("0" + s) == DigitsValue(s)
  {
    var t := "0" + s;
    if s == "" {
      assert t[..0] == "" && DigitsValue("") == 0;
    } else {
      assert t[..|t| - 1] == "0" + s[..|s| - 1];
      LeadingZeroValue(s[..|s| - 1]);
    }
  }

  /** Nothing else is a count: not the empty word, not a lone plus sign, and no word with a
      character that is neither a digit nor a plus sign in front. */
  lemma NotANumeral(s: string, i: nat)
    requires i < |s| && !('0' <= s[i] <= '9') && (i == 0 ==> s[0] != '+')
    ensures ParseUsize(s).None?
    ensures ParseUsize("").None?
    ensures ParseUsize("+").None?
  {
    assert !Digit(Unsigned(s)[if s[0] == '+' then i - 1 else i]);
    assert "+"[1..] == "";
  }

  // ---- Translating a line ----

  function JoinValue(segs: seq<string>): string {
    if segs == [] then "" else JoinValue(segs[..|segs| - 1]) + "_" + segs[|segs| - 1]
  }

  /** The `scnt`th indexed key from the start key on, or the last one there is. */
  function KeyEnd(ikeys: KeySet, keyStart: string, scnt: nat): string
    requires ikeys != [] && scnt >= 1
  {
    var i := LowerBound(ikeys, keyStart) + (scnt - 1);
    if i < |ikeys| then ikeys[i].0 else ikeys[|ikeys| - 1].0
  }

  function ScanCall(w: seq<string>, ikeys: KeySet): Outcome
    requires |w| >= 3
  {
    var keyStart := w[1] + "_" + w[2];
    if ikeys == [] then Call(KvCall.Scan(keyStart, "zzzzzzzz"), "SCAN")
    else if |w| < 4 || ParseUsize(w[3]).None? then BadLine
    else if ParseUsize(w[3]).value == 0 then Underflow
    else Call(KvCall.Scan(keyStart, KeyEnd(ikeys, keyStart, ParseUsize(w[3]).value)), "SCAN")
  }

  /** What a line is translated to, and the index after it. */
  function Interpret(line: string, ikeys: KeySet): (Outcome, KeySet) {
    var w := Words(line);
    if w == [] then (NotACall, ikeys)
    else if w[0] == "INSERT" then
      if |w| < 4 || w[3] != "[" then (BadLine, ikeys)
      else
        var key := w[1] + "_" + w[2];
        (Call(KvCall.Put(key, JoinValue(w[4..])), "INSERT"), Assign(ikeys, key, ""))
    else if w[0] == "UPDATE" then
      (if |w| < 4 || w[3] != "[" then
        BadLine else Call(KvCall.Swap(w[1] + "_" + w[2], JoinValue(w[4..])), "UPDATE"), ikeys)
    else if w[0] == "READ" then
      (if |w| < 3 then BadLine else Call(KvCall.Get(w[1] + "_" + w[2]), "READ"), ikeys)
    else if w[0] == "SCAN" then (if |w| < 3 then BadLine else ScanCall(w, ikeys), ikeys)
    else (NotACall, ikeys)
  }

  /** Joining lists one after the other is joining them together. */
  lemma {:induction false} JoinConcat(a: seq<string>, b: seq<string>)
    ensures JoinValue(a + b) == JoinValue(a) + JoinValue(b)
    ensures b != [] && |b| == 1 ==> JoinValue(b) == "_" + b[0]
    decreases |b|
  {
    if b == [] {
      assert a + b == a;
    } else {
      var n := |b| - 1;
      assert (a + b)[..|a + b| - 1] == a + b[..n];
      JoinConcat(a, b[..n]);
      assert n == 0 ==> b[..n] == [] && JoinValue([]) + "_" + b[0] == "_" + b[0];
    }
  }

  lemma {:induction false} TokensTogether(a: seq<string>, b: seq<string>)
    requires Tokens(a) && Tokens(b)
    ensures Tokens(a + b) && Words(LineOf(a + b)) == a + b
  {
    hide Token;
    hide Words;
    WordsOfLine(a + b);
  }

  lemma VerbTokens()
    ensures Token("INSERT") && Token("UPDATE") && Token("READ") && Token("[")
    ensures "INSERT" != "UPDATE" && "READ" != "INSERT" && "READ" != "UPDATE"
  {
    assert "INSERT"[0] != "UPDATE"[0];
  }

  /** What the lines of the benchmark driver ask for, whatever the index: the table name and
      the key number make the key, and what follows the bracket the value. */
  lemma {:induction false} InsertTranslated(table: string, id: string, fields: seq<string>, ikeys: KeySet)
    requires Token(table) && Token(id) && Tokens(fields) && KeysIncrease(ikeys)
    ensures var key := table + "_" + id;
      var (outcome, after) := Interpret(LineOf(["INSERT", table, id, "["] + fields), ikeys);
      && outcome == Call(KvCall.Put(key, JoinValue(fields)), "INSERT")
      && KeysIncrease(after) && Members(after) == Members(ikeys) + {key}
  {
    hide JoinValue;
    hide Words;
    hide LineOf;
    hide Token;
    hide ToMap;
    VerbTokens();
    var head := ["INSERT", table, id, "["];
    TokensTogether(head, fields);
    assert (head + fields)[4..] == fields;
    AssignAgrees(ikeys, table + "_" + id, "");
  }

  lemma {:induction false} UpdateTranslated(table: string, id: string, fields: seq<string>, ikeys: KeySet)
    requires Token(table) && Token(id) && Tokens(fields)
    ensures Interpret(LineOf(["UPDATE", table, id, "["] + fields), ikeys) ==
      (Call(KvCall.Swap(table + "_" + id, JoinValue(fields)), "UPDATE"), ikeys)
  {
    hide JoinValue;
    hide Words;
    hide LineOf;
    hide Token;
    VerbTokens();
    var head := ["UPDATE", table, id, "["];
    TokensTogether(head, fields);
    assert (head + fields)[4..] == fields;
  }

  lemma {:induction false} ReadTranslated(table: string, id: string, rest: seq<string>, ikeys: KeySet)
    requires Token(table) && Token(id) && Tokens(rest)
    ensures Interpret(LineOf(["READ", table, id] + rest), ikeys) == (Call(KvCall.Get(table + "_" + id), "READ"), ikeys)
  {
    hide Words;
    hide LineOf;
    hide Token;
    VerbTokens();
    TokensTogether(["READ", table, id], rest);
  }

  class Translator {
    var ikeys: KeySet

    constructor (initial: KeySet)
      ensures ikeys == initial
    {
      ikeys := initial;
    }

    /** `interpret_ycsb_call`: each arm takes its segments off the front of the line. */
    method InterpretLine(line: string) returns (outcome: Outcome)
      modifies this
      ensures (outcome, ikeys) == Interpret(line, old(ikeys))
    {
      hide JoinValue;
      hide KeyEnd;
      hide Words;
      var segs := Words(line);
      if segs == [] {
        return NotACall;
      }
      var verb, rest := segs[0], segs[1..];
      if verb != "INSERT" && verb != "UPDATE" && verb != "READ" && verb != "SCAN" {
        return NotACall;
      }
      var key;
      key, rest := ParseYcsbKey(rest);
      if key.None? {
        return BadLine;
      }
      if verb == "INSERT" {
        var value := ParseYcsbValue(rest);
        if value.None? {
          return BadLine;
        }
        ikeys := Assign(ikeys, key.value, "");
        return Call(KvCall.Put(key.value, value.value), "INSERT");
      } else if verb == "UPDATE" {
        var value := ParseYcsbValue(rest);
        if value.None? {
          return BadLine;
        }
        return Call(KvCall.Swap(key.value, value.value), "UPDATE");
      } else if verb == "READ" {
        return Call(KvCall.Get(key.value), "READ");
      }
      if ikeys == [] {
        return Call(KvCall.Scan(key.value, "zzzzzzzz"), "SCAN");
      }
      var scnt := ParseYcsbScnt(rest);
      if scnt.None? {
        return BadLine;
      }
      if scnt.value == 0 {
        return Underflow;
      }
      var keyEnd := NthOrLast(ikeys, key.value, scnt.value - 1);
      return Call(KvCall.Scan(key.value, keyEnd), "SCAN");
    }
  }

  method ParseYcsbKey(segs: seq<string>) returns (key: Option<string>, rest: seq<string>)
    ensures key == if |segs| < 2 then None else Some(segs[0] + "_" + segs[1])
    ensures key.Some? ==> rest == segs[2..]
  {
    rest := segs;
    if rest == [] {
      return None, rest;
    }
    var text := rest[0];
    rest := rest[1..];
    text := text + "_";
    if rest == [] {
      return None, rest;
    }
    text := text + rest[0];
    rest := rest[1..];
    key := Some(text);
  }

  /** What stands between the brackets, closing one included, with an underscore before each segment. */
  method ParseYcsbValue(segs: seq<string>) returns (value: Option<string>)
    ensures value == if segs == [] || segs[0] != "[" then None else Some(JoinValue(segs[1..]))
  {
    if segs == [] || segs[0] != "[" {
      return None;
    }
    var text := "";
    var rest := segs[1..];
    for i := 0 to |rest|
      invariant text == JoinValue(rest[..i])
    {
      assert rest[..i + 1][..i] == rest[..i];
      text := text + "_" + rest[i];
    }
    assert rest[..|rest|] == rest;
    value := Some(text);
  }

  method ParseYcsbScnt(segs: seq<string>) returns (scnt: Option<nat>)
    ensures scnt == if segs == [] then None else ParseUsize(segs[0])
  {
    if segs == [] {
      return None;
    }
    scnt := ParseUsize(segs[0]);
  }

  /** The iterator over the index from the start key on, advanced `n` times, or the last key. */
  method NthOrLast(ikeys: KeySet, keyStart: string, n: nat) returns (keyEnd: string)
    requires ikeys != []
    ensures keyEnd == KeyEnd(ikeys, keyStart, n + 1)
  {
    var it, left := LowerBound(ikeys, keyStart), n;
    while left > 0 && it < |ikeys|
      invariant it <= |ikeys| && it + left == LowerBound(ikeys, keyStart) + n
    {
      it, left := it + 1, left - 1;
    }
    keyEnd := if it < |ikeys| then ikeys[it].0 else ikeys[|ikeys| - 1].0;
  }

  // ---- The translated scan ----

  function Min(a: nat, b: nat): nat {
    if a < b then a else b
  }

  /** The first `scnt` indexed keys at or after the start key, with their values. */
  function FirstKeys(ikeys: KeySet, m: Store, keyStart: string, scnt: nat): Entries
    requires forall i :: 0 <= i < |ikeys| ==> ikeys[i].0 in m
  {
    var lb := LowerBound(ikeys, keyStart);
    seq(Min(scnt, |ikeys| - lb), i requires 0 <= i < Min(scnt, |ikeys| - lb) => (ikeys[lb + i].0, m[ikeys[lb + i].0]))
  }

  lemma MembersAre(ikeys: KeySet, key: string)
    requires KeysIncrease(ikeys)
    ensures key in Members(ikeys) <==> exists i :: 0 <= i < |ikeys| && ikeys[i].0 == key
  {
  }

  /** With an index of exactly the stored keys, the inclusive range up to the computed
      end key holds the first min(scnt, available) keys and nothing else. */
  lemma FirstKeysAreTheRange(ikeys: KeySet, m: Store, keyStart: string, scnt: nat)
    requires KeysIncrease(ikeys) && ikeys != [] && scnt >= 1 && Members(ikeys) == m.Keys
    requires forall i :: 0 <= i < |ikeys| ==> ikeys[i].0 in m
    ensures IsRangeOf(m, keyStart, KeyEnd(ikeys, keyStart, scnt), FirstKeys(ikeys, m, keyStart, scnt))
  {
    hide ToMap;
    var lb := LowerBound(ikeys, keyStart);
    var keyEnd := KeyEnd(ikeys, keyStart, scnt);
    var first := FirstKeys(ikeys, m, keyStart, scnt);
    forall i | 0 <= i < |first|
      ensures InRange(keyStart, keyEnd, first[i].0) && Lookup(m, first[i].0) == Some(first[i].1)
    {
      FirstKeyInRange(ikeys, keyStart, scnt, lb + i);
    }
    forall key | key in m && InRange(keyStart, keyEnd, key) ensures (key, m[key]) in first {
      var j := MapHasEntry(ikeys, key);
      InsideRange(ikeys, keyStart, scnt, j);
      assert first[j - lb] == (key, m[key]);
    }
  }

  lemma {:induction false} FirstKeyInRange(ikeys: KeySet, keyStart: string, scnt: nat, j: nat)
    requires KeysIncrease(ikeys) && scnt >= 1
    requires LowerBound(ikeys, keyStart) <= j < |ikeys| && j < LowerBound(ikeys, keyStart) + scnt
    ensures InRange(keyStart, KeyEnd(ikeys, keyStart, scnt), ikeys[j].0)
  {
    AtOrAfterLowerBound(ikeys, keyStart, j);
  }

  lemma {:induction false} InsideRange(ikeys: KeySet, keyStart: string, scnt: nat, j: nat)
    requires KeysIncrease(ikeys) && scnt >= 1 && j < |ikeys|
    requires InRange(keyStart, KeyEnd(ikeys, keyStart, scnt), ikeys[j].0)
    ensures LowerBound(ikeys, keyStart) <= j < LowerBound(ikeys, keyStart) + scnt
  {
    var lb := LowerBound(ikeys, keyStart);
    if j < lb {
      LessAsymmetric(ikeys[j].0, keyStart);
    }
    if lb + (scnt - 1) < j {
      LessAsymmetric(ikeys[lb + (scnt - 1)].0, ikeys[j].0);
    }
  }

  // ---- Whole benchmark runs ----

  // A one-client benchmark: the translator's index beside the store its calls reach.
  datatype Bench = Bench(ikeys: KeySet, store: Store)

  function Feed(b: Bench, line: string): Bench {
    match Interpret(line, b.ikeys)
    case (Call(call, _), ikeys) => Bench(ikeys, After(b.store, call))
    case (_, ikeys) => Bench(ikeys, b.store)
  }

  function FeedAll(b: Bench, lines: seq<string>): Bench {
    if lines == [] then b else Feed(FeedAll(b, lines[..|lines| - 1]), lines[|lines| - 1])
  }

  /** YCSB updates only keys it has inserted. */
  ghost predicate UpdatesInserted(b: Bench, line: string)
    requires KeysIncrease(b.ikeys)
  {
    var outcome := Interpret(line, b.ikeys).0;
    outcome.Call? && outcome.call.Swap? ==> outcome.call.key in Members(b.ikeys)
  }

  ghost predicate Indexed(b: Bench) {
    KeysIncrease(b.ikeys) && Members(b.ikeys) == b.store.Keys
  }

  /** No line of the run, which starts empty, updates a key that no earlier line inserted. */
  ghost predicate UpdatesFollowInserts(lines: seq<string>) {
    forall k :: 0 <= k < |lines| && Indexed(FeedAll(Bench([], map[]), lines[..k])) ==>
      UpdatesInserted(FeedAll(Bench([], map[]), lines[..k]), lines[k])
  }

  lemma FeedKeepsIndex(b: Bench, line: string)
    requires Indexed(b) && UpdatesInserted(b, line)
    ensures Indexed(Feed(b, line))
  {
    hide ToMap;
    hide KeysIncrease;
    hide Words;
    var w := Words(line);
    if |w| >= 3 {
      AssignAgrees(b.ikeys, w[1] + "_" + w[2], "");
    }
  }

  /** Runs without UPDATE lines are among these. */
  lemma {:induction false} NoUpdatesToFollow(lines: seq<string>)
    requires forall k :: 0 <= k < |lines| ==> Words(lines[k]) == [] || Words(lines[k])[0] != "UPDATE"
    ensures UpdatesFollowInserts(lines)
  {
    hide Words;
    hide FeedAll;
    hide Indexed;
  }

  /** The index equals the store's keys at every line of a run that starts empty, through
      the load phase and the run phase that takes over its index. */
  lemma {:induction false} IndexAlwaysAgrees(lines: seq<string>)
    requires UpdatesFollowInserts(lines)
    ensures Indexed(FeedAll(Bench([], map[]), lines))
  {
    if lines == [] {
    } else {
      var init := lines[..|lines| - 1];
      assert forall k :: 0 <= k < |init| ==> init[..k] == lines[..k];
      IndexAlwaysAgrees(init);
      FeedKeepsIndex(FeedAll(Bench([], map[]), init), lines[|lines| - 1]);
    }
  }

  /** The count a SCAN line gives, 0 when it gives none. */
  function CountOf(line: string): nat {
    var w := Words(line);
    if |w| >= 4 && ParseUsize(w[3]).Some? then ParseUsize(w[3]).value else 0
  }

  /** A SCAN line with a count in decimal asks for the range up to the key that many places
      on in the index; a count of zero underflows. */
  lemma {:induction false} ScanTranslated(table: string, id: string, n: nat, rest: seq<string>, ikeys: KeySet)
    requires Token(table) && Token(id) && Tokens(rest) && ikeys != [] && n <= 0xFFFF_FFFF_FFFF_FFFF
    ensures var line, key := LineOf(["SCAN", table, id, Decimal(n)] + rest), table + "_" + id;
      && CountOf(line) == n
      && Interpret(line, ikeys) ==
         (if n == 0 then Underflow else Call(KvCall.Scan(key, KeyEnd(ikeys, key, n)), "SCAN"), ikeys)
  {
    hide Words;
    hide LineOf;
    hide Token;
    hide ParseUsize;
    hide KeyEnd;
    DecimalIsToken(n);
    ScanVerbDiffers();
    NumeralRoundTrip(n);
    TokensTogether(["SCAN", table, id, Decimal(n)], rest);
  }

  lemma {:induction false} DecimalIsToken(n: nat)
    ensures Token(Decimal(n)) && Token("SCAN")
  {
    hide Decimal;
    assert forall i :: 0 <= i < |Decimal(n)| ==> Digit(Decimal(n)[i]);
  }

  /** A SCAN line anywhere in such a run asks for a range that the store answers with
      exactly the first min(scnt, available) keys at or after the start key; with
      nothing inserted yet, the count is not even read and that is no key. */
  lemma {:induction false} ScanIsExact(lines: seq<string>, line: string, entries: Entries)
    requires UpdatesFollowInserts(lines)
    requires |Words(line)| >= 3 && Words(line)[0] == "SCAN"
    requires FeedAll(Bench([], map[]), lines).ikeys != [] ==> CountOf(line) >= 1
    ensures var b := FeedAll(Bench([], map[]), lines);
      var keyStart, scnt := Words(line)[1] + "_" + Words(line)[2], CountOf(line);
      var outcome := Interpret(line, b.ikeys).0;
      && outcome.Call? && outcome.call.Scan? && outcome.call.keyStart == keyStart
      && (forall i :: 0 <= i < |b.ikeys| ==> b.ikeys[i].0 in b.store)
      && (Answers(b.store, outcome.call, KvResp.Scan(keyStart, outcome.call.keyEnd, entries)) <==>
            entries == FirstKeys(b.ikeys, b.store, keyStart, scnt))
  {
    IndexAlwaysAgrees(lines);
    var b := FeedAll(Bench([], map[]), lines);
    var keyStart, scnt := Words(line)[1] + "_" + Words(line)[2], CountOf(line);
    forall i | 0 <= i < |b.ikeys| ensures b.ikeys[i].0 in b.store {
      MembersAre(b.ikeys, b.ikeys[i].0);
    }
    ScanVerbDiffers();
    hide Words;
    hide ToMap;
    hide FeedAll;
    hide FirstKeys;
    hide KeyEnd;
    if b.ikeys == [] {
      EmptyScan(b, keyStart, scnt, "zzzzzzzz");
      ScanAnswer(b, keyStart, scnt, "zzzzzzzz", entries);
    } else {
      FirstKeysAreTheRange(b.ikeys, b.store, keyStart, scnt);
      ScanAnswer(b, keyStart, scnt, KeyEnd(b.ikeys, keyStart, scnt), entries);
    }
  }

  lemma EmptyScan(b: Bench, keyStart: string, scnt: nat, keyEnd: string)
    requires Indexed(b) && b.ikeys == []
    ensures IsRangeOf(b.store, keyStart, keyEnd, FirstKeys(b.ikeys, b.store, keyStart, scnt))
  {
    assert Members(b.ikeys) == {};
  }

  lemma ScanAnswer(b: Bench, keyStart: string, scnt: nat, keyEnd: string, entries: Entries)
    requires forall i :: 0 <= i < |b.ikeys| ==> b.ikeys[i].0 in b.store
    requires IsRangeOf(b.store, keyStart, keyEnd, FirstKeys(b.ikeys, b.store, keyStart, scnt))
    ensures Answers(b.store, KvCall.Scan(keyStart, keyEnd), KvResp.Scan(keyStart, keyEnd, entries))
            <==> entries == FirstKeys(b.ikeys, b.store, keyStart, scnt)
  {
    hide FirstKeys;
    if IsRangeOf(b.store, keyStart, keyEnd, entries) {
      RangeUnique(b.store, keyStart, keyEnd, entries, FirstKeys(b.ikeys, b.store, keyStart, scnt));
    }
  }

  lemma ScanVerbDiffers()
    ensures "SCAN" != "INSERT" && "SCAN" != "UPDATE" && "SCAN" != "READ"
  {
    assert "SCAN"[0] != "READ"[0];
  }
}
