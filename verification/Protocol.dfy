/** The text protocol: calls and responses printed on lines and parsed back. */
module Protocol {
  import opened Wrappers
  import opened KvTypes
  import opened Text
  import opened Server

  // ---- Printing ----

  function FoundWord(found: bool): string {
    if found then "found" else "not_found"
  }

  function ValueWord(value: Option<string>): string {
    if value.Some? then value.value else "null"
  }

  /** A call, as the driver writes it to a client's standard input. */
  function PrintCall(call: KvCall): string {
    match call
    case Put(key, value) => LineOf(["PUT", key, value])
    case Swap(key, value) => LineOf(["SWAP", key, value])
    case Get(key) => LineOf(["GET", key])
    case Scan(keyStart, keyEnd) => LineOf(["SCAN", keyStart, keyEnd])
    case Delete(key) => LineOf(["DELETE", key])
    case Stop => LineOf(["STOP"])
  }

  const SCAN_END := "SCAN END\n"

  function EntryLines(entries: Entries): seq<string> {
    if entries == [] then []
    else ["  " + LineOf([entries[0].0, entries[0].1])] + EntryLines(entries[1..])
  }

  /** A response, line by line: a Scan takes a line per entry between its BEGIN and END. */
  function RespLines(resp: KvResp): seq<string> {
    match resp
    case Put(key, found) => [LineOf(["PUT", key, FoundWord(found)])]
    case Swap(key, oldValue) => [LineOf(["SWAP", key, ValueWord(oldValue)])]
    case Get(key, value) => [LineOf(["GET", key, ValueWord(value)])]
    case Scan(keyStart, keyEnd, entries) =>
      [LineOf(["SCAN", keyStart, keyEnd, "BEGIN"])] + (EntryLines(entries) + [SCAN_END])
    case Delete(key, found) => [LineOf(["DELETE", key, FoundWord(found)])]
    case Stop => [LineOf(["STOP"])]
  }

  function Concat(lines: seq<string>): string {
    if lines == [] then "" else lines[0] + Concat(lines[1..])
  }

  function PrintResp(resp: KvResp): string {
    Concat(RespLines(resp))
  }

  function PrintEntries(list: Entries): string {
    if list == [] then ""
    else "  " + list[0].0 + " " + list[0].1 + "\n" + PrintEntries(list[1..])
  }

  /** What the client prints for a reply: the request's own keys and the reply's fields. */
  function PrintReply(req: Request, reply: Reply): string {
    match (req, reply)
    case (Put(key, _), Put(found)) => "PUT " + key + (if found then " found\n" else " not_found\n")
    case (Swap(key, _), Swap(found, oldValue)) => "SWAP " + key + (if found then " " + oldValue + "\n" else " null\n")
    case (Get(key), Get(found, value)) => if found then "GET " + key + " " + value + "\n" else "GET " + key + " null\n"
    case (Scan(startKey, endKey), Scan(list)) =>
      "SCAN " + startKey + " " + endKey + " BEGIN\n" + PrintEntries(list) + "SCAN END\n"
    case (Delete(key), Delete(found)) => "DELETE " + key + (if found then " found\n" else " not_found\n")
    case _ => ""
  }

  // ---- Parsing ----

  datatype Command = Nothing | Do(req: Request) | Halt | Invalid | Unknown

  /** A line of input, as the client's dispatch loop reads it. */
  function ParseCommand(line: string): Command {
    var w := Words(line);
    if w == [] then Nothing
    else if w[0] == "PUT" then (if |w| == 3 then Do(Request.Put(w[1], w[2])) else Invalid)
    else if w[0] == "SWAP" then (if |w| == 3 then Do(Request.Swap(w[1], w[2])) else Invalid)
    else if w[0] == "GET" then (if |w| == 2 then Do(Request.Get(w[1])) else Invalid)
    else if w[0] == "DELETE" then (if |w| == 2 then Do(Request.Delete(w[1])) else Invalid)
    else if w[0] == "SCAN" then (if |w| == 3 then Do(Request.Scan(w[1], w[2])) else Invalid)
    else if w[0] == "STOP" then (if |w| == 1 then Halt else Invalid)
    else Unknown
  }

  // `Hangs`: the reader would wait for a line that the text does not contain.
  datatype Parsed = Parsed(resp: KvResp, rest: string) | Malformed(rest: string) | Hangs

  function ParseFound(word: string): Option<bool> {
    if word == "found" then Some(true) else if word == "not_found" then Some(false) else None
  }

  function ParseValue(word: string): Option<string> {
    if word == "null" then None else Some(word)
  }

  /** The entries of a Scan up to its END line. */
  function ParseEntries(keyStart: string, keyEnd: string, s: string, entries: Entries): Parsed
    decreases |s|
  {
    if Blank(s) then Hangs
    else
      var (buffer, rest) := NextLine(s);
      var w := Words(buffer);
      if Trim(buffer) == "SCAN END" then Parsed(KvResp.Scan(keyStart, keyEnd, entries), rest)
      else if |w| < 2 then Malformed(rest)
      else ParseEntries(keyStart, keyEnd, rest, entries + [(w[0], w[1])])
  }

  /** The response at the head of a text: `KvResp::from_read`. Words past those needed are ignored. */
  function ParseResp(s: string): Parsed {
    if Blank(s) then Hangs
    else
      var (buffer, rest) := NextLine(s);
      var w := Words(buffer);
      if |w| >= 3 && w[0] == "PUT" && ParseFound(w[2]).Some? then Parsed(KvResp.Put(w[1], ParseFound(w[2]).value), rest)
      else if |w| >= 3 && w[0] == "SWAP" then Parsed(KvResp.Swap(w[1], ParseValue(w[2])), rest)
      else if |w| >= 3 && w[0] == "GET" then Parsed(KvResp.Get(w[1], ParseValue(w[2])), rest)
      else if |w| >= 4 && w[0] == "SCAN" && w[3] == "BEGIN" then ParseEntries(w[1], w[2], rest, [])
      else if |w| >= 3 && w[0] == "DELETE" &&
        ParseFound(w[2]).Some? then Parsed(KvResp.Delete(w[1], ParseFound(w[2]).value), rest)
      else if |w| >= 1 && w[0] == "STOP" then Parsed(KvResp.Stop, rest)
      else Malformed(rest)
  }

  /** Reading `k` responses one after the other, and what is left of the text. */
  function ReadMany(s: string, k: nat): Option<(seq<KvResp>, string)>
    decreases k
  {
    if k == 0 then Some(([], s))
    else
      match ParseResp(s)
      case Parsed(resp, rest) =>
        (match ReadMany(rest, k - 1)
         case Some((resps, end)) => Some(([resp] + resps, end))
         case None => None)
      case _ => None
  }

  // ---- What survives the trip ----

  predicate TokenEntry(e: (string, string)) {
    Token(e.0) && Token(e.1)
  }

  predicate TokenCall(call: KvCall) {
    match call
    case Put(key, value) => Token(key) && Token(value)
    case Swap(key, value) => Token(key) && Token(value)
    case Get(key) => Token(key)
    case Scan(keyStart, keyEnd) => Token(keyStart) && Token(keyEnd)
    case Delete(key) => Token(key)
    case Stop => true
  }

  /** Every key and value of the response is one word. */
  predicate TokenResp(resp: KvResp) {
    match resp
    case Put(key, _) => Token(key)
    case Swap(key, oldValue) => Token(key) && (oldValue.Some? ==> Token(oldValue.value))
    case Get(key, value) => Token(key) && (value.Some? ==> Token(value.value))
    case Scan(keyStart, keyEnd, entries) =>
      Token(keyStart) && Token(keyEnd) && forall i :: 0 <= i < |entries| ==> TokenEntry(entries[i])
    case Delete(key, _) => Token(key)
    case Stop => true
  }

  /** The response uses no value that reads as absent and no entry that reads as an END line. */
  predicate Unambiguous(resp: KvResp) {
    match resp
    case Swap(_, oldValue) => oldValue != Some("null")
    case Get(_, value) => value != Some("null")
    case Scan(_, _, entries) => ("SCAN", "END") !in entries
    case _ => true
  }

  function Weave(pads: seq<string>, lines: seq<string>): string
    requires |pads| == |lines|
  {
    if lines == [] then "" else pads[0] + lines[0] + Weave(pads[1..], lines[1..])
  }

  ghost predicate Paddings(pads: seq<string>) {
    forall i :: 0 <= i < |pads| ==> Padding(pads[i])
  }

  // ---- Calls ----

  function RequestOf(call: KvCall): Request
    requires !call.Stop?
  {
    match call
    case Put(key, value) => Request.Put(key, value)
    case Swap(key, value) => Request.Swap(key, value)
    case Get(key) => Request.Get(key)
    case Scan(keyStart, keyEnd) => Request.Scan(keyStart, keyEnd)
    case Delete(key) => Request.Delete(key)
  }

  function CallWords(call: KvCall): seq<string> {
    match call
    case Put(key, value) => ["PUT", key, value]
    case Swap(key, value) => ["SWAP", key, value]
    case Get(key) => ["GET", key]
    case Scan(keyStart, keyEnd) => ["SCAN", keyStart, keyEnd]
    case Delete(key) => ["DELETE", key]
    case Stop => ["STOP"]
  }

  lemma CallWordsAreTokens(call: KvCall)
    requires TokenCall(call)
    ensures Tokens(CallWords(call))
  {
    match call {
      case Put(key, value) => assert Token("PUT");
      case Swap(key, value) => assert Token("SWAP");
      case Get(key) => assert Token("GET");
      case Scan(keyStart, keyEnd) => assert Token("SCAN");
      case Delete(key) => assert Token("DELETE");
      case Stop => assert Token("STOP");
    }
  }

  lemma VerbsDiffer()
    ensures "GET" != "PUT" && "SWAP" != "SCAN" && "SWAP" != "STOP" && "SCAN" != "STOP"
  {
    assert "GET"[0] != "PUT"[0] && "SWAP"[1] != "SCAN"[1] && "SWAP"[1] != "STOP"[1] && "SCAN"[1] != "STOP"[1];
  }

  lemma WordsOfCall(call: KvCall)
    requires TokenCall(call)
    ensures Words(PrintCall(call)) == CallWords(call)
    ensures OneLine(PrintCall(call)) && !Blank(PrintCall(call))
  {
    hide LineOf;
    hide Words;
    hide Token;
    CallWordsAreTokens(call);
    WordsOfLine(CallWords(call));
    LineOfIsOneLine(CallWords(call));
  }

  /** The client reads a printed call as the request for that very call. */
  lemma CallRoundTrip(call: KvCall)
    requires TokenCall(call)
    ensures OneLine(PrintCall(call)) && !Blank(PrintCall(call))
    ensures ParseCommand(PrintCall(call)) == if call.Stop? then Halt else Do(RequestOf(call))
    ensures !call.Stop? ==> CallOf(RequestOf(call)) == call
  {
    hide Words;
    hide PrintCall;
    hide Token;
    hide OneLine;
    hide Blank;
    WordsOfCall(call);
    VerbsDiffer();
  }

  /** What the client makes of any line: a request when its words are exactly those of the
      call, nothing when it is blank; other first words are unknown, and all else is invalid. */
  lemma {:induction false} CommandIff(line: string)
    ensures var w, command := Words(line), ParseCommand(line);
      && (command.Nothing? <==> Blank(line))
      && (forall req :: command == Do(req) <==> w == CallWords(CallOf(req)))
      && (command.Halt? <==> w == CallWords(KvCall.Stop))
      && (command.Unknown? <==> !Blank(line) && w[0] !in ["PUT", "SWAP", "GET", "SCAN", "DELETE", "STOP"])
  {
    hide Words;
    hide Blank;
    hide CallWords;
    NoWordsIffBlank(line);
    StopWords(line);
    forall req ensures ParseCommand(line) == Do(req) <==> Words(line) == CallWords(CallOf(req)) {
      RequestWords(line, req);
    }
  }

  lemma {:induction false} StopWords(line: string)
    ensures ParseCommand(line).Halt? <==> Words(line) == CallWords(KvCall.Stop)
  {
    hide Words;
    VerbsDiffer();
  }

  lemma {:induction false} RequestWords(line: string, req: Request)
    ensures ParseCommand(line) == Do(req) <==> Words(line) == CallWords(CallOf(req))
  {
    hide Words;
    VerbsDiffer();
    var w := Words(line);
    assert |w| == 2 ==> w == [w[0], w[1]];
    assert |w| == 3 ==> w == [w[0], w[1], w[2]];
  }

  // ---- Responses ----

  /** Reading a printed line after blank lines gives back its words. */
  lemma {:induction false} PaddedLine(pad: string, words: seq<string>, tail: string)
    requires Padding(pad) && Tokens(words) && words != []
    ensures var s := pad + LineOf(words) + tail;
      !Blank(s) && Words(NextLine(s).0) == words && NextLine(s).1 == tail
  {
    LineOfIsOneLine(words);
    NextLinePadded(pad, LineOf(words), tail);
    WordsBlankPrefix(pad, LineOf(words));
    WordsOfLine(words);
  }

  lemma IndentedLine(line: string)
    requires OneLine(line) && !Blank(line)
    ensures Blank("  ") && OneLine("  " + line) && !Blank("  " + line)
  {
    var indented := "  " + line;
    assert indented[|line| + 1] == line[|line| - 1];
    assert forall i :: 2 <= i < |line| + 2 ==> indented[i] == line[i - 2];
    BlankConcat("  ", line);
  }

  lemma PaddedEntry(pad: string, e: (string, string), tail: string)
    requires Padding(pad) && TokenEntry(e)
    ensures var s := pad + ("  " + LineOf([e.0, e.1])) + tail;
      !Blank(s) && Words(NextLine(s).0) == [e.0, e.1] && NextLine(s).1 == tail
  {
    var line := LineOf([e.0, e.1]);
    LineOfIsOneLine([e.0, e.1]);
    IndentedLine(line);
    NextLinePadded(pad, "  " + line, tail);
    WordsBlankPrefix(pad, "  " + line);
    WordsBlankPrefix("  ", line);
    WordsOfLine([e.0, e.1]);
  }

  lemma EndLine()
    ensures SCAN_END == LineOf(["SCAN", "END"]) && SCAN_END == "SCAN END" + "\n"
    ensures Tokens(["SCAN", "END"]) && OneLine(SCAN_END) && !Blank(SCAN_END)
  {
    Line2("SCAN", "END");
    assert Token("SCAN") && Token("END");
    LineOfIsOneLine(["SCAN", "END"]);
  }

  lemma EndWords()
    ensures Words("SCAN END") == ["SCAN", "END"]
  {
    hide Words;
    hide LineOf;
    EndLine();
    WordsOfLine(["SCAN", "END"]);
    WordsDropSpace(SCAN_END);
    assert SCAN_END[..|SCAN_END| - 1] == "SCAN END";
  }

  lemma EndTrims(pad: string)
    requires Blank(pad)
    ensures Trim(pad + SCAN_END) == "SCAN END"
  {
    TrimLeftBlank(pad, SCAN_END);
    assert SCAN_END[..|SCAN_END| - 1] == "SCAN END";
    assert !IsSpace("SCAN END"[7]) && !IsSpace(SCAN_END[0]);
  }

  lemma PaddedEnd(pad: string, tail: string)
    requires Padding(pad)
    ensures var s := pad + SCAN_END + tail;
      !Blank(s) && Trim(NextLine(s).0) == "SCAN END" && NextLine(s).1 == tail
  {
    EndLine();
    NextLinePadded(pad, SCAN_END, tail);
    EndTrims(pad);
  }

  lemma {:induction false} EntriesRead(a: string, b: string, entries: Entries, acc: Entries, pads: seq<string>,
                                       tail: string)
    requires |pads| == |entries| + 1 && Paddings(pads)
    requires (forall i :: 0 <= i < |entries| ==> TokenEntry(entries[i])) && ("SCAN", "END") !in entries
    requires |EntryLines(entries)| == |entries|
    ensures ParseEntries(a, b, Weave(pads, EntryLines(entries) + [SCAN_END]) + tail, acc)
         == Parsed(KvResp.Scan(a, b, acc + entries), tail)
    decreases |entries|
  {
    hide LineOf;
    hide Token;
    hide Padding;
    hide Words;
    hide NextLine;
    hide Trim;
    hide Blank;
    var lines := EntryLines(entries) + [SCAN_END];
    var s := Weave(pads, lines) + tail;
    if entries == [] {
      assert lines == [SCAN_END] && Weave(pads[1..], lines[1..]) == "";
      assert s == pads[0] + SCAN_END + tail;
      PaddedEnd(pads[0], tail);
      assert acc + entries == acc;
    } else {
      var e := entries[0];
      var rest := Weave(pads[1..], lines[1..]) + tail;
      assert lines[1..] == EntryLines(entries[1..]) + [SCAN_END];
      assert s == pads[0] + ("  " + LineOf([e.0, e.1])) + rest;
      assert e in entries;
      hide ParseEntries;
      EntryStep(a, b, pads[0], e, rest, acc);
      EntriesRead(a, b, entries[1..], acc + [e], pads[1..], tail);
      assert acc + [e] + entries[1..] == acc + entries;
    }
  }

  /** Reading goes past an entry line unless it is taken for the END line. */
  lemma {:induction false} EntryStep(a: string, b: string, pad: string, e: (string, string), rest: string, acc: Entries)
    requires Padding(pad) && TokenEntry(e) && e != ("SCAN", "END")
    ensures ParseEntries(a, b, pad + ("  " + LineOf([e.0, e.1])) + rest, acc) == ParseEntries(a, b, rest, acc + [e])
  {
    hide LineOf;
    hide Words;
    hide NextLine;
    hide Trim;
    var s := pad + ("  " + LineOf([e.0, e.1])) + rest;
    PaddedEntry(pad, e, rest);
    WordsTrim(NextLine(s).0);
    EndWords();
    assert e == (e.0, e.1);
    assert [e.0, e.1][0] == e.0 && [e.0, e.1][1] == e.1;
  }

  lemma {:induction false} EntryLineCount(entries: Entries)
    ensures |EntryLines(entries)| == |entries|
  {
    if entries == [] {
    } else {
      EntryLineCount(entries[1..]);
    }
  }

  function HeadWords(resp: KvResp): seq<string> {
    match resp
    case Put(key, found) => ["PUT", key, FoundWord(found)]
    case Swap(key, oldValue) => ["SWAP", key, ValueWord(oldValue)]
    case Get(key, value) => ["GET", key, ValueWord(value)]
    case Scan(keyStart, keyEnd, _) => ["SCAN", keyStart, keyEnd, "BEGIN"]
    case Delete(key, found) => ["DELETE", key, FoundWord(found)]
    case Stop => ["STOP"]
  }

  lemma HeadIsTokens(resp: KvResp)
    requires TokenResp(resp)
    ensures Tokens(HeadWords(resp)) && RespLines(resp)[0] == LineOf(HeadWords(resp))
  {
    hide LineOf;
    assert Token("found") && Token("not_found") && Token("null");
    match resp {
      case Put(_, _) => assert Token("PUT");
      case Swap(_, _) => assert Token("SWAP");
      case Get(_, _) => assert Token("GET");
      case Scan(_, _, _) => assert Token("SCAN") && Token("BEGIN");
      case Delete(_, _) => assert Token("DELETE");
      case Stop => assert Token("STOP");
    }
  }

  /** What the first line of a response is read as. */
  function ReadHead(resp: KvResp, rest: string): Parsed {
    match resp
    case Swap(key, oldValue) => Parsed(KvResp.Swap(key, ParseValue(ValueWord(oldValue))), rest)
    case Get(key, value) => Parsed(KvResp.Get(key, ParseValue(ValueWord(value))), rest)
    case Scan(keyStart, keyEnd, _) => ParseEntries(keyStart, keyEnd, rest, [])
    case _ => Parsed(resp, rest)
  }

  /** Parsing starts from the words of the first line. */
  lemma HeadRead(resp: KvResp, pad: string, rest: string)
    requires TokenResp(resp) && Padding(pad)
    ensures ParseResp(pad + LineOf(HeadWords(resp)) + rest) == ReadHead(resp, rest)
  {
    hide LineOf;
    hide Words;
    hide NextLine;
    hide Token;
    hide Blank;
    HeadIsTokens(resp);
    PaddedLine(pad, HeadWords(resp), rest);
    VerbsDiffer();
  }

  lemma FirstLine(resp: KvResp)
    ensures RespLines(resp) == [LineOf(HeadWords(resp))] +
      if resp.Scan? then EntryLines(resp.entries) + [SCAN_END] else []
  {
  }

  /** One response is read back whole from its lines, with blank lines before any of them. */
  lemma {:induction false} ResponseRead(resp: KvResp, pads: seq<string>, tail: string)
    requires TokenResp(resp) && Unambiguous(resp)
    requires |pads| == |RespLines(resp)| && Paddings(pads)
    ensures ParseResp(Weave(pads, RespLines(resp)) + tail) == Parsed(resp, tail)
  {
    hide LineOf;
    hide ParseResp;
    hide Token;
    hide ParseEntries;
    hide Padding;
    hide EntryLines;
    FirstLine(resp);
    var lines := RespLines(resp);
    hide RespLines;
    var rest := Weave(pads[1..], lines[1..]) + tail;
    assert Weave(pads, lines) + tail == pads[0] + LineOf(HeadWords(resp)) + rest;
    HeadRead(resp, pads[0], rest);
    hide HeadWords;
    if resp.Scan? {
      EntryLineCount(resp.entries);
      assert lines[1..] == EntryLines(resp.entries) + [SCAN_END];
      hide Weave;
      EntriesRead(resp.keyStart, resp.keyEnd, resp.entries, [], pads[1..], tail);
      assert [] + resp.entries == resp.entries;
    } else {
      assert Weave(pads[1..], lines[1..]) == "" && rest == tail;
    }
  }

  function AllLines(resps: seq<KvResp>): seq<string> {
    if resps == [] then [] else RespLines(resps[0]) + AllLines(resps[1..])
  }

  lemma {:induction false} WeaveConcat(p: seq<string>, q: seq<string>, xs: seq<string>, ys: seq<string>)
    requires |p| == |xs| && |q| == |ys|
    ensures Weave(p + q, xs + ys) == Weave(p, xs) + Weave(q, ys)
  {
    if xs == [] {
      assert p + q == q && xs + ys == ys;
    } else {
      assert (p + q)[1..] == p[1..] + q && (xs + ys)[1..] == xs[1..] + ys;
      WeaveConcat(p[1..], q, xs[1..], ys);
    }
  }

  /** Printing any responses and reading as many back gives the same list and uses
      up the whole stream, whatever blank lines come between the printed ones. */
  lemma {:induction false} StreamRoundTrip(resps: seq<KvResp>, pads: seq<string>)
    requires forall i :: 0 <= i < |resps| ==> TokenResp(resps[i]) && Unambiguous(resps[i])
    requires |pads| == |AllLines(resps)| && Paddings(pads)
    ensures ReadMany(Weave(pads, AllLines(resps)), |resps|) == Some((resps, ""))
    decreases |resps|
  {
    if resps == [] {
    } else {
      var n := |RespLines(resps[0])|;
      var rest := Weave(pads[n..], AllLines(resps[1..]));
      assert pads == pads[..n] + pads[n..];
      WeaveConcat(pads[..n], pads[n..], RespLines(resps[0]), AllLines(resps[1..]));
      ResponseRead(resps[0], pads[..n], rest);
      StreamRoundTrip(resps[1..], pads[n..]);
      assert resps == [resps[0]] + resps[1..];
    }
  }

  // ---- Without padding, and exactly when ----

  lemma {:induction false} WeaveNoPads(lines: seq<string>)
    ensures Weave(seq(|lines|, _ => ""), lines) == Concat(lines)
  {
    if lines == [] {
    } else {
      assert seq(|lines|, _ => "")[1..] == seq(|lines[1..]|, _ => "");
      WeaveNoPads(lines[1..]);
    }
  }

  lemma PrintedRead(resp: KvResp, tail: string)
    requires TokenResp(resp) && Unambiguous(resp)
    ensures ParseResp(PrintResp(resp) + tail) == Parsed(resp, tail)
  {
    var pads := seq(|RespLines(resp)|, _ => "");
    WeaveNoPads(RespLines(resp));
    ResponseRead(resp, pads, tail);
  }

  lemma {:induction false} EndEntryStops(a: string, b: string, entries: Entries, acc: Entries, tail: string)
    requires (forall i :: 0 <= i < |entries| ==> TokenEntry(entries[i])) && ("SCAN", "END") in entries
    ensures var p := ParseEntries(a, b, Concat(EntryLines(entries)) + tail, acc);
      p.Parsed? ==> p.resp.Scan? && |p.resp.entries| < |acc| + |entries|
    decreases |entries|
  {
    hide LineOf;
    hide ParseEntries;
    var e := entries[0];
    var rest := Concat(EntryLines(entries[1..])) + tail;
    assert Concat(EntryLines(entries)) + tail == "" + ("  " + LineOf([e.0, e.1])) + rest;
    if e == ("SCAN", "END") {
      EndEntryEnds(a, b, rest, acc);
    } else {
      EntryStep(a, b, "", e, rest, acc);
      assert entries == [e] + entries[1..];
      EndEntryStops(a, b, entries[1..], acc + [e], tail);
    }
  }

  lemma {:induction false} IndentedEnd(rest: string)
    ensures Blank("  ")
    ensures var line := "  " + SCAN_END;
      && !Blank(line + rest) && NextLine(line + rest) == (line, rest)
      && "" + ("  " + LineOf(["SCAN", "END"])) + rest == line + rest
  {
    hide LineOf;
    hide NextLine;
    EndLine();
    IndentedLine(SCAN_END);
    NextLineHere("  " + SCAN_END, rest);
    assert "" + ("  " + SCAN_END) + rest == "  " + SCAN_END + rest;
  }

  lemma {:induction false} EndEntryEnds(a: string, b: string, rest: string, acc: Entries)
    ensures ParseEntries(a, b, "" + ("  " + LineOf(["SCAN", "END"])) + rest, acc) ==
      Parsed(KvResp.Scan(a, b, acc), rest)
  {
    hide Words;
    hide LineOf;
    hide Blank;
    hide NextLine;
    hide Trim;
    IndentedEnd(rest);
    EndLine();
    EndTrims("  ");
  }

  lemma {:induction false} ConcatAppend(xs: seq<string>, last: string)
    ensures Concat(xs + [last]) == Concat(xs) + last
  {
    if xs == [] {
      assert xs + [last] == [last] && [last][1..] == [];
    } else {
      assert (xs + [last])[1..] == xs[1..] + [last];
      ConcatAppend(xs[1..], last);
    }
  }

  lemma AmbiguousLost(resp: KvResp)
    requires TokenResp(resp) && !Unambiguous(resp)
    ensures ParseResp(PrintResp(resp)) != Parsed(resp, "")
  {
    hide LineOf;
    hide ParseResp;
    hide Token;
    hide ParseEntries;
    var lines := RespLines(resp);
    FirstLine(resp);
    var rest := Concat(lines[1..]);
    assert PrintResp(resp) == "" + LineOf(HeadWords(resp)) + rest;
    HeadRead(resp, "", rest);
    if resp.Scan? {
      assert lines[1..] == EntryLines(resp.entries) + [SCAN_END];
      ConcatAppend(EntryLines(resp.entries), SCAN_END);
      EndEntryStops(resp.keyStart, resp.keyEnd, resp.entries, [], SCAN_END);
    }
  }

  /** A response made of words survives printing and parsing exactly when it uses no
      value `null` and no entry `SCAN END`. */
  lemma RoundTripIff(resp: KvResp)
    requires TokenResp(resp)
    ensures ParseResp(PrintResp(resp)) == Parsed(resp, "") <==> Unambiguous(resp)
  {
    if Unambiguous(resp) {
      PrintedRead(resp, "");
      assert PrintResp(resp) + "" == PrintResp(resp);
    } else {
      AmbiguousLost(resp);
    }
  }

  // ---- Replies ----

  lemma {:induction false} EntriesPrintAlike(list: Entries)
    ensures PrintEntries(list) == Concat(EntryLines(list))
  {
    if list == [] {
    } else {
      EntriesPrintAlike(list[1..]);
      Line2(list[0].0, list[0].1);
      assert "  " + list[0].0 + " " + list[0].1 + "\n" == "  " + LineOf([list[0].0, list[0].1]);
    }
  }

  predicate Fitting(req: Request, reply: Reply) {
    match (req, reply)
    case (Put(_, _), Put(_)) => true
    case (Swap(_, _), Swap(_, _)) => true
    case (Get(_), Get(_, _)) => true
    case (Scan(_, _), Scan(_)) => true
    case (Delete(_), Delete(_)) => true
    case _ => false
  }

  lemma OneLineResponse(resp: KvResp)
    requires !resp.Scan?
    ensures PrintResp(resp) == LineOf(HeadWords(resp))
  {
    hide LineOf;
    FirstLine(resp);
    var line := LineOf(HeadWords(resp));
    assert RespLines(resp) == [line];
    assert Concat([line]) == line + Concat([line][1..]) && Concat([line][1..]) == "" && line + "" == line;
  }

  lemma ThreeWords(verb: string, key: string, word: string, head: string, last: string)
    requires head == verb + " " && last == " " + word + "\n"
    ensures LineOf([verb, key, word]) == head + key + last
  {
    Line3(verb, key, word);
  }

  lemma HeadOfScan(a: string, b: string)
    ensures LineOf(["SCAN", a, b, "BEGIN"]) == "SCAN " + a + " " + b + " BEGIN\n"
  {
    Line4("SCAN", a, b, "BEGIN");
  }

  lemma {:induction false} ScanPrintsAlike(a: string, b: string, list: Entries)
    ensures "SCAN " + a + " " + b + " BEGIN\n" + PrintEntries(list) + "SCAN END\n" == PrintResp(KvResp.Scan(a, b, list))
  {
    hide LineOf;
    hide PrintEntries;
    hide EntryLines;
    var head := LineOf(["SCAN", a, b, "BEGIN"]);
    var rest := EntryLines(list) + [SCAN_END];
    assert PrintResp(KvResp.Scan(a, b, list)) == head + Concat(rest) by {
      assert ([head] + rest)[1..] == rest;
    }
    hide Concat;
    EntriesPrintAlike(list);
    ConcatAppend(EntryLines(list), SCAN_END);
    HeadOfScan(a, b);
  }

  /** The client prints a reply as the response it stands for. */
  lemma ReplyPrintsAsResponse(req: Request, reply: Reply)
    requires Fitting(req, reply)
    ensures PrintReply(req, reply) == PrintResp(Decode(req, reply))
  {
    hide LineOf;
    hide PrintResp;
    var resp := Decode(req, reply);
    match resp {
      case Put(key, found) =>
        OneLineResponse(resp);
        ThreeWords("PUT", key, FoundWord(found), "PUT ", if found then " found\n" else " not_found\n");
      case Swap(key, oldValue) =>
        OneLineResponse(resp);
        ThreeWords("SWAP", key, ValueWord(oldValue), "SWAP ", if oldValue.Some? then
          " " + oldValue.value + "\n" else " null\n");
      case Get(key, value) =>
        OneLineResponse(resp);
        ThreeWords("GET", key, ValueWord(value), "GET ", if value.Some? then " " + value.value + "\n" else " null\n");
        assert value.Some? ==> "GET " + key + (" " + value.value + "\n") == "GET " + key + " " + value.value + "\n";
      case Delete(key, found) =>
        OneLineResponse(resp);
        ThreeWords("DELETE", key, FoundWord(found), "DELETE ", if found then " found\n" else " not_found\n");
      case Scan(a, b, list) => ScanPrintsAlike(a, b, list);
      case Stop =>
    }
  }

  /** The text and RPC path adds nothing: a printed call reaches the server as itself,
      and the printed reply is read back as exactly the answer the server encoded. */
  lemma Transparent(call: KvCall, reply: Reply, tail: string)
    requires TokenCall(call) && !call.Stop? && Fitting(RequestOf(call), reply)
    requires TokenResp(Decode(RequestOf(call), reply)) && Unambiguous(Decode(RequestOf(call), reply))
    ensures ParseCommand(PrintCall(call)) == Do(RequestOf(call)) && CallOf(RequestOf(call)) == call
    ensures ParseResp(PrintReply(RequestOf(call), reply) + tail) == Parsed(Decode(RequestOf(call), reply), tail)
  {
    CallRoundTrip(call);
    ReplyPrintsAsResponse(RequestOf(call), reply);
    PrintedRead(Decode(RequestOf(call), reply), tail);
  }

  // ---- Stores whose answers can be read back ----

  /** Every stored key and value is one word and no entry reads as an END line. */
  ghost predicate TokenMap(m: Store) {
    forall key :: key in m ==> Token(key) && Token(m[key]) && (key, m[key]) != ("SCAN", "END")
  }

  /** Moreover no stored value reads as absent. */
  ghost predicate ReadableMap(m: Store) {
    TokenMap(m) && forall key :: key in m ==> m[key] != "null"
  }

  /** The call writes nothing that would be misread. */
  predicate ReadableCall(call: KvCall) {
    TokenCall(call) &&
    match UpdateInfo(call)
    case Some((key, Some(value))) => value != "null" && (key, value) != ("SCAN", "END")
    case _ => true
  }

  /** The single key a call asks about does not hold the word for an absent value. */
  predicate NullFree(m: Store, call: KvCall) {
    match call
    case Swap(key, _) => Lookup(m, key) != Some("null")
    case Get(key) => Lookup(m, key) != Some("null")
    case _ => true
  }

  /** A map is readable exactly when every Get of a stored key, and every Scan line, survives. */
  lemma ReadableIffGetsSurvive(m: Store)
    ensures ReadableMap(m) <==> forall key :: key in m ==>
      && TokenResp(KvResp.Get(key, Lookup(m, key))) && Unambiguous(KvResp.Get(key, Lookup(m, key)))
      && (key, m[key]) != ("SCAN", "END")
  {
    hide Token;
  }

  lemma AnswerSurvives(m: Store, call: KvCall, resp: KvResp)
    requires TokenMap(m) && TokenCall(call) && NullFree(m, call) && Answers(m, call, resp)
    ensures TokenResp(resp) && Unambiguous(resp)
  {
    hide Token;
    if call.Scan? {
      forall i | 0 <= i < |resp.entries| ensures TokenEntry(resp.entries[i]) && resp.entries[i] != ("SCAN", "END") {
        var e := resp.entries[i];
        assert Lookup(m, e.0) == Some(e.1);
        assert e == (e.0, e.1);
      }
    }
  }

  lemma AnswerReadable(m: Store, call: KvCall, resp: KvResp)
    requires ReadableMap(m) && ReadableCall(call) && Answers(m, call, resp)
    ensures TokenResp(resp) && Unambiguous(resp)
  {
    hide Token;
    hide Answers;
    AnswerSurvives(m, call, resp);
  }
}
