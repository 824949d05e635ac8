/** The reading loops at both ends of a client's pipes, and the client's dispatch loop. */
module ClientModule {
  import opened Wrappers
  import opened KvTypes
  import opened StoreModule
  import opened Text
  import opened Server
  import opened Protocol

  /** A buffered reader over the text that is still to come. */
  class LineReader {
    var rest: string

    constructor (text: string)
      ensures rest == text
    {
      rest := text;
    }

    /** The next line with its newline; the empty string at the end of input. */
    method ReadLine() returns (line: string)
      modifies this
      ensures line == old(rest)[..LineLen(old(rest))] && rest == old(rest)[LineLen(old(rest))..]
    {
      var n := 0;
      while n < |rest| && (n == 0 || rest[n - 1] != '\n')
        invariant n <= |rest| && rest == old(rest)
        invariant n > 0 && rest[n - 1] == '\n' ==> LineLen(rest) == n
        invariant n == 0 || rest[n - 1] != '\n' ==> LineLen(rest) == n + LineLen(rest[n..])
      {
        n := n + 1;
      }
      assert n == |rest| ==> LineLen(rest[n..]) == 0;
      line := rest[..n];
      rest := rest[n..];
    }
  }

  /** `read_next_line`: blank lines stay in the buffer in front of the line that ends
      the loop. Without such a line the source's loop would not end. */
  method ReadNextLine(reader: LineReader) returns (buffer: string)
    requires !Blank(reader.rest)
    modifies reader
    ensures (buffer, reader.rest) == NextLine(old(reader.rest))
  {
    buffer := "";
    assert Blank(buffer);
    hide NextLine;
    hide Blank;
    ghost var s := reader.rest;
    assert "" + NextLine(s).0 == NextLine(s).0;
    while true
      invariant Blank(buffer) && !Blank(reader.rest)
      invariant NextLine(s) == (buffer + NextLine(reader.rest).0, NextLine(reader.rest).1)
      decreases |reader.rest|
    {
      ghost var before, text := buffer, reader.rest;
      var line := reader.ReadLine();
      NextLineStep(before, text, line, reader.rest);
      buffer := buffer + line;
      if !Blank(buffer) {
        break;
      }
    }
  }

  lemma {:induction false} NextLineUnfolds(s: string, line: string, rest: string)
    requires !Blank(s) && line == s[..LineLen(s)] && rest == s[LineLen(s)..]
    ensures |rest| < |s|
    ensures Blank(line) ==> !Blank(rest) && NextLine(s) == (line + NextLine(rest).0, NextLine(rest).1)
    ensures !Blank(line) ==> NextLine(s) == (line, rest)
  {
    assert s == line + rest;
    BlankConcat(line, rest);
  }

  lemma {:induction false} NextLineStep(before: string, s: string, line: string, rest: string)
    requires Blank(before) && !Blank(s) && line == s[..LineLen(s)] && rest == s[LineLen(s)..]
    ensures |rest| < |s| && Blank(before + line) == Blank(line)
    ensures Blank(line) ==> !Blank(rest) && NextLine(s).1 == NextLine(rest).1
                            && before + NextLine(s).0 == before + line + NextLine(rest).0
    ensures !Blank(line) ==> NextLine(s) == (line, rest)
  {
    hide Blank;
    hide NextLine;
    hide LineLen;
    NextLineUnfolds(s, line, rest);
    BlankConcat(before, line);
    if Blank(line) {
      assert before + (line + NextLine(rest).0) == before + line + NextLine(rest).0;
    }
  }

  /** `from_read`: the response at the head of the stream, consumed line by line. */
  method FromRead(reader: LineReader) returns (r: Option<KvResp>)
    requires !ParseResp(reader.rest).Hangs?
    modifies reader
    ensures match r
      case Some(resp) => ParseResp(old(reader.rest)) == Parsed(resp, reader.rest)
      case None => ParseResp(old(reader.rest)) == Malformed(reader.rest)
  {
    var buffer := ReadNextLine(reader);
    var segs := Words(buffer);
    if segs == [] {
      return None;
    }
    match segs[0] {
      case "PUT" =>
        if |segs| < 3 { return None; }
        if segs[2] == "found" { return Some(KvResp.Put(segs[1], true)); }
        if segs[2] == "not_found" { return Some(KvResp.Put(segs[1], false)); }
        r := None;
      case "SWAP" =>
        if |segs| < 3 { return None; }
        r := Some(KvResp.Swap(segs[1], if segs[2] == "null" then None else Some(segs[2])));
      case "GET" =>
        if |segs| < 3 { return None; }
        r := Some(KvResp.Get(segs[1], if segs[2] == "null" then None else Some(segs[2])));
      case "SCAN" =>
        if |segs| < 4 || segs[3] != "BEGIN" { return None; }
        r := ReadEntries(reader, segs[1], segs[2]);
      case "DELETE" =>
        if |segs| < 3 { return None; }
        if segs[2] == "found" { return Some(KvResp.Delete(segs[1], true)); }
        if segs[2] == "not_found" { return Some(KvResp.Delete(segs[1], false)); }
        r := None;
      case "STOP" =>
        r := Some(KvResp.Stop);
      case _ =>
        r := None;
    }
  }

  method ReadEntries(reader: LineReader, keyStart: string, keyEnd: string) returns (r: Option<KvResp>)
    requires !ParseEntries(keyStart, keyEnd, reader.rest, []).Hangs?
    modifies reader
    ensures match r
      case Some(resp) => ParseEntries(keyStart, keyEnd, old(reader.rest), []) == Parsed(resp, reader.rest)
      case None => ParseEntries(keyStart, keyEnd, old(reader.rest), []) == Malformed(reader.rest)
  {
    var entries: Entries := [];
    while true
      invariant !ParseEntries(keyStart, keyEnd, reader.rest, entries).Hangs?
      invariant ParseEntries(keyStart, keyEnd, old(reader.rest), []) ==
        ParseEntries(keyStart, keyEnd, reader.rest, entries)
      decreases |reader.rest|
    {
      var buffer := ReadNextLine(reader);
      if Trim(buffer) == "SCAN END" {
        break;
      }
      var segs := Words(buffer);
      if |segs| < 2 {
        return None;
      }
      entries := entries + [(segs[0], segs[1])];
    }
    r := Some(KvResp.Scan(keyStart, keyEnd, entries));
  }

  /** The words of a line, extracted one after the other. */
  method SplitBySpace(line: string) returns (words: seq<string>)
    ensures words == Words(line)
  {
    hide Words;
    words := [];
    var i := 0;
    assert line[0..] == line;
    while i < |line|
      invariant i <= |line|
      invariant words + Words(line[i..]) == Words(line)
    {
      if IsSpace(line[i]) {
        SpaceSkipped(line, i);
        i := i + 1;
      } else {
        var j := i;
        while j < |line| && !IsSpace(line[j])
          invariant i <= j <= |line|
          invariant forall k :: i <= k < j ==> !IsSpace(line[k])
        {
          j := j + 1;
        }
        WordTaken(line, i, j);
        words := words + [line[i..j]];
        i := j;
      }
    }
    NoWords(line[i..]);
  }

  lemma {:induction false} NoWords(s: string)
    requires s == ""
    ensures Words(s) == []
  {
  }

  lemma SpaceSkipped(line: string, i: nat)
    requires i < |line| && IsSpace(line[i])
    ensures Words(line[i..]) == Words(line[i + 1..])
  {
    assert line[i..][1..] == line[i + 1..];
  }

  lemma WordTaken(line: string, i: nat, j: nat)
    requires i < j <= |line| && (forall k :: i <= k < j ==> !IsSpace(line[k])) && (j < |line| ==> IsSpace(line[j]))
    ensures Words(line[i..]) == [line[i..j]] + Words(line[j..])
  {
    WordLenIs(line[i..], j - i);
    assert line[i..][..j - i] == line[i..j] && line[i..][j - i..] == line[j..];
  }

  lemma {:induction false} WordLenIs(s: string, n: nat)
    requires n <= |s| && (forall i :: 0 <= i < n ==> !IsSpace(s[i])) && (n < |s| ==> IsSpace(s[n]))
    ensures WordLen(s) == n
  {
  }

  /** What the dispatch loop makes of a line's words. */
  method ReadCommand(line: string) returns (command: Command)
    ensures command == ParseCommand(line)
  {
    hide Words;
    var words := SplitBySpace(line);
    if words == [] {
      return Nothing;
    }
    var verb := words[0];
    if verb == "PUT" {
      if |words| != 3 {
        return Invalid;
      }
      command := Do(Request.Put(words[1], words[2]));
    } else if verb == "SWAP" {
      if |words| != 3 {
        return Invalid;
      }
      command := Do(Request.Swap(words[1], words[2]));
    } else if verb == "GET" {
      if |words| != 2 {
        return Invalid;
      }
      command := Do(Request.Get(words[1]));
    } else if verb == "DELETE" {
      if |words| != 2 {
        return Invalid;
      }
      command := Do(Request.Delete(words[1]));
    } else if verb == "SCAN" {
      if |words| != 3 {
        return Invalid;
      }
      command := Do(Request.Scan(words[1], words[2]));
    } else if verb == "STOP" {
      command := if |words| != 1 then Invalid else Halt;
    } else {
      command := Unknown;
    }
  }

  /** One RPC against an otherwise idle service: the store operation and its reply. */
  method Serve(store: InMemoryKVStore, req: Request) returns (reply: Reply)
    requires store.Valid()
    modifies store
    ensures store.Valid() && store.Contents() == After(old(store.Contents()), CallOf(req))
    ensures Fitting(req, reply) && Answers(old(store.Contents()), CallOf(req), Decode(req, reply))
  {
    hide ToMap;
    hide KeysIncrease;
    hide IsRangeOf;
    match req {
      case Put(key, newValue) =>
        var found := store.Put(key, newValue);
        reply := Reply.Put(found);
      case Swap(key, newValue) =>
        var oldValue := store.Swap(key, newValue);
        reply := if oldValue.Some? then Reply.Swap(true, oldValue.value) else Reply.Swap(false, "");
      case Get(key) =>
        var value := store.Get(key);
        reply := if value.Some? then Reply.Get(true, value.value) else Reply.Get(false, "");
      case Scan(startKey, endKey) =>
        var list := store.Scan(startKey, endKey);
        var out: Entries := [];
        for i := 0 to |list|
          invariant out == list[..i]
        {
          out := out + [list[i]];
        }
        assert out == list;
        reply := Reply.Scan(out);
      case Delete(key) =>
        var found := store.Delete(key);
        reply := Reply.Delete(found);
    }
  }

  // How the dispatch loop ends: at the end of input, on STOP, or on a malformed command.
  datatype Ending = AtEof | AtStop | AtInvalid

  /** The requests a client makes of a text, and how its loop ends. */
  function Requests(text: string): (seq<Request>, Ending)
    decreases |text|
  {
    if text == "" then ([], AtEof)
    else
      var rest := text[LineLen(text)..];
      match ParseCommand(text[..LineLen(text)])
      case Do(req) => ([req] + Requests(rest).0, Requests(rest).1)
      case Halt => ([], AtStop)
      case Invalid => ([], AtInvalid)
      case _ => Requests(rest)
  }

  function PrintReplies(reqs: seq<Request>, replies: seq<Reply>): string
    requires |reqs| == |replies|
  {
    if reqs == [] then ""
    else
      var n := |reqs| - 1;
      PrintReplies(reqs[..n], replies[..n]) + PrintReply(reqs[n], replies[n])
  }

  function MapAfter(m: Store, reqs: seq<Request>): Store {
    if reqs == [] then m else After(MapAfter(m, reqs[..|reqs| - 1]), CallOf(reqs[|reqs| - 1]))
  }

  /** Each reply answers its request on the map the earlier requests left. */
  ghost predicate AnswersInTurn(m: Store, reqs: seq<Request>, replies: seq<Reply>) {
    |reqs| == |replies| && forall i :: 0 <= i < |reqs| ==>
      Fitting(reqs[i], replies[i]) && Answers(MapAfter(m, reqs[..i]), CallOf(reqs[i]), Decode(reqs[i], replies[i]))
  }

  lemma {:induction false} TurnTaken(m: Store, reqs: seq<Request>, replies: seq<Reply>, req: Request, reply: Reply)
    requires AnswersInTurn(m, reqs, replies)
    requires Fitting(req, reply) && Answers(MapAfter(m, reqs), CallOf(req), Decode(req, reply))
    ensures AnswersInTurn(m, reqs + [req], replies + [reply])
    ensures MapAfter(m, reqs + [req]) == After(MapAfter(m, reqs), CallOf(req))
    ensures PrintReplies(reqs + [req], replies + [reply]) == PrintReplies(reqs, replies) + PrintReply(req, reply)
  {
    var reqs', replies' := reqs + [req], replies + [reply];
    assert reqs'[..|reqs|] == reqs && replies'[..|reqs|] == replies;
    forall i | 0 <= i < |reqs'|
      ensures Fitting(reqs'[i], replies'[i])
      ensures Answers(MapAfter(m, reqs'[..i]), CallOf(reqs'[i]), Decode(reqs'[i], replies'[i]))
    {
      assert reqs'[..i] == if i < |reqs| then reqs[..i] else reqs;
    }
  }

  lemma {:induction false} RequestsStep(text: string, line: string, rest: string, reqs: seq<Request>)
    requires text != "" && line == text[..LineLen(text)] && rest == text[LineLen(text)..]
    ensures |rest| < |text|
    ensures match ParseCommand(line)
      case Do(req) => Requests(text).1 == Requests(rest).1
                      && reqs + Requests(text).0 == reqs + [req] + Requests(rest).0
      case Halt => Requests(text) == ([], AtStop)
      case Invalid => Requests(text) == ([], AtInvalid)
      case _ => Requests(text) == Requests(rest)
  {
  }

  /** The client's loop, alone on the service: it makes exactly the requests its input
      spells, prints the replies in order, and each is the sequential map's answer. */
  method ClientMain(input: LineReader, store: InMemoryKVStore)
    returns (output: string, status: int, ghost reqs: seq<Request>, ghost replies: seq<Reply>)
    requires store.Valid()
    modifies input, store
    ensures reqs == Requests(old(input.rest)).0
    ensures AnswersInTurn(old(store.Contents()), reqs, replies)
    ensures output == PrintReplies(reqs, replies) + if Requests(old(input.rest)).1.AtStop? then "STOP\n" else ""
    ensures status == if Requests(old(input.rest)).1.AtInvalid? then 1 else 0
    ensures store.Valid() && store.Contents() == MapAfter(old(store.Contents()), reqs)
  {
    hide Requests;
    hide ParseCommand;
    hide AnswersInTurn;
    hide Answers;
    output, status, reqs, replies := "", 0, [], [];
    ghost var m := store.Contents();
    ghost var whole := input.rest;
    NothingYet(m, whole);
    while input.rest != ""
      invariant store.Valid() && store.Contents() == MapAfter(m, reqs)
      invariant AnswersInTurn(m, reqs, replies)
      invariant |reqs| == |replies| && output == PrintReplies(reqs, replies)
      invariant Requests(whole) == (reqs + Requests(input.rest).0, Requests(input.rest).1)
      decreases |input.rest|
    {
      ghost var text := input.rest;
      var line := input.ReadLine();
      RequestsStep(text, line, input.rest, reqs);
      var command := ReadCommand(line);
      match command {
        case Do(req) =>
          var reply := Serve(store, req);
          TurnTaken(m, reqs, replies, req, reply);
          reqs, replies := reqs + [req], replies + [reply];
          output := output + PrintReply(req, reply);
        case Halt =>
          output := output + "STOP\n";
          return;
        case Invalid =>
          status := 1;
          return;
        case _ =>
      }
    }
    NothingLeft();
  }

  lemma {:induction false} NothingYet(m: Store, text: string)
    ensures AnswersInTurn(m, [], []) && [] + Requests(text).0 == Requests(text).0
  {
  }

  lemma NothingLeft()
    ensures Requests("") == ([], AtEof)
  {
  }

  // ---- A whole conversation ----

  function CallsText(calls: seq<KvCall>): string {
    if calls == [] then "" else PrintCall(calls[0]) + CallsText(calls[1..])
  }

  function RequestsOf(calls: seq<KvCall>): seq<Request>
    requires forall i :: 0 <= i < |calls| ==> !calls[i].Stop?
  {
    seq(|calls|, i requires 0 <= i < |calls| => RequestOf(calls[i]))
  }

  function Decoded(reqs: seq<Request>, replies: seq<Reply>): seq<KvResp>
    requires |reqs| == |replies|
  {
    seq(|reqs|, i requires 0 <= i < |reqs| => Decode(reqs[i], replies[i]))
  }

  /** What a driver writes for a list of calls is split back into those very requests. */
  lemma {:induction false} CallsReadBack(calls: seq<KvCall>)
    requires forall i :: 0 <= i < |calls| ==> !calls[i].Stop? && TokenCall(calls[i])
    ensures Requests(CallsText(calls)) == (RequestsOf(calls), AtEof)
  {
    hide ParseCommand;
    hide PrintCall;
    if calls == [] {
    } else {
      var line, rest := PrintCall(calls[0]), CallsText(calls[1..]);
      CallRoundTrip(calls[0]);
      LineLenOneLine(line, rest);
      assert (line + rest)[..|line|] == line && (line + rest)[|line|..] == rest;
      CallsReadBack(calls[1..]);
      assert RequestsOf(calls) == [RequestOf(calls[0])] + RequestsOf(calls[1..]);
    }
  }

  /** The map stays readable as long as only readable values are written. */
  lemma {:induction false} ReadableThroughout(m: Store, reqs: seq<Request>)
    requires ReadableMap(m) && forall i :: 0 <= i < |reqs| ==> ReadableCall(CallOf(reqs[i]))
    ensures ReadableMap(MapAfter(m, reqs))
  {
    if reqs == [] {
    } else {
      ReadableThroughout(m, reqs[..|reqs| - 1]);
    }
  }

  lemma {:induction false} RepliesReadBack(m: Store, reqs: seq<Request>, replies: seq<Reply>, tail: string)
    requires ReadableMap(m) && (forall i :: 0 <= i < |reqs| ==> ReadableCall(CallOf(reqs[i])))
    requires AnswersInTurn(m, reqs, replies)
    ensures |reqs| == |replies|
    ensures ReadMany(PrintReplies(reqs, replies) + tail, |reqs|) == Some((Decoded(reqs, replies), tail))
    decreases |reqs|
  {
    assert |reqs| == |replies|;
    hide AnswersInTurn;
    hide ParseResp;
    hide ReadMany;
    hide ReadableMap;
    hide ReadableCall;
    hide PrintReply;
    hide Decode;
    hide CallOf;
    hide PrintReplies;
    hide Decoded;
    if reqs == [] {
      assert replies == [];
      NothingRead(tail);
    } else {
      var n := |reqs| - 1;
      var line, resp := PrintReply(reqs[n], replies[n]), Decode(reqs[n], replies[n]);
      var text, resps := PrintReplies(reqs, replies) + tail, Decoded(reqs[..n], replies[..n]);
      assert ReadMany(text, n) == Some((resps, line + tail)) by {
        PrefixInTurn(m, reqs, replies);
        RepliesReadBack(m, reqs[..n], replies[..n], line + tail);
        LastReplyPrinted(reqs, replies, tail);
      }
      assert ParseResp(line + tail) == Parsed(resp, tail) by {
        LastReplyRead(m, reqs, replies, tail);
      }
      ReadOneMore(text, line + tail, n, resps, resp, tail);
      assert Decoded(reqs, replies) == resps + [resp] by {
        LastReplyDecoded(reqs, replies);
      }
    }
  }

  lemma {:induction false} NothingRead(tail: string)
    ensures ReadMany(PrintReplies([], []) + tail, 0) == Some((Decoded([], []), tail))
  {
    assert PrintReplies([], []) + tail == tail;
    assert Decoded([], []) == [];
  }

  lemma {:induction false} LastReplyPrinted(reqs: seq<Request>, replies: seq<Reply>, tail: string)
    requires |reqs| == |replies| && reqs != []
    ensures var n := |reqs| - 1;
      PrintReplies(reqs, replies) + tail ==
        PrintReplies(reqs[..n], replies[..n]) + (PrintReply(reqs[n], replies[n]) + tail)
  {
    hide PrintReply;
    var n := |reqs| - 1;
    var before, line := PrintReplies(reqs[..n], replies[..n]), PrintReply(reqs[n], replies[n]);
    assert PrintReplies(reqs, replies) == before + line;
    hide PrintReplies;
    assert (before + line) + tail == before + (line + tail);
  }

  lemma LastReplyDecoded(reqs: seq<Request>, replies: seq<Reply>)
    requires |reqs| == |replies| && reqs != []
    ensures var n := |reqs| - 1;
      Decoded(reqs, replies) == Decoded(reqs[..n], replies[..n]) + [Decode(reqs[n], replies[n])]
  {
    hide Decode;
  }

  lemma LastReplyRead(m: Store, reqs: seq<Request>, replies: seq<Reply>, tail: string)
    requires ReadableMap(m) && (forall i :: 0 <= i < |reqs| ==> ReadableCall(CallOf(reqs[i])))
    requires AnswersInTurn(m, reqs, replies) && reqs != []
    ensures var n := |reqs| - 1;
      |reqs| == |replies| && ParseResp(PrintReply(reqs[n], replies[n]) + tail) ==
        Parsed(Decode(reqs[n], replies[n]), tail)
  {
    hide Answers;
    hide ParseResp;
    hide TokenResp;
    hide ReadableMap;
    hide ReadableCall;
    hide PrintReply;
    hide Decode;
    hide CallOf;
    var n := |reqs| - 1;
    PrefixInTurn(m, reqs, replies);
    ReadableThroughout(m, reqs[..n]);
    AnswerReadable(MapAfter(m, reqs[..n]), CallOf(reqs[n]), Decode(reqs[n], replies[n]));
    ReplyPrintsAsResponse(reqs[n], replies[n]);
    PrintedRead(Decode(reqs[n], replies[n]), tail);
  }

  lemma {:induction false} PrefixInTurn(m: Store, reqs: seq<Request>, replies: seq<Reply>)
    requires AnswersInTurn(m, reqs, replies) && reqs != []
    ensures var n := |reqs| - 1;
      AnswersInTurn(m, reqs[..n], replies[..n]) && Fitting(reqs[n], replies[n])
      && Answers(MapAfter(m, reqs[..n]), CallOf(reqs[n]), Decode(reqs[n], replies[n]))
  {
    var n := |reqs| - 1;
    forall i | 0 <= i < n
      ensures Fitting(reqs[..n][i], replies[..n][i])
      ensures Answers(MapAfter(m, reqs[..n][..i]), CallOf(reqs[..n][i]), Decode(reqs[..n][i], replies[..n][i]))
    {
      assert reqs[..n][..i] == reqs[..i];
    }
  }

  lemma {:induction false} ReadOneMore(s: string, t: string, k: nat, resps: seq<KvResp>, resp: KvResp, tail: string)
    requires ReadMany(s, k) == Some((resps, t)) && ParseResp(t) == Parsed(resp, tail)
    ensures ReadMany(s, k + 1) == Some((resps + [resp], tail))
    decreases k
  {
    hide ParseResp;
    if k == 0 {
      assert ReadMany(tail, 0) == Some(([], tail)) && [resp] + [] == [] + [resp];
    } else {
      ReadOneMore(ParseResp(s).rest, t, k - 1, resps[1..], resp, tail);
      assert resps == [resps[0]] + resps[1..];
      assert resps + [resp] == [resps[0]] + (resps[1..] + [resp]);
    }
  }

  /** End to end, over any list of calls with readable words: a reader of the client's
      output gets exactly the sequential map's answers to the calls its driver wrote. */
  lemma {:induction false} Conversation(m: Store, calls: seq<KvCall>, replies: seq<Reply>)
    requires ReadableMap(m)
    requires forall i :: 0 <= i < |calls| ==> !calls[i].Stop? && TokenCall(calls[i]) && ReadableCall(calls[i])
    requires AnswersInTurn(m, Requests(CallsText(calls)).0, replies)
    ensures |replies| == |calls|
    ensures var reqs := RequestsOf(calls);
      && ReadMany(PrintReplies(reqs, replies), |calls|) == Some((Decoded(reqs, replies), ""))
      && forall i :: 0 <= i < |calls| ==>
           CallOf(reqs[i]) == calls[i] && Answers(MapAfter(m, reqs[..i]), calls[i], Decoded(reqs, replies)[i])
  {
    CallsReadBack(calls);
    var reqs := RequestsOf(calls);
    forall i | 0 <= i < |calls| ensures CallOf(reqs[i]) == calls[i] {
      CallRoundTrip(calls[i]);
    }
    RepliesReadBack(m, reqs, replies, "");
    assert PrintReplies(reqs, replies) + "" == PrintReplies(reqs, replies);
  }
}
