/** The wire format: the printer of main.c and handler.c, the parser of parser.c, and the read
    loop that resynchronises on '*'. */
module Resp {
  import opened Seqs
  import opened CStrings
  import opened Commands

  datatype Request = Request(cmd: Cmd, args: seq<string>)

  // ----- printing -----

  const CRLF := "\r\n"

  function Bulk(s: string): string { "$" + Dec(|s|) + CRLF + s + CRLF }

  function BulkAll(words: seq<string>): string {
    if words == [] then "" else Bulk(words[0]) + BulkAll(words[1..])
  }

  function ArrayOf(words: seq<string>): string { "*" + Dec(|words|) + CRLF + BulkAll(words) }

  lemma {:induction false} BulkAllOfThree(a: string, b: string, c: string)
    ensures BulkAll([a, b, c]) == Bulk(a) + (Bulk(b) + Bulk(c))
  {
    assert [a, b, c][1..] == [b, c] && [b, c][1..] == [c] && [c][1..] == [];
    assert BulkAll([c]) == Bulk(c) + "";
  }

  /** copy_request_toBuffer and write_to_file */
  function Print(req: Request): string { ArrayOf([CmdToString(req.cmd)] + req.args) }

  // ----- parsing -----

  /** How far getLine copies: up to a CR, a NUL, or the end of the buffer. */
  function LineLen(s: string): (n: nat)
    ensures n <= |s|
  {
    if s == "" || s[0] == '\r' || s[0] == '\0' then 0 else 1 + LineLen(s[1..])
  }

  function Line(s: string): string { s[..LineLen(s)] }

  /** getLine copies into 256 bytes, with a NUL at the end. */
  const LINE_MAX := 255
  /** The args array of a request. */
  const ARGS_MAX := 16

  predicate HasPrefix(line: string) {
    line != "" && (line[0] == '*' || line[0] == '$' || line[0] == '+' || line[0] == '-' || line[0] == ':')
  }

  /** One length line and one value line. Outside: the C reads or writes past a buffer. */
  datatype WordResult = Word(text: string, used: nat) | NoWord | Outside

  function ReadWord(s: string): WordResult {
    var lenLine := Line(s);
    if |lenLine| > LINE_MAX then Outside
    else if !HasPrefix(lenLine) then NoWord
    else if |lenLine| + 2 > |s| then Outside
    else ReadValue(s[|lenLine| + 2..], Atoi(lenLine[1..]), |lenLine| + 2)
  }

  /** The value line after a length line that took `before` bytes. */
  function ReadValue(s: string, expected: int, before: nat): WordResult {
    var value := Line(s);
    if |value| > LINE_MAX then Outside
    else if |value| != expected then NoWord
    else Word(value, before + |value| + 2)
  }

  /** The words of a request; NoWords carries the words before the one that is rejected. */
  datatype WordsResult = Words(texts: seq<string>, used: nat) | NoWords(before: seq<string>) | OutsideBuffer

  function ReadWords(s: string, n: int): WordsResult
    decreases n
  {
    if n <= 0 then Words([], 0)
    else
      match ReadWord(s)
      case NoWord => NoWords([])
      case Outside => OutsideBuffer
      case Word(text, used) =>
        if used > |s| then if n == 1 then Words([text], used) else OutsideBuffer
        else
          match ReadWords(s[used..], n - 1)
          case NoWords(texts) => NoWords([text] + texts)
          case OutsideBuffer => OutsideBuffer
          case Words(texts, more) => Words([text] + texts, used + more)
  }

  /** The command and arguments that the words stand for. */
  function Interpret(words: seq<string>): Request {
    if words == [] then Request(UNKNOWN, [])
    else if Upper(words[0]) == "CONFIG" then
      if |words| == 1 then Request(UNKNOWN, [])
      else Request(if Upper(words[1]) == "GET" then CONFIG_GET else UNKNOWN, words[2..])
    else Request(FindRedisCmd(words[0]), words[1..])
  }

  datatype ParseResult = Parsed(request: Request, used: nat) | Rejected | Fault

  /** parse: `used` is how far the input pointer moves. */
  function Parse(s: string): (r: ParseResult)
    ensures r.Parsed? ==> r.used > 2
  {
    var header := Line(s);
    if |header| > LINE_MAX then Fault
    else if header == "" || header[0] != '*' then Rejected
    else ParseBody(s, |header| + 2, Atoi(header[1..]))
  }

  function ParseBody(s: string, start: nat, count: int): (r: ParseResult)
    ensures r.Parsed? ==> r.used >= start
  {
    if count > 0 && start > |s| then Fault
    else Conclude(ReadWords(if start <= |s| then s[start..] else "", count), start)
  }

  /** The parse result for the words read after `start` bytes. */
  function Conclude(words: WordsResult, start: nat): (r: ParseResult)
    ensures r.Parsed? ==> r.used >= start
  {
    match words
    case NoWords(texts) => if |Interpret(texts).args| > ARGS_MAX then Fault else Rejected
    case OutsideBuffer => Fault
    case Words(texts, used) =>
      if |Interpret(texts).args| > ARGS_MAX then Fault else Parsed(Interpret(texts), start + used)
  }

  // ----- the parser inverts the printer -----

  predicate Clean(s: string) { forall c | c in s :: c != '\r' && c != '\0' }

  /** A word that fits the parser's buffers. */
  predicate ShortWord(s: string) { Clean(s) && |s| <= LINE_MAX }

  lemma {:induction false} LineOfCleanText(a: string, b: string)
    requires Clean(a)
    ensures LineLen(a + (CRLF + b)) == |a|
  {
    var s := a + (CRLF + b);
    if a != "" {
      assert s[0] == a[0] && a[0] in a && s[1..] == a[1..] + (CRLF + b);
      assert forall c | c in a[1..] :: c in a;
      LineOfCleanText(a[1..], b);
    }
  }

  lemma {:induction false} NumberLine(prefix: char, n: nat, b: string)
    requires n < 1000 && prefix != '\r' && prefix != '\0'
    ensures var line := [prefix] + Dec(n);
            && Line(line + (CRLF + b)) == line && |line| <= 4 && Atoi(line[1..]) == n
            && (line + (CRLF + b))[|line| + 2..] == b
  {
    var line := [prefix] + Dec(n);
    LineOfCleanText(line, b);
    DecLength(n, 3, 1000);
    AtoiOfDecInt(n);
    assert line[1..] == Dec(n);
    assert line + (CRLF + b) == line + CRLF + b;
  }

  lemma {:induction false} ReadBulk(s: string, rest: string)
    requires ShortWord(s)
    ensures ReadWord(Bulk(s) + rest) == Word(s, |Bulk(s)|)
  {
    var line, value := "$" + Dec(|s|), s + (CRLF + rest);
    assert Bulk(s) + rest == line + (CRLF + value);
    NumberLine('$', |s|, value);
    LineOfCleanText(s, rest);
  }

  /** A word is read exactly when the length before it is its own. */
  lemma {:induction false} ReadWordIff(n: nat, word: string, rest: string)
    requires n < 1000 && ShortWord(word)
    ensures var r := ReadWord("$" + Dec(n) + (CRLF + (word + (CRLF + rest))));
            if n == |word| then r == Word(word, |Bulk(word)|) else r == NoWord
  {
    NumberLine('$', n, word + (CRLF + rest));
    LineOfCleanText(word, rest);
  }

  lemma {:induction false} ReadWordsStep(first: string, rest: string, n: nat, text: string, texts: seq<string>,
      more: nat)
    requires n > 0 && ReadWord(first + rest) == Word(text, |first|)
    requires ReadWords(rest, n - 1) == Words(texts, more)
    ensures ReadWords(first + rest, n) == Words([text] + texts, |first| + more)
  {
    assert (first + rest)[|first|..] == rest;
  }

  lemma {:induction false} ReadAhead(words: seq<string>, s: string, first: string, tail: string, used: nat)
    requires words != [] && s == first + tail && ReadWord(s) == Word(words[0], |first|)
    requires ReadWords(tail, |words[1..]|) == Words(words[1..], used)
    ensures ReadWords(s, |words|) == Words(words, |first| + used)
  {
    assert words == [words[0]] + words[1..];
    ReadWordsStep(first, tail, |words|, words[0], words[1..], used);
  }

  lemma {:induction false} FirstOfBulkAll(words: seq<string>, rest: string, s: string, tail: string)
    requires words != [] && s == BulkAll(words) + rest && tail == BulkAll(words[1..]) + rest && ShortWord(words[0])
    ensures s == Bulk(words[0]) + tail && ReadWord(s) == Word(words[0], |Bulk(words[0])|)
    ensures |BulkAll(words)| == |Bulk(words[0])| + |BulkAll(words[1..])|
  {
    ConcatAssociates(Bulk(words[0]), BulkAll(words[1..]), rest);
    ReadBulk(words[0], tail);
  }

  lemma {:induction false} ReadBulkFirst(words: seq<string>, rest: string, s: string, tail: string)
    requires words != [] && s == BulkAll(words) + rest && tail == BulkAll(words[1..]) + rest && ShortWord(words[0])
    requires ReadWords(tail, |words[1..]|) == Words(words[1..], |BulkAll(words[1..])|)
    ensures ReadWords(s, |words|) == Words(words, |BulkAll(words)|)
  {
    FirstOfBulkAll(words, rest, s, tail);
    ReadAhead(words, s, Bulk(words[0]), tail, |BulkAll(words[1..])|);
  }

  lemma {:induction false} ReadBulkAll(words: seq<string>, rest: string, s: string)
    requires s == BulkAll(words) + rest && forall w | w in words :: ShortWord(w)
    ensures ReadWords(s, |words|) == Words(words, |BulkAll(words)|)
  {
    if words != [] {
      assert words[0] in words && forall w | w in words[1..] :: w in words;
      ReadBulkAll(words[1..], rest, BulkAll(words[1..]) + rest);
      ReadBulkFirst(words, rest, s, BulkAll(words[1..]) + rest);
    }
  }

  lemma {:induction false} ParseStep(s: string, line: string, body: string, words: seq<string>, used: nat, req: Request)
    requires Line(s) == line && 0 < |line| <= LINE_MAX && line[0] == '*' && |line| + 2 <= |s| && s[|line| + 2..] == body
    requires Atoi(line[1..]) == |words| && ReadWords(body, |words|) == Words(words, used)
    requires req == Interpret(words) && |req.args| <= ARGS_MAX
    ensures Parse(s) == Parsed(req, |line| + 2 + used)
  {
  }

  lemma {:induction false} ArrayParts(words: seq<string>, rest: string, line: string)
    requires line == "*" + Dec(|words|)
    ensures ArrayOf(words) + rest == line + (CRLF + (BulkAll(words) + rest))
    ensures |ArrayOf(words)| == |line| + 2 + |BulkAll(words)|
  {
  }

  lemma {:induction false} ArrayHeader(words: seq<string>, rest: string, line: string, s: string)
    requires 0 < |words| < 1000 && line == "*" + Dec(|words|) && s == ArrayOf(words) + rest
    ensures Line(s) == line && 0 < |line| <= 4 && line[0] == '*' && |line| + 2 <= |s|
    ensures s[|line| + 2..] == BulkAll(words) + rest && Atoi(line[1..]) == |words|
  {
    ArrayParts(words, rest, line);
    NumberLine('*', |words|, BulkAll(words) + rest);
  }

  /** What the parser makes of a printed array. */
  lemma {:induction false} ParseArrayOf(words: seq<string>, rest: string)
    requires 0 < |words| && |Interpret(words).args| <= ARGS_MAX && |words| < 1000
    requires forall w | w in words :: ShortWord(w)
    ensures Parse(ArrayOf(words) + rest) == Parsed(Interpret(words), |ArrayOf(words)|)
  {
    var s, line, body := ArrayOf(words) + rest, "*" + Dec(|words|), BulkAll(words) + rest;
    ArrayHeader(words, rest, line, s);
    ArrayParts(words, rest, line);
    ReadBulkAll(words, rest, body);
    ParseStep(s, line, body, words, |BulkAll(words)|, Interpret(words));
  }

  lemma {:induction false} InterpretNamed(name: string, args: seq<string>)
    requires Upper(name) != "CONFIG"
    ensures Interpret([name] + args) == Request(FindRedisCmd(name), args)
  {
    assert ([name] + args)[1..] == args;
  }

  /** A name, in any mixture of upper and lower case, and its arguments, sent in the printed form
      of an array, are read as the command of that name. */
  lemma {:induction false} ParseNamed(name: string, args: seq<string>, rest: string)
    requires Upper(name) != "CONFIG" && ShortWord(name) && |args| <= 16 && forall a | a in args :: ShortWord(a)
    ensures Parse(ArrayOf([name] + args) + rest) == Parsed(Request(FindRedisCmd(name), args), |ArrayOf([name] + args)|)
  {
    InterpretNamed(name, args);
    ParseArrayOf([name] + args, rest);
  }

  lemma {:induction false} ExecBytes()
    ensures ArrayOf(["exec"]) == "*1\r\n" + "$4\r\nexec\r\n"
  {
    assert Dec(4) == "4" && Dec(1) == "1" && "*" + "1" + CRLF == "*1\r\n";
    assert Bulk("exec") == "$4\r\nexec\r\n" && ["exec"][1..] == [];
    assert BulkAll(["exec"]) == Bulk("exec") + "";
  }

  lemma {:induction false} ExecName()
    ensures Upper("exec") != "CONFIG" && FindRedisCmd("exec") == EXEC
  {
    hide Named;
    assert Upper("exec") == "EXEC";
    FourAToINames("EXEC");
    assert |"EXEC"| == 4 && |"CONFIG"| == 6;
  }

  /** The bytes of EXEC, in lower case. */
  lemma {:induction false} ParseExec(rest: string)
    ensures Parse("*1\r\n" + "$4\r\nexec\r\n" + rest) == Parsed(Request(EXEC, []), 14)
  {
    hide FindRedisCmd;
    ExecBytes();
    ExecName();
    assert ["exec"] + [] == ["exec"];
    ParseNamed("exec", [], rest);
  }

  lemma {:induction false} InterpretConfig(name: string, sub: string, args: seq<string>)
    requires Upper(name) == "CONFIG"
    ensures Interpret([name, sub] + args) == Request(if Upper(sub) == "GET" then CONFIG_GET else UNKNOWN, args)
  {
    var words := [name, sub] + args;
    assert words[0] == name && words[1] == sub && words[2..] == args;
  }

  /** CONFIG is read with its second word. */
  lemma {:induction false} ParseConfig(name: string, sub: string, args: seq<string>, rest: string)
    requires Upper(name) == "CONFIG" && ShortWord(name) && ShortWord(sub)
    requires |args| <= 16 && forall a | a in args :: ShortWord(a)
    ensures Parse(ArrayOf([name, sub] + args) + rest)
         == Parsed(Request(if Upper(sub) == "GET" then CONFIG_GET else UNKNOWN, args), |ArrayOf([name, sub] + args)|)
  {
    InterpretConfig(name, sub, args);
    ParseArrayOf([name, sub] + args, rest);
  }

  /** A request that fits the parser's buffers: at most 16 short arguments. */
  predicate Fits(req: Request) {
    Recorded(req.cmd) && |req.args| <= ARGS_MAX && forall a | a in req.args :: ShortWord(a)
  }

  /** The request that a printed one is read back as. */
  function ReadBack(req: Request): Request {
    if req.cmd.ZADD? || req.cmd.ZREM? || req.cmd.GEOADD? then Request(UNKNOWN, req.args) else req
  }

  lemma {:induction false} InterpretPrinted(req: Request, name: string)
    requires PlainName(name) && FindRedisCmd(name) == ReadBack(req).cmd
    requires name != "CONFIG"
    ensures Interpret([name] + req.args) == ReadBack(req)
  {
    assert Upper(name) == name;
    assert ([name] + req.args)[1..] == req.args;
  }

  lemma {:induction false} PrintedName(req: Request)
    requires Recorded(req.cmd)
    ensures var name := CmdToString(req.cmd);
            PlainName(name) && FindRedisCmd(name) == ReadBack(req).cmd && name != "CONFIG"
  {
    FindInvertsPrint(req.cmd);
    NoNameStartsWithC(req.cmd);
    assert "CONFIG"[0] == 'C';
  }

  /** Parsing what the server prints gives the request back, whatever bytes follow, and moves
      past exactly the printed bytes. */
  lemma {:induction false} ParseInvertsPrint(req: Request, rest: string)
    requires Fits(req)
    ensures Parse(Print(req) + rest) == Parsed(ReadBack(req), |Print(req)|)
  {
    var name := CmdToString(req.cmd);
    PrintedName(req);
    InterpretPrinted(req, name);
    assert ShortWord(name) by {
      forall c | c in name ensures c != '\r' && c != '\0' {
        var i :| 0 <= i < |name| && name[i] == c;
      }
    }
    ParseArrayOf([name] + req.args, rest);
  }

  // ----- what the parser returns -----

  lemma {:induction false} LineIsClean(s: string)
    ensures Clean(Line(s))
  {
    if s != "" && s[0] != '\r' && s[0] != '\0' {
      LineIsClean(s[1..]);
      assert Line(s) == [s[0]] + Line(s[1..]);
    }
  }

  lemma {:induction false} ReadWordIsShort(s: string)
    ensures ReadWord(s).Word? ==> ShortWord(ReadWord(s).text)
  {
    if ReadWord(s).Word? {
      LineIsClean(s[|Line(s)| + 2..]);
    }
  }

  lemma {:induction false} ReadWordsAreShort(s: string, n: int)
    ensures ReadWords(s, n).Words? ==> forall w | w in ReadWords(s, n).texts :: ShortWord(w)
    decreases n
  {
    if n > 0 && ReadWord(s).Word? {
      ReadWordIsShort(s);
      if ReadWord(s).used <= |s| {
        ReadWordsAreShort(s[ReadWord(s).used..], n - 1);
      }
    }
  }

  lemma {:induction false} InterpretKeepsWords(words: seq<string>)
    ensures forall a | a in Interpret(words).args :: a in words
  {
  }

  /** Every recorded command that the parser returns fits the parser's buffers. */
  lemma {:induction false} ParsedFits(s: string)
    requires Parse(s).Parsed? && Recorded(Parse(s).request.cmd)
    ensures Fits(Parse(s).request)
  {
    var header := Line(s);
    var start := |header| + 2;
    var body := if start <= |s| then s[start..] else "";
    ReadWordsAreShort(body, Atoi(header[1..]));
    InterpretKeepsWords(ReadWords(body, Atoi(header[1..])).texts);
  }

  /** The request came from the parser. */
  ghost predicate Received(req: Request) { exists s :: Parse(s).Parsed? && Parse(s).request == req }

  lemma {:induction false} ReceivedFits(req: Request)
    requires Recorded(req.cmd)
    ensures Received(req) ==> Fits(req)
    ensures ReadBack(req) == req ==> (Received(req) <==> Fits(req))
  {
    if Received(req) {
      var s :| Parse(s).Parsed? && Parse(s).request == req;
      ParsedFits(s);
    }
    if Fits(req) {
      ParseInvertsPrint(req, "");
    }
  }

  /** A request can come from the parser only if it has at most 16 arguments of at most 255 bytes,
      none of them a CR or a NUL; exactly then, for a command that is recorded under its own name. */
  lemma {:induction false} ReceivedIff(req: Request)
    requires Recorded(req.cmd)
    ensures var fits := |req.args| <= 16 &&
              forall a | a in req.args :: |a| <= 255 && forall c | c in a :: c != '\r' && c != '\0';
            && (Received(req) ==> fits)
            && (ReadBack(req) == req ==> (Received(req) <==> fits))
  {
    ReceivedFits(req);
  }

  // ----- the read loop -----

  /** What the loop handles: a request and the bytes that it took. */
  datatype Read = Read(request: Request, bytes: nat)

  datatype Reads = Reads(items: seq<Read>, fault: bool)

  /** The per-client loop over one buffer: skip to a '*', parse, and on a rejected parse move on
      by one byte. */
  function ReadLoop(s: string): Reads
    decreases |s|
  {
    if s == "" then Reads([], false)
    else if s[0] != '*' then ReadLoop(s[1..])
    else
      match Parse(s)
      case Rejected => ReadLoop(s[1..])
      case Fault => Reads([], true)
      case Parsed(req, used) =>
        if used >= |s| then Reads([Read(req, used)], false)
        else
          var more := ReadLoop(s[used..]);
          Reads([Read(req, used)] + more.items, more.fault)
  }

  function PrintAll(reqs: seq<Request>): string {
    if reqs == [] then "" else Print(reqs[0]) + PrintAll(reqs[1..])
  }

  lemma {:induction false} PrintAllSplits(a: seq<Request>, b: seq<Request>)
    ensures PrintAll(a + b) == PrintAll(a) + PrintAll(b)
  {
    if a == [] {
      assert a + b == b;
      assert PrintAll(a) + PrintAll(b) == PrintAll(b);
    } else {
      assert (a + b)[1..] == a[1..] + b;
      PrintAllSplits(a[1..], b);
      ConcatAssociates(Print(a[0]), PrintAll(a[1..]), PrintAll(b));
    }
  }

  lemma {:induction false} PrintOneMore(reqs: seq<Request>, req: Request)
    ensures PrintAll(reqs + [req]) == PrintAll(reqs) + Print(req)
  {
    PrintAllSplits(reqs, [req]);
    assert [req][1..] == [] && Print(req) + "" == Print(req);
  }

  /** A loop that prints the words of a request: what is printed, and one word more. */
  lemma {:induction false} OneMoreWord(whole: string, done: string, words: seq<string>, i: nat)
    requires i < |words| && whole == done + BulkAll(words[i..])
    ensures whole == done + Bulk(words[i]) + BulkAll(words[i + 1..])
    ensures |done| + |Bulk(words[i])| <= |whole|
  {
    assert words[i..][1..] == words[i + 1..];
    ConcatAssociates(done, Bulk(words[i]), BulkAll(words[i + 1..]));
  }

  /** The requests as they are read back, each with the length of its printed form. */
  function ReadBackAll(reqs: seq<Request>): seq<Read> {
    if reqs == [] then [] else [Read(ReadBack(reqs[0]), |Print(reqs[0])|)] + ReadBackAll(reqs[1..])
  }

  lemma {:induction false} FirstRead(reqs: seq<Request>)
    requires reqs != []
    ensures ReadBackAll(reqs) != [] && ReadBackAll(reqs)[0] == Read(ReadBack(reqs[0]), |Print(reqs[0])|)
    ensures ReadBackAll(reqs)[1..] == ReadBackAll(reqs[1..])
  {
  }

  function BytesOf(items: seq<Read>): nat {
    if items == [] then 0 else items[0].bytes + BytesOf(items[1..])
  }

  lemma {:induction false} LoopStep(first: string, rest: string, req: Request)
    requires first != "" && first[0] == '*' && Parse(first + rest) == Parsed(req, |first|)
    ensures ReadLoop(first + rest).items == [Read(req, |first|)] + ReadLoop(rest).items
    ensures ReadLoop(first + rest).fault == ReadLoop(rest).fault
  {
    assert (first + rest)[|first|..] == rest;
  }

  lemma {:induction false} PrintStarts(req: Request)
    ensures Print(req) != "" && Print(req)[0] == '*'
  {
  }

  /** The stream round trip: reading the concatenated output of the printer yields exactly the
      printed requests, in order, and the byte counts add up to the whole stream. */
  lemma {:induction false} ReadLoopInvertsPrintAll(reqs: seq<Request>)
    requires forall r | r in reqs :: Fits(r)
    ensures ReadLoop(PrintAll(reqs)) == Reads(ReadBackAll(reqs), false)
    ensures BytesOf(ReadBackAll(reqs)) == |PrintAll(reqs)|
  {
    if reqs != [] {
      var first, rest := Print(reqs[0]), PrintAll(reqs[1..]);
      assert reqs[0] in reqs && forall r | r in reqs[1..] :: r in reqs;
      PrintStarts(reqs[0]);
      ParseInvertsPrint(reqs[0], rest);
      LoopStep(first, rest, ReadBack(reqs[0]));
      ReadLoopInvertsPrintAll(reqs[1..]);
    }
  }

  /** Bytes without a '*' in front of a stream are passed over. */
  lemma {:induction false} NoiseIsSkipped(noise: string, s: string)
    requires '*' !in noise
    ensures ReadLoop(noise + s) == ReadLoop(s)
  {
    if noise == "" {
      assert noise + s == s;
    } else {
      assert (noise + s)[1..] == noise[1..] + s;
      NoiseIsSkipped(noise[1..], s);
    }
  }

  /** After a rejected request the loop goes on at the next '*'. */
  lemma {:induction false} RejectedIsSkipped(noise: string, s: string)
    requires '*' !in noise && Parse(['*'] + (noise + s)).Rejected?
    ensures ReadLoop(['*'] + (noise + s)) == ReadLoop(s)
  {
    assert (['*'] + (noise + s))[1..] == noise + s;
    NoiseIsSkipped(noise, s);
  }

  /** A word whose length is wrong rejects the request. */
  lemma {:induction false} WrongLengthIsRejected(n: nat, word: string, rest: string)
    requires n < 1000 && ShortWord(word) && n != |word|
    ensures Parse("*1" + (CRLF + ("$" + Dec(n) + (CRLF + (word + (CRLF + rest)))))).Rejected?
  {
    var body := "$" + Dec(n) + (CRLF + (word + (CRLF + rest)));
    assert "*" + Dec(1) == "*1";
    NumberLine('*', 1, body);
    ReadWordIff(n, word, rest);
    assert Interpret([]).args == [];
  }
}
