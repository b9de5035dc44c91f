/** The parser and the per-client read loop as the program runs them: an input pointer that
    moves forward, and a request filled word by word. */
module RespReader {
  import opened Seqs
  import opened CStrings
  import opened Commands
  import opened Resp

  /** getLine */
  method GetLine(input: string) returns (line: string)
    ensures line == Line(input)
  {
    line := "";
    var i := 0;
    while i < |input| && input[i] != '\r' && input[i] != '\0'
      invariant 0 <= i <= |input| && line == input[..i]
      invariant LineLen(input) == i + LineLen(input[i..])
    {
      line := line + [input[i]];
      i := i + 1;
    }
  }

  /** The words read so far, then the result for the rest. */
  ghost function After(done: seq<string>, used: nat, r: WordsResult): WordsResult {
    match r
    case Words(texts, more) => Words(done + texts, used + more)
    case NoWords(texts) => NoWords(done + texts)
    case OutsideBuffer => OutsideBuffer
  }

  /** What parse returns from a point before the last n words, with the words `done` read, which
      took `used` bytes. */
  ghost function Outcome(done: seq<string>, used: nat, rest: string, n: int): ParseResult {
    Conclude(After(done, used, ReadWords(rest, n)), 0)
  }

  lemma {:induction false} OutcomeAtStart(input: string, n: int)
    ensures Outcome([], 0, input, n) == Conclude(ReadWords(input, n), 0)
  {
    var r := ReadWords(input, n);
    match r
    case Words(texts, more) => assert [] + texts == texts;
    case NoWords(texts) => assert [] + texts == texts;
    case OutsideBuffer =>
  }

  lemma {:induction false} AfterOneMore(done: seq<string>, used: nat, text: string, taken: nat, r: WordsResult)
    ensures After(done + [text], used + taken, r) ==
      match r
      case Words(texts, more) => Words(done + ([text] + texts), used + (taken + more))
      case NoWords(texts) => NoWords(done + ([text] + texts))
      case OutsideBuffer => OutsideBuffer
  {
    match r
    case Words(texts, _) => ConcatAssociates(done, [text], texts);
    case NoWords(texts) => ConcatAssociates(done, [text], texts);
    case OutsideBuffer =>
  }

  lemma {:induction false} OneMore(done: seq<string>, used: nat, rest: string, n: nat, text: string, taken: nat,
      more: string)
    requires n > 0 && ReadWord(rest) == Word(text, taken) && taken <= |rest| && more == rest[taken..]
    ensures Outcome(done, used, rest, n) == Outcome(done + [text], used + taken, more, n - 1)
  {
    AfterOneMore(done, used, text, taken, ReadWords(more, n - 1));
  }

  lemma {:induction false} InterpretMore(done: seq<string>, text: string)
    ensures done != [] && Upper(done[0]) != "CONFIG" ==>
      Interpret(done + [text]) == Request(Interpret(done).cmd, Interpret(done).args + [text])
    ensures |done| > 1 && Upper(done[0]) == "CONFIG" ==>
      Interpret(done + [text]) == Request(Interpret(done).cmd, Interpret(done).args + [text])
  {
    if done != [] {
      assert (done + [text])[0] == done[0] && (done + [text])[1..] == done[1..] + [text];
      if |done| > 1 {
        assert (done + [text])[2..] == done[2..] + [text];
      }
    }
  }

  /** The length and value lines of one word. */
  method ReadOneWord(input: string) returns (w: WordResult)
    ensures w == ReadWord(input)
  {
    var lenLine := GetLine(input);
    if |lenLine| > LINE_MAX {
      return Outside;
    }
    if !HasPrefix(lenLine) {
      return NoWord;
    }
    if |lenLine| + 2 > |input| {
      return Outside;
    }
    var expectedLen := Atoi(lenLine[1..]);
    var valueLine := GetLine(input[|lenLine| + 2..]);
    if |valueLine| > LINE_MAX {
      return Outside;
    }
    if |valueLine| != expectedLen {
      return NoWord;
    }
    return Word(valueLine, |lenLine| + 2 + expectedLen + 2);
  }

  /** The request being filled in: what the words read so far stand for. */
  ghost predicate FilledFrom(done: seq<string>, command: Cmd, args: seq<string>, isConfig: bool) {
    && Request(command, args) == Interpret(done)
    && isConfig == (done != [] && Upper(done[0]) == "CONFIG")
  }

  /** The body of the loop of parse, for the word at index i. */
  method FillIn(ghost done: seq<string>, i: nat, command: Cmd, args: seq<string>, isConfig: bool, word: string)
    returns (command': Cmd, args': seq<string>, isConfig': bool)
    requires i == |done| && FilledFrom(done, command, args, isConfig)
    ensures FilledFrom(done + [word], command', args', isConfig')
  {
    command', args', isConfig' := command, args, isConfig;
    InterpretMore(done, word);
    if i == 0 {
      if Upper(word) == "CONFIG" {
        isConfig' := true;
      } else {
        command' := FindRedisCmd(word);
      }
    } else if i == 1 && isConfig {
      command' := if Upper(word) == "GET" then CONFIG_GET else UNKNOWN;
    } else {
      args' := args + [word];
    }
  }

  function Concluded(used: nat, command: Cmd, args: seq<string>): ParseResult {
    if |args| > ARGS_MAX then Fault else Parsed(Request(command, args), used)
  }

  /** A word that ends the buffer, or goes beyond it. */
  lemma {:induction false} LastWord(done: seq<string>, used: nat, rest: string, n: nat, text: string, taken: nat,
      command: Cmd, args: seq<string>, isConfig: bool)
    requires n > 0 && ReadWord(rest) == Word(text, taken) && taken > |rest|
    requires FilledFrom(done + [text], command, args, isConfig)
    ensures Outcome(done, used, rest, n) == if n > 1 then Fault else Concluded(used + taken, command, args)
  {
  }

  lemma {:induction false} NoMore(done: seq<string>, used: nat, rest: string, n: int, command: Cmd, args: seq<string>,
      isConfig: bool)
    requires FilledFrom(done, command, args, isConfig)
    ensures n <= 0 ==> Outcome(done, used, rest, n) == Concluded(used, command, args)
    ensures n > 0 && ReadWord(rest).NoWord? ==>
      Outcome(done, used, rest, n) == if |args| > ARGS_MAX then Fault else Rejected
    ensures n > 0 && ReadWord(rest).Outside? ==> Outcome(done, used, rest, n) == Fault
  {
    assert done + [] == done;
  }

  lemma {:induction false} NothingFilled()
    ensures FilledFrom([], UNKNOWN, [], false)
  {
  }

  /** The loop of parse over the words of a request; `rest` is the input pointer. */
  method ReadRequestWords(input: string, loopLen: int) returns (r: ParseResult)
    ensures r == Conclude(ReadWords(input, loopLen), 0)
  {
    hide Outcome, ReadWord, ReadWords, Conclude, Interpret;
    ghost var result, done := Outcome([], 0, input, loopLen), [];
    OutcomeAtStart(input, loopLen);
    NothingFilled();
    var command, args, isConfig := UNKNOWN, [], false;
    var rest := input;
    var used: nat := 0;
    var i := 0;
    while i < loopLen
      invariant 0 <= i == |done| && FilledFrom(done, command, args, isConfig)
      invariant result == Outcome(done, used, rest, loopLen - i)
    {
      ghost var before := rest;
      var w := ReadOneWord(rest);
      if !w.Word? {
        NoMore(done, used, rest, loopLen - i, command, args, isConfig);
        return if w.Outside? || |args| > ARGS_MAX then Fault else Rejected;
      }
      command, args, isConfig := FillIn(done, i, command, args, isConfig, w.text);
      i := i + 1;
      if w.used > |rest| {
        LastWord(done, used, rest, loopLen - i + 1, w.text, w.used, command, args, isConfig);
        return if i < loopLen then Fault else Concluded(used + w.used, command, args);
      }
      rest := rest[w.used..];
      OneMore(done, used, before, loopLen - i + 1, w.text, w.used, rest);
      done, used := done + [w.text], used + w.used;
    }
    NoMore(done, used, rest, loopLen - i, command, args, isConfig);
    return Concluded(used, command, args);
  }

  lemma {:induction false} ConcludeFrom(words: WordsResult, start: nat)
    ensures var r := Conclude(words, 0);
            Conclude(words, start) == if r.Parsed? then Parsed(r.request, start + r.used) else r
  {
  }

  /** The part of parse after the header line. */
  method ParseWords(input: string, start: nat, loopLen: int) returns (r: ParseResult)
    ensures r == ParseBody(input, start, loopLen)
  {
    if loopLen > 0 && start > |input| {
      return Fault;
    }
    var body := if start <= |input| then input[start..] else "";
    r := ReadRequestWords(body, loopLen);
    ConcludeFrom(ReadWords(body, loopLen), start);
    if r.Parsed? {
      r := Parsed(r.request, start + r.used);
    }
  }

  /** parse */
  method ParseRequest(input: string) returns (r: ParseResult)
    ensures r == Parse(input)
  {
    var firstLine := GetLine(input);
    if |firstLine| > LINE_MAX {
      return Fault;
    }
    if firstLine == "" || firstLine[0] != '*' {
      return Rejected;
    }
    r := ParseWords(input, |firstLine| + 2, Atoi(firstLine[1..]));
  }

  /** The items read so far, then those of the rest of the buffer. */
  ghost predicate Remaining(whole: Reads, items: seq<Read>, rest: string) {
    whole.items == items + ReadLoop(rest).items && whole.fault == ReadLoop(rest).fault
  }

  lemma {:induction false} SkipOne(whole: Reads, items: seq<Read>, rest: string)
    requires rest != "" && (rest[0] != '*' || Parse(rest).Rejected?) && Remaining(whole, items, rest)
    ensures Remaining(whole, items, rest[1..])
  {
  }

  lemma {:induction false} TakeOne(whole: Reads, items: seq<Read>, rest: string, request: Request, used: nat)
    requires rest != "" && rest[0] == '*' && Parse(rest) == Parsed(request, used) && Remaining(whole, items, rest)
    ensures used < |rest| ==> Remaining(whole, items + [Read(request, used)], rest[used..])
    ensures used >= |rest| ==> whole == Reads(items + [Read(request, used)], false)
  {
  }

  lemma {:induction false} EndOfBuffer(whole: Reads, items: seq<Read>, rest: string)
    requires Remaining(whole, items, rest)
    ensures rest == "" ==> whole == Reads(items, false)
    ensures rest != "" && rest[0] == '*' && Parse(rest).Fault? ==> whole == Reads(items, true)
  {
  }

  /** The per-client loop: every request in the buffer, with the bytes it took. */
  method ReadRequests(buffer: string) returns (items: seq<Read>, fault: bool)
    ensures Reads(items, fault) == ReadLoop(buffer)
  {
    ghost var whole := ReadLoop(buffer);
    items := [];
    var rest := buffer;
    while rest != ""
      invariant Remaining(whole, items, rest)
      decreases |rest|
    {
      if rest[0] != '*' {
        SkipOne(whole, items, rest);
        rest := rest[1..];
        continue;
      }
      var result := ParseRequest(rest);
      if result.Rejected? {
        SkipOne(whole, items, rest);
        rest := rest[1..];
      } else if result.Fault? {
        EndOfBuffer(whole, items, rest);
        return items, true;
      } else {
        TakeOne(whole, items, rest, result.request, result.used);
        items := items + [Read(result.request, result.used)];
        if result.used >= |rest| {
          return items, false;
        }
        rest := rest[result.used..];
      }
    }
    EndOfBuffer(whole, items, rest);
    return items, false;
  }
}
