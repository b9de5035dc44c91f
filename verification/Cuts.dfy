/** A stream that reaches the read loop in two buffers: which cuts leave what is read as it is.
    One recv takes at most 4095 bytes, so a longer burst is cut wherever they end. */
module Cuts {
  import opened Seqs
  import opened CStrings
  import opened Commands
  import opened Resp

  // ----- a message without its last bytes -----

  ghost predicate AllFit(reqs: seq<Request>) { forall r | r in reqs :: Fits(r) }

  /** What may be left of the last CRLF. */
  predicate IsStump(t: string) { t == "" || t == "\r" }

  lemma {:induction false} LineBeforeStump(w: string, t: string)
    requires Clean(w) && IsStump(t)
    ensures Line(w + t) == w
  {
    if w != "" {
      assert (w + t)[1..] == w[1..] + t && w[0] in w && forall c | c in w[1..] :: c in w;
      LineBeforeStump(w[1..], t);
      assert (w + t)[0] == w[0];
    }
  }

  /** A word as it is printed, up to its text. */
  function Head(w: string): string { "$" + Dec(|w|) + CRLF + w }

  lemma {:induction false} HeadParts(w: string, t: string)
    ensures Head(w) + t == "$" + Dec(|w|) + (CRLF + (w + t)) && |Bulk(w)| == |Head(w)| + 2
    ensures |Head(w)| == |"$" + Dec(|w|)| + 2 + |w|
  {
    var line := "$" + Dec(|w|);
    ConcatAssociates(line + CRLF, w, t);
    ConcatAssociates(line, CRLF, w + t);
  }

  lemma {:induction false} ReadStump(w: string, t: string)
    requires ShortWord(w) && IsStump(t)
    ensures ReadWord(Head(w) + t) == Word(w, |Bulk(w)|)
  {
    HeadParts(w, t);
    NumberLine('$', |w|, w + t);
    LineBeforeStump(w, t);
  }

  /** The words as they are printed, up to the text of the last one. */
  function HeadAll(words: seq<string>): string
    requires words != []
  {
    if |words| == 1 then Head(words[0]) else Bulk(words[0]) + HeadAll(words[1..])
  }

  lemma {:induction false} HeadAllLength(words: seq<string>)
    requires words != []
    ensures BulkAll(words) == HeadAll(words) + CRLF
  {
    if |words| == 1 {
      assert words[1..] == [] && Bulk(words[0]) + "" == Bulk(words[0]);
    } else {
      HeadAllLength(words[1..]);
      ConcatAssociates(Bulk(words[0]), HeadAll(words[1..]), CRLF);
    }
  }

  lemma {:induction false} ReadLastStump(w: string, t: string)
    requires ShortWord(w) && IsStump(t)
    ensures ReadWords(Head(w) + t, 1) == Words([w], |Bulk(w)|)
  {
    ReadStump(w, t);
    HeadParts(w, t);
  }

  lemma {:induction false} ReadHeadFirst(words: seq<string>, t: string, tail: string)
    requires |words| > 1 && tail == HeadAll(words[1..]) + t && ShortWord(words[0])
    requires ReadWords(tail, |words[1..]|) == Words(words[1..], |BulkAll(words[1..])|)
    ensures ReadWords(HeadAll(words) + t, |words|) == Words(words, |BulkAll(words)|)
  {
    ConcatAssociates(Bulk(words[0]), HeadAll(words[1..]), t);
    ReadBulk(words[0], tail);
    ReadAhead(words, HeadAll(words) + t, Bulk(words[0]), tail, |BulkAll(words[1..])|);
  }

  lemma {:induction false} ReadHeadAll(words: seq<string>, t: string)
    requires words != [] && IsStump(t) && forall w | w in words :: ShortWord(w)
    ensures ReadWords(HeadAll(words) + t, |words|) == Words(words, |BulkAll(words)|)
  {
    assert words[0] in words && forall w | w in words[1..] :: w in words;
    if |words| == 1 {
      ReadLastStump(words[0], t);
      assert words == [words[0]] && words[1..] == [] && Bulk(words[0]) + "" == Bulk(words[0]);
    } else {
      ReadHeadAll(words[1..], t);
      ReadHeadFirst(words, t, HeadAll(words[1..]) + t);
    }
  }

  function WordsOf(req: Request): (words: seq<string>)
    ensures |words| == 1 + |req.args|
  {
    [CmdToString(req.cmd)] + req.args
  }

  lemma {:induction false} WordsAreShort(req: Request)
    requires Fits(req)
    ensures forall w | w in WordsOf(req) :: ShortWord(w)
    ensures Interpret(WordsOf(req)) == ReadBack(req)
  {
    var name := CmdToString(req.cmd);
    PrintedName(req);
    InterpretPrinted(req, name);
    assert ShortWord(name) by {
      forall c | c in name ensures c != '\r' && c != '\0' {
        var i :| 0 <= i < |name| && name[i] == c;
      }
    }
  }

  /** A printed request without the last line feed, or without the last CRLF. */
  function Stump(req: Request, t: string): string { "*" + Dec(|WordsOf(req)|) + (CRLF + (HeadAll(WordsOf(req)) + t)) }

  lemma {:induction false} StumpOf(req: Request)
    ensures Print(req) == Stump(req, "") + CRLF && Stump(req, "\r") == Stump(req, "") + "\r"
    ensures |Print(req)| == |"*" + Dec(|WordsOf(req)|)| + 2 + |BulkAll(WordsOf(req))|
  {
    var line, words := "*" + Dec(|WordsOf(req)|), WordsOf(req);
    HeadAllLength(words);
    ConcatAssociates(line, CRLF, BulkAll(words));
    assert HeadAll(words) + "" == HeadAll(words);
    ConcatAssociates(line, CRLF + HeadAll(words), CRLF);
    ConcatAssociates(CRLF, HeadAll(words), CRLF);
    ConcatAssociates(line, CRLF + HeadAll(words), "\r");
    ConcatAssociates(CRLF, HeadAll(words), "\r");
  }

  /** Such a request is parsed as if it were whole. */
  lemma {:induction false} ParseStump(req: Request, t: string)
    requires Fits(req) && IsStump(t)
    ensures Parse(Stump(req, t)) == Parsed(ReadBack(req), |Print(req)|)
  {
    var line, words := "*" + Dec(|WordsOf(req)|), WordsOf(req);
    var body := HeadAll(words) + t;
    WordsAreShort(req);
    NumberLine('*', |words|, body);
    ReadHeadAll(words, t);
    StumpOf(req);
    ParseStep(Stump(req, t), line, body, words, |BulkAll(words)|, ReadBack(req));
  }

  // ----- no more is read than there is -----

  lemma {:induction false} WordIsInside(s: string)
    ensures ReadWord(s).Word? ==> ReadWord(s).used <= |s| + 2
  {
  }

  lemma {:induction false} WordsAreInside(s: string, n: int)
    ensures ReadWords(s, n).Words? ==> ReadWords(s, n).used <= |s| + 2
    decreases n
  {
    if n > 0 && ReadWord(s).Word? {
      WordIsInside(s);
      if ReadWord(s).used <= |s| {
        WordsAreInside(s[ReadWord(s).used..], n - 1);
      }
    }
  }

  lemma {:induction false} ParseIsInside(s: string)
    ensures Parse(s).Parsed? ==> Parse(s).used <= |s| + 2
  {
    var header := Line(s);
    var start := |header| + 2;
    if |header| <= LINE_MAX && header != "" && header[0] == '*' {
      WordsAreInside(if start <= |s| then s[start..] else "", Atoi(header[1..]));
    }
  }

  /** The items of one buffer take at most two bytes more than it has. */
  lemma {:induction false} ReadsAreInside(s: string)
    ensures BytesOf(ReadLoop(s).items) <= |s| + 2
    ensures ReadLoop(s).items != [] ==> ReadLoop(s).items[0].bytes <= |s| + 2
    decreases |s|
  {
    if s != "" {
      ParseIsInside(s);
      if s[0] == '*' && Parse(s).Parsed? {
        var used := Parse(s).used;
        if used < |s| {
          ReadsAreInside(s[used..]);
        } else {
          assert [Read(Parse(s).request, used)][1..] == [];
        }
      } else {
        ReadsAreInside(s[1..]);
      }
    }
  }

  // ----- which cuts are clean -----

  /** Two buffers that are read without a fault, and together give the items. */
  predicate Together(a: Reads, b: Reads, items: seq<Read>) { !a.fault && !b.fault && a.items + b.items == items }

  /** Cut at p, the stream of printed requests is read as if it were whole. */
  predicate ReadsWhole(reqs: seq<Request>, p: nat)
    requires p <= |PrintAll(reqs)|
  {
    Together(ReadLoop(PrintAll(reqs)[..p]), ReadLoop(PrintAll(reqs)[p..]), ReadBackAll(reqs))
  }

  /** The cut is at the start, or before, inside or after the last CRLF of a request. */
  predicate CleanCut(reqs: seq<Request>, p: nat) {
    || p == 0
    || (reqs != [] && |Print(reqs[0])| - 2 <= p <= |Print(reqs[0])|)
    || (reqs != [] && p > |Print(reqs[0])| && CleanCut(reqs[1..], p - |Print(reqs[0])|))
  }

  /** A printed request starts with a star, a number and a CRLF. */
  lemma {:induction false} PrintParts(req: Request) returns (number: string, more: string)
    ensures Print(req) == "*" + (number + more) && |number| >= 3 && '*' !in number
  {
    var n := |WordsOf(req)|;
    number, more := Dec(n) + CRLF, BulkAll(WordsOf(req));
    ConcatAssociates("*", number, more);
    ConcatAssociates("*", Dec(n), CRLF);
    assert forall c | c in number :: c in Dec(n) || c in CRLF;
  }

  /** The second buffer of a cut near the start of a message gives less than the whole. */
  lemma {:induction false} CutNearStart(req: Request, rest: string, p: nat)
    requires 0 < p <= 2 && p <= |Print(req)|
    ensures BytesOf(ReadLoop((Print(req) + rest)[p..]).items) < |Print(req) + rest|
  {
    var number, more := PrintParts(req);
    var noise := number[p - 1..];
    assert (Print(req) + rest)[p..] == noise + (more + rest);
    assert forall c | c in noise :: c in number;
    NoiseIsSkipped(noise, more + rest);
    ReadsAreInside(more + rest);
  }

  /** A cut inside a message, more than two bytes before its end, changes what is read. */
  lemma {:induction false} CutInside(reqs: seq<Request>, p: nat)
    requires reqs != [] && AllFit(reqs) && 0 < p < |Print(reqs[0])| - 2
    ensures p <= |PrintAll(reqs)| && !ReadsWhole(reqs, p)
  {
    var s := PrintAll(reqs);
    var a, b := ReadLoop(s[..p]), ReadLoop(s[p..]);
    ReadLoopInvertsPrintAll(reqs);
    FirstRead(reqs);
    ReadsAreInside(s[..p]);
    if a.items == [] {
      assert a.items + b.items == b.items;
      if p <= 2 {
        CutNearStart(reqs[0], PrintAll(reqs[1..]), p);
      } else {
        ReadsAreInside(s[p..]);
      }
    } else {
      assert (a.items + b.items)[0] == a.items[0];
    }
  }

  lemma {:induction false} ReadOneBuffer(s: string, req: Request, used: nat)
    requires s != "" && s[0] == '*' && Parse(s) == Parsed(req, used) && used >= |s|
    ensures ReadLoop(s) == Reads([Read(req, used)], false)
  {
  }

  lemma {:induction false} ReadStumpAlone(req: Request, t: string)
    requires Fits(req) && IsStump(t)
    ensures ReadLoop(Stump(req, t)) == Reads([Read(ReadBack(req), |Print(req)|)], false)
  {
    ParseStump(req, t);
    StumpOf(req);
    ReadOneBuffer(Stump(req, t), ReadBack(req), |Print(req)|);
  }

  lemma {:induction false} CutParts(reqs: seq<Request>, t: string, p: nat, noise: string)
    requires reqs != [] && IsStump(t) && p == |Stump(reqs[0], t)| && noise == if t == "" then CRLF else "\n"
    ensures p <= |PrintAll(reqs)| && PrintAll(reqs)[..p] == Stump(reqs[0], t)
    ensures PrintAll(reqs)[p..] == noise + PrintAll(reqs[1..])
  {
    StumpOf(reqs[0]);
    assert Print(reqs[0]) == Stump(reqs[0], t) + noise;
    ConcatAssociates(Stump(reqs[0], t), noise, PrintAll(reqs[1..]));
  }

  /** A cut before or inside the last CRLF of the first message. */
  lemma {:induction false} CutInCrlf(reqs: seq<Request>, t: string, p: nat)
    requires reqs != [] && AllFit(reqs) && IsStump(t) && p == |Stump(reqs[0], t)|
    ensures p <= |PrintAll(reqs)| && ReadsWhole(reqs, p)
  {
    var noise := if t == "" then CRLF else "\n";
    assert reqs[0] in reqs && forall r | r in reqs[1..] :: r in reqs;
    CutParts(reqs, t, p, noise);
    ReadStumpAlone(reqs[0], t);
    NoiseIsSkipped(noise, PrintAll(reqs[1..]));
    ReadLoopInvertsPrintAll(reqs[1..]);
  }

  lemma {:induction false} TogetherAfter(whole: Reads, first: Read, a: Reads, b: Reads, items: seq<Read>)
    requires whole == Reads([first] + a.items, a.fault)
    ensures Together(whole, b, [first] + items) <==> Together(a, b, items)
  {
    ConcatAssociates([first], a.items, b.items);
    assert ([first] + (a.items + b.items))[1..] == a.items + b.items && ([first] + items)[1..] == items;
  }

  lemma {:induction false} SplitLater(reqs: seq<Request>, p: nat, q: nat)
    requires reqs != [] && p <= |PrintAll(reqs)| && p == |Print(reqs[0])| + q
    ensures q <= |PrintAll(reqs[1..])|
    ensures PrintAll(reqs)[..p] == Print(reqs[0]) + PrintAll(reqs[1..])[..q]
    ensures PrintAll(reqs)[p..] == PrintAll(reqs[1..])[q..]
  {
  }

  lemma {:induction false} CutLater(reqs: seq<Request>, p: nat, q: nat)
    requires reqs != [] && Fits(reqs[0]) && p <= |PrintAll(reqs)| && p == |Print(reqs[0])| + q
    ensures q <= |PrintAll(reqs[1..])| && (ReadsWhole(reqs, p) <==> ReadsWhole(reqs[1..], q))
  {
    var m, a, b := Print(reqs[0]), PrintAll(reqs)[..p], PrintAll(reqs)[p..];
    SplitLater(reqs, p, q);
    var a' := PrintAll(reqs[1..])[..q];
    PrintStarts(reqs[0]);
    ParseInvertsPrint(reqs[0], a');
    LoopStep(m, a', ReadBack(reqs[0]));
    TogetherAfter(ReadLoop(a), Read(ReadBack(reqs[0]), |m|), ReadLoop(a'), ReadLoop(b), ReadBackAll(reqs[1..]));
  }

  lemma {:induction false} CutAtStart(reqs: seq<Request>)
    requires AllFit(reqs)
    ensures ReadsWhole(reqs, 0)
  {
    assert PrintAll(reqs)[..0] == "" && PrintAll(reqs)[0..] == PrintAll(reqs);
    ReadLoopInvertsPrintAll(reqs);
    assert [] + ReadBackAll(reqs) == ReadBackAll(reqs);
  }

  lemma {:induction false} StumpLength(req: Request)
    ensures |Stump(req, "")| == |Print(req)| - 2 && |Stump(req, "\r")| == |Print(req)| - 1
  {
    StumpOf(req);
  }

  lemma {:induction false} CutInFirst(reqs: seq<Request>, p: nat)
    requires reqs != [] && AllFit(reqs) && 0 < p < |Print(reqs[0])|
    ensures p <= |PrintAll(reqs)| && (ReadsWhole(reqs, p) <==> p >= |Print(reqs[0])| - 2)
  {
    StumpLength(reqs[0]);
    if p < |Print(reqs[0])| - 2 {
      CutInside(reqs, p);
    } else {
      CutInCrlf(reqs, if p == |Print(reqs[0])| - 1 then "\r" else "", p);
    }
  }

  lemma {:induction false} CleanCutFirst(reqs: seq<Request>, p: nat)
    requires reqs != [] && 0 < p < |Print(reqs[0])|
    ensures CleanCut(reqs, p) <==> p >= |Print(reqs[0])| - 2
  {
  }

  lemma {:induction false} CleanCutLater(reqs: seq<Request>, p: nat, q: nat)
    requires reqs != [] && p == |Print(reqs[0])| + q
    ensures CleanCut(reqs, p) <==> CleanCut(reqs[1..], q)
  {
  }

  lemma {:induction false} AllFitFirst(reqs: seq<Request>)
    requires AllFit(reqs) && reqs != []
    ensures Fits(reqs[0]) && AllFit(reqs[1..])
  {
    assert reqs[0] in reqs && forall r | r in reqs[1..] :: r in reqs;
  }

  lemma {:induction false} CutIffOfFirst(reqs: seq<Request>, p: nat)
    requires AllFit(reqs) && p <= |PrintAll(reqs)| && (p > 0 ==> reqs != [] && p < |Print(reqs[0])|)
    ensures ReadsWhole(reqs, p) <==> CleanCut(reqs, p)
  {
    if p == 0 {
      CutAtStart(reqs);
    } else {
      CleanCutFirst(reqs, p);
      CutInFirst(reqs, p);
    }
  }

  lemma {:induction false} CutIffOfLater(reqs: seq<Request>, p: nat, q: nat)
    requires reqs != [] && AllFit(reqs) && p <= |PrintAll(reqs)| && p == |Print(reqs[0])| + q
    ensures q <= |PrintAll(reqs[1..])| && AllFit(reqs[1..])
    ensures (ReadsWhole(reqs[1..], q) <==> CleanCut(reqs[1..], q)) ==> (ReadsWhole(reqs, p) <==> CleanCut(reqs, p))
  {
    AllFitFirst(reqs);
    CutLater(reqs, p, q);
    CleanCutLater(reqs, p, q);
  }

  /** A stream of printed requests that is cut into two buffers is read as one exactly when the cut
      is between requests, or before or inside the CRLF that ends one: a request that is cut
      anywhere else is lost, or read as something else. */
  lemma {:induction false} CutIff(reqs: seq<Request>, p: nat)
    requires AllFit(reqs) && p <= |PrintAll(reqs)|
    ensures ReadsWhole(reqs, p) <==> CleanCut(reqs, p)
    decreases |reqs|
  {
    if p == 0 || p < |Print(reqs[0])| {
      CutIffOfFirst(reqs, p);
    } else {
      var q := p - |Print(reqs[0])|;
      CutIffOfLater(reqs, p, q);
      CutIff(reqs[1..], q);
    }
  }
}
