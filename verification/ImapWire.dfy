/** internal/imapdrv/client.go: tags, literals and quoted strings on the wire (RFC 3501,
    sections 2.2, 4.3 and 7). */
module ImapWire {
  import opened Octets

  // -------------------------------------------------------------------- tags

  /** `%03d`. */
  function Padded(n: nat): bytes {
    var d := Dec(n);
    if |d| == 1 then "00" + d else if |d| == 2 then "0" + d else d
  }

  function Tag(n: nat): bytes { "a" + Padded(n) }

  lemma {:induction false} ValueOfZeros(s: bytes)
    requires AllDigits(s)
    ensures AllDigits("0" + s) && Value("0" + s) == Value(s)
  {
    var z: bytes := "0" + s;
    if s == [] {
      assert z == "0" && z[..0] == [];
    } else {
      assert z[..|z| - 1] == "0" + s[..|s| - 1];
      ValueOfZeros(s[..|s| - 1]);
    }
  }

  lemma ValueOfPadded(n: nat)
    ensures AllDigits(Padded(n)) && Value(Padded(n)) == n
  {
    ValueOfDec(n);
    ValueOfZeros(Dec(n));
    ValueOfZeros("0" + Dec(n));
    assert "00" + Dec(n) == "0" + ("0" + Dec(n));
  }

  lemma TagHasNoSpace(n: nat)
    ensures ' ' !in Tag(n) && Tag(n)[1..] == Padded(n)
  {
  }

  /** A word ends no later than the line's first space. */
  lemma EndsBySpace(a: bytes, line: bytes, k: nat)
    requires ' ' !in a && a + " " <= line && k < |line| && line[k] == ' '
    ensures |a| <= k && line[|a|] == ' '
  {
    assert line[|a|] == (a + " ")[|a|];
    assert forall i :: 0 <= i < |a| ==> line[i] == (a + " ")[i] == a[i] != ' ';
  }

  lemma FirstWord(a: bytes, b: bytes, line: bytes)
    requires ' ' !in a && ' ' !in b && a + " " <= line && b + " " <= line
    ensures a == b
  {
    assert line[|a|] == (a + " ")[|a|];
    EndsBySpace(b, line, |a|);
    EndsBySpace(a, line, |b|);
    assert a == (a + " ")[..|a|] && b == (b + " ")[..|b|];
  }

  /** A response line completes at most one of a connection's commands: no two counters
      give tags of which either, with the space after it, could start the same line. */
  lemma TagsTellCommandsApart(m: nat, n: nat, line: bytes)
    requires Tag(m) + " " <= line && Tag(n) + " " <= line
    ensures m == n
  {
    hide Tag, Padded, Value;
    ValueOfPadded(m);
    ValueOfPadded(n);
    TagHasNoSpace(m);
    TagHasNoSpace(n);
    FirstWord(Tag(m), Tag(n), line);
  }

  // ---------------------------------------------------------------- literals

  /** The position of the last "{", or the length when there is none. */
  function LastBrace(s: bytes): (i: nat)
    ensures i <= |s| && (i < |s| ==> s[i] == '{')
  {
    if s == [] then 0
    else if s[|s| - 1] == '{' then |s| - 1
    else var i := LastBrace(s[..|s| - 1]); if i == |s| - 1 then |s| else i
  }

  lemma {:induction false} LastBraceAt(a: bytes, b: bytes)
    requires '{' !in b
    ensures LastBrace(a + "{" + b) == |a|
  {
    var s := a + "{" + b;
    if b == [] {
      assert s[|s| - 1] == '{';
    } else {
      assert s[..|s| - 1] == a + "{" + b[..|b| - 1];
      assert s[|s| - 1] == b[|b| - 1];
      LastBraceAt(a, b[..|b| - 1]);
    }
  }

  /** `literalSize`: the {n} a line ends with, in either of its forms. */
  function LiteralSize(line: bytes): Option<nat> {
    if !HasSuffix(line, "}") then None
    else
      var open := LastBrace(line);
      if open == |line| then None
      else
        var spec := line[open + 1..|line| - 1];
        var n := Atoi(WithoutPlus(spec));
        if n.None? || n.value < 0 then None else Some(n.value)
  }

  function Announced(n: nat): bytes { "{" + (Dec(n) + "}") }
  function AnnouncedPlus(n: nat): bytes { "{" + (Dec(n) + "+}") }

  lemma DigitsOf(n: nat)
    requires n <= MaxInt
    ensures AllDigits(Dec(n)) && Dec(n) != [] && Atoi(Dec(n)) == Some(n)
  {
    AtoiOfDec(n);
  }

  lemma PlusAtEnd(d: bytes)
    ensures "{" + (d + "+}") == "{" + ((d + "+") + "}")
  {
  }

  /** Reading a size inverts printing it, whatever stands before it on the line. */
  lemma SizeIsRead(head: bytes, n: nat)
    requires n <= MaxInt
    ensures LiteralSize(head + Announced(n)) == Some(n)
    ensures LiteralSize(head + AnnouncedPlus(n)) == Some(n)
  {
    DigitsOf(n);
    SizeOf(head, Dec(n), Dec(n));
    SizeOf(head, Dec(n) + "+", Dec(n));
    PlusAtEnd(Dec(n));
  }

  function WithoutPlus(spec: bytes): bytes {
    if HasSuffix(spec, "+") then spec[..|spec| - 1] else spec
  }

  lemma PlusIsOptional(digits: bytes)
    requires AllDigits(digits) && digits != []
    ensures WithoutPlus(digits) == digits && WithoutPlus(digits + "+") == digits
  {
    assert digits[|digits| - 1..] == [digits[|digits| - 1]];
    assert (digits + "+")[|digits|..] == "+" && (digits + "+")[..|digits|] == digits;
  }

  lemma SpecIsFound(head: bytes, spec: bytes)
    requires '{' !in spec
    ensures var line := head + ("{" + (spec + "}"));
            HasSuffix(line, "}") && LastBrace(line) == |head| && line[|head| + 1..|line| - 1] == spec
  {
    var line := head + ("{" + (spec + "}"));
    LastBraceAt(head, spec + "}");
    assert line == head + "{" + (spec + "}");
    assert line[|line| - 1..] == "}";
  }

  lemma SizeOf(head: bytes, spec: bytes, digits: bytes)
    requires AllDigits(digits) && digits != []
    requires spec == digits || spec == digits + "+"
    requires Atoi(digits).Some? && Atoi(digits).value >= 0
    ensures LiteralSize(head + ("{" + (spec + "}"))) == Some(Atoi(digits).value)
  {
    assert forall i :: 0 <= i < |spec| ==> spec[i] == '+' || IsDigit(spec[i]);
    SpecIsFound(head, spec);
    PlusIsOptional(digits);
  }

  // ------------------------------------------------------------------ replies

  datatype Ending = Completed | Refused | Interrupted | Lost

  /** How a command's responses were read: the untagged lines, how it ended, what is
      left unread. */
  datatype Outcome = Outcome(untagged: seq<bytes>, ending: Ending, rest: bytes)

  /** What reading goes on with after an untagged line: past the literal it announces. */
  function AfterLine(line: bytes, rest: bytes): Option<bytes> {
    var n := LiteralSize(line);
    if n.None? then Some(rest)
    else if n.value > |rest| then None
    else Some(rest[n.value..])
  }

  function Prefixed(ls: seq<bytes>, o: Outcome): Outcome {
    o.(untagged := ls + o.untagged)
  }

  lemma PrefixedTwice(a: seq<bytes>, b: seq<bytes>, o: Outcome)
    ensures Prefixed(a, Prefixed(b, o)) == Prefixed(a + b, o)
    ensures Prefixed([], o) == o
    ensures o.untagged == [] ==> Prefixed(a, o).untagged == a
  {
  }

  /** `readUntilTagged`. */
  function UntilTagged(s: bytes, tag: bytes): Outcome
    decreases |s|
  {
    var r := ReadLine(s);
    var line := TrimEol(r.line);
    if r.eof then Outcome([], Lost, r.rest)
    else if tag + " " <= line then
      Outcome([], if "OK" <= line[|tag| + 1..] then Completed else Refused, r.rest)
    else if "* " <= line then
      var next := AfterLine(line, r.rest);
      if next.None? then Outcome([line[2..]], Lost, [])
      else
        Prefixed([line[2..]], UntilTagged(next.value, tag))
    else if "+ " <= line then Outcome([], Interrupted, r.rest)
    else UntilTagged(r.rest, tag)
  }

  /** `bufio.Reader.Discard`: skips `n` octets, or all there are and fails. */
  method Discard(br: Reader, n: nat) returns (ok: bool)
    modifies br
    ensures ok <==> n <= |old(br.unread)|
    ensures br.unread == if n <= |old(br.unread)| then old(br.unread)[n..] else []
  {
    ok := n <= |br.unread|;
    br.unread := if ok then br.unread[n..] else [];
  }

  method ReadUntilTagged(br: Reader, tag: bytes) returns (untagged: seq<bytes>, ending: Ending)
    modifies br
    ensures Outcome(untagged, ending, br.unread) == UntilTagged(old(br.unread), tag)
  {
    untagged := [];
    ghost var whole := UntilTagged(br.unread, tag);
    PrefixedTwice([], [], whole);
    while true
      invariant whole == Prefixed(untagged, UntilTagged(br.unread, tag))
      decreases |br.unread|
    {
      ghost var o := UntilTagged(br.unread, tag);
      PrefixedTwice(untagged, [], o);
      var raw, eof := br.ReadString();
      if eof {
        return untagged, Lost;
      }
      var line := TrimEol(raw);
      if tag + " " <= line {
        return untagged, if "OK" <= line[|tag| + 1..] then Completed else Refused;
      } else if "* " <= line {
        var ok := SkipLiteral(br, line);
        PrefixedTwice(untagged, [line[2..]], UntilTagged(br.unread, tag));
        untagged := untagged + [line[2..]];
        if !ok {
          return untagged, Lost;
        }
      } else if "+ " <= line {
        return untagged, Interrupted;
      }
    }
  }

  method SkipLiteral(br: Reader, line: bytes) returns (ok: bool)
    modifies br
    ensures ok <==> AfterLine(line, old(br.unread)).Some?
    ensures br.unread == if ok then AfterLine(line, old(br.unread)).value else []
    ensures |br.unread| <= |old(br.unread)|
  {
    ok := true;
    var n := LiteralSize(line);
    if n.Some? {
      ok := Discard(br, n.value);
    }
  }

  /** An untagged response, with at most one literal and what follows it on its line. */
  datatype Response = Plain(text: bytes) | Literal(head: bytes, payload: bytes, tail: bytes)

  predicate OneLine(t: bytes) {
    LF !in t && (t != [] ==> t[|t| - 1] != CR)
  }

  predicate Innocuous(tail: bytes, tag: bytes) {
    !(tag + " " <= tail) && !("* " <= tail) && !("+ " <= tail)
  }

  function CompletionLine(tag: bytes, completion: bytes): bytes { ((tag + " ") + completion) + CRLF }

  function EndOf(completion: bytes): Ending {
    if "OK" <= completion then Completed else Refused
  }

  /** The responses the reader is meant for: lines are lines, a plain one announces no
      literal, and what follows a literal does not look like a response of its own. */
  predicate WellFormed(r: Response, tag: bytes) {
    match r
    case Plain(text) => OneLine(text) && LiteralSize("* " + text).None?
    case Literal(head, payload, tail) =>
      && OneLine(head) && |payload| <= MaxInt
      && OneLine(tail) && Innocuous(tail, tag)
  }

  function LineOf(r: Response): bytes {
    match r
    case Plain(text) => text
    case Literal(head, payload, _) => head + Announced(|payload|)
  }

  function ResponseBytes(r: Response): bytes {
    match r
    case Plain(text) => ("* " + text) + CRLF
    case Literal(head, payload, tail) => (("* " + LineOf(r)) + CRLF) + (payload + (tail + CRLF))
  }

  function ResponsesBytes(rs: seq<Response>): bytes {
    if rs == [] then [] else ResponseBytes(rs[0]) + ResponsesBytes(rs[1..])
  }

  function LinesOf(rs: seq<Response>): seq<bytes> {
    if rs == [] then [] else [LineOf(rs[0])] + LinesOf(rs[1..])
  }

  lemma TextLineReads(t: bytes, rest: bytes)
    requires OneLine(t)
    ensures ReadLine((t + CRLF) + rest) == Read(t + CRLF, rest, false) && TrimEol(t + CRLF) == t
  {
    var l := t + CRLF;
    assert l[..|l| - 1] == t + [CR];
    IsLineIff(l);
    ReadWholeLine(l, rest);
    assert t != [] ==> t[|t| - 1] != LF;
    TrimEolKeeps(t, CRLF);
  }

  lemma StarLine(text: bytes)
    requires OneLine(text)
    ensures OneLine("* " + text) && "* " <= "* " + text && ("* " + text)[2..] == text
  {
  }

  lemma AnnouncedIsOneLine(head: bytes, n: nat)
    requires OneLine(head)
    ensures OneLine(head + Announced(n))
  {
  }

  predicate GoodTag(tag: bytes) { tag != [] && tag[0] == 'a' && OneLine(tag) }

  lemma PlainReads(text: bytes, tag: bytes, rest: bytes)
    requires GoodTag(tag) && WellFormed(Plain(text), tag)
    ensures UntilTagged(ResponseBytes(Plain(text)) + rest, tag) == Prefixed([text], UntilTagged(rest, tag))
  {
    StarLine(text);
    TextLineReads("* " + text, rest);
    assert !(tag + " " <= "* " + text) by { assert (tag + " ")[0] == 'a'; }
  }

  lemma TailReads(tail: bytes, tag: bytes, rest: bytes)
    requires OneLine(tail) && Innocuous(tail, tag)
    ensures UntilTagged((tail + CRLF) + rest, tag) == UntilTagged(rest, tag)
  {
    TextLineReads(tail, rest);
  }

  lemma SizeAfterStar(head: bytes, n: nat)
    requires n <= MaxInt
    ensures LiteralSize("* " + (head + Announced(n))) == Some(n)
  {
    var star: bytes := "* ";
    assert LiteralSize(star + (head + Announced(n))) == Some(n) by {
      Assoc(star, head, Announced(n));
      SizeIsRead(star + head, n);
    }
  }

  /** The line that announces a literal: one line, of the literal's size. */
  lemma LiteralLine(head: bytes, n: nat, tag: bytes)
    requires GoodTag(tag) && OneLine(head) && n <= MaxInt
    ensures var line := "* " + (head + Announced(n));
            && OneLine(line) && "* " <= line && line[2..] == head + Announced(n)
            && LiteralSize(line) == Some(n) && !(tag + " " <= line)
  {
    SizeAfterStar(head, n);
    AnnouncedIsOneLine(head, n);
    StarredText(head + Announced(n), tag);
  }

  lemma StarredText(text: bytes, tag: bytes)
    requires GoodTag(tag) && OneLine(text)
    ensures var line := "* " + text; OneLine(line) && "* " <= line && line[2..] == text && !(tag + " " <= line)
  {
    StarLine(text);
    StarIsNoTag(text, tag);
  }

  lemma StarIsNoTag(text: bytes, tag: bytes)
    requires GoodTag(tag)
    ensures !(tag + " " <= "* " + text)
  {
    assert (tag + " ")[0] == 'a' && ("* " + text)[0] == '*';
  }

  /** A line of size `n` is followed by `n` octets that are not lines. */
  lemma UntaggedStep(line: bytes, payload: bytes, after: bytes, tag: bytes)
    requires OneLine(line) && "* " <= line && LiteralSize(line) == Some(|payload|) && !(tag + " " <= line)
    ensures UntilTagged((line + CRLF) + (payload + after), tag) == Prefixed([line[2..]], UntilTagged(after, tag))
  {
    TextLineReads(line, payload + after);
    assert (payload + after)[|payload|..] == after;
  }

  lemma FramedLiteral(head: bytes, payload: bytes, after: bytes, tag: bytes)
    requires GoodTag(tag) && OneLine(head) && |payload| <= MaxInt
    ensures var text := head + Announced(|payload|);
            UntilTagged((("* " + text) + CRLF) + (payload + after), tag) == Prefixed([text], UntilTagged(after, tag))
  {
    hide UntilTagged, LiteralSize, OneLine, Announced, Prefixed, GoodTag;
    var text := head + Announced(|payload|);
    LiteralLine(head, |payload|, tag);
    FramedLine("* " + text, text, payload, after, tag);
  }

  lemma FramedLine(line: bytes, text: bytes, payload: bytes, after: bytes, tag: bytes)
    requires OneLine(line) && "* " <= line && LiteralSize(line) == Some(|payload|) && !(tag + " " <= line)
    requires line[2..] == text
    ensures UntilTagged((line + CRLF) + (payload + after), tag) == Prefixed([text], UntilTagged(after, tag))
  {
    hide UntilTagged, LiteralSize, OneLine, Prefixed;
    UntaggedStep(line, payload, after, tag);
  }

  lemma LiteralReads(r: Response, tag: bytes, rest: bytes)
    requires GoodTag(tag) && r.Literal? && WellFormed(r, tag)
    ensures UntilTagged(ResponseBytes(r) + rest, tag) == Prefixed([LineOf(r)], UntilTagged(rest, tag))
  {
    LiteralBytes(r, rest);
    FramedLiteral(r.head, r.payload, (r.tail + CRLF) + rest, tag);
    TailReads(r.tail, tag, rest);
  }

  lemma LiteralBytes(r: Response, rest: bytes)
    requires r.Literal?
    ensures ResponseBytes(r) + rest == (("* " + LineOf(r)) + CRLF) + (r.payload + ((r.tail + CRLF) + rest))
  {
  }

  lemma CompletionReads(tag: bytes, completion: bytes, rest: bytes)
    requires GoodTag(tag) && OneLine(completion) && completion != []
    ensures UntilTagged(CompletionLine(tag, completion) + rest, tag)
         == Outcome([], EndOf(completion), rest)
  {
    var t := (tag + " ") + completion;
    assert t[|t| - 1] == completion[|completion| - 1];
    TextLineReads(t, rest);
    assert t[|tag| + 1..] == completion;
  }

  lemma ResponseReads(r: Response, tag: bytes, rest: bytes)
    requires GoodTag(tag) && WellFormed(r, tag)
    ensures UntilTagged(ResponseBytes(r) + rest, tag) == Prefixed([LineOf(r)], UntilTagged(rest, tag))
  {
    match r
    case Plain(text) => PlainReads(text, tag, rest);
    case Literal(_, _, _) => LiteralReads(r, tag, rest);
  }

  lemma {:induction false} ResponsesRead(rs: seq<Response>, tag: bytes, end: bytes)
    requires GoodTag(tag) && forall r :: r in rs ==> WellFormed(r, tag)
    ensures UntilTagged(ResponsesBytes(rs) + end, tag) == Prefixed(LinesOf(rs), UntilTagged(end, tag))
  {
    if rs == [] {
      assert ResponsesBytes(rs) + end == end;
      PrefixedTwice([], [], UntilTagged(end, tag));
    } else {
      ResponsesRead(rs[1..], tag, end);
      ResponseReads(rs[0], tag, ResponsesBytes(rs[1..]) + end);
      Assoc(ResponseBytes(rs[0]), ResponsesBytes(rs[1..]), end);
      PrefixedTwice([LineOf(rs[0])], LinesOf(rs[1..]), UntilTagged(end, tag));
    }
  }

  /** Literal framing: whatever octets the literals hold, even ones that look like the
      tagged line, a command's reply is read as exactly its untagged lines in order, its
      completion is recognised, and reading stops right after the tagged line. */
  lemma RepliesAreFramed(rs: seq<Response>, tag: bytes, completion: bytes, rest: bytes)
    requires GoodTag(tag) && OneLine(completion) && completion != []
    requires forall r :: r in rs ==> WellFormed(r, tag)
    ensures UntilTagged(ResponsesBytes(rs) + (CompletionLine(tag, completion) + rest), tag)
         == Outcome(LinesOf(rs), if "OK" <= completion then Completed else Refused, rest)
  {
    ResponsesRead(rs, tag, CompletionLine(tag, completion) + rest);
    CompletionReads(tag, completion, rest);
    PrefixedTwice(LinesOf(rs), [], UntilTagged(CompletionLine(tag, completion) + rest, tag));
  }

  /** A tail that looks like the tagged line ends the reading early, one that looks like a
      response adds a line, and one that looks like a go-ahead interrupts. */
  lemma TailMisread(tail: bytes, tag: bytes, after: bytes)
    requires OneLine(tail) && !Innocuous(tail, tag)
    ensures var o := UntilTagged((tail + CRLF) + after, tag);
            if tag + " " <= tail then o.rest == after
            else if "* " <= tail then o.untagged != []
            else o.ending == Interrupted
  {
    TextLineReads(tail, after);
  }

  lemma TailIff(tail: bytes, tag: bytes, completion: bytes, rest: bytes)
    requires GoodTag(tag) && OneLine(tail) && OneLine(completion) && completion != []
    ensures UntilTagged((tail + CRLF) + (CompletionLine(tag, completion) + rest), tag)
              == Outcome([], EndOf(completion), rest)
            <==> Innocuous(tail, tag)
  {
    hide UntilTagged, OneLine;
    var after := CompletionLine(tag, completion) + rest;
    assert |after| > |rest|;
    if Innocuous(tail, tag) {
      TailReads(tail, tag, after);
      CompletionReads(tag, completion, rest);
    } else {
      TailMisread(tail, tag, after);
    }
  }

  lemma PrefixedIff(ls: seq<bytes>, o: Outcome, e: Ending, rest: bytes)
    ensures Prefixed(ls, o) == Outcome(ls, e, rest) <==> o == Outcome([], e, rest)
  {
    if Prefixed(ls, o) == Outcome(ls, e, rest) {
      assert |ls + o.untagged| == |ls|;
    }
  }

  /** Why the tail matters, exactly: whatever responses come before it, the reply that a
      literal ends is framed if and only if what follows the literal on its line looks
      like neither the tagged line nor a response nor a go-ahead. */
  lemma FramedIffTailInnocuous(rs: seq<Response>, r: Response, tag: bytes, completion: bytes, rest: bytes)
    requires GoodTag(tag) && OneLine(completion) && completion != [] && forall q :: q in rs ==> WellFormed(q, tag)
    requires r.Literal? && OneLine(r.head) && OneLine(r.tail) && |r.payload| <= MaxInt
    ensures UntilTagged(ResponsesBytes(rs) + (ResponseBytes(r) + (CompletionLine(tag, completion) + rest)), tag)
              == Outcome(LinesOf(rs) + [LineOf(r)], EndOf(completion), rest)
            <==> Innocuous(r.tail, tag)
  {
    hide UntilTagged, ResponsesBytes, LinesOf, OneLine, WellFormed, CompletionLine, Announced, Innocuous, Prefixed;
    var end := CompletionLine(tag, completion) + rest;
    var o := UntilTagged((r.tail + CRLF) + end, tag);
    ResponsesRead(rs, tag, ResponseBytes(r) + end);
    LiteralBytes(r, end);
    FramedLiteral(r.head, r.payload, (r.tail + CRLF) + end, tag);
    PrefixedTwice(LinesOf(rs), [LineOf(r)], o);
    PrefixedIff(LinesOf(rs) + [LineOf(r)], o, EndOf(completion), rest);
    TailIff(r.tail, tag, completion, rest);
  }

  /** The tags the client numbers its commands with are of the kind assumed above. */
  lemma TagsAreGood(n: nat)
    ensures GoodTag(Tag(n))
  {
  }

  // ------------------------------------------------- replies that are cut short

  /** What ends the reading of a reply ends it whatever arrives after. */
  lemma {:induction false} EndingIsFinal(s: bytes, t: bytes, tag: bytes)
    requires UntilTagged(s, tag).ending != Lost
    ensures UntilTagged(s + t, tag) == UntilTagged(s, tag).(rest := UntilTagged(s, tag).rest + t)
    decreases |s|
  {
    hide LiteralSize, ReadLine, TrimEol;
    var r := ReadLine(s);
    var line := TrimEol(r.line);
    LineIsFinal(s, t);
    if tag + " " <= line {
    } else if "* " <= line {
      SkipIsFinal(line, r.rest, t);
      EndingIsFinal(AfterLine(line, r.rest).value, t, tag);
    } else if !("+ " <= line) {
      EndingIsFinal(r.rest, t, tag);
    }
  }

  lemma SkipIsFinal(line: bytes, rest: bytes, t: bytes)
    requires AfterLine(line, rest).Some?
    ensures AfterLine(line, rest + t) == Some(AfterLine(line, rest).value + t)
  {
    hide LiteralSize;
    var n := LiteralSize(line);
    if n.Some? { assert (rest + t)[n.value..] == rest[n.value..] + t; }
  }

  lemma FinalLength(s: bytes, t: bytes, tag: bytes)
    requires UntilTagged(s, tag).ending != Lost
    ensures |UntilTagged(s + t, tag).rest| >= |t|
  {
    hide UntilTagged;
    EndingIsFinal(s, t, tag);
  }

  /** A reply that is cut short, wherever that is, is taken neither for completed nor for
      refused nor for a go-ahead: the connection is lost. */
  lemma CutShortIsLost(rs: seq<Response>, tag: bytes, completion: bytes, k: nat)
    requires GoodTag(tag) && OneLine(completion) && completion != []
    requires forall r :: r in rs ==> WellFormed(r, tag)
    requires k < |ResponsesBytes(rs) + CompletionLine(tag, completion)|
    ensures UntilTagged((ResponsesBytes(rs) + CompletionLine(tag, completion))[..k], tag).ending == Lost
  {
    hide UntilTagged, ResponsesBytes, CompletionLine, OneLine, WellFormed, GoodTag;
    var all := ResponsesBytes(rs) + CompletionLine(tag, completion);
    RepliesAreFramed(rs, tag, completion, []);
    assert CompletionLine(tag, completion) + [] == CompletionLine(tag, completion);
    CutIsLost(all, k, tag);
  }

  lemma CutIsLost(all: bytes, k: nat, tag: bytes)
    requires k < |all| && UntilTagged(all, tag).rest == []
    ensures UntilTagged(all[..k], tag).ending == Lost
  {
    hide UntilTagged;
    var cut, left := all[..k], all[k..];
    assert cut + left == all && |left| > 0;
    if UntilTagged(cut, tag).ending != Lost { FinalLength(cut, left, tag); }
  }

  // ------------------------------------------------------------ sizes and tags, exactly

  /** The last "{" of a line is at `i`, and a size in one of its forms between it and the
      "}" at the line's end. */
  predicate SizeAt(line: bytes, i: nat, n: nat) {
    && i + 1 < |line| && line[i] == '{' && line[|line| - 1] == '}'
    && var spec := line[i + 1..|line| - 1];
       '{' !in spec && (Atoi(spec) == Some(n) || (HasSuffix(spec, "+") && Atoi(spec[..|spec| - 1]) == Some(n)))
  }

  lemma BraceIsLast(line: bytes, i: nat)
    requires i + 1 < |line| && line[i] == '{' && line[|line| - 1] == '}' && '{' !in line[i + 1..|line| - 1]
    ensures LastBrace(line) == i && HasSuffix(line, "}")
  {
    hide LastBrace;
    var spec := line[i + 1..|line| - 1];
    Braced(line, i);
    SpecIsFound(line[..i], spec);
  }

  lemma Braced(line: bytes, i: nat)
    requires i + 1 < |line| && line[i] == '{' && line[|line| - 1] == '}'
    ensures line == line[..i] + ("{" + (line[i + 1..|line| - 1] + "}"))
  {
  }

  lemma {:induction false} NoLaterBrace(line: bytes)
    ensures var i := LastBrace(line); i < |line| ==> '{' !in line[i + 1..]
  {
    if line != [] && line[|line| - 1] != '{' {
      var t := line[..|line| - 1];
      var i := LastBrace(t);
      NoLaterBrace(t);
      if i < |t| { assert line[i + 1..] == t[i + 1..] + [line[|line| - 1]]; }
    }
  }

  /** Numbers do not end in a sign. */
  lemma SignIsNoDigit(spec: bytes)
    requires HasSuffix(spec, "+")
    ensures Atoi(spec).None?
  {
    assert spec[|spec| - 1] == spec[|spec| - 1..][0] == '+';
    var digits := if spec[0] == '-' || spec[0] == '+' then spec[1..] else spec;
    assert digits != [] ==> digits[|digits| - 1] == '+';
  }

  lemma PlusOrNot(spec: bytes, n: nat)
    ensures Atoi(WithoutPlus(spec)) == Some(n)
            <==> Atoi(spec) == Some(n) || (HasSuffix(spec, "+") && Atoi(spec[..|spec| - 1]) == Some(n))
  {
    hide Atoi;
    if HasSuffix(spec, "+") { SignIsNoDigit(spec); }
  }

  lemma SizeGiven(line: bytes, i: nat, n: nat)
    requires SizeAt(line, i, n)
    ensures LiteralSize(line) == Some(n)
  {
    hide Atoi, LastBrace;
    BraceIsLast(line, i);
    PlusOrNot(line[i + 1..|line| - 1], n);
  }

  lemma SizeFound(line: bytes, n: nat)
    requires LiteralSize(line) == Some(n)
    ensures SizeAt(line, LastBrace(line), n)
  {
    hide Atoi, LastBrace;
    var i := LastBrace(line);
    NoLaterBrace(line);
    EndsInBrace(line, i);
    PlusOrNot(line[i + 1..|line| - 1], n);
  }

  lemma EndsInBrace(line: bytes, i: nat)
    requires HasSuffix(line, "}") && i < |line| && line[i] == '{' && '{' !in line[i + 1..]
    ensures i + 1 < |line| && line[|line| - 1] == '}' && '{' !in line[i + 1..|line| - 1]
  {
    assert line[|line| - 1] == line[|line| - 1..][0];
    assert line[i + 1..] == line[i + 1..|line| - 1] + [line[|line| - 1]];
  }

  /** When a line announces a literal, and of which size. */
  lemma SizeIff(line: bytes, n: nat)
    ensures LiteralSize(line) == Some(n) <==> exists i :: SizeAt(line, i, n)
  {
    hide LiteralSize, SizeAt;
    if i :| SizeAt(line, i, n) { SizeGiven(line, i, n); }
    if LiteralSize(line) == Some(n) { SizeFound(line, n); }
  }

  /** An "a" and the command's number in three digits, or in as many as it takes. */
  lemma TagText(n: nat)
    ensures var t := Tag(n);
            && |t| >= 4 && t[0] == 'a' && AllDigits(t[1..]) && Value(t[1..]) == n
            && (|t| > 4 ==> t[1] != '0')
  {
    ValueOfPadded(n);
    ValueOfDec(n);
    TagHasNoSpace(n);
    assert |Dec(n)| > 3 ==> n > 0;
  }

  // ------------------------------------------------------------------- append

  /** An octet that goes on a code point: one of 0x80 to 0xBF, or of a part of them. */
  predicate Within(c: octet, lo: int, hi: int) { lo <= c as int <= hi }

  /** How many octets the code point takes that a text begins with (section 4 of RFC 3629);
      none when it begins with none that is well-formed. */
  function RuneLength(s: bytes): (n: nat)
    requires s != []
    ensures n <= |s|
    ensures forall i :: 0 <= i < n && n > 1 ==> s[i] as int >= 0x80
  {
    var c := s[0] as int;
    if c < 0x80 then 1
    else if 0xC2 <= c <= 0xDF && |s| > 1 && Within(s[1], 0x80, 0xBF) then 2
    else if 0xE0 <= c <= 0xEF && |s| > 2
         && Within(s[1], if c == 0xE0 then 0xA0 else 0x80, if c == 0xED then 0x9F else 0xBF)
         && Within(s[2], 0x80, 0xBF) then 3
    else if 0xF0 <= c <= 0xF4 && |s| > 3
         && Within(s[1], if c == 0xF0 then 0x90 else 0x80, if c == 0xF4 then 0x8F else 0xBF)
         && Within(s[2], 0x80, 0xBF) && Within(s[3], 0x80, 0xBF) then 4
    else 0
  }

  predicate IsUtf8(s: bytes)
    decreases |s|
  {
    s == [] || (RuneLength(s) > 0 && IsUtf8(s[RuneLength(s)..]))
  }

  /** U+FFFD, which stands for an octet that is part of no code point. */
  function Replacement(): bytes { [0xEF as char, 0xBF as char, 0xBD as char] }

  /** What ranging over a text's code points makes of its first octets. */
  function FirstRune(s: bytes): bytes
    requires s != []
  {
    if RuneLength(s) == 0 then Replacement() else s[..RuneLength(s)]
  }

  function AfterRune(s: bytes): (r: bytes)
    requires s != []
    ensures |r| < |s|
  {
    if RuneLength(s) == 0 then s[1..] else s[RuneLength(s)..]
  }

  function Repaired(s: bytes): bytes
    decreases |s|
  {
    if s == [] then [] else FirstRune(s) + Repaired(AfterRune(s))
  }

  lemma {:induction false} RepairedLength(s: bytes)
    ensures |Repaired(s)| >= |s|
    ensures IsUtf8(s) ==> Repaired(s) == s
    ensures !IsUtf8(s) ==> |Repaired(s)| > |s|
    decreases |s|
  {
    hide RuneLength;
    if s != [] {
      RepairedLength(AfterRune(s));
      assert |FirstRune(s)| + |AfterRune(s)| >= |s|;
      assert RuneLength(s) > 0 ==> s == s[..RuneLength(s)] + s[RuneLength(s)..];
    }
  }

  /** What may be encoded: every code point but the surrogates (section 3 of RFC 3629). */
  predicate Scalar(p: nat) { p < 0x11_0000 && !(0xD800 <= p < 0xE000) }

  /** Its octets, by their bits. */
  function Encoded(p: nat): (r: bytes)
    requires Scalar(p)
    ensures r != []
  {
    if p < 0x80 then [p as char]
    else if p < 0x800 then [(0xC0 + p / 64) as char, (0x80 + p % 64) as char]
    else if p < 0x1_0000 then
      [(0xE0 + p / 4096) as char, (0x80 + p / 64 % 64) as char, (0x80 + p % 64) as char]
    else
      [(0xF0 + p / 262144) as char, (0x80 + p / 4096 % 64) as char,
       (0x80 + p / 64 % 64) as char, (0x80 + p % 64) as char]
  }

  /** A code point's octets are taken for it, whatever follows them. */
  lemma EncodedIsRead(p: nat, rest: bytes)
    requires Scalar(p)
    ensures RuneLength(Encoded(p) + rest) == |Encoded(p)|
  {
    var e := Encoded(p);
    var s := e + rest;
    assert forall i :: 0 <= i < |e| ==> s[i] == e[i];
    if 0x800 <= p < 0x1_0000 { ThreeOctets(p); }
    if 0x1_0000 <= p { FourOctets(p); }
  }

  lemma ThreeOctets(p: nat)
    requires 0x800 <= p < 0x1_0000 && Scalar(p)
    ensures var c, d := 0xE0 + p / 4096, 0x80 + p / 64 % 64;
            && 0xE0 <= c <= 0xEF && 0x80 <= d <= 0xBF
            && (c == 0xE0 ==> d >= 0xA0) && (c == 0xED ==> d <= 0x9F)
  {
    assert p / 64 == 64 * (p / 4096) + p / 64 % 64;
  }

  lemma FourOctets(p: nat)
    requires 0x1_0000 <= p < 0x11_0000
    ensures var c, d := 0xF0 + p / 262144, 0x80 + p / 4096 % 64;
            && 0xF0 <= c <= 0xF4 && 0x80 <= d <= 0xBF
            && (c == 0xF0 ==> d >= 0x90) && (c == 0xF4 ==> d <= 0x8F)
  {
    assert p / 4096 == 64 * (p / 262144) + p / 4096 % 64;
  }

  lemma Sixes(a: nat, b: nat)
    requires b < 64
    ensures (64 * a + b) / 64 == a && (64 * a + b) % 64 == b
  {
  }

  lemma SixesTwice(p: nat)
    ensures p / 4096 == p / 64 / 64 && p / 262144 == p / 64 / 64 / 64
  {
  }

  /** A code point from its bits, six at a time. */
  lemma FromTwo(a: nat, b: nat)
    requires 2 <= a < 32 && b < 64
    ensures var p := 64 * a + b;
            Scalar(p) && Encoded(p) == [(0xC0 + a) as char, (0x80 + b) as char]
  {
    Sixes(a, b);
  }

  lemma FromThree(a: nat, b: nat, c: nat)
    requires a < 16 && b < 64 && c < 64 && (a == 0 ==> b >= 32) && (a == 13 ==> b < 32)
    ensures var p := 64 * (64 * a + b) + c;
            Scalar(p) && Encoded(p) == [(0xE0 + a) as char, (0x80 + b) as char, (0x80 + c) as char]
  {
    Sixes(64 * a + b, c);
    Sixes(a, b);
    SixesTwice(64 * (64 * a + b) + c);
  }

  lemma FromFour(a: nat, b: nat, c: nat, d: nat)
    requires a < 5 && b < 64 && c < 64 && d < 64 && (a == 0 ==> b >= 16) && (a == 4 ==> b < 16)
    ensures var p := 64 * (64 * (64 * a + b) + c) + d;
            && Scalar(p)
            && Encoded(p) == [(0xF0 + a) as char, (0x80 + b) as char, (0x80 + c) as char, (0x80 + d) as char]
  {
    var p := 64 * (64 * (64 * a + b) + c) + d;
    Sixes(64 * (64 * a + b) + c, d);
    Sixes(64 * a + b, c);
    Sixes(a, b);
    SixesTwice(p);
  }

  function Six(c: octet): nat { if 0x80 <= c as int then c as int - 0x80 else 0 }

  /** And what is taken for a code point is one's octets. */
  lemma ReadIsEncoded(s: bytes) returns (p: nat)
    requires s != [] && RuneLength(s) > 0
    ensures Scalar(p) && Encoded(p) == s[..RuneLength(s)]
  {
    hide Encoded;
    var n, c := RuneLength(s), s[0] as int;
    if n == 1 {
      p := c;
      OneOctet(s);
    } else if n == 2 {
      FromTwo(c - 0xC0, Six(s[1]));
      p := 64 * (c - 0xC0) + Six(s[1]);
      assert s[..2] == [s[0], s[1]];
    } else if n == 3 {
      FromThree(c - 0xE0, Six(s[1]), Six(s[2]));
      p := 64 * (64 * (c - 0xE0) + Six(s[1])) + Six(s[2]);
      assert s[..3] == [s[0], s[1], s[2]];
    } else {
      FromFour(c - 0xF0, Six(s[1]), Six(s[2]), Six(s[3]));
      p := 64 * (64 * (64 * (c - 0xF0) + Six(s[1])) + Six(s[2])) + Six(s[3]);
      assert s[..4] == [s[0], s[1], s[2], s[3]];
    }
  }

  lemma OneOctet(s: bytes)
    requires s != [] && s[0] as int < 0x80
    ensures Scalar(s[0] as int) && Encoded(s[0] as int) == s[..1]
  {
  }

  /** The octets a text starts with are no code point's. */
  ghost predicate NoCodePoint(s: bytes) {
    forall p: nat :: Scalar(p) ==> !(Encoded(p) <= s)
  }

  function EncodedText(ps: seq<nat>): bytes
    requires forall i :: 0 <= i < |ps| ==> Scalar(ps[i])
  {
    if ps == [] then [] else Encoded(ps[0]) + EncodedText(ps[1..])
  }

  lemma RepairedRune(p: nat, more: bytes)
    requires Scalar(p)
    ensures Repaired(Encoded(p) + more) == Encoded(p) + Repaired(more)
  {
    hide RuneLength, Encoded;
    var e := Encoded(p);
    EncodedIsRead(p, more);
    assert (e + more)[..|e|] == e && (e + more)[|e|..] == more;
  }

  lemma {:induction false} RepairedText(ps: seq<nat>, rest: bytes)
    requires forall i :: 0 <= i < |ps| ==> Scalar(ps[i])
    ensures Repaired(EncodedText(ps) + rest) == EncodedText(ps) + Repaired(rest)
  {
    hide Repaired, Encoded;
    if ps == [] {
      assert EncodedText(ps) + rest == rest;
      assert EncodedText(ps) + Repaired(rest) == Repaired(rest);
    } else {
      var e, more := Encoded(ps[0]), EncodedText(ps[1..]);
      RepairedText(ps[1..], rest);
      Assoc(e, more, rest);
      RepairedRune(ps[0], more + rest);
      Assoc(e, more, Repaired(rest));
    }
  }

  lemma ReplacementIs()
    ensures Scalar(0xFFFD) && Encoded(0xFFFD) == Replacement()
  {
  }

  lemma RuneIsEncoded(s: bytes)
    requires s != []
    ensures RuneLength(s) > 0 ==> exists p: nat :: Scalar(p) && Encoded(p) <= s
  {
    hide RuneLength, Encoded;
    if RuneLength(s) > 0 {
      var p := ReadIsEncoded(s);
      assert Encoded(p) <= s;
    }
  }

  lemma NoRune(s: bytes)
    requires s != [] && NoCodePoint(s)
    ensures RuneLength(s) == 0
  {
    hide RuneLength, Encoded;
    RuneIsEncoded(s);
  }

  ghost predicate Spells(ps: seq<nat>, s: bytes) {
    (forall i :: 0 <= i < |ps| ==> Scalar(ps[i])) && EncodedText(ps) == s
  }

  lemma {:induction false} SpelledIsUtf8(ps: seq<nat>, s: bytes)
    requires Spells(ps, s)
    ensures IsUtf8(s)
  {
    hide RuneLength, Encoded;
    if ps != [] {
      var more := EncodedText(ps[1..]);
      SpelledIsUtf8(ps[1..], more);
      EncodedIsRead(ps[0], more);
      assert (Encoded(ps[0]) + more)[|Encoded(ps[0])|..] == more;
    }
  }

  lemma {:induction false} Utf8IsSpelled(s: bytes) returns (ps: seq<nat>)
    requires IsUtf8(s)
    ensures Spells(ps, s)
    decreases |s|
  {
    hide RuneLength, Encoded;
    if s == [] {
      ps := [];
    } else {
      var p := ReadIsEncoded(s);
      var more := Utf8IsSpelled(s[RuneLength(s)..]);
      ps := [p] + more;
      assert ps[1..] == more && s == s[..RuneLength(s)] + s[RuneLength(s)..];
    }
  }

  /** A text is UTF-8 if and only if it spells code points. */
  lemma Utf8Iff(s: bytes)
    ensures IsUtf8(s) <==> exists ps :: Spells(ps, s)
  {
    hide IsUtf8, Spells;
    if IsUtf8(s) {
      var ps := Utf8IsSpelled(s);
    }
    if ps :| Spells(ps, s) { SpelledIsUtf8(ps, s); }
  }

  /** What becomes of a name, octet by octet: code points stay, and an octet at which none
      begins gives way to U+FFFD. */
  lemma RepairedMeans(ps: seq<nat>, rest: bytes)
    requires forall i :: 0 <= i < |ps| ==> Scalar(ps[i])
    requires rest != [] && NoCodePoint(rest)
    ensures Scalar(0xFFFD) && Repaired(EncodedText(ps)) == EncodedText(ps)
    ensures Repaired(EncodedText(ps) + rest) == EncodedText(ps) + (Encoded(0xFFFD) + Repaired(rest[1..]))
  {
    hide RuneLength, Encoded, NoCodePoint, EncodedText, Replacement;
    RepairedText(ps, []);
    assert EncodedText(ps) + [] == EncodedText(ps);
    RepairedText(ps, rest);
    NoRune(rest);
    ReplacementIs();
  }

  function Quote(s: bytes): bytes {
    if s == [] then []
    else (if s[0] == '"' || s[0] == '\\' then ['\\', s[0]] else [s[0]]) + Quote(s[1..])
  }

  function Quoted(s: bytes): bytes { "\"" + (Quote(Repaired(s)) + "\"") }

  lemma {:induction false} QuoteSum(a: bytes, b: bytes)
    ensures Quote(a + b) == Quote(a) + Quote(b)
  {
    if a == [] {
      assert a + b == b;
    } else {
      HeadOfSum(a, b);
      QuoteSum(a[1..], b);
      Assoc(if a[0] == '"' || a[0] == '\\' then ['\\', a[0]] else [a[0]], Quote(a[1..]), Quote(b));
    }
  }

  lemma {:induction false} HighOctetsStay(a: bytes)
    requires forall i :: 0 <= i < |a| ==> a[i] as int >= 0x80
    ensures Quote(a) == a
  {
    if a != [] {
      HighOctetsStay(a[1..]);
      HeadAndTail(a);
    }
  }

  /** One code point is written with a backslash before a quote or a backslash. */
  lemma QuoteRune(s: bytes)
    requires s != []
    ensures Quote(FirstRune(s))
         == if s[0] == '"' || s[0] == '\\' then ['\\', s[0]] else FirstRune(s)
  {
    if s[0] as int < 0x80 {
      assert FirstRune(s) == [s[0]] && [s[0]][1..] == [];
      assert Quote([]) == [];
    } else {
      HighOctetsStay(FirstRune(s));
    }
  }

  method QuotedString(s: bytes) returns (b: bytes)
    ensures b == Quoted(s)
  {
    hide Quote, Repaired, RuneLength;
    b := "\"";
    var left := s;
    assert b + Quote(Repaired(s)) == "\"" + Quote(Repaired(s));
    while left != []
      invariant b + Quote(Repaired(left)) == "\"" + Quote(Repaired(s))
      decreases |left|
    {
      QuoteStep(left);
      ghost var piece := Quote(FirstRune(left));
      Assoc(b, piece, Quote(Repaired(AfterRune(left))));
      QuoteRune(left);
      if left[0] == '"' || left[0] == '\\' {
        b := b + ['\\', left[0]];
      } else {
        b := b + FirstRune(left);
      }
      left := AfterRune(left);
    }
    QuoteNothing();
    assert b + [] == b;
    Assoc("\"", Quote(Repaired(s)), "\"");
    b := b + ['"'];
  }

  lemma QuoteStep(s: bytes)
    requires s != []
    ensures Quote(Repaired(s)) == Quote(FirstRune(s)) + Quote(Repaired(AfterRune(s)))
  {
    QuoteSum(FirstRune(s), Repaired(AfterRune(s)));
  }

  lemma QuoteNothing()
    ensures Quote(Repaired([])) == []
  {
  }

  datatype Unquoting = Unquoting(text: bytes, rest: bytes) | Unclosed

  /** A server reading a quoted string after its opening quote. */
  function Unquote(s: bytes): Unquoting
    decreases |s|
  {
    if s == [] then Unclosed
    else if s[0] == '"' then Unquoting([], s[1..])
    else if s[0] == '\\' then
      if |s| < 2 then Unclosed
      else
        var u := Unquote(s[2..]);
        if u.Unclosed? then Unclosed else Unquoting([s[1]] + u.text, u.rest)
    else
      var u := Unquote(s[1..]);
      if u.Unclosed? then Unclosed else Unquoting([s[0]] + u.text, u.rest)
  }

  lemma {:induction false} QuoteIsUndone(s: bytes, rest: bytes)
    ensures Unquote(Quote(s) + ("\"" + rest)) == Unquoting(s, rest)
  {
    var end := "\"" + rest;
    if s == [] {
      assert Quote(s) + end == end && end[1..] == rest;
    } else {
      QuoteIsUndone(s[1..], rest);
      HeadAndTail(s);
      var q := Quote(s[1..]) + end;
      if s[0] == '"' || s[0] == '\\' {
        Assoc(['\\', s[0]], Quote(s[1..]), end);
        assert (['\\', s[0]] + q)[2..] == q;
      } else {
        Assoc([s[0]], Quote(s[1..]), end);
        Cons(s[0], q);
      }
    }
  }

  /** No name changes the meaning of its command: whatever quotes and backslashes it holds,
      the server gets it back with each octet that is part of no code point replaced, and the
      rest of the command untouched; it gets the name itself if and only if that is UTF-8. */
  lemma NamesAreSafe(s: bytes, rest: bytes)
    ensures Unquote((Quoted(s) + rest)[1..]) == Unquoting(Repaired(s), rest)
    ensures Repaired(s) == s <==> IsUtf8(s)
  {
    hide Unquote, Quote, Repaired, IsUtf8;
    QuoteIsUndone(Repaired(s), rest);
    RepairedLength(s);
    QuotedTail(Quote(Repaired(s)), rest);
  }

  lemma QuotedTail(q: bytes, rest: bytes)
    ensures (("\"" + (q + "\"")) + rest)[1..] == q + ("\"" + rest)
  {
  }

  function AppendCommand(tag: bytes, mailbox: bytes, size: nat): bytes {
    (tag + " APPEND " + Quoted(mailbox) + " ") + Announced(size)
  }

  /** Everything `appendMessage` writes, the pause for the server's "+" left out. */
  function AppendBytes(tag: bytes, mailbox: bytes, body: bytes): bytes {
    (AppendCommand(tag, mailbox, |body|) + CRLF) + (body + CRLF)
  }

  datatype Submission = Submission(command: bytes, message: bytes, rest: bytes) | Malformed

  /** A server taking one command that ends in a literal. */
  function Submitted(s: bytes): Submission {
    var r := ReadLine(s);
    var line := TrimEol(r.line);
    var n := LiteralSize(line);
    if r.eof || n.None? || n.value + 2 > |r.rest| || r.rest[n.value..n.value + 2] != CRLF then Malformed
    else Submission(line, r.rest[..n.value], r.rest[n.value + 2..])
  }

  lemma HeadIsOneLine(tag: bytes, name: bytes)
    requires LF !in tag && LF !in name
    ensures OneLine(tag + " APPEND " + name + " ")
  {
  }

  lemma CommandIsOneLine(tag: bytes, mailbox: bytes, n: nat)
    requires OneLine(tag) && LF !in Quoted(mailbox) && n <= MaxInt
    ensures OneLine(AppendCommand(tag, mailbox, n)) && LiteralSize(AppendCommand(tag, mailbox, n)) == Some(n)
  {
    var head := tag + " APPEND " + Quoted(mailbox) + " ";
    HeadIsOneLine(tag, Quoted(mailbox));
    AnnouncedIsOneLine(head, n);
    SizeIsRead(head, n);
  }

  lemma LineWithLiteral(line: bytes, body: bytes, rest: bytes)
    requires OneLine(line) && LiteralSize(line) == Some(|body|)
    ensures Submitted((line + CRLF) + (body + (CRLF + rest))) == Submission(line, body, rest)
  {
    TextLineReads(line, body + (CRLF + rest));
    ThreeParts(body, rest);
  }

  lemma ThreeParts(body: bytes, rest: bytes)
    ensures var s := body + (CRLF + rest);
            s[..|body|] == body && s[|body|..|body| + 2] == CRLF && s[|body| + 2..] == rest
  {
  }

  /** An append's message arrives octet for octet, whatever it holds, and the connection
      is left at the next command. */
  lemma AppendIsFramed(tag: bytes, mailbox: bytes, body: bytes, rest: bytes)
    requires OneLine(tag) && LF !in Quoted(mailbox) && |body| <= MaxInt
    ensures Submitted(AppendBytes(tag, mailbox, body) + rest)
         == Submission(AppendCommand(tag, mailbox, |body|), body, rest)
  {
    var line := AppendCommand(tag, mailbox, |body|);
    CommandIsOneLine(tag, mailbox, |body|);
    LineWithLiteral(line, body, rest);
    Assoc(line + CRLF, body + CRLF, rest);
    Assoc(body, CRLF, rest);
  }

  lemma {:induction false} NoNewLine(s: bytes)
    requires LF !in s
    ensures LF !in Repaired(s) && LF !in Quote(s)
    decreases |s|
  {
    hide RuneLength;
    if s != [] {
      assert RuneLength(s) > 0 ==> s == s[..RuneLength(s)] + AfterRune(s);
      NoNewLine(AfterRune(s));
      NoNewLine(s[1..]);
    }
  }

  lemma QuotedOnOneLine(mailbox: bytes)
    requires LF !in mailbox
    ensures LF !in Quoted(mailbox)
  {
    NoNewLine(mailbox);
    NoNewLine(Repaired(mailbox));
  }

  datatype Append = Append(tag: bytes, mailbox: bytes, message: bytes, rest: bytes) | NoAppend

  /** A server that reads an APPEND (section 6.3.11 of RFC 3501): a tag, the word, a quoted
      name, the literal and its line end. */
  function Appended(s: bytes, tagLength: nat): Append {
    var c := Submitted(s);
    if c.Malformed? || |c.command| <= tagLength + 9 || c.command[tagLength..tagLength + 9] != " APPEND \"" then NoAppend
    else
      var name := Unquote(c.command[tagLength + 9..]);
      if name.Unclosed? || !(" {" <= name.rest) then NoAppend
      else Append(c.command[..tagLength], name.text, c.message, c.rest)
  }

  lemma AppendLine(tag: bytes, mailbox: bytes, n: nat)
    ensures var line := AppendCommand(tag, mailbox, n);
            && |line| > |tag| + 9 && line[..|tag|] == tag && line[|tag|..|tag| + 9] == " APPEND \""
            && line[|tag| + 9..] == Quote(Repaired(mailbox)) + ("\"" + (" " + Announced(n)))
            && " {" <= " " + Announced(n)
  {
    hide Quote, Repaired, Dec;
    var q := Quote(Repaired(mailbox));
    var verb: bytes, end := " APPEND \"", "\"" + (" " + Announced(n));
    CommandParts(tag, q, Announced(n));
    assert AppendCommand(tag, mailbox, n) == tag + (verb + (q + end));
    Pieces(tag, verb, q + end);
  }

  lemma CommandParts(tag: bytes, q: bytes, size: bytes)
    ensures (tag + " APPEND " + ("\"" + (q + "\"")) + " ") + size
         == tag + (" APPEND \"" + (q + ("\"" + (" " + size))))
  {
    var verb: bytes, mark: bytes := " APPEND ", "\"";
    assert " APPEND \"" == verb + mark;
  }

  lemma Pieces(a: bytes, b: bytes, c: bytes)
    ensures var s := a + (b + c); s[..|a|] == a && s[|a|..|a| + |b|] == b && s[|a| + |b|..] == c
  {
  }

  /** An append, as the server takes it: the tag, the mailbox as far as it is UTF-8, the
      message octet for octet; and it is left at the next command. */
  lemma AppendIsUnderstood(n: nat, mailbox: bytes, body: bytes, rest: bytes)
    requires LF !in mailbox && |body| <= MaxInt
    ensures Appended(AppendBytes(Tag(n), mailbox, body) + rest, |Tag(n)|)
         == Append(Tag(n), Repaired(mailbox), body, rest)
    ensures Repaired(mailbox) == mailbox <==> IsUtf8(mailbox)
  {
    hide Tag, Submitted, AppendBytes, AppendCommand, Quoted, Repaired, Quote, Unquote, Announced, IsUtf8;
    TagsAreGood(n);
    QuotedOnOneLine(mailbox);
    AppendIsFramed(Tag(n), mailbox, body, rest);
    AppendLine(Tag(n), mailbox, |body|);
    QuoteIsUndone(Repaired(mailbox), " " + Announced(|body|));
    RepairedLength(mailbox);
  }

  // ------------------------------------------------------------------- a client

  /** What a server answers to one command: untagged responses and a completion. To one
      that ends in a literal it first says to go on, in a line of its own, or completes
      the command at once. */
  datatype Reply = Reply(goOn: Option<bytes>, responses: seq<Response>, completion: bytes)

  function ReplyBytes(r: Reply, tag: bytes): bytes {
    ResponsesBytes(r.responses) + CompletionLine(tag, r.completion)
  }

  predicate Conforming(r: Reply, tag: bytes) {
    && OneLine(r.completion) && r.completion != []
    && (forall x :: x in r.responses ==> WellFormed(x, tag))
    && (r.goOn.Some? ==> OneLine(r.goOn.value))
  }

  lemma WholeReplyReads(r: Reply, tag: bytes)
    requires GoodTag(tag) && Conforming(r, tag)
    ensures UntilTagged(ReplyBytes(r, tag), tag)
         == Outcome(LinesOf(r.responses), EndOf(r.completion), [])
  {
    RepliesAreFramed(r.responses, tag, r.completion, []);
    assert CompletionLine(tag, r.completion) + [] == CompletionLine(tag, r.completion);
  }

  /** Reading, when one whole reply has arrived or nothing will. */
  method TakeReply(br: Reader, tag: bytes, ghost r: Option<Reply>) returns (untagged: seq<bytes>, ending: Ending)
    requires GoodTag(tag) && (r.Some? ==> Conforming(r.value, tag))
    requires br.unread == if r.Some? then ReplyBytes(r.value, tag) else []
    modifies br
    ensures br.unread == [] && (r.None? ==> ending == Lost)
    ensures r.Some? ==> untagged == LinesOf(r.value.responses)
                        && ending == EndOf(r.value.completion)
  {
    if r.Some? {
      WholeReplyReads(r.value, tag);
    } else {
      assert UntilTagged([], tag) == Outcome([], Lost, []);
    }
    untagged, ending := ReadUntilTagged(br, tag);
  }

  /** Replies that conform for the tags from number `k` on. */
  ghost predicate AllConform(replies: seq<Reply>, k: nat) {
    forall i :: 0 <= i < |replies| ==> Conforming(replies[i], Tag(k + i))
  }

  lemma FirstConforms(replies: seq<Reply>, k: nat)
    requires AllConform(replies, k) && replies != []
    ensures Conforming(replies[0], Tag(k)) && AllConform(replies[1..], k + 1)
  {
  }

  /** One connection. `replies` is what the server will say, each reply after the command
      it belongs to and with that command's tag. */
  class Client {
    const br: Reader
    var tag: nat
    var sent: bytes
    var replies: seq<Reply>

    constructor (replies: seq<Reply>)
      ensures fresh(br) && br.unread == [] && tag == 0 && sent == [] && this.replies == replies
    {
      br := new Reader([]);
      tag, sent, this.replies := 0, [], replies;
    }

    /** Nothing is unread, and the server conforms for every tag still to come. */
    ghost predicate InStep()
      reads this, br
    {
      br.unread == [] && AllConform(replies, tag + 1)
    }

    method NextTag() returns (t: bytes)
      modifies `tag
      ensures tag == old(tag) + 1 && t == Tag(tag)
    {
      tag := tag + 1;
      t := Tag(tag);
    }

    /** What the server has to say arrives. */
    method Arrive(text: bytes)
      modifies br
      ensures br.unread == old(br.unread) + text
    {
      br.unread := br.unread + text;
    }

    /** One command: its own responses are returned, whether it completed or was declined,
        and the next command finds nothing of them left. */
    method Do(cmd: bytes) returns (untagged: seq<bytes>, ending: Ending)
      requires InStep()
      modifies this, br
      ensures tag == old(tag) + 1 && sent == old(sent) + (((Tag(tag) + " ") + cmd) + CRLF)
      ensures old(replies) == [] ==> ending == Lost
      ensures old(replies) != [] ==>
                var r := old(replies)[0];
                && InStep() && replies == old(replies)[1..]
                && untagged == LinesOf(r.responses)
                && ending == if "OK" <= r.completion then Completed else Refused
    {
      var t := NextTag();
      sent := sent + (((t + " ") + cmd) + CRLF);
      TagsAreGood(tag);
      ghost var r := Answer(t);
      untagged, ending := TakeReply(br, t, r);
    }

    /** The server's reply to the command of tag `t` arrives, if it has one left. */
    method Answer(t: bytes) returns (ghost r: Option<Reply>)
      requires br.unread == [] && AllConform(replies, tag) && t == Tag(tag)
      modifies `replies, br
      ensures old(replies) == [] ==> r.None? && br.unread == [] && replies == []
      ensures old(replies) != [] ==>
                && r == Some(old(replies)[0]) && Conforming(r.value, t) && br.unread == ReplyBytes(r.value, t)
                && replies == old(replies)[1..] && AllConform(replies, tag + 1)
    {
      r := None;
      if replies != [] {
        FirstConforms(replies, tag);
        r := Some(replies[0]);
        br.unread := ReplyBytes(replies[0], t);
        replies := replies[1..];
      }
    }

    /** An append waits for the server to say go on before it sends the message. */
    method AppendMessage(mailbox: bytes, body: bytes) returns (ok: bool)
      requires InStep()
      modifies this, br
      ensures tag == old(tag) + 1
      ensures ok <==> old(replies) != [] && old(replies)[0].goOn.Some? && "OK" <= old(replies)[0].completion
      ensures sent == old(sent) + if old(replies) != [] && old(replies)[0].goOn.Some?
                                  then AppendBytes(Tag(tag), mailbox, body)
                                  else AppendCommand(Tag(tag), mailbox, |body|) + CRLF
      ensures old(replies) != [] ==> InStep() && replies == old(replies)[1..]
    {
      var t := NextTag();
      var command := AppendCommand(t, mailbox, |body|) + CRLF;
      sent := sent + command;
      TagsAreGood(tag);
      var all := replies;
      if replies == [] {
        assert ReadLine(br.unread).eof;
      } else {
        FirstConforms(replies, tag);
        ContinuationReads(replies[0], t);
        Arrive(Continuation(replies[0], t));
        assert br.unread == Continuation(replies[0], t);
        replies := replies[1..];
      }
      var line, eof := br.ReadString();
      if eof || !("+" <= line) {
        return false;
      }
      Assoc(old(sent), command, body + CRLF);
      sent := sent + (body + CRLF);
      Arrive(ReplyBytes(all[0], t));
      assert br.unread == ReplyBytes(all[0], t);
      var untagged, ending := TakeReply(br, t, Some(all[0]));
      ok := ending == Completed;
    }
  }

  /** The server's line after the command that announces a literal. */
  function Continuation(r: Reply, tag: bytes): bytes {
    if r.goOn.Some? then ("+" + r.goOn.value) + CRLF else CompletionLine(tag, r.completion)
  }

  lemma ContinuationReads(r: Reply, tag: bytes)
    requires GoodTag(tag) && Conforming(r, tag)
    ensures var l := ReadLine(Continuation(r, tag));
            !l.eof && l.rest == [] && ("+" <= l.line <==> r.goOn.Some?)
  {
    var text := if r.goOn.Some? then "+" + r.goOn.value else (tag + " ") + r.completion;
    assert LF !in text && text != [];
    assert text[|text| - 1] != CR by {
      if r.goOn.Some? {
        assert text[|text| - 1] == if r.goOn.value == [] then '+' else r.goOn.value[|r.goOn.value| - 1];
      } else {
        assert text[|text| - 1] == r.completion[|r.completion| - 1];
      }
    }
    TextLineReads(text, []);
    assert (text + CRLF) + [] == text + CRLF;
    assert (text + CRLF)[0] == text[0];
  }
}
