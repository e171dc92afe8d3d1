/** internal/corpus/mbox.go: loading an mbox file so that what is replayed is what was
    stored, and refusing a file no server will take. */
module MboxCorpus {
  import opened Octets
  import opened DotStuffing

  const FROM: bytes := "From "
  const QUOTED: bytes := ">From "
  const MaxLineOctets: nat := 1000

  // --------------------------------------------------------- normalisation

  /** Every LF that no CR precedes becomes CRLF; `cr` says whether a CR came just before. */
  function Crlfed(s: bytes, cr: bool): bytes {
    if s == [] then []
    else (if s[0] == LF && !cr then CRLF else [s[0]]) + Crlfed(s[1..], s[0] == CR)
  }

  /** A message as it is replayed: CRLF line ends, and exactly one at the end. */
  function Normalised(body: bytes): bytes {
    TrimEol(Crlfed(body, false)) + CRLF
  }

  predicate NoBareLf(s: bytes, cr: bool) {
    s == [] || (!(s[0] == LF && !cr) && NoBareLf(s[1..], s[0] == CR))
  }

  lemma {:induction false} CrlfedHasNoBareLf(s: bytes, cr: bool)
    ensures NoBareLf(Crlfed(s, cr), cr)
  {
    if s != [] {
      var t := Crlfed(s[1..], s[0] == CR);
      CrlfedHasNoBareLf(s[1..], s[0] == CR);
      if s[0] == LF && !cr {
        var u: bytes := [LF] + t;
        Cons(LF, t);
        Cons(CR, u);
        assert CRLF + t == [CR] + u;
      } else {
        Cons(s[0], t);
      }
    }
  }

  lemma {:induction false} NoBareLfPrefix(s: bytes, cr: bool, k: nat)
    requires NoBareLf(s, cr) && k <= |s|
    ensures NoBareLf(s[..k], cr)
  {
    if k > 0 {
      assert s[..k][1..] == s[1..][..k - 1];
      NoBareLfPrefix(s[1..], s[0] == CR, k - 1);
    }
  }

  lemma {:induction false} NoBareLfCrlf(s: bytes, cr: bool)
    requires NoBareLf(s, cr)
    ensures NoBareLf(s + CRLF, cr)
  {
    if s == [] {
      assert s + CRLF == [CR, LF];
      var t: bytes := [LF];
      assert (s + CRLF)[1..] == t && t[1..] == [];
      assert NoBareLf(t, true);
    } else {
      HeadOfSum(s, CRLF);
      NoBareLfCrlf(s[1..], s[0] == CR);
    }
  }

  lemma {:induction false} CrlfedIsIdentity(s: bytes, cr: bool)
    requires NoBareLf(s, cr)
    ensures Crlfed(s, cr) == s
  {
    if s != [] {
      HeadAndTail(s);
      CrlfedIsIdentity(s[1..], s[0] == CR);
    }
  }

  lemma {:induction false} TrimEolEnds(s: bytes)
    ensures var r := TrimEol(s); r != [] ==> r[|r| - 1] != CR && r[|r| - 1] != LF
  {
    if s != [] && (s[|s| - 1] == CR || s[|s| - 1] == LF) { TrimEolEnds(s[..|s| - 1]); }
  }

  /** A normalised message ends in CRLF and has no bare LF, and normalising it again
      changes nothing. */
  lemma NormalForm(body: bytes)
    ensures var m := Normalised(body);
            HasSuffix(m, CRLF) && NoBareLf(m, false) && Normalised(m) == m
  {
    var c := Crlfed(body, false);
    var t := TrimEol(c);
    CrlfedHasNoBareLf(body, false);
    TrimEolIsPrefix(c);
    NoBareLfPrefix(c, false, |t|);
    NoBareLfCrlf(t, false);
    CrlfedIsIdentity(t + CRLF, false);
    TrimEolEnds(c);
    TrimEolKeeps(t, CRLF);
    assert (t + CRLF)[|t|..] == CRLF;
  }

  /** A text with every CRLF read as an LF; `cr` says whether a CR that may be half of one
      came just before. */
  function LfOnly(s: bytes, cr: bool): bytes {
    if s == [] then if cr then [CR] else []
    else if s[0] == LF then [LF] + LfOnly(s[1..], false)
    else (if cr then [CR] else []) + if s[0] == CR then LfOnly(s[1..], true) else [s[0]] + LfOnly(s[1..], false)
  }

  lemma {:induction false} CrlfedSaysTheSame(s: bytes, cr: bool)
    ensures LfOnly(Crlfed(s, cr), cr) == LfOnly(s, cr)
  {
    if s != [] {
      var t := Crlfed(s[1..], s[0] == CR);
      CrlfedSaysTheSame(s[1..], s[0] == CR);
      if s[0] == LF && !cr {
        Cons(CR, [LF] + t);
        Cons(LF, t);
        assert CRLF + t == [CR] + ([LF] + t);
      } else {
        Cons(s[0], t);
      }
    }
  }

  lemma {:induction false} CrlfedSum(a: bytes, b: bytes, cr: bool)
    ensures Crlfed(a + b, cr) == Crlfed(a, cr) + Crlfed(b, EndsCr(a, cr))
  {
    if a == [] {
      assert a + b == b;
    } else {
      HeadOfSum(a, b);
      CrlfedSum(a[1..], b, a[0] == CR);
      Assoc(if a[0] == LF && !cr then CRLF else [a[0]], Crlfed(a[1..], a[0] == CR), Crlfed(b, EndsCr(a, cr)));
    }
  }

  predicate LineEnds(s: bytes) { forall k :: 0 <= k < |s| ==> s[k] == CR || s[k] == LF }

  lemma {:induction false} CrlfedEnds(s: bytes, cr: bool)
    requires LineEnds(s)
    ensures LineEnds(Crlfed(s, cr))
  {
    if s != [] { CrlfedEnds(s[1..], s[0] == CR); }
  }

  lemma {:induction false} EndsCrIs(s: bytes, cr: bool)
    ensures EndsCr(s, cr) <==> if s == [] then cr else s[|s| - 1] == CR
  {
    if s != [] { EndsCrIs(s[1..], s[0] == CR); }
  }

  /** Where a text that does not end in a line end stops, its CRLFed form does. */
  lemma CrlfedStops(s: bytes, cr: bool)
    requires s != [] ==> s[|s| - 1] != CR && s[|s| - 1] != LF
    ensures var c := Crlfed(s, cr); if s == [] then c == [] else c != [] && c[|c| - 1] == s[|s| - 1]
  {
    if s != [] {
      var last: bytes := [s[|s| - 1]];
      var init := s[..|s| - 1];
      InitAndLast(s);
      CrlfedSum(init, last, cr);
      assert last[1..] == [];
      assert Crlfed(last, EndsCr(init, cr)) == last;
    }
  }

  lemma {:induction false} LfOnlyCrlf(s: bytes, cr: bool)
    requires s != [] ==> s[|s| - 1] != CR
    requires s == [] ==> !cr
    ensures LfOnly(s + CRLF, cr) == LfOnly(s, cr) + [LF]
  {
    if s == [] {
      assert s + CRLF == [CR, LF];
      Cons(CR, [LF]);
      assert [LF][1..] == [];
    } else {
      HeadOfSum(s, CRLF);
      if |s| == 1 {
        assert s[1..] == [];
        LfOnlyCrlf(s[1..], false);
      } else {
        LfOnlyCrlf(s[1..], s[0] == CR);
      }
    }
  }

  /** What normalising leaves of a message, line by line: everything up to its last octet
      that is no line end, and one line end after that. Line by line it says what it said. */
  lemma NormalisedSaysTheSame(text: bytes, ends: bytes)
    requires text != [] ==> text[|text| - 1] != CR && text[|text| - 1] != LF
    requires LineEnds(ends)
    ensures LfOnly(Normalised(text + ends), false) == LfOnly(text, false) + [LF]
  {
    var c := Crlfed(text, false);
    CrlfedSum(text, ends, false);
    CrlfedEnds(ends, EndsCr(text, false));
    CrlfedStops(text, false);
    EndsCrIs(text, false);
    TrimEolKeeps(c, Crlfed(ends, EndsCr(text, false)));
    CrlfedSaysTheSame(text, false);
    LfOnlyCrlf(c, false);
  }

  // ------------------------------------------------------------ line lengths

  /** The lengths of a message's lines, each with its LF; what follows the last LF counts
      as a line too, with the LF it would need. `n` octets of the first line went before. */
  function LineLengths(s: bytes, n: nat): (r: seq<nat>)
    ensures |r| > 0
  {
    if s == [] then [n + 1]
    else if s[0] == LF then [n + 1] + LineLengths(s[1..], 0)
    else LineLengths(s[1..], n + 1)
  }

  /** Line `line`, counted from 0, of `lens` is the first that is too long. */
  predicate FirstTooLong(lens: seq<nat>, line: nat) {
    && line < |lens| && lens[line] > MaxLineOctets
    && forall k :: 0 <= k < line ==> lens[k] <= MaxLineOctets
  }

  predicate AllFit(lens: seq<nat>) {
    forall k :: 0 <= k < |lens| ==> lens[k] <= MaxLineOctets
  }

  /** Every line of a message whose lengths all fit is at most that long. */
  lemma {:induction false} LinesFit(pre: bytes, l: bytes, post: bytes, n: nat)
    requires IsLine(l) && (pre == [] ==> n == 0) && EndsInLf(pre, true)
    requires AllFit(LineLengths(pre + (l + post), n))
    ensures |l| <= 1000
  {
    var s := pre + (l + post);
    if pre == [] {
      assert s == l + post;
      LengthOfLine(l, post, 0);
    } else {
      HeadOfSum(pre, l + post);
      var lens := LineLengths(s, n);
      if pre[0] == LF {
        assert lens[1..] == LineLengths(s[1..], 0);
        LinesFit(pre[1..], l, post, 0);
      } else {
        LinesFit(pre[1..], l, post, n + 1);
      }
    }
  }

  lemma {:induction false} LengthOfLine(l: bytes, post: bytes, n: nat)
    requires IsLine(l)
    ensures LineLengths(l + post, n)[0] == n + |l|
  {
    HeadOfSum(l, post);
    if l[0] != LF { LengthOfLine(l[1..], post, n + 1); }
  }

  // ------------------------------------------------------------- the loader

  function Flush(cur: bytes): seq<bytes> {
    if cur == [] then [] else [cur]
  }

  /** What reading goes on with after one more line: the message under way. */
  function Extended(cur: bytes, line: bytes, atStart: bool): bytes {
    if FROM <= line && atStart then []
    else if QUOTED <= line then cur + line[1..]
    else cur + line
  }

  function Completed(cur: bytes, line: bytes, atStart: bool): seq<bytes> {
    if FROM <= line && atStart then Flush(cur) else []
  }

  /** The messages of the file, unescaped, as they were stored. */
  function Raw(s: bytes, cur: bytes, atStart: bool): seq<bytes>
    decreases |s|
  {
    var r := ReadLine(s);
    if r.line == [] then Flush(cur)
    else
      Completed(cur, r.line, atStart)
      + (if r.eof then Flush(Extended(cur, r.line, atStart))
         else Raw(r.rest, Extended(cur, r.line, atStart), EndsInLf(r.line, false)))
  }

  function Map(f: bytes -> bytes, ms: seq<bytes>): (r: seq<bytes>)
    ensures |r| == |ms| && forall i :: 0 <= i < |ms| ==> r[i] == f(ms[i])
  {
    seq(|ms|, i requires 0 <= i < |ms| => f(ms[i]))
  }

  datatype Refusal =
    | NoMessages
    | LineTooLong(message: nat, line: nat, octets: nat)   // both counted from 1

  class Mbox {
    var messages: seq<bytes>
    var next: nat

    constructor ()
      ensures messages == [] && next == 0
    {
      messages, next := [], 0;
    }

    method Add(body: bytes)
      modifies `messages
      ensures messages == old(messages) + [Normalised(body)]
    {
      var out := WithCrlf(body);
      out := TrimEol(out);
      messages := messages + [out + CRLF];
    }

    /** Names the first offending line of the first offending message, or finds none. */
    method CheckLineLengths() returns (err: Option<Refusal>)
      ensures err.None? ==> forall i :: 0 <= i < |messages| ==> AllFit(LineLengths(messages[i], 0))
      ensures err.Some? ==>
                && err.value.LineTooLong? && 1 <= err.value.message <= |messages| && 1 <= err.value.line
                && (forall i :: 0 <= i < err.value.message - 1 ==> AllFit(LineLengths(messages[i], 0)))
                && var lens := LineLengths(messages[err.value.message - 1], 0);
                   FirstTooLong(lens, err.value.line - 1) && err.value.octets == lens[err.value.line - 1]
    {
      for i := 0 to |messages|
        invariant forall k :: 0 <= k < i ==> AllFit(LineLengths(messages[k], 0))
      {
        var bad, line, n := CheckMessage(messages[i]);
        if bad {
          return Some(LineTooLong(i + 1, line, n));
        }
      }
      return None;
    }

    /** Hands out the messages in turn, over and over. */
    method Next() returns (msg: bytes)
      requires messages != []
      modifies `next
      ensures msg == messages[old(next) % |messages|] && next == old(next) + 1
    {
      next := next + 1;
      msg := messages[(next - 1) % |messages|];
    }
  }

  method WithCrlf(body: bytes) returns (out: bytes)
    ensures out == Crlfed(body, false)
  {
    out := [];
    for i := 0 to |body|
      invariant out + Crlfed(body[i..], i > 0 && body[i - 1] == CR) == Crlfed(body, false)
    {
      assert body[i..][1..] == body[i + 1..];
      if body[i] == LF && (i == 0 || body[i - 1] != CR) {
        Assoc(out, CRLF, Crlfed(body[i + 1..], body[i] == CR));
        out := out + CRLF;
        continue;
      }
      Assoc(out, [body[i]], Crlfed(body[i + 1..], body[i] == CR));
      out := out + [body[i]];
    }
    assert body[|body|..] == [];
  }

  method CheckMessage(msg: bytes) returns (bad: bool, line: nat, n: nat)
    ensures bad ==> line > 0 && FirstTooLong(LineLengths(msg, 0), line - 1) && n == LineLengths(msg, 0)[line - 1]
    ensures !bad ==> AllFit(LineLengths(msg, 0))
  {
    line, n := 1, 0;
    var start := 0;
    ghost var before: seq<nat> := [];
    var j := 0;
    while j <= |msg|
      invariant 0 <= start <= j <= |msg| + 1
      invariant line == |before| + 1 && AllFit(before)
      invariant j <= |msg| ==> LineLengths(msg, 0) == before + LineLengths(msg[j..], j - start)
      invariant j > |msg| ==> LineLengths(msg, 0) == before
    {
      if j != |msg| {
        assert msg[j..][1..] == msg[j + 1..];
        if msg[j] != LF {
          j := j + 1;
          continue;
        }
      }
      // j is one past the line's last octet, its LF included.
      n := j - start + 1;
      var lens := LineLengths(msg[j..], j - start);
      assert lens[0] == n;
      if n > MaxLineOctets {
        return true, line, n;
      }
      if j < |msg| {
        assert before + ([n] + LineLengths(msg[j + 1..], 0)) == (before + [n]) + LineLengths(msg[j + 1..], 0);
      }
      before := before + [n];
      start := j + 1;
      line := line + 1;
      j := j + 1;
    }
    return false, line, n;
  }

  /** One more line of the file: the message under way is finished by a separator, which
      is not part of any message, and otherwise grows by the line, unescaped. */
  method TakeLine(m: Mbox, cur: bytes, line: bytes, atStart: bool) returns (more: bytes)
    modifies m`messages
    ensures m.messages == old(m.messages) + Map(Normalised, Completed(cur, line, atStart))
    ensures more == Extended(cur, line, atStart)
  {
    if FROM <= line && atStart {
      if cur != [] {
        m.Add(cur);
      }
      more := [];
    } else if QUOTED <= line {
      more := cur + line[1..];
    } else {
      more := cur + line;
    }
  }

  /** What remains to be read after a line. */
  function RawAfter(r: Read, cur: bytes, atStart: bool): seq<bytes> {
    if r.line == [] then Flush(cur)
    else if r.eof then Flush(Extended(cur, r.line, atStart))
    else Raw(r.rest, Extended(cur, r.line, atStart), EndsInLf(r.line, false))
  }

  function RawNow(r: Read, cur: bytes, atStart: bool): seq<bytes> {
    if r.line == [] then [] else Completed(cur, r.line, atStart)
  }

  lemma RawStep(s: bytes, cur: bytes, atStart: bool)
    ensures Raw(s, cur, atStart) == RawNow(ReadLine(s), cur, atStart) + RawAfter(ReadLine(s), cur, atStart)
  {
  }

  lemma MapSum(f: bytes -> bytes, before: seq<bytes>, a: seq<bytes>, b: seq<bytes>)
    ensures before + Map(f, a + b) == (before + Map(f, a)) + Map(f, b)
  {
  }

  method ReadMessages(m: Mbox, file: bytes)
    requires m.messages == []
    modifies m`messages
    ensures m.messages == Map(Normalised, Raw(file, [], true))
  {
    hide Raw, ReadLine, Map, Normalised, Completed, Extended;
    var br := new Reader(file);
    var cur: bytes := [];
    var atStart := true;
    ghost var all := Map(Normalised, Raw(file, [], true));
    var eof := false;
    while !eof
      invariant fresh(br)
      invariant eof ==> all == m.messages + Map(Normalised, Flush(cur))
      invariant !eof ==> all == m.messages + Map(Normalised, Raw(br.unread, cur, atStart))
      decreases !eof, |br.unread|
    {
      RawStep(br.unread, cur, atStart);
      MapSum(Normalised, m.messages, RawNow(ReadLine(br.unread), cur, atStart),
             RawAfter(ReadLine(br.unread), cur, atStart));
      var line, end := br.ReadString();
      if line != [] {
        cur := TakeLine(m, cur, line, atStart);
        atStart := HasSuffix(line, [LF]);
        assert line[|line| - 1..] == [line[|line| - 1]];
      }
      eof := end;
    }
    if cur != [] {
      m.Add(cur);
    }
  }

  /** What the loader makes of a file: the messages in their normal form, or a refusal
      that names the first line too long for SMTP. */
  method LoadMbox(file: bytes) returns (m: Mbox, err: Option<Refusal>)
    ensures fresh(m) && m.next == 0
    ensures m.messages == Map(Normalised, Raw(file, [], true))
    ensures err == Some(NoMessages) <==> Raw(file, [], true) == []
    ensures err.None? ==> forall i :: 0 <= i < |m.messages| ==> AllFit(LineLengths(m.messages[i], 0))
    ensures err.Some? && err.value.LineTooLong? ==>
              && 1 <= err.value.message <= |m.messages| && 1 <= err.value.line
              && (forall i :: 0 <= i < err.value.message - 1 ==> AllFit(LineLengths(m.messages[i], 0)))
              && var lens := LineLengths(m.messages[err.value.message - 1], 0);
                 FirstTooLong(lens, err.value.line - 1) && err.value.octets == lens[err.value.line - 1] > 1000
  {
    m := new Mbox();
    ReadMessages(m, file);
    if m.messages == [] {
      return m, Some(NoMessages);
    }
    err := m.CheckLineLengths();
  }

  // ------------------------------------------------------------ replay is exact

  /** Every message of an accepted file is one that receivers splitting at LF and
      receivers insisting on CRLF both get back octet for octet, with nothing beyond it
      touched, and none of whose lines exceeds what SMTP carries (section 4.5.3.1.6 of
      RFC 5321). */
  lemma ReplayIsExact(body: bytes, rest: bytes)
    ensures var m := Normalised(body);
            && Receive(Wire(m) + rest) == Message(m, rest)
            && StrictReceive(Wire(m) + rest) == Message(m, rest)
  {
    var m := Normalised(body);
    NormalForm(body);
    Transparent(m, rest);
    StrictTransparentIff(m, rest);
    NoBareLfNoBareDot(m, false, false);
    DotAfterBareLfMeans(m, false, false);
  }

  lemma {:induction false} NoBareLfNoBareDot(s: bytes, cr: bool, bare: bool)
    requires NoBareLf(s, cr) && !bare
    ensures !DotAfterBareLf(s, cr, bare)
  {
    if s != [] { NoBareLfNoBareDot(s[1..], s[0] == CR, s[0] == LF && !cr); }
  }

  // -------------------------------------------------------------- round trip

  function EscapedLine(l: bytes): bytes {
    if "From " <= l then ">" + l else l
  }

  function StrippedLine(l: bytes): bytes {
    if ">From " <= l then l[1..] else l
  }

  /** A message of whole lines as an mbox file holds it (RFC 4155, appendix A): a ">"
      before every line that would read as a separator. */
  function Escaped(t: bytes): bytes
    decreases |t|
  {
    var r := ReadLine(t);
    if r.eof then [] else EscapedLine(r.line) + Escaped(r.rest)
  }

  /** What reading takes such a message for: any ">From " loses its ">", whoever put it
      there. */
  function Stripped(t: bytes): bytes
    decreases |t|
  {
    var r := ReadLine(t);
    if r.eof then [] else StrippedLine(r.line) + Stripped(r.rest)
  }

  predicate HasQuotedLine(t: bytes)
    decreases |t|
  {
    var r := ReadLine(t);
    !r.eof && (">From " <= r.line || HasQuotedLine(r.rest))
  }

  /** A separator line, of which only its first five octets are looked at. */
  predicate IsSeparator(l: bytes) {
    IsLine(l) && "From " <= l
  }

  predicate WholeLines(m: bytes) {
    m != [] && EndsInLf(m, true)
  }

  function FileOf(seps: seq<bytes>, ms: seq<bytes>): bytes
    requires |seps| == |ms|
  {
    if ms == [] then [] else seps[0] + (Escaped(ms[0]) + FileOf(seps[1..], ms[1..]))
  }

  lemma LineIsNotEof(l: bytes, rest: bytes)
    requires IsLine(l)
    ensures ReadLine(l + rest) == Read(l, rest, false) && EndsInLf(l, false)
  {
    ReadWholeLine(l, rest);
    IsLineIff(l);
  }

  /** An escaped line reads back as the line, unless it was quoted to begin with. */
  lemma EscapedLineReads(l: bytes, cur: bytes, tail: bytes)
    requires IsLine(l)
    ensures Raw(EscapedLine(l) + tail, cur, true) == Raw(tail, cur + StrippedLine(l), true)
  {
    var e := EscapedLine(l);
    if FROM <= l {
      Cons('>', l);
      assert e[0] == '>' && e[1..] == l;
      assert QUOTED <= e by { assert e[1..6] == l[..5] == FROM; assert e[..6] == [e[0]] + e[1..6]; }
      assert !(QUOTED <= l) by { assert l[0] == FROM[0]; }
      assert IsLine(e);
    } else {
      assert e == l;
    }
    LineIsNotEof(e, tail);
    assert !(FROM <= e);
  }

  lemma SeparatorReads(sep: bytes, cur: bytes, tail: bytes)
    requires IsSeparator(sep)
    ensures Raw(sep + tail, cur, true) == Flush(cur) + Raw(tail, [], true)
  {
    LineIsNotEof(sep, tail);
  }

  lemma {:induction false} EscapedReads(t: bytes, cur: bytes, tail: bytes)
    requires EndsInLf(t, true)
    ensures Raw(Escaped(t) + tail, cur, true) == Raw(tail, cur + Stripped(t), true)
    decreases |t|
  {
    if t == [] {
      assert Escaped(t) + tail == tail && cur + Stripped(t) == cur;
    } else {
      var l, more := FirstLine(t);
      LineIsNotEof(l, more);
      Assoc(EscapedLine(l), Escaped(more), tail);
      EscapedLineReads(l, cur, Escaped(more) + tail);
      EscapedReads(more, cur + StrippedLine(l), tail);
      Assoc(cur, StrippedLine(l), Stripped(more));
    }
  }

  lemma StrippedIsNotEmpty(t: bytes)
    requires WholeLines(t)
    ensures Stripped(t) != []
  {
    var l, more := FirstLine(t);
    LineIsNotEof(l, more);
  }

  /** A separator finishes the message before it, and its message comes back. */
  lemma StoredMessageReads(sep: bytes, m: bytes, cur: bytes, tail: bytes)
    requires IsSeparator(sep) && WholeLines(m)
    ensures Raw(sep + (Escaped(m) + tail), cur, true) == Flush(cur) + Raw(tail, Stripped(m), true)
  {
    hide Raw, Escaped, Stripped, Flush, EndsInLf;
    SeparatorReads(sep, cur, Escaped(m) + tail);
    EscapedReads(m, [], tail);
    assert [] + Stripped(m) == Stripped(m);
  }

  lemma MapCons(f: bytes -> bytes, ms: seq<bytes>)
    requires ms != []
    ensures Map(f, ms) == [f(ms[0])] + Map(f, ms[1..])
  {
  }

  /** Every list of messages made of whole lines, written with any separators, is read
      back as that list, its lines unquoted once. */
  lemma {:induction false} FileReads(seps: seq<bytes>, ms: seq<bytes>, cur: bytes)
    requires |seps| == |ms| && (forall i :: 0 <= i < |ms| ==> IsSeparator(seps[i]) && WholeLines(ms[i]))
    ensures Raw(FileOf(seps, ms), cur, true) == Flush(cur) + Map(Stripped, ms)
  {
    if ms == [] {
      assert Flush(cur) + Map(Stripped, ms) == Flush(cur);
    } else {
      StoredMessageReads(seps[0], ms[0], cur, FileOf(seps[1..], ms[1..]));
      FileReads(seps[1..], ms[1..], Stripped(ms[0]));
      StrippedIsNotEmpty(ms[0]);
      MapCons(Stripped, ms);
    }
  }

  /** A file may end within a line, which is then its last message's last. */
  lemma UnfinishedReads(sep: bytes, m: bytes, last: bytes, cur: bytes)
    requires IsSeparator(sep) && EndsInLf(m, true) && last != [] && LF !in last
    ensures Raw(sep + (Escaped(m) + EscapedLine(last)), cur, true)
         == Flush(cur) + [Stripped(m) + StrippedLine(last)]
  {
    hide Escaped, Stripped, Flush, EndsInLf, EscapedLine, StrippedLine;
    SeparatorReads(sep, cur, Escaped(m) + EscapedLine(last));
    EscapedReads(m, [], EscapedLine(last));
    assert [] + Stripped(m) == Stripped(m);
    LastLineReads(last, Stripped(m));
  }

  lemma LastLineReads(last: bytes, cur: bytes)
    requires last != [] && LF !in last
    ensures Raw(EscapedLine(last), cur, true) == [cur + StrippedLine(last)]
  {
    var e := EscapedLine(last);
    if FROM <= last {
      EscapedIsQuoted(last);
    } else {
      assert e == last;
    }
    ReadsToTheEnd(e);
  }

  lemma EscapedIsQuoted(l: bytes)
    requires FROM <= l
    ensures var e := ">" + l; QUOTED <= e && e[1..] == l && !(FROM <= e) && !(QUOTED <= l)
  {
    var e := ">" + l;
    assert e[0] == '>' && e[1..] == l && l[0] == FROM[0];
    assert e[1..6] == l[..5] == FROM && e[..6] == [e[0]] + e[1..6];
  }

  lemma {:induction false} ReadsToTheEnd(s: bytes)
    requires LF !in s
    ensures ReadLine(s) == Read(s, [], true)
  {
    if s != [] {
      ReadsToTheEnd(s[1..]);
      HeadAndTail(s);
    }
  }

  /** What stands before the first separator is a message too. */
  lemma HeadlessReads(m: bytes, seps: seq<bytes>, ms: seq<bytes>)
    requires |seps| == |ms| && (forall i :: 0 <= i < |ms| ==> IsSeparator(seps[i]) && WholeLines(ms[i]))
    requires WholeLines(m)
    ensures Raw(Escaped(m) + FileOf(seps, ms), [], true) == [Stripped(m)] + Map(Stripped, ms)
  {
    hide Raw, Escaped, Stripped, FileOf, Map;
    EscapedReads(m, [], FileOf(seps, ms));
    assert [] + Stripped(m) == Stripped(m);
    StrippedIsNotEmpty(m);
    FileReads(seps, ms, Stripped(m));
  }

  /** The octets that normalisation never adds or takes away. */
  function Visible(s: bytes): nat {
    if s == [] then 0 else (if s[0] == CR || s[0] == LF then 0 else 1) + Visible(s[1..])
  }

  lemma {:induction false} VisibleSum(a: bytes, b: bytes)
    ensures Visible(a + b) == Visible(a) + Visible(b)
  {
    if a == [] {
      assert a + b == b;
    } else {
      HeadOfSum(a, b);
      VisibleSum(a[1..], b);
    }
  }

  lemma VisibleCrlf()
    ensures Visible(CRLF) == 0
  {
  }

  lemma {:induction false} VisibleCrlfed(s: bytes, cr: bool)
    ensures Visible(Crlfed(s, cr)) == Visible(s)
  {
    if s != [] {
      VisibleCrlfed(s[1..], s[0] == CR);
      VisibleCrlf();
      VisibleSum(if s[0] == LF && !cr then CRLF else [s[0]], Crlfed(s[1..], s[0] == CR));
      assert [s[0]][1..] == [];
    }
  }

  lemma {:induction false} VisibleTrimmed(s: bytes)
    ensures Visible(TrimEol(s)) == Visible(s)
  {
    if s != [] && (s[|s| - 1] == CR || s[|s| - 1] == LF) {
      VisibleTrimmed(s[..|s| - 1]);
      InitAndLast(s);
      VisibleSum(s[..|s| - 1], [s[|s| - 1]]);
      assert [s[|s| - 1]][1..] == [];
    }
  }

  lemma VisibleNormalised(s: bytes)
    ensures Visible(Normalised(s)) == Visible(s)
  {
    VisibleCrlfed(s, false);
    VisibleTrimmed(Crlfed(s, false));
    VisibleSum(TrimEol(Crlfed(s, false)), CRLF);
    VisibleCrlf();
  }

  /** Unquoting changes a message, and visibly so, exactly when some line of it starts
      with ">From ". */
  lemma {:induction false} StrippedIff(t: bytes)
    requires EndsInLf(t, true)
    ensures !HasQuotedLine(t) ==> Stripped(t) == t
    ensures HasQuotedLine(t) ==> Visible(Stripped(t)) < Visible(t)
    ensures Visible(Stripped(t)) <= Visible(t)
    decreases |t|
  {
    if t != [] {
      var l, more := FirstLine(t);
      LineIsNotEof(l, more);
      StrippedIff(more);
      VisibleSum(l, more);
      VisibleSum(StrippedLine(l), Stripped(more));
      if QUOTED <= l { assert l[0] == QUOTED[0]; }
    }
  }

  /** Mbox round trip: the written file loads as the same messages, in order, each in its
      normal form, if and only if none of them has a line that starts with ">From "
      already; the format's escaping cannot tell such a line from one it escaped. */
  lemma RoundTripIff(seps: seq<bytes>, ms: seq<bytes>)
    requires |seps| == |ms| && (forall i :: 0 <= i < |ms| ==> IsSeparator(seps[i]) && WholeLines(ms[i]))
    ensures Map(Normalised, Raw(FileOf(seps, ms), [], true)) == Map(Normalised, ms)
            <==> forall i :: 0 <= i < |ms| ==> !HasQuotedLine(ms[i])
  {
    FileReads(seps, ms, []);
    var raw := Raw(FileOf(seps, ms), [], true);
    assert raw == Map(Stripped, ms);
    forall i | 0 <= i < |ms|
      ensures Map(Normalised, raw)[i] == Map(Normalised, ms)[i] <==> !HasQuotedLine(ms[i])
    {
      StrippedIff(ms[i]);
      VisibleNormalised(ms[i]);
      VisibleNormalised(Stripped(ms[i]));
    }
  }
}
