/** internal/lmtp/lmtp.go:151-194 and internal/pop3drv/pop3.go:279-301: sending a message
    so that no line of it ends the transfer, and reading such a message back (section
    4.5.2 of RFC 5321, section 3 of RFC 1939). */
module DotStuffing {
  import opened Octets

  const DOT: octet := '.'

  /** The end of a transfer: a line holding only a dot. */
  const EOD: bytes := [DOT, CR, LF]

  // ------------------------------------------------------------- the sender

  function Emit(c: octet, atLineStart: bool): bytes {
    if atLineStart && c == DOT then [DOT, c] else [c]
  }

  /** The message with a dot put before every dot that starts a line. */
  function Stuffed(s: bytes, atLineStart: bool): bytes {
    if s == [] then [] else Emit(s[0], atLineStart) + Stuffed(s[1..], s[0] == LF)
  }

  predicate DottedLine(msg: bytes) {
    |msg| > 1 && ((msg[0] == LF && msg[1] == DOT) || DottedLine(msg[1..]))
  }

  predicate NeedsStuffing(msg: bytes) {
    (|msg| > 0 && msg[0] == DOT) || DottedLine(msg)
  }

  /** The shortcut for messages without a dotted line never changes the result. */
  lemma {:induction false} ShortcutIsHarmless(s: bytes, atLineStart: bool)
    requires !DottedLine(s) && (atLineStart && s != [] ==> s[0] != DOT)
    ensures Stuffed(s, atLineStart) == s
  {
    if s != [] {
      HeadAndTail(s);
      ShortcutIsHarmless(s[1..], s[0] == LF);
    }
  }

  method StuffDots(msg: bytes) returns (out: bytes)
    ensures out == Stuffed(msg, true)
  {
    if !NeedsStuffing(msg) {
      ShortcutIsHarmless(msg, true);
      return msg;
    }
    out := [];
    var atLineStart := true;
    for i := 0 to |msg|
      invariant out + Stuffed(msg[i..], atLineStart) == Stuffed(msg, true)
    {
      assert msg[i..][1..] == msg[i + 1..];
      Assoc(out, Emit(msg[i], atLineStart), Stuffed(msg[i + 1..], msg[i] == LF));
      ghost var extended := out + Emit(msg[i], atLineStart);
      if atLineStart && msg[i] == DOT {
        out := out + [DOT];
      }
      out := out + [msg[i]];
      assert out == extended;
      atLineStart := msg[i] == LF;
    }
  }

  function Terminator(msg: bytes): bytes {
    if HasSuffix(msg, CRLF) then EOD else CRLF + EOD
  }

  /** What a receiver should end up with: the message, its last line ended. */
  function Complete(msg: bytes): bytes {
    if HasSuffix(msg, CRLF) then msg else msg + CRLF
  }

  /** What goes on the wire for a message. */
  function Wire(msg: bytes): bytes {
    Stuffed(msg, true) + Terminator(msg)
  }

  predicate EndsInLf(a: bytes, before: bool) {
    if a == [] then before else a[|a| - 1] == LF
  }

  lemma {:induction false} StuffedSplit(a: bytes, b: bytes, f: bool)
    ensures Stuffed(a + b, f) == Stuffed(a, f) + Stuffed(b, EndsInLf(a, f))
  {
    if a == [] {
      assert a + b == b;
    } else {
      var t := a[1..];
      HeadOfSum(a, b);
      StuffedSplit(t, b, a[0] == LF);
      Assoc(Emit(a[0], f), Stuffed(t, a[0] == LF), Stuffed(b, EndsInLf(a, f)));
      assert EndsInLf(t, a[0] == LF) == EndsInLf(a, f);
    }
  }

  lemma StuffedCrlf(f: bool)
    ensures Stuffed(CRLF, f) == CRLF
  {
    var t: bytes := [LF];
    assert t[1..] == [] && Stuffed(t, false) == [LF];
    assert CRLF == [CR, LF] && CRLF[1..] == t;
  }

  lemma WireOfComplete(msg: bytes)
    ensures Wire(msg) == Stuffed(Complete(msg), true) + EOD
  {
    if !HasSuffix(msg, CRLF) {
      StuffedSplit(msg, CRLF, true);
      StuffedCrlf(EndsInLf(msg, true));
      Assoc(Stuffed(msg, true), CRLF, EOD);
    }
  }

  // ------------------------------------------------- receivers that read lines

  datatype Received = Message(text: bytes, rest: bytes) | Truncated

  function Unstuff(line: bytes): bytes {
    if line != [] && line[0] == DOT then line[1..] else line
  }

  /** A receiver that reads up to LF, stops at a line holding only a dot, and takes the
      leading dot off every other line. */
  function Receive(s: bytes): Received
    decreases |s|
  {
    var r := ReadLine(s);
    if r.eof then Truncated
    else if TrimEol(r.line) == [DOT] then Message([], r.rest)
    else
      var more := Receive(r.rest);
      if more.Truncated? then Truncated else Message(Unstuff(r.line) + more.text, more.rest)
  }

  /** `readMultiline`: how many lines there are before the lone dot, what is left after
      it, and whether it was there. */
  datatype Counted = Counted(lines: nat, rest: bytes, ok: bool)

  function CountLines(s: bytes): Counted
    decreases |s|
  {
    var r := ReadLine(s);
    if r.eof then Counted(0, r.rest, false)
    else if TrimEol(r.line) == [DOT] then Counted(0, r.rest, true)
    else
      var more := CountLines(r.rest);
      more.(lines := more.lines + 1)
  }

  method ReadMultiline(br: Reader) returns (n: nat, ok: bool)
    modifies br
    ensures var c := CountLines(old(br.unread)); n == c.lines && ok == c.ok && br.unread == c.rest
  {
    n := 0;
    ghost var whole := CountLines(br.unread);
    while true
      invariant var c := CountLines(br.unread); n + c.lines == whole.lines && c.rest == whole.rest && c.ok == whole.ok
      decreases |br.unread|
    {
      var line, eof := br.ReadString();
      if eof {
        return n, false;
      }
      if TrimEol(line) == [DOT] {
        return n, true;
      }
      n := n + 1;
    }
  }

  /** Past its start nothing of a line is stuffed. */
  lemma {:induction false} RestOfLine(l: bytes)
    requires IsLine(l)
    ensures Stuffed(l, false) == l
  {
    HeadAndTail(l);
    if l[0] != LF { RestOfLine(l[1..]); }
  }

  lemma StuffedStart(l: bytes)
    requires IsLine(l)
    ensures Stuffed(l, true) == Emit(l[0], true) + l[1..]
  {
    if l[0] == LF {
      assert l[1..] == [];
    } else {
      RestOfLine(l[1..]);
    }
  }

  lemma StuffedLine(l: bytes)
    requires IsLine(l)
    ensures Stuffed(l, true) == (if l[0] == DOT then [DOT] + l else l)
    ensures IsLine(Stuffed(l, true))
    ensures Unstuff(Stuffed(l, true)) == l
  {
    hide Stuffed;
    StuffedStart(l);
    HeadAndTail(l);
    if l[0] == DOT { Cons(DOT, l); }
  }

  /** No line of a stuffed message looks like the end of it. */
  lemma StuffedLineGoesOn(l: bytes)
    requires IsLine(l)
    ensures TrimEol(Stuffed(l, true)) != [DOT]
  {
    StuffedLine(l);
    var w := Stuffed(l, true);
    if l[0] == DOT {
      TrimKeeps(w, 2);
    } else {
      TrimEolIsPrefix(w);
    }
  }

  function Newlines(s: bytes): nat {
    if s == [] then 0 else (if s[0] == LF then 1 else 0) + Newlines(s[1..])
  }

  lemma {:induction false} NewlinesOfLine(l: bytes, b: bytes)
    requires IsLine(l)
    ensures Newlines(l + b) == 1 + Newlines(b)
  {
    HeadOfSum(l, b);
    if l[0] == LF {
      assert l[1..] + b == b;
    } else {
      NewlinesOfLine(l[1..], b);
    }
  }

  lemma LineComesBack(l: bytes, tail: bytes)
    requires IsLine(l) && Receive(tail).Message?
    ensures Receive(Stuffed(l, true) + tail) == Message(l + Receive(tail).text, Receive(tail).rest)
    ensures CountLines(Stuffed(l, true) + tail) == CountLines(tail).(lines := CountLines(tail).lines + 1)
  {
    StuffedLine(l);
    StuffedLineGoesOn(l);
    ReadWholeLine(Stuffed(l, true), tail);
  }

  lemma EndComesBack(rest: bytes)
    ensures Receive(EOD + rest) == Message([], rest)
    ensures CountLines(EOD + rest) == Counted(0, rest, true)
  {
    assert EOD[1..][1..] == [LF] && EOD[1..] == [CR, LF];
    assert IsLine(EOD);
    ReadWholeLine(EOD, rest);
    TrimEolKeeps([DOT], CRLF);
    assert [DOT] + CRLF == EOD;
  }

  lemma SplitWire(l: bytes, more: bytes, end: bytes)
    requires IsLine(l)
    ensures Stuffed(l + more, true) + end == Stuffed(l, true) + (Stuffed(more, true) + end)
  {
    IsLineIff(l);
    StuffedSplit(l, more, true);
    Assoc(Stuffed(l, true), Stuffed(more, true), end);
  }

  /** Every text of whole lines comes back, is counted, and nothing after it is touched. */
  lemma {:induction false} LinesComeBack(t: bytes, rest: bytes)
    requires EndsInLf(t, true)
    ensures Receive(Stuffed(t, true) + (EOD + rest)) == Message(t, rest)
    ensures CountLines(Stuffed(t, true) + (EOD + rest)) == Counted(Newlines(t), rest, true)
    decreases |t|
  {
    if t == [] {
      EndComesBack(rest);
      assert Stuffed(t, true) + (EOD + rest) == EOD + rest;
    } else {
      var l, more := FirstLine(t);
      LinesComeBack(more, rest);
      LineComesBack(l, Stuffed(more, true) + (EOD + rest));
      NewlinesOfLine(l, more);
      SplitWire(l, more, EOD + rest);
    }
  }

  /** The first line of a text of whole lines, and the lines after it. */
  lemma FirstLine(t: bytes) returns (l: bytes, more: bytes)
    requires t != [] && EndsInLf(t, true)
    ensures t == l + more && IsLine(l) && EndsInLf(more, true) && |more| < |t|
  {
    ReadLineSplits(t);
    l, more := ReadLine(t).line, ReadLine(t).rest;
    assert t[|t| - 1] in t;
    assert more != [] ==> more[|more| - 1] == t[|t| - 1];
  }

  /** Dot transparency with exact framing: whatever octets a message holds and whatever
      follows it on the connection, the receiver gets that message, its last line ended,
      and leaves exactly what followed; a POP3 client reading the same stream counts the
      message's lines and leaves the same. */
  lemma Transparent(msg: bytes, rest: bytes)
    ensures Receive(Wire(msg) + rest) == Message(Complete(msg), rest)
    ensures CountLines(Wire(msg) + rest) == Counted(Newlines(Complete(msg)), rest, true)
  {
    WireThenRest(msg, rest);
    CompleteEnds(msg);
    LinesComeBack(Complete(msg), rest);
  }

  lemma WireThenRest(msg: bytes, rest: bytes)
    ensures Wire(msg) + rest == Stuffed(Complete(msg), true) + (EOD + rest)
  {
    WireOfComplete(msg);
    Assoc(Stuffed(Complete(msg), true), EOD, rest);
  }

  lemma CompleteEnds(msg: bytes)
    ensures HasSuffix(Complete(msg), CRLF) && Complete(msg) != [] && EndsInLf(Complete(msg), true)
  {
  }

  // --------------------------------------------- receivers that insist on CRLF

  predicate NoCrlf(s: bytes) {
    |s| < 2 || (!(s[0] == CR && s[1] == LF) && NoCrlf(s[1..]))
  }

  /** Up to and including the first CRLF. */
  function ReadCrlf(s: bytes): (r: Read)
    ensures |r.line| + |r.rest| == |s|
    ensures !r.eof ==> |r.line| >= 2
  {
    if |s| < 2 then Read(s, [], true)
    else if s[0] == CR && s[1] == LF then Read(CRLF, s[2..], false)
    else
      var r := ReadCrlf(s[1..]);
      if r.eof then Read(s, [], true) else Read([s[0]] + r.line, r.rest, false)
  }

  lemma {:induction false} ReadCrlfExact(a: bytes, rest: bytes)
    requires NoCrlf(a)
    ensures ReadCrlf(a + (CRLF + rest)) == Read(a + CRLF, rest, false)
  {
    var s := a + (CRLF + rest);
    if a == [] {
      assert s == CRLF + rest;
      assert s[0] == CR && s[1] == LF && s[2..] == rest;
      assert a + CRLF == CRLF;
    } else {
      HeadOfSum(a, CRLF + rest);
      ReadCrlfExact(a[1..], rest);
      HeadAndTail(a);
      Assoc([a[0]], a[1..], CRLF);
      assert s[1] == if |a| > 1 then a[1] else CR;
    }
  }

  lemma SuffixOfTail(t: bytes, k: nat)
    requires HasSuffix(t, CRLF) && k <= |t| - 2
    ensures HasSuffix(t[k..], CRLF)
  {
  }

  lemma EndsInCrlf(t: bytes)
    requires HasSuffix(t, CRLF)
    ensures |t| >= 2 && t[|t| - 2] == CR && t[|t| - 1] == LF
  {
  }

  /** A text that ends in CRLF starts with a strict line. */
  lemma {:induction false} FirstStrictLine(t: bytes) returns (a: bytes, more: bytes)
    requires HasSuffix(t, CRLF)
    ensures t == a + (CRLF + more) && NoCrlf(a) && |more| < |t|
    ensures more != [] ==> HasSuffix(more, CRLF)
  {
    EndsInCrlf(t);
    if t[0] == CR && t[1] == LF {
      a, more := [], t[2..];
      assert t == CRLF + more;
      if more != [] {
        assert |t| > 3;
        SuffixOfTail(t, 2);
      }
    } else {
      SuffixOfTail(t, 1);
      var b;
      b, more := FirstStrictLine(t[1..]);
      a := StrictCons(t, b, more);
    }
  }

  lemma StrictCons(t: bytes, b: bytes, more: bytes) returns (a: bytes)
    requires |t| >= 2 && !(t[0] == CR && t[1] == LF) && NoCrlf(b) && t[1..] == b + (CRLF + more)
    ensures t == a + (CRLF + more) && NoCrlf(a)
  {
    a := [t[0]] + b;
    HeadAndTail(t);
    Assoc([t[0]], b, CRLF + more);
    Cons(t[0], b);
    assert b != [] ==> b[0] == t[1..][0];
  }

  /** A receiver for which only CRLF ends a line. */
  function StrictReceive(s: bytes): Received
    decreases |s|
  {
    var r := ReadCrlf(s);
    if r.eof then Truncated
    else if r.line == EOD then Message([], r.rest)
    else
      var more := StrictReceive(r.rest);
      if more.Truncated? then Truncated else Message(Unstuff(r.line) + more.text, more.rest)
  }

  /** What the strict receiver makes of a text: the dots it does not take off remain.
      `cr` and `bare` say whether a CR, or an LF that no CR precedes, came just before. */
  function WithBareDots(s: bytes, cr: bool, bare: bool): bytes {
    if s == [] then [] else Emit(s[0], bare) + WithBareDots(s[1..], s[0] == CR, s[0] == LF && !cr)
  }

  /** Some dot of the text follows an LF that no CR precedes. */
  predicate DotAfterBareLf(s: bytes, cr: bool, bare: bool) {
    s != [] && ((bare && s[0] == DOT) || DotAfterBareLf(s[1..], s[0] == CR, s[0] == LF && !cr))
  }

  /** Read by position, rather than from the left. */
  lemma {:induction false} DotAfterBareLfMeans(s: bytes, cr: bool, bare: bool)
    ensures DotAfterBareLf(s, cr, bare) <==> exists i :: IsBareDot(s, i, cr, bare)
  {
    if s != [] {
      var t, cr', bare' := s[1..], s[0] == CR, s[0] == LF && !cr;
      DotAfterBareLfMeans(t, cr', bare');
      forall i: nat ensures IsBareDot(t, i, cr', bare') == IsBareDot(s, i + 1, cr, bare) {}
      if i: nat :| IsBareDot(s, i, cr, bare) && i > 0 { assert IsBareDot(t, i - 1, cr', bare'); }
      if i: nat :| IsBareDot(t, i, cr', bare') { assert IsBareDot(s, i + 1, cr, bare); }
      assert IsBareDot(s, 0, cr, bare) == (bare && s[0] == DOT);
    }
  }

  predicate IsBareDot(s: bytes, i: nat, cr: bool, bare: bool) {
    && i < |s| && s[i] == DOT
    && (if i == 0 then bare else s[i - 1] == LF && !(if i == 1 then cr else s[i - 2] == CR))
  }

  /** The leftover dots are none exactly when no dot follows a bare LF. */
  lemma {:induction false} NoBareDots(s: bytes, cr: bool, bare: bool)
    ensures |WithBareDots(s, cr, bare)| >= |s|
    ensures WithBareDots(s, cr, bare) == s <==> !DotAfterBareLf(s, cr, bare)
  {
    if s != [] {
      var t, cr', bare' := s[1..], s[0] == CR, s[0] == LF && !cr;
      NoBareDots(t, cr', bare');
      var w := WithBareDots(t, cr', bare');
      HeadAndTail(s);
      if !(bare && s[0] == DOT) {
        assert WithBareDots(s, cr, bare) == [s[0]] + w;
        Cons(s[0], w);
      }
    }
  }

  predicate EndsBare(a: bytes, cr: bool, bare: bool) {
    if a == [] then bare else EndsBare(a[1..], a[0] == CR, a[0] == LF && !cr)
  }

  predicate EndsCr(a: bytes, cr: bool) {
    if a == [] then cr else EndsCr(a[1..], a[0] == CR)
  }

  lemma {:induction false} BareDotsSplit(a: bytes, b: bytes, cr: bool, bare: bool)
    ensures WithBareDots(a + b, cr, bare)
         == WithBareDots(a, cr, bare) + WithBareDots(b, EndsCr(a, cr), EndsBare(a, cr, bare))
  {
    if a == [] {
      assert a + b == b;
    } else {
      var t, cr', bare' := a[1..], a[0] == CR, a[0] == LF && !cr;
      HeadOfSum(a, b);
      BareDotsSplit(t, b, cr', bare');
      Assoc(Emit(a[0], bare), WithBareDots(t, cr', bare'), WithBareDots(b, EndsCr(a, cr), EndsBare(a, cr, bare)));
    }
  }

  lemma BareDotsCrlf(cr: bool, bare: bool)
    ensures WithBareDots(CRLF, cr, bare) == CRLF
  {
    var t: bytes := [LF];
    assert t[1..] == [] && WithBareDots(t, true, false) == [LF];
    assert CRLF == [CR, LF] && CRLF[1..] == t;
  }

  lemma CrlfEnds(cr: bool, bare: bool)
    ensures !EndsCr(CRLF, cr) && !EndsBare(CRLF, cr, bare)
  {
    var t: bytes, e: bytes := [LF], [];
    assert CRLF[0] == CR && CRLF[1..] == t && t[1..] == e;
    assert EndsCr(CRLF, cr) == EndsCr(t, true) == EndsCr(e, false) == false;
    assert EndsBare(CRLF, cr, bare) == EndsBare(t, true, false) == EndsBare(e, false, false) == false;
  }

  lemma {:induction false} EndsAfterCrlf(a: bytes, cr: bool, bare: bool)
    ensures !EndsCr(a + CRLF, cr) && !EndsBare(a + CRLF, cr, bare)
  {
    if a == [] {
      CrlfEnds(cr, bare);
      assert a + CRLF == CRLF;
    } else {
      HeadOfSum(a, CRLF);
      EndsAfterCrlf(a[1..], a[0] == CR, a[0] == LF && !cr);
    }
  }

  /** Within a strict line every LF is bare, so sender and receiver disagree about a dot
      only at the very start. */
  lemma {:induction false} StuffedStrictLine(a: bytes, cr: bool, bare: bool)
    requires NoCrlf(a) && (cr && a != [] ==> a[0] != LF)
    ensures Stuffed(a, bare) == WithBareDots(a, cr, bare)
  {
    if a != [] {
      StuffedStrictLine(a[1..], a[0] == CR, a[0] == LF && !cr);
    }
  }

  /** Stuffing never makes a CRLF. */
  lemma {:induction false} StuffedHasNoCrlf(a: bytes, f: bool)
    requires NoCrlf(a)
    ensures NoCrlf(Stuffed(a, f))
    ensures a != [] ==> Stuffed(a, f) != [] && (Stuffed(a, f)[0] == LF ==> a[0] == LF)
  {
    if a != [] {
      var t := Stuffed(a[1..], a[0] == LF);
      StuffedHasNoCrlf(a[1..], a[0] == LF);
      Cons(a[0], t);
      assert NoCrlf([a[0]] + t);
      if f && a[0] == DOT {
        Cons(DOT, [a[0]] + t);
        assert [DOT, a[0]] + t == [DOT] + ([a[0]] + t);
      }
    }
  }

  lemma UnstuffedStart(a: bytes)
    ensures Stuffed(a, true) != [DOT]
    ensures Unstuff(Stuffed(a, true) + CRLF) == Stuffed(a, false) + CRLF
  {
  }

  /** A strict line as it is sent, and what the strict receiver makes of it. */
  lemma StrictLineComesBack(a: bytes)
    requires NoCrlf(a)
    ensures Stuffed(a + CRLF, true) == Stuffed(a, true) + CRLF
    ensures Stuffed(a, true) != [DOT]
    ensures Unstuff(Stuffed(a, true) + CRLF) == WithBareDots(a + CRLF, false, false)
  {
    StuffedSplit(a, CRLF, true);
    StuffedCrlf(EndsInLf(a, true));
    BareDotsSplit(a, CRLF, false, false);
    BareDotsCrlf(EndsCr(a, false), EndsBare(a, false, false));
    StuffedStrictLine(a, false, false);
    UnstuffedStart(a);
  }

  lemma StrictStep(a: bytes, tail: bytes)
    requires NoCrlf(a) && StrictReceive(tail).Message?
    ensures StrictReceive(Stuffed(a + CRLF, true) + tail)
         == Message(WithBareDots(a + CRLF, false, false) + StrictReceive(tail).text, StrictReceive(tail).rest)
  {
    hide Stuffed, WithBareDots, NoCrlf, ReadCrlf;
    StrictLineComesBack(a);
    StuffedHasNoCrlf(a, true);
    var w := Stuffed(a, true);
    ReadCrlfExact(w, tail);
    Assoc(w, CRLF, tail);
    assert (w + CRLF)[..|w|] == w && EOD[..1] == [DOT];
  }

  lemma StrictEnd(rest: bytes)
    ensures StrictReceive(EOD + rest) == Message([], rest)
  {
    ReadCrlfExact([DOT], rest);
    assert [DOT] + CRLF == EOD;
    Assoc([DOT], CRLF, rest);
  }

  lemma SplitStrictWire(a: bytes, more: bytes, end: bytes)
    ensures Stuffed(a + (CRLF + more), true) + end == Stuffed(a + CRLF, true) + (Stuffed(more, true) + end)
    ensures WithBareDots(a + (CRLF + more), false, false)
         == WithBareDots(a + CRLF, false, false) + WithBareDots(more, false, false)
  {
    Assoc(a, CRLF, more);
    StuffedSplit(a + CRLF, more, true);
    BareDotsSplit(a + CRLF, more, false, false);
    EndsAfterCrlf(a, false, false);
    assert (a + CRLF)[|a + CRLF| - 1] == LF;
    Assoc(Stuffed(a + CRLF, true), Stuffed(more, true), end);
  }

  lemma {:induction false} StrictLinesComeBack(t: bytes, rest: bytes)
    requires t != [] ==> HasSuffix(t, CRLF)
    ensures StrictReceive(Stuffed(t, true) + (EOD + rest)) == Message(WithBareDots(t, false, false), rest)
    decreases |t|
  {
    if t == [] {
      StrictEnd(rest);
      assert Stuffed(t, true) + (EOD + rest) == EOD + rest;
    } else {
      var a, more := FirstStrictLine(t);
      StrictLinesComeBack(more, rest);
      StrictStep(a, Stuffed(more, true) + (EOD + rest));
      SplitStrictWire(a, more, EOD + rest);
    }
  }

  /** Completing a message adds no dot that follows a bare LF. */
  lemma {:induction false} CompletionAddsNoDot(a: bytes, cr: bool, bare: bool)
    ensures DotAfterBareLf(a + CRLF, cr, bare) == DotAfterBareLf(a, cr, bare)
  {
    if a == [] {
      var t: bytes := [LF];
      assert a + CRLF == [CR, LF] && (a + CRLF)[1..] == t && t[1..] == [];
      assert !DotAfterBareLf(t, true, false);
    } else {
      HeadOfSum(a, CRLF);
      CompletionAddsNoDot(a[1..], a[0] == CR, a[0] == LF && !cr);
    }
  }

  /** Exactly when a CRLF-only receiver gets the message as it was sent: when no dot of it
      follows an LF that no CR precedes. The sender stuffs after every LF; such a receiver
      unstuffs only after CRLF. Framing is never at risk: it always leaves `rest`. */
  lemma StrictTransparentIff(msg: bytes, rest: bytes)
    ensures var got := StrictReceive(Wire(msg) + rest);
            && got.Message? && got.rest == rest
            && (got.text == Complete(msg) <==> !exists i :: IsBareDot(msg, i, false, false))
  {
    WireThenRest(msg, rest);
    CompleteEnds(msg);
    StrictLinesComeBack(Complete(msg), rest);
    NoBareDots(Complete(msg), false, false);
    CompletionAddsNoDot(msg, false, false);
    DotAfterBareLfMeans(msg, false, false);
  }

  /** Every transfer ends in a line with a full stop and nothing else, and a full stop that
      starts a line is sent twice. */
  lemma FullStops(msg: bytes)
    ensures HasSuffix(Wire(msg), "\r\n.\r\n")
    ensures Wire(".") == "..\r\n.\r\n"
  {
    var all := Complete(msg);
    var a := all[..|all| - 2];
    assert all == a + CRLF;
    WireOfComplete(msg);
    StuffedSplit(a, CRLF, true);
    StuffedCrlf(EndsInLf(a, true));
    EndOfTransfer(Stuffed(a, true), EOD);
    WireOfComplete(".");
    StopIsDoubled();
  }

  lemma EndOfTransfer(s: bytes, eod: bytes)
    requires eod == ".\r\n"
    ensures HasSuffix((s + CRLF) + eod, "\r\n.\r\n")
  {
    assert CRLF + eod == "\r\n.\r\n";
    assert (s + CRLF) + eod == s + (CRLF + eod);
  }

  lemma StopIsDoubled()
    ensures Stuffed(Complete("."), true) + EOD == "..\r\n.\r\n"
  {
    var t: bytes := ".";
    assert t[1..] == [];
    StuffedSplit(t, CRLF, true);
    StuffedCrlf(false);
    assert Stuffed(t, true) == "..";
  }

  /** The end of a text stands whatever arrives after it. */
  lemma {:induction false} EndIsFinal(s: bytes, t: bytes)
    ensures Receive(s).Message? ==> Receive(s + t) == Message(Receive(s).text, Receive(s).rest + t)
    ensures CountLines(s).ok ==> CountLines(s + t) == Counted(CountLines(s).lines, CountLines(s).rest + t, true)
    decreases |s|
  {
    hide ReadLine, TrimEol;
    var r := ReadLine(s);
    if !r.eof {
      LineIsFinal(s, t);
      if TrimEol(r.line) != [DOT] { EndIsFinal(r.rest, t); }
    }
  }

  /** A text that is cut short, wherever that is, is not taken for a whole one. */
  lemma CutShortIsNoticed(msg: bytes, k: nat)
    requires k < |Wire(msg)|
    ensures Receive(Wire(msg)[..k]) == Truncated && !CountLines(Wire(msg)[..k]).ok
  {
    hide Receive, CountLines, Wire;
    var cut, left := Wire(msg)[..k], Wire(msg)[k..];
    Transparent(msg, []);
    assert Wire(msg) + [] == Wire(msg) == cut + left && |left| > 0;
    EndLeaves(cut, left);
  }

  lemma EndLeaves(s: bytes, t: bytes)
    ensures Receive(s).Message? ==> Receive(s + t).Message? && |Receive(s + t).rest| >= |t|
    ensures CountLines(s).ok ==> |CountLines(s + t).rest| >= |t|
  {
    hide Receive, CountLines;
    EndIsFinal(s, t);
  }
}
