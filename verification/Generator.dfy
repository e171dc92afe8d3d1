/** internal/corpus/corpus.go: the generated messages, their size and their lines. What is
    drawn at random, the clock's text and the recipient's hash come in as parameters. */
module Generator {
  import opened Octets
  import opened DotStuffing
  import MboxCorpus

  // ------------------------------------------------------- texts of mail lines

  /** A line as mail carries it, no longer than `width` with its CRLF. */
  predicate MailLine(l: bytes, width: nat) {
    IsLine(l) && HasSuffix(l, CRLF) && l[0] != DOT && |l| <= width
  }

  /** Nothing but such lines. */
  predicate MailText(s: bytes, width: nat)
    decreases |s|
  {
    s == [] || var r := ReadLine(s); !r.eof && MailLine(r.line, width) && MailText(r.rest, width)
  }

  lemma LineBeforeText(l: bytes, b: bytes, width: nat)
    requires MailLine(l, width) && MailText(b, width)
    ensures MailText(l + b, width)
  {
    ReadWholeLine(l, b);
  }

  lemma OneLine(l: bytes, width: nat)
    requires MailLine(l, width)
    ensures MailText(l, width)
  {
    LineBeforeText(l, [], width);
    assert l + [] == l;
  }

  lemma {:induction false} TextBeforeText(a: bytes, b: bytes, width: nat)
    requires MailText(a, width) && MailText(b, width)
    ensures MailText(a + b, width)
    decreases |a|
  {
    if a == [] {
      assert a + b == b;
    } else {
      var r := ReadLine(a);
      ReadLineSplits(a);
      TextBeforeText(r.rest, b, width);
      Assoc(r.line, r.rest, b);
      LineBeforeText(r.line, r.rest + b, width);
    }
  }

  lemma {:induction false} Widened(s: bytes, width: nat, wider: nat)
    requires MailText(s, width) && width <= wider
    ensures MailText(s, wider)
    decreases |s|
  {
    if s != [] { Widened(ReadLine(s).rest, width, wider); }
  }

  function Line(text: bytes): bytes { text + CRLF }

  lemma LineIsMail(text: bytes, width: nat)
    requires LF !in text && |text| + 2 <= width && (text != [] ==> text[0] != DOT)
    ensures MailLine(Line(text), width)
  {
    var l := Line(text);
    assert l[..|l| - 1] == text + [CR];
    assert l[|text|..] == CRLF;
    IsLineIff(l);
  }

  /** One line of a text: what it gives the text. */
  lemma LineOfText(s: bytes, width: nat)
    requires s != [] && MailText(s, width)
    ensures var r := ReadLine(s); s == r.line + r.rest && MailLine(r.line, width) && MailText(r.rest, width)
  {
    ReadLineSplits(s);
  }

  lemma {:induction false} LineNeedsNoStuffing(l: bytes, cr: bool)
    requires IsLine(l) && HasSuffix(l, CRLF)
    ensures MboxCorpus.NoBareLf(l, cr)
    decreases |l|
  {
    IsLineIff(l);
    assert l[|l| - 2..][0] == CR;
    if l[0] != LF {
      var t := l[1..];
      if |l| > 2 {
        assert t[|t| - 2..] == l[|l| - 2..];
        LineNeedsNoStuffing(t, l[0] == CR);
      } else {
        assert t == [LF] && t[1..] == [];
      }
    }
  }

  lemma {:induction false} NoBareLfSum(a: bytes, b: bytes, cr: bool)
    requires MboxCorpus.NoBareLf(a, cr) && MboxCorpus.NoBareLf(b, false) && EndsInLf(a, true)
    ensures MboxCorpus.NoBareLf(a + b, cr)
  {
    if a == [] {
      assert a + b == b;
      AnyStart(b, cr);
    } else {
      HeadOfSum(a, b);
      NoBareLfSum(a[1..], b, a[0] == CR);
    }
  }

  lemma AnyStart(b: bytes, cr: bool)
    requires MboxCorpus.NoBareLf(b, false)
    ensures MboxCorpus.NoBareLf(b, cr)
  {
  }

  lemma {:induction false} LengthsOfSum(l: bytes, b: bytes, n: nat)
    requires IsLine(l)
    ensures MboxCorpus.LineLengths(l + b, n) == [n + |l|] + MboxCorpus.LineLengths(b, 0)
  {
    HeadOfSum(l, b);
    if l[0] == LF {
      assert l[1..] + b == b;
    } else {
      LengthsOfSum(l[1..], b, n + 1);
    }
  }

  /** What mail lines come to: no bare LF, no line over the limit, CRLF at the end, and
      nothing for stuffing to stuff. */
  ghost predicate Travels(s: bytes) {
    && Stuffed(s, true) == s && EndsInLf(s, true)
    && MboxCorpus.NoBareLf(s, false)
    && MboxCorpus.AllFit(MboxCorpus.LineLengths(s, 0))
    && (s != [] ==> HasSuffix(s, CRLF))
  }

  lemma StuffedSum(l: bytes, rest: bytes)
    requires MailLine(l, MboxCorpus.MaxLineOctets) && Stuffed(rest, true) == rest
    ensures Stuffed(l + rest, true) == l + rest
  {
    IsLineIff(l);
    StuffedSplit(l, rest, true);
    StuffedLine(l);
  }

  lemma LineTravels(l: bytes, rest: bytes)
    requires MailLine(l, MboxCorpus.MaxLineOctets) && Travels(rest)
    ensures Travels(l + rest)
  {
    IsLineIff(l);
    StuffedSum(l, rest);
    LineNeedsNoStuffing(l, false);
    NoBareLfSum(l, rest, false);
    LengthsOfSum(l, rest, 0);
    SuffixOfSum(l, rest);
  }

  lemma {:induction false} MailTextTravels(s: bytes)
    requires MailText(s, MboxCorpus.MaxLineOctets)
    ensures Travels(s)
    decreases |s|
  {
    if s != [] {
      LineOfText(s, MboxCorpus.MaxLineOctets);
      MailTextTravels(ReadLine(s).rest);
      LineTravels(ReadLine(s).line, ReadLine(s).rest);
    }
  }

  lemma SuffixOfSum(l: bytes, rest: bytes)
    requires HasSuffix(l, CRLF) && (rest != [] ==> HasSuffix(rest, CRLF))
    ensures HasSuffix(l + rest, CRLF)
  {
  }

  // ------------------------------------------------------------- the word filler

  /** Ten words, as many as a filler line holds. */
  type Vocabulary = ws: seq<bytes> | |ws| == 10 witness [[], [], [], [], [], [], [], [], [], []]

  function Word(ws: Vocabulary, i: nat): bytes { ws[i % 10] + " " }

  function Break(i: nat): bytes { if (i + 1) % 10 == 0 then CRLF else [] }

  /** Words from the `i`-th on, as many as it takes to fill `room`, and a line end. */
  function Words(ws: Vocabulary, i: nat, room: int): bytes
    decreases room
  {
    if room <= 0 then CRLF
    else (Word(ws, i) + Break(i)) + Words(ws, i + 1, room - |Word(ws, i) + Break(i)|)
  }

  class Buffer {
    var text: bytes

    constructor ()
      ensures text == []
    {
      text := [];
    }

    method Write(s: bytes)
      modifies this
      ensures text == old(text) + s
    {
      text := text + s;
    }
  }

  /** What pads a text of `used` octets up to `target`. */
  function Filler(ws: Vocabulary, used: nat, target: int): bytes {
    if used >= target then [] else Words(ws, 0, target - used)
  }

  method WriteFiller(b: Buffer, words: Vocabulary, target: int)
    modifies b
    ensures b.text == old(b.text) + Filler(words, |old(b.text)|, target)
  {
    if |b.text| >= target {
      return;
    }
    var line := 0;
    ghost var all := b.text + Words(words, 0, target - |b.text|);
    while |b.text| < target
      invariant b.text + Words(words, line, target - |b.text|) == all
      decreases target - |b.text|
    {
      ghost var next := Word(words, line) + Break(line);
      ghost var more := b.text + next;
      Assoc(b.text, next, Words(words, line + 1, target - |b.text| - |next|));
      b.Write(words[line % |words|]);
      b.Write(" ");
      line := line + 1;
      if line % 10 == 0 {
        b.Write(CRLF);
      }
      assert b.text == more;
    }
    b.Write(CRLF);
  }

  /** The first `k` words of a filler line. */
  function Row(ws: Vocabulary, k: nat): bytes
    requires k <= 10
  {
    if k == 0 then [] else Row(ws, k - 1) + (ws[k - 1] + " ")
  }

  /** Words that make filler lines of at most ninety octets and starts no line with a dot;
      the last one, after which the line ends, is not among the longest. */
  predicate Usable(ws: Vocabulary) {
    && (forall k :: 0 <= k < 10 ==> 0 < |ws[k]| <= 10 && LF !in ws[k] && ws[k][0] != DOT)
    && |ws[9]| <= 8 && |Row(ws, |ws|)| <= 88
  }

  /** The filler ends within twelve octets of its target. */
  lemma {:induction false} WordsLength(ws: Vocabulary, i: nat, room: int)
    requires Usable(ws) && room > 0
    ensures room + 2 <= |Words(ws, i, room)| <= room + 12
    decreases room
  {
    var left := room - |Word(ws, i) + Break(i)|;
    WordIsShort(ws, i);
    if left > 0 { WordsLength(ws, i + 1, left); }
  }

  lemma WordIsShort(ws: Vocabulary, i: nat)
    requires Usable(ws)
    ensures 1 < |Word(ws, i) + Break(i)| <= 11
  {
  }

  lemma {:induction false} RowIsClean(ws: Vocabulary, k: nat)
    requires Usable(ws) && k <= 10
    ensures LF !in Row(ws, k) && (Row(ws, k) != [] ==> Row(ws, k)[0] != DOT)
  {
    if k > 0 { RowIsClean(ws, k - 1); }
  }

  lemma {:induction false} RowIsShorter(ws: Vocabulary, k: nat, n: nat)
    requires k <= n <= 10
    ensures |Row(ws, k)| <= |Row(ws, n)|
  {
    if k < n { RowIsShorter(ws, k, n - 1); }
  }

  lemma RowIsLine(ws: Vocabulary, k: nat)
    requires Usable(ws) && k <= 10
    ensures MailLine(Line(Row(ws, k)), 90)
  {
    RowIsClean(ws, k);
    RowIsShorter(ws, k, |ws|);
    LineIsMail(Row(ws, k), 90);
  }

  lemma Regrouped(row: bytes, word: bytes, end: bytes, more: bytes)
    ensures row + ((word + end) + more) == ((row + word) + end) + more
  {
  }

  lemma WithBreak(row: bytes, i: nat)
    ensures row + Break(i) == if i % 10 < 9 then row else Line(row)
  {
  }

  lemma RowNext(ws: Vocabulary, i: nat)
    ensures Row(ws, i % 10 + 1) == Row(ws, i % 10) + Word(ws, i)
    ensures i % 10 < 9 ==> (i + 1) % 10 == i % 10 + 1
  {
  }

  /** A word more: the line under way grows, or ends after the tenth. */
  lemma OneWordMore(ws: Vocabulary, i: nat, more: bytes)
    ensures var row := Row(ws, i % 10 + 1);
            Row(ws, i % 10) + ((Word(ws, i) + Break(i)) + more) == (if i % 10 < 9 then row else Line(row)) + more
  {
    RowNext(ws, i);
    Regrouped(Row(ws, i % 10), Word(ws, i), Break(i), more);
    WithBreak(Row(ws, i % 10 + 1), i);
  }

  lemma WordsGoOn(ws: Vocabulary, i: nat, more: bytes)
    requires Usable(ws) && MailText(Row(ws, (i + 1) % 10) + more, 90)
    ensures MailText((if i % 10 < 9 then Row(ws, i % 10 + 1) else Line(Row(ws, i % 10 + 1))) + more, 90)
  {
    if i % 10 == 9 {
      RowIsLine(ws, i % 10 + 1);
      NextRowIsEmpty(ws, i, more);
      LineBeforeText(Line(Row(ws, i % 10 + 1)), more, 90);
    } else {
      RowNext(ws, i);
    }
  }

  lemma NextRowIsEmpty(ws: Vocabulary, i: nat, more: bytes)
    requires i % 10 == 9
    ensures Row(ws, (i + 1) % 10) + more == more
  {
  }

  /** A filler line under way, and the rest of the filler. */
  function FromRow(ws: Vocabulary, i: nat, room: int): bytes {
    Row(ws, i % 10) + Words(ws, i, room)
  }

  lemma OneWordBefore(ws: Vocabulary, i: nat, room: int)
    requires Usable(ws) && room > 0 && MailText(FromRow(ws, i + 1, room - |Word(ws, i) + Break(i)|), 90)
    ensures MailText(FromRow(ws, i, room), 90)
  {
    hide MailText, Usable, Row, Word, Break;
    var more := Words(ws, i + 1, room - |Word(ws, i) + Break(i)|);
    WordsGoOn(ws, i, more);
    OneWordMore(ws, i, more);
  }

  lemma LastRow(ws: Vocabulary, i: nat, room: int)
    requires Usable(ws) && room <= 0
    ensures MailText(FromRow(ws, i, room), 90)
  {
    RowIsLine(ws, i % 10);
    OneLine(Line(Row(ws, i % 10)), 90);
  }

  /** No filler line, the one under way included, is longer than ninety octets or starts
      with a dot. */
  lemma {:induction false} WordsAreMail(ws: Vocabulary, i: nat, room: int)
    requires Usable(ws)
    ensures MailText(FromRow(ws, i, room), 90)
    decreases room
  {
    hide MailText, Usable, FromRow, Word, Break;
    if room <= 0 {
      LastRow(ws, i, room);
    } else {
      WordIsShort(ws, i);
      WordsAreMail(ws, i + 1, room - |Word(ws, i) + Break(i)|);
      OneWordBefore(ws, i, room);
    }
  }

  // ----------------------------------------------------------- the base64 filler

  const UPPER: bytes := "ABCDEFGHIJKLMNOPQRSTUVWXYZ"
  const LOWER: bytes := "abcdefghijklmnopqrstuvwxyz"
  const OTHER: bytes := "0123456789+/"
  const ALPHABET: bytes := (UPPER + LOWER) + OTHER

  /** `k` octets of payload when `w` went before: the index runs twice as fast as the
      count, since both of its parts grow. */
  function Coded(w: nat, k: nat): bytes {
    seq(k, i requires 0 <= i < k => ALPHABET[(w + 2 * i) % 64])
  }

  function Payload(w: nat, n: int): bytes
    decreases n - w
  {
    if w >= n then []
    else
      var k := if n - w < 76 then n - w else 76;
      Line(Coded(w, k)) + Payload(w + k, n)
  }

  method WriteCodedLine(w: nat, n: int) returns (line: bytes, written: nat)
    requires w < n
    ensures written == w + if n - w < 76 then n - w else 76
    ensures line == Coded(w, written - w)
  {
    var alphabet := ALPHABET;
    line, written := [], w;
    var i := 0;
    while i < 76 && written < n
      invariant 0 <= i <= 76 && written == w + i <= n && line == Coded(w, i)
    {
      line := line + [alphabet[(written + i) % |alphabet|]];
      written := written + 1;
      i := i + 1;
    }
  }

  method WriteBase64Filler(b: Buffer, n: int)
    modifies b
    ensures b.text == old(b.text) + Payload(0, n)
  {
    if n <= 0 {
      return;
    }
    var written := 0;
    ghost var all := b.text + Payload(0, n);
    while written < n
      invariant b.text + Payload(written, n) == all
    {
      ghost var w := written;
      var line;
      line, written := WriteCodedLine(written, n);
      Assoc(b.text, Line(line), Payload(written, n));
      Assoc(b.text, line, CRLF);
      b.Write(line);
      b.Write(CRLF);
    }
  }

  function Lines(n: nat): nat { (n + 75) / 76 }

  /** The payload is `n` octets and a line end for every started 76 of them. */
  lemma {:induction false} PayloadLength(w: nat, n: int)
    requires w <= n
    ensures |Payload(w, n)| == (n - w) + 2 * Lines(n - w)
    decreases n - w
  {
    if w < n {
      var k := if n - w < 76 then n - w else 76;
      PayloadLength(w + k, n);
    }
  }

  predicate Tame(s: bytes, n: nat) { |s| == n && LF !in s && DOT !in s }

  lemma TameSum(a: bytes, m: nat, b: bytes, n: nat)
    requires Tame(a, m) && Tame(b, n)
    ensures Tame(a + b, m + n)
  {
  }

  lemma UpperIsTame()
    ensures Tame(UPPER, 26)
  {
  }

  lemma LowerIsTame()
    ensures Tame(LOWER, 26)
  {
  }

  lemma OtherIsTame()
    ensures Tame(OTHER, 12)
  {
  }

  lemma AlphabetIsTame()
    ensures Tame(ALPHABET, 64)
  {
    hide Tame;
    UpperIsTame();
    LowerIsTame();
    OtherIsTame();
    TameSum(UPPER, 26, LOWER, 26);
    TameSum(UPPER + LOWER, 52, OTHER, 12);
  }

  lemma CodedIsPlain(w: nat, k: nat)
    ensures LF !in Coded(w, k) && DOT !in Coded(w, k)
  {
    AlphabetIsTame();
  }

  lemma {:induction false} PayloadIsMail(w: nat, n: int)
    ensures MailText(Payload(w, n), 78)
    decreases n - w
  {
    if w < n {
      var k := if n - w < 76 then n - w else 76;
      PayloadIsMail(w + k, n);
      CodedIsPlain(w, k);
      LineIsMail(Coded(w, k), 78);
      LineBeforeText(Line(Coded(w, k)), Payload(w + k, n), 78);
    }
  }

  // ------------------------------------------------------------------ messages

  function Joined(ls: seq<bytes>): bytes {
    if ls == [] then [] else Line(ls[0]) + Joined(ls[1..])
  }

  /** A line that fits the limit, with its CRLF, and that nothing has to be done to. */
  predicate Plain(l: bytes) {
    LF !in l && |l| <= 998 && (l != [] ==> l[0] != DOT)
  }

  lemma {:induction false} JoinedIsMail(ls: seq<bytes>)
    requires forall i :: 0 <= i < |ls| ==> Plain(ls[i])
    ensures MailText(Joined(ls), 1000)
    ensures ls != [] ==> Joined(ls) != []
  {
    if ls != [] {
      JoinedIsMail(ls[1..]);
      LineIsMail(ls[0], 1000);
      LineBeforeText(Line(ls[0]), Joined(ls[1..]), 1000);
    }
  }

  lemma {:induction false} JoinedAppend(ls: seq<bytes>, l: bytes)
    ensures Joined(ls + [l]) == Joined(ls) + Line(l)
  {
    if ls == [] {
      assert ls + [l] == [l] && [l][1..] == [];
    } else {
      assert (ls + [l])[1..] == ls[1..] + [l];
      JoinedAppend(ls[1..], l);
      Assoc(Line(ls[0]), Joined(ls[1..]), Line(l));
    }
  }

  /** The lines of a message that are always the same. */
  datatype Fixed = Fixed(mime: bytes, plain: bytes, mixed: bytes, boundary: bytes,
                         payload: bytes, encoding: bytes, disposition: bytes, closing: bytes,
                         words: Vocabulary)

  function Typed(text: bytes): bytes { "Content-Type: " + text }
  function PlainType(): bytes { "text/plain; " + "charset=utf-8" }
  function MixedType(): bytes { "multipart/mixed; " + ("boundary=" + Boundary()) }
  function PayloadType(): bytes { "application/" + ("octet-stream; " + "name=payload.bin") }
  function Boundary(): bytes { "yarilo-loadtest" + "-boundary" }
  function Encoding(): bytes { "Content-Transfer" + "-Encoding: base64" }
  function Disposition(): bytes { "Content-Disposition: " + ("attachment; " + "filename=payload.bin") }

  function Terms(): Vocabulary {
    ["delivery", "mailbox", "index", "search", "message",
     "attachment", "throughput", "latency", "checkpoint", "tokenise"]
  }

  function Texts(): Fixed {
    Fixed("MIME-Version: 1.0", Typed(PlainType()), Typed(MixedType()), "--" + Boundary(),
          Typed(PayloadType()), Encoding(), Disposition(), "--" + (Boundary() + "--"), Terms())
  }

  predicate Proper(t: Fixed) {
    Plain(t.mime) && Plain(t.plain) && Plain(t.mixed) && Plain(t.boundary)
    && Plain(t.payload) && Plain(t.encoding) && Plain(t.disposition) && Plain(t.closing)
    && Usable(t.words)
  }

  predicate Piece(a: bytes) {
    LF !in a && a != [] && a[0] != DOT && |a| <= 100
  }

  lemma TypePieces()
    ensures Piece(PlainType()) && Piece(MixedType()) && Piece(PayloadType())
    ensures |PlainType()| <= 60 && |MixedType()| <= 60 && |PayloadType()| <= 60
  {
  }

  lemma TypedPiece(text: bytes)
    requires Piece(text) && |text| <= 60
    ensures Piece(Typed(text))
  {
  }

  lemma OtherPieces()
    ensures Piece(Encoding()) && Piece(Disposition()) && Piece("MIME-Version: 1.0")
  {
  }

  lemma BoundaryLines()
    ensures Piece("--" + Boundary()) && Piece("--" + (Boundary() + "--")) && |"--" + (Boundary() + "--")| == 28
  {
  }

  predicate Short(w: bytes) { 0 < |w| <= 10 && LF !in w && w[0] != DOT }

  lemma TermsAreShort()
    ensures forall k :: 0 <= k < 10 ==> Short(Terms()[k])
  {
    var ws := Terms();
    assert Short(ws[0]) && Short(ws[1]) && Short(ws[2]) && Short(ws[3]) && Short(ws[4]);
    assert Short(ws[5]) && Short(ws[6]) && Short(ws[7]) && Short(ws[8]) && Short(ws[9]);
  }

  lemma TermsFitARow()
    ensures |Row(Terms(), 10)| == 88 && |Terms()[9]| == 8
  {
    hide Terms;
    RowEnds(10);
    TermLength(9);
  }

  lemma {:induction false} RowEnds(k: nat)
    requires k <= 10
    ensures |Row(Terms(), k)| == if k == 10 then 88 else Before(k)
  {
    hide Terms;
    if k > 0 {
      RowEnds(k - 1);
      TermLength(k - 1);
    }
  }

  lemma TermsAreUsable()
    ensures Usable(Terms())
  {
    hide Terms, Row;
    TermsAreShort();
    TermsFitARow();
  }

  lemma TextsAreProper()
    ensures Proper(Texts())
    ensures |Texts().closing| == 28
  {
    TypePieces();
    TypedPiece(PlainType());
    TypedPiece(MixedType());
    TypedPiece(PayloadType());
    OtherPieces();
    BoundaryLines();
    TermsAreUsable();
  }

  lemma ClosingLength(t: Fixed)
    ensures |Closing(t)| == |t.closing| + 4
  {
    var ls: seq<bytes> := [[], t.closing];
    var ms: seq<bytes> := [t.closing];
    assert ls[1..] == ms && ms[1..] == [];
    assert Joined(ms) == Line(t.closing) + [];
  }

  /** What makes one message differ from the next, apart from its size. */
  datatype Stamp = Stamp(from: bytes, to: bytes, serial: nat, id: nat, tag: bytes, date: bytes)

  function FromLine(s: Stamp): bytes { "From: " + s.from }
  function ToLine(s: Stamp): bytes { "To: " + s.to }
  function SubjectLine(s: Stamp): bytes { "Subject: loadtest message " + Dec(s.serial) }
  function IdLine(s: Stamp): bytes {
    "Message-Id: <lt-" + (Dec(s.id) + ("-" + (Dec(s.serial) + ("-" + (s.tag + "@yarilo-loadtest>")))))
  }
  function DateLine(s: Stamp): bytes { "Date: " + s.date }

  function StampLines(s: Stamp): seq<bytes> {
    [FromLine(s), ToLine(s), SubjectLine(s), IdLine(s), DateLine(s)]
  }

  /** Everything before the text of a plain message; `hs` are its stamped lines. */
  function PlainHead(t: Fixed, hs: seq<bytes>): bytes {
    Joined(hs + [t.mime, t.plain, []])
  }

  function FirstHead(t: Fixed, hs: seq<bytes>): bytes {
    Joined(hs + [t.mime, t.mixed, [], t.boundary, t.plain, []])
  }

  function PartHead(t: Fixed): bytes {
    Joined([[], t.boundary, t.payload, t.encoding, t.disposition, []])
  }

  function Closing(t: Fixed): bytes { Joined([[], t.closing]) }

  /** Everything before the payload of a message that carries one. */
  function Opening(t: Fixed, hs: seq<bytes>): bytes {
    (FirstHead(t, hs) + Words(t.words, 0, 512)) + PartHead(t)
  }

  function Rendered(t: Fixed, hs: seq<bytes>, size: nat, attached: bool): bytes {
    if attached then (Opening(t, hs) + Payload(0, size - |Opening(t, hs)|)) + Closing(t)
    else PlainHead(t, hs) + Filler(t.words, |PlainHead(t, hs)|, size)
  }

  /** Sizes as `New` settles them. */
  datatype Spec = Spec(minSize: nat, maxSize: nat)

  function Settled(min: int, max: int): (r: Spec)
    ensures 0 < r.minSize <= r.maxSize
    ensures min > 0 <==> r.minSize == min
    ensures min <= 0 ==> r.minSize == 2048
    ensures max >= r.minSize <==> r.maxSize == max
    ensures max < r.minSize ==> r.maxSize == r.minSize
  {
    var lo := if min <= 0 then 2048 else min;
    Spec(lo, if max < lo then lo else max)
  }

  class Generator {
    const spec: Spec
    var serial: nat

    constructor (min: int, max: int)
      ensures spec == Settled(min, max) && serial == 0
    {
      spec, serial := Settled(min, max), 0;
    }

    /** One message. `draw` is what the random source answers when asked for a number
        below the spread of sizes; it is asked only when there is a spread. */
    method Generate(from: bytes, to: bytes, draw: nat, attached: bool, id: nat, tag: bytes, date: bytes)
        returns (msg: bytes, ghost size: nat)
      requires spec.maxSize > spec.minSize ==> draw < spec.maxSize - spec.minSize
      modifies this
      ensures serial == old(serial) + 1
      ensures size == spec.minSize + if spec.maxSize > spec.minSize then draw else 0
      ensures msg == Rendered(Texts(), StampLines(Stamp(from, to, serial, id, tag, date)), size, attached)
      ensures |msg| == ExactSize(Stamp(from, to, serial, id, tag, date), size, attached) >= size >= spec.minSize
    {
      serial := serial + 1;
      var target := spec.minSize;
      if spec.maxSize > spec.minSize {
        target := target + draw;
      }
      size := target;
      GeneratedSize(Stamp(from, to, serial, id, tag, date), target, attached);
      msg := Render(Texts(), StampLines(Stamp(from, to, serial, id, tag, date)), target, attached);
    }
  }

  method WriteLines(b: Buffer, ls: seq<bytes>)
    modifies b
    ensures b.text == old(b.text) + Joined(ls)
  {
    for i := 0 to |ls|
      invariant b.text == old(b.text) + Joined(ls[..i])
    {
      JoinedAppend(ls[..i], ls[i]);
      assert ls[..i] + [ls[i]] == ls[..i + 1];
      Assoc(old(b.text), Joined(ls[..i]), Line(ls[i]));
      b.Write(Line(ls[i]));
    }
    assert ls[..|ls|] == ls;
  }

  method Render(t: Fixed, hs: seq<bytes>, size: nat, attached: bool) returns (msg: bytes)
    ensures msg == Rendered(t, hs, size, attached)
  {
    var b := new Buffer();
    if !attached {
      WriteLines(b, hs + [t.mime, t.plain, []]);
      assert b.text == PlainHead(t, hs);
      WriteFiller(b, t.words, size);
      return b.text;
    }
    WriteLines(b, hs + [t.mime, t.mixed, [], t.boundary, t.plain, []]);
    assert b.text == FirstHead(t, hs);
    WriteFiller(b, t.words, |b.text| + 512);
    WriteLines(b, [[], t.boundary, t.payload, t.encoding, t.disposition, []]);
    assert b.text == Opening(t, hs);
    WriteBase64Filler(b, size - |b.text|);
    WriteLines(b, [[], t.closing]);
    return b.text;
  }

  // ------------------------------------------------------------------- promises

  /** How long a message comes out, and how far that is from what was asked for. */
  lemma RenderedSize(t: Fixed, hs: seq<bytes>, size: nat, attached: bool)
    requires Usable(t.words)
    ensures var n := |Rendered(t, hs, size, attached)|;
            var plain, opening, closing := |PlainHead(t, hs)|, |Opening(t, hs)|, |Closing(t)|;
            && (!attached && plain < size ==> size + 2 <= n <= size + 12)
            && (!attached && plain >= size ==> n == plain)
            && (attached && opening < size ==> n == size + 2 * Lines(size - opening) + closing)
            && (attached && opening >= size ==> n == opening + closing)
  {
    if !attached && |PlainHead(t, hs)| < size {
      WordsLength(t.words, 0, size - |PlainHead(t, hs)|);
    }
    if attached && |Opening(t, hs)| < size {
      PayloadLength(0, size - |Opening(t, hs)|);
    }
  }

  lemma SizeOfTexts(t: Fixed, hs: seq<bytes>, size: nat, attached: bool)
    requires Usable(t.words) && |t.closing| == 28
    ensures var n := |Rendered(t, hs, size, attached)|;
            && n >= size
            && (n == size <==> !attached && |PlainHead(t, hs)| == size)
            && (!attached && |PlainHead(t, hs)| < size ==> size + 2 <= n <= size + 12)
            && (attached ==> n == AttachedLength(|Opening(t, hs)|, size))
  {
    hide PlainHead, Opening, Rendered, Usable;
    RenderedSize(t, hs, size, attached);
    ClosingLength(t);
  }

  /** How long a message with a payload comes out, from the octets before the payload. */
  function AttachedLength(opening: nat, size: nat): nat {
    if opening < size then size + 2 * Lines(size - opening) + 32 else opening + 32
  }

  // ------------------------------------------------- where the words end, exactly

  /** Where the first, the second, ... of the ten terms ends in a filler line, the last
      with its line end. */
  const ENDS: seq<nat> := [9, 17, 23, 30, 38, 49, 60, 68, 79, 90]

  function Before(k: nat): nat
    requires k < 10
  {
    if k == 0 then 0 else ENDS[k - 1]
  }

  /** The end of the term that reaches column `r`. */
  function TermEnd(r: nat): nat {
    if r <= 9 then 9 else if r <= 17 then 17 else if r <= 23 then 23 else if r <= 30 then 30
    else if r <= 38 then 38 else if r <= 49 then 49 else if r <= 60 then 60 else if r <= 68 then 68
    else if r <= 79 then 79 else 90
  }

  /** How far whole terms go when they have to fill `room`: whole lines of ninety octets
      and the terms of one more. */
  function FilledTo(room: nat): nat
    requires room > 0
  {
    (room - 1) / 90 * 90 + TermEnd((room - 1) % 90 + 1)
  }

  lemma TermLength(k: nat)
    requires k < 10
    ensures Before(k) + |Terms()[k]| + 1 + (if k == 9 then 2 else 0) == ENDS[k]
  {
    var ws := Terms();
    assert |ws[0]| == 8 && |ws[1]| == 7 && |ws[2]| == 5 && |ws[3]| == 6 && |ws[4]| == 7;
    assert |ws[5]| == 10 && |ws[6]| == 10 && |ws[7]| == 7 && |ws[8]| == 10 && |ws[9]| == 8;
  }

  lemma WordLength(i: nat)
    ensures |Word(Terms(), i) + Break(i)| == ENDS[i % 10] - Before(i % 10)
  {
    hide Terms;
    TermLength(i % 10);
  }

  /** Nothing ends between a term's start and its end. */
  lemma FillsToEnd(k: nat, room: nat)
    requires k < 10 && Before(k) < room <= ENDS[k]
    ensures FilledTo(room) == ENDS[k]
  {
  }

  lemma NextLineToo(room: nat)
    requires room > 0
    ensures FilledTo(room + 90) == FilledTo(room) + 90
  {
    hide TermEnd;
    assert (room + 90 - 1) / 90 == (room - 1) / 90 + 1 && (room + 90 - 1) % 90 == (room - 1) % 90;
  }

  /** The filler of any room, from any term on. */
  lemma {:induction false} WordsReach(i: nat, room: nat)
    requires room > 0
    ensures |Words(Terms(), i, room)| == FilledTo(Before(i % 10) + room) - Before(i % 10) + 2
    decreases room
  {
    hide Terms, FilledTo, Word, Break;
    var k, step := i % 10, |Word(Terms(), i) + Break(i)|;
    WordLength(i);
    if room <= step {
      FillsToEnd(k, Before(k) + room);
      assert Words(Terms(), i + 1, room - step) == CRLF;
    } else {
      WordsReach(i + 1, room - step);
      if k == 9 {
        NextLineToo(room - step);
        assert (i + 1) % 10 == 0;
      } else {
        assert (i + 1) % 10 == k + 1;
      }
    }
  }

  /** How long a plain message comes out, from the octets before its text. */
  function PlainLength(head: nat, size: nat): nat {
    if head < size then head + FilledTo(size - head) + 2 else head
  }

  lemma PlainLengthIs(hs: seq<bytes>, size: nat)
    ensures |Rendered(Texts(), hs, size, false)| == PlainLength(|PlainHead(Texts(), hs)|, size)
  {
    hide PlainHead, FilledTo, Terms, Words;
    var head := |PlainHead(Texts(), hs)|;
    if head < size { WordsReach(0, size - head); }
  }

  /** The size of a message, exactly, from the octets of its headers. */
  function ExactSize(s: Stamp, size: nat, attached: bool): nat {
    if attached then AttachedLength(|Opening(Texts(), StampLines(s))|, size)
    else PlainLength(|PlainHead(Texts(), StampLines(s))|, size)
  }

  /** No message is shorter than its size, and none is exactly that long unless it is a
      plain one whose headers are; a filled plain one is two to twelve octets longer. */
  lemma GeneratedSize(s: Stamp, size: nat, attached: bool)
    ensures var n := |Rendered(Texts(), StampLines(s), size, attached)|;
            && n == ExactSize(s, size, attached) >= size
            && (n == size <==> !attached && |PlainHead(Texts(), StampLines(s))| == size)
            && (!attached && |PlainHead(Texts(), StampLines(s))| < size ==> size + 2 <= n <= size + 12)
  {
    hide PlainHead, Opening, Rendered, Proper, Texts, StampLines;
    TextsAreProper();
    SizeOfTexts(Texts(), StampLines(s), size, attached) by { ProperIsUsable(Texts()); }
    if !attached { PlainLengthIs(StampLines(s), size); }
  }

  lemma ProperIsUsable(t: Fixed)
    requires Proper(t)
    ensures Usable(t.words)
  {
  }

  /** corpus.go:20-24 has the largest size bound the whole message. It does if and only if
      the payload's line ends and what closes the message fit too, or the term that
      reaches the size and a line end. */
  lemma BoundHoldsIff(s: Stamp, size: nat, attached: bool, max: nat)
    ensures var head, opening := |PlainHead(Texts(), StampLines(s))|, |Opening(Texts(), StampLines(s))|;
            |Rendered(Texts(), StampLines(s), size, attached)| <= max
            <==> if attached && opening < size then size + 2 * Lines(size - opening) + 32 <= max
                 else if attached then opening + 32 <= max
                 else if head < size then head + FilledTo(size - head) + 2 <= max
                 else head <= max
  {
    hide PlainHead, Opening, Rendered, StampLines, Texts, FilledTo, Lines;
    GeneratedSize(s, size, attached);
  }

  function Power(k: nat): nat { if k == 0 then 1 else 10 * Power(k - 1) }

  lemma {:induction false} DecShort(n: nat, k: nat)
    requires 0 < k && n < Power(k)
    ensures |Dec(n)| <= k
  {
    if n >= 10 { DecShort(n / 10, k - 1); }
  }

  lemma NineteenDigits(n: nat)
    requires n <= MaxInt
    ensures |Dec(n)| <= 19
  {
    assert Power(5) == 100_000;
    assert Power(10) == 10_000_000_000;
    assert Power(15) == 1_000_000_000_000_000;
    assert Power(19) == 10_000_000_000_000_000_000;
    DecShort(n, 19);
  }

  /** What the code stamps messages with: numbers of 63 bits, and addresses, a tag and a
      date of at most a hundred octets each. */
  predicate Ordinary(s: Stamp) {
    && s.serial <= MaxInt && s.id <= MaxInt
    && |s.from| <= 100 && |s.to| <= 100 && |s.tag| <= 100 && |s.date| <= 100
  }

  lemma {:induction false} JoinedShort(ls: seq<bytes>, n: nat)
    requires forall i :: 0 <= i < |ls| ==> |ls[i]| < n
    ensures |Joined(ls)| <= |ls| * (n + 2)
  {
    if ls != [] {
      JoinedShort(ls[1..], n);
      assert |ls| * (n + 2) == |ls[1..]| * (n + 2) + (n + 2);
    }
  }

  lemma StampsAreShort(s: Stamp)
    requires Ordinary(s)
    ensures forall i :: 0 <= i < 5 ==> |StampLines(s)[i]| < 190
  {
    hide Dec, Power;
    NineteenDigits(s.serial);
    NineteenDigits(s.id);
  }

  lemma ShortHead(s: Stamp)
    requires Ordinary(s)
    ensures |PlainHead(Texts(), StampLines(s))| < 8191
  {
    hide Terms, Usable, Ordinary;
    StampsAreShort(s);
    var t := Texts();
    assert |t.mime| < 40 && |t.plain| < 40;
    JoinedShort(StampLines(s) + [t.mime, t.plain, []], 190);
  }

  /** With the default bounds of 2048 and 8192, a plain message of the largest size that
      can be drawn is longer than the larger of them, unless its headers alone come to just
      that size or one octet more; and headers of ordinary messages are shorter. */
  lemma DefaultsOverrun(s: Stamp)
    ensures var spec, head := Settled(0, 8192), |PlainHead(Texts(), StampLines(s))|;
            && spec == Spec(2048, 8192)
            && var most := spec.minSize + (spec.maxSize - spec.minSize - 1);
               && (|Rendered(Texts(), StampLines(s), most, false)| > spec.maxSize
                   <==> head != spec.maxSize - 1 && head != spec.maxSize)
               && (Ordinary(s) ==> |Rendered(Texts(), StampLines(s), most, false)| > spec.maxSize)
  {
    hide PlainHead, Rendered, StampLines, Texts, Ordinary;
    GeneratedSize(s, 8191, false);
    if Ordinary(s) { ShortHead(s); }
  }

  /** No newline in what the caller supplies, and headers that fit the limit. */
  predicate HeadersFit(s: Stamp) {
    && LF !in s.from && LF !in s.to && LF !in s.tag && LF !in s.date
    && forall i :: 0 <= i < 5 ==> |StampLines(s)[i]| <= 998
  }

  lemma StampIsPlain(s: Stamp)
    requires HeadersFit(s)
    ensures forall i :: 0 <= i < 5 ==> Plain(StampLines(s)[i])
  {
    hide FromLine, ToLine, SubjectLine, IdLine, DateLine, Plain;
    var ls := StampLines(s);
    assert ls[0] == FromLine(s) && ls[1] == ToLine(s) && ls[2] == SubjectLine(s);
    assert ls[3] == IdLine(s) && ls[4] == DateLine(s);
    NameLinesPlain(s);
    SubjectIsPlain(s);
    IdIsPlain(s);
  }

  lemma NameLinesPlain(s: Stamp)
    requires LF !in s.from && LF !in s.to && LF !in s.date
    requires |FromLine(s)| <= 998 && |ToLine(s)| <= 998 && |DateLine(s)| <= 998
    ensures Plain(FromLine(s)) && Plain(ToLine(s)) && Plain(DateLine(s))
  {
  }

  lemma SubjectIsPlain(s: Stamp)
    requires |SubjectLine(s)| <= 998
    ensures Plain(SubjectLine(s))
  {
    hide Dec;
    NoLfInDec(s.serial);
  }

  lemma IdIsPlain(s: Stamp)
    requires LF !in s.tag && |IdLine(s)| <= 998
    ensures Plain(IdLine(s))
  {
    hide Dec;
    NoLfInDec(s.id);
    NoLfInDec(s.serial);
  }

  lemma NoLfInDec(n: nat)
    ensures LF !in Dec(n)
  {
  }

  lemma FillerIsMail(ws: Vocabulary, room: int)
    requires Usable(ws)
    ensures MailText(Words(ws, 0, room), 1000)
  {
    WordsAreMail(ws, 0, room);
    assert FromRow(ws, 0, room) == Words(ws, 0, room);
    Widened(Words(ws, 0, room), 90, 1000);
  }

  lemma PlainIsMail(t: Fixed, hs: seq<bytes>, size: nat)
    requires Proper(t) && forall i :: 0 <= i < |hs| ==> Plain(hs[i])
    ensures MailText(Rendered(t, hs, size, false), 1000) && Rendered(t, hs, size, false) != []
  {
    JoinedIsMail(hs + [t.mime, t.plain, []]);
    FillerIsMail(t.words, size - |PlainHead(t, hs)|);
    TextBeforeText(PlainHead(t, hs), Filler(t.words, |PlainHead(t, hs)|, size), 1000);
  }

  lemma FirstHeadIsMail(t: Fixed, hs: seq<bytes>)
    requires Proper(t) && forall i :: 0 <= i < |hs| ==> Plain(hs[i])
    ensures MailText(FirstHead(t, hs), 1000)
  {
    JoinedIsMail(hs + [t.mime, t.mixed, [], t.boundary, t.plain, []]);
  }

  lemma PartHeadIsMail(t: Fixed)
    requires Proper(t)
    ensures MailText(PartHead(t), 1000)
  {
    JoinedIsMail([[], t.boundary, t.payload, t.encoding, t.disposition, []]);
  }

  lemma OpeningIsMail(t: Fixed, hs: seq<bytes>)
    requires Proper(t) && forall i :: 0 <= i < |hs| ==> Plain(hs[i])
    ensures MailText(Opening(t, hs), 1000)
  {
    var head, filler := FirstHead(t, hs), Words(t.words, 0, 512);
    FirstHeadIsMail(t, hs);
    FillerIsMail(t.words, 512);
    TextBeforeText(head, filler, 1000);
    PartHeadIsMail(t);
    TextBeforeText(head + filler, PartHead(t), 1000);
  }

  lemma ClosingIsMail(t: Fixed)
    requires Proper(t)
    ensures MailText(Closing(t), 1000)
  {
    JoinedIsMail([[], t.closing]);
  }

  lemma PayloadLinesAreMail(n: int)
    ensures MailText(Payload(0, n), 1000)
  {
    PayloadIsMail(0, n);
    Widened(Payload(0, n), 78, 1000);
  }

  lemma AttachedIsMail(t: Fixed, hs: seq<bytes>, size: nat)
    requires Proper(t) && forall i :: 0 <= i < |hs| ==> Plain(hs[i])
    ensures MailText(Rendered(t, hs, size, true), 1000) && Rendered(t, hs, size, true) != []
  {
    var open, code := Opening(t, hs), Payload(0, size - |Opening(t, hs)|);
    OpeningIsMail(t, hs);
    PayloadLinesAreMail(size - |open|);
    TextBeforeText(open, code, 1000);
    ClosingIsMail(t);
    ClosingLength(t);
    TextBeforeText(open + code, Closing(t), 1000);
  }

  lemma MailTravels(m: bytes, rest: bytes)
    requires MailText(m, MboxCorpus.MaxLineOctets) && m != []
    ensures Wire(m) == m + EOD
    ensures MboxCorpus.NoBareLf(m, false) && MboxCorpus.AllFit(MboxCorpus.LineLengths(m, 0))
    ensures Receive(Wire(m) + rest) == Message(m, rest)
    ensures StrictReceive(Wire(m) + rest) == Message(m, rest)
  {
    MailTextTravels(m);
    Transparent(m, rest);
    StrictTransparentIff(m, rest);
    MboxCorpus.NoBareLfNoBareDot(m, false, false);
    DotAfterBareLfMeans(m, false, false);
  }

  /** A generated message is sent as it is, and any receiver gets it octet for octet and
      leaves what follows; no line of it is one an SMTP server may refuse. */
  lemma GeneratedTravels(s: Stamp, size: nat, attached: bool, rest: bytes)
    requires HeadersFit(s)
    ensures var m := Rendered(Texts(), StampLines(s), size, attached);
            && Wire(m) == m + EOD
            && MboxCorpus.NoBareLf(m, false) && MboxCorpus.AllFit(MboxCorpus.LineLengths(m, 0))
            && Receive(Wire(m) + rest) == Message(m, rest)
            && StrictReceive(Wire(m) + rest) == Message(m, rest)
  {
    StampIsPlain(s);
    TextsAreProper();
    AnyTravels(Texts(), StampLines(s), size, attached, rest);
  }

  lemma AnyTravels(t: Fixed, hs: seq<bytes>, size: nat, attached: bool, rest: bytes)
    requires Proper(t) && forall i :: 0 <= i < |hs| ==> Plain(hs[i])
    ensures var m := Rendered(t, hs, size, attached);
            && Wire(m) == m + EOD
            && MboxCorpus.NoBareLf(m, false) && MboxCorpus.AllFit(MboxCorpus.LineLengths(m, 0))
            && Receive(Wire(m) + rest) == Message(m, rest)
            && StrictReceive(Wire(m) + rest) == Message(m, rest)
  {
    if attached { AttachedIsMail(t, hs, size); } else { PlainIsMail(t, hs, size); }
    MailTravels(Rendered(t, hs, size, attached), rest);
  }
}
