/** Generated messages (internal/corpus/corpus.go:93-209), as a program that only knows mail
    reads them: header fields (section 2.2 of RFC 5322), the parts of a multipart body
    (section 5.1 of RFC 2046), base64 (section 4 of RFC 4648). */
module MailReader {
  import opened Octets
  import opened DotStuffing
  import opened Generator

  // -------------------------------------------------------------------- headers

  /** A line without its CRLF. */
  function Bare(line: bytes): bytes {
    if HasSuffix(line, CRLF) then line[..|line| - 2] else line
  }

  datatype Mail = Mail(header: seq<bytes>, body: bytes)

  /** The lines up to the first empty one, and what follows that. */
  function Open(s: bytes): Mail
    decreases |s|
  {
    var r := ReadLine(s);
    if r.eof || Bare(r.line) == [] then Mail([], r.rest)
    else var more := Open(r.rest); Mail([Bare(r.line)] + more.header, more.body)
  }

  /** What the field of that name holds. */
  function Field(header: seq<bytes>, name: bytes): Option<bytes> {
    if header == [] then None
    else if name + ": " <= header[0] then Some(header[0][|name| + 2..])
    else Field(header[1..], name)
  }

  lemma LineReads(text: bytes, rest: bytes)
    requires LF !in text
    ensures ReadLine(Line(text) + rest) == Read(Line(text), rest, false) && Bare(Line(text)) == text
  {
    var l := Line(text);
    assert l[..|l| - 1] == text + [CR] && l[|text|..] == CRLF;
    IsLineIff(l);
    ReadWholeLine(l, rest);
  }

  predicate HeaderLines(ls: seq<bytes>) {
    forall i :: 0 <= i < |ls| ==> ls[i] != [] && LF !in ls[i]
  }

  lemma {:induction false} HeaderIsRead(ls: seq<bytes>, body: bytes)
    requires HeaderLines(ls)
    ensures Open(Joined(ls) + (CRLF + body)) == Mail(ls, body)
  {
    if ls == [] {
      assert Line([]) == CRLF;
      LineReads([], body);
      assert Joined(ls) + (CRLF + body) == CRLF + body;
    } else {
      HeaderIsRead(ls[1..], body);
      var rest := Joined(ls[1..]) + (CRLF + body);
      Assoc(Line(ls[0]), Joined(ls[1..]), CRLF + body);
      LineReads(ls[0], rest);
      assert ls == [ls[0]] + ls[1..];
    }
  }

  lemma {:induction false} JoinedSum(a: seq<bytes>, b: seq<bytes>)
    ensures Joined(a + b) == Joined(a) + Joined(b)
  {
    if a == [] {
      assert a + b == b;
    } else {
      assert (a + b)[1..] == a[1..] + b;
      JoinedSum(a[1..], b);
      Assoc(Line(a[0]), Joined(a[1..]), Joined(b));
    }
  }

  lemma NameTells(a: bytes, x: bytes, name: bytes)
    requires ':' !in a && ':' !in name
    ensures name + ": " <= a + ": " + x <==> a == name
    ensures (a + ": " + x)[|a| + 2..] == x
  {
    FirstColon(a, x);
    FirstColon(name, []);
    var line, mark := a + ": " + x, name + ": " + [];
    assert mark == name + ": ";
    var begins := mark <= line;
    assert begins ==> line[|name|] == ':';
    assert begins && |a| < |mark| ==> mark[|a|] == ':';
    assert begins ==> |a| == |name| && line[..|a|] == mark[..|a|];
    assert line[..|a|] == a && mark[..|name|] == name;
  }

  lemma FirstColon(a: bytes, x: bytes)
    requires ':' !in a
    ensures var line := a + ": " + x; line[|a|] == ':' && forall i :: 0 <= i < |a| ==> line[i] != ':'
  {
  }

  predicate Distinct(names: seq<bytes>) {
    && (forall i :: 0 <= i < |names| ==> ':' !in names[i])
    && forall i, j :: 0 <= i < j < |names| ==> names[i] != names[j]
  }

  function Fields(names: seq<bytes>, values: seq<bytes>): (r: seq<bytes>)
    requires |names| == |values|
    ensures |r| == |names|
  {
    seq(|names|, i requires 0 <= i < |names| => names[i] + ": " + values[i])
  }

  lemma {:induction false} FieldIsFound(names: seq<bytes>, values: seq<bytes>, i: nat)
    requires |names| == |values| && i < |names| && Distinct(names)
    ensures Field(Fields(names, values), names[i]) == Some(values[i])
  {
    NameTells(names[0], values[0], names[i]);
    if i > 0 {
      assert Fields(names, values)[1..] == Fields(names[1..], values[1..]);
      FieldIsFound(names[1..], values[1..], i - 1);
    }
  }

  // -------------------------------------------------------- multipart messages

  datatype Cut = Cut(before: bytes, last: bool, rest: bytes) | Uncut

  /** The lines up to the next delimiter line. */
  function UpTo(s: bytes, boundary: bytes): Cut
    decreases |s|
  {
    var r := ReadLine(s);
    if r.eof then Uncut
    else if Bare(r.line) == "--" + boundary then Cut([], false, r.rest)
    else if Bare(r.line) == "--" + boundary + "--" then Cut([], true, r.rest)
    else
      var c := UpTo(r.rest, boundary);
      if c.Uncut? then Uncut else c.(before := r.line + c.before)
  }

  /** The parts that follow a delimiter line. The line end before a delimiter is the
      delimiter's; without a last delimiter there is no telling. */
  function PartsFrom(s: bytes, boundary: bytes): Option<seq<bytes>>
    decreases |s|
  {
    var c := UpTo(s, boundary);
    if c.Uncut? || |c.rest| >= |s| then None
    else if c.last then Some([Bare(c.before)])
    else
      var more := PartsFrom(c.rest, boundary);
      if more.None? then None else Some([Bare(c.before)] + more.value)
  }

  function Parts(body: bytes, boundary: bytes): Option<seq<bytes>> {
    var c := UpTo(body, boundary);
    if c.Uncut? then None else if c.last then Some([]) else PartsFrom(c.rest, boundary)
  }

  /** A line that starts no delimiter. */
  predicate Passes(l: bytes) { LF !in l && (l == [] || l[0] != '-') }

  lemma LinePasses(text: bytes, rest: bytes, boundary: bytes)
    requires Passes(text) && UpTo(rest, boundary).Cut?
    ensures var c := UpTo(rest, boundary);
            UpTo(Line(text) + rest, boundary) == c.(before := Line(text) + c.before)
  {
    LineReads(text, rest);
    assert ("--" + boundary)[0] == '-' && ("--" + boundary + "--")[0] == '-';
  }

  lemma {:induction false} LinesPass(ls: seq<bytes>, rest: bytes, boundary: bytes)
    requires forall i :: 0 <= i < |ls| ==> Passes(ls[i])
    requires UpTo(rest, boundary).Cut?
    ensures var c := UpTo(rest, boundary);
            UpTo(Joined(ls) + rest, boundary) == c.(before := Joined(ls) + c.before)
  {
    var c := UpTo(rest, boundary);
    if ls == [] {
      assert Joined(ls) + rest == rest && Joined(ls) + c.before == c.before;
    } else {
      LinesPass(ls[1..], rest, boundary);
      Assoc(Line(ls[0]), Joined(ls[1..]), rest);
      Assoc(Line(ls[0]), Joined(ls[1..]), c.before);
      LinePasses(ls[0], Joined(ls[1..]) + rest, boundary);
    }
  }

  /** No text without a hyphen is mistaken for a delimiter. */
  lemma {:induction false} TextPasses(t: bytes, rest: bytes, boundary: bytes)
    requires '-' !in t && EndsInLf(t, true) && UpTo(rest, boundary).Cut?
    ensures var c := UpTo(rest, boundary);
            UpTo(t + rest, boundary) == c.(before := t + c.before)
    decreases |t|
  {
    var c := UpTo(rest, boundary);
    if t == [] {
      assert t + rest == rest && t + c.before == c.before;
    } else {
      var l, more := FirstLine(t);
      TextPasses(more, rest, boundary);
      Assoc(l, more, rest);
      Assoc(l, more, c.before);
      ReadWholeLine(l, more + rest);
      NoDelimiter(l, boundary);
    }
  }

  lemma NoDelimiter(l: bytes, boundary: bytes)
    requires '-' !in l
    ensures Bare(l) != "--" + boundary && Bare(l) != "--" + boundary + "--"
  {
    assert ("--" + boundary)[0] == '-' && ("--" + boundary + "--")[0] == '-';
    assert Bare(l) != [] ==> Bare(l)[0] in l;
  }

  lemma DelimiterCuts(boundary: bytes, rest: bytes)
    requires LF !in boundary
    ensures UpTo(Line("--" + boundary) + rest, boundary) == Cut([], false, rest)
    ensures UpTo(Line("--" + boundary + "--") + rest, boundary) == Cut([], true, rest)
  {
    LineReads("--" + boundary, rest);
    LineReads("--" + boundary + "--", rest);
    assert |"--" + boundary| != |"--" + boundary + "--"|;
  }

  // --------------------------------------------------------------------- base64

  function Sextet(c: octet): Option<nat> {
    var n := c as int;
    if 'A' <= c <= 'Z' then Some(n - 'A' as int)
    else if 'a' <= c <= 'z' then Some(n - 'a' as int + 26)
    else if '0' <= c <= '9' then Some(n - '0' as int + 52)
    else if c == '+' then Some(62) else if c == '/' then Some(63) else None
  }

  /** What is left when line ends are taken out. */
  function Unfolded(s: bytes): bytes {
    if s == [] then [] else (if s[0] == CR || s[0] == LF then [] else [s[0]]) + Unfolded(s[1..])
  }

  /** Groups of four: three octets, or with one or two `=` at the end, two or one. */
  function Decode(s: bytes): Option<seq<nat>> {
    if s == [] then Some([])
    else if |s| < 4 || Sextet(s[0]).None? || Sextet(s[1]).None? then None
    else
      var a, b, c, d := Sextet(s[0]).value, Sextet(s[1]).value, Sextet(s[2]), Sextet(s[3]);
      var first := 4 * a + b / 16;
      if c.None? then
        if s[2..] == "==" then Some([first]) else None
      else
        var second := b % 16 * 16 + c.value / 4;
        if d.None? then
          if s[3..] == "=" then Some([first, second]) else None
        else
          var more := Decode(s[4..]);
          if more.None? then None else Some([first, second, c.value % 4 * 64 + d.value] + more.value)
  }

  predicate Unpadded(s: bytes) { forall i :: 0 <= i < |s| ==> Sextet(s[i]).Some? }

  lemma {:induction false} DecodesIff(s: bytes)
    requires Unpadded(s)
    ensures Decode(s).Some? <==> |s| % 4 == 0
    ensures Decode(s).Some? ==> 4 * |Decode(s).value| == 3 * |s|
  {
    hide Sextet;
    if |s| >= 4 { DecodesIff(s[4..]); }
  }

  lemma UpperSextets(i: nat)
    requires i < 26
    ensures Sextet(UPPER[i]) == Some(i)
  {
    assert UPPER[i] as int == 'A' as int + i;
  }

  lemma LowerSextets(i: nat)
    requires i < 26
    ensures Sextet(LOWER[i]) == Some(i + 26)
  {
    assert LOWER[i] as int == 'a' as int + i;
  }

  lemma OtherSextets(i: nat)
    requires i < 12
    ensures Sextet(OTHER[i]) == Some(i + 52)
  {
  }

  lemma AlphabetSextets(i: nat)
    requires i < 64
    ensures |ALPHABET| == 64 && Sextet(ALPHABET[i]) == Some(i)
  {
    hide Sextet;
    AlphabetIsTame();
    UpperIsTame();
    LowerIsTame();
    if i < 26 { UpperSextets(i); }
    else if i < 52 { LowerSextets(i - 26); }
    else { OtherSextets(i - 52); }
  }

  lemma {:induction false} UnfoldedLine(a: bytes, rest: bytes)
    requires Unpadded(a)
    ensures Unfolded(Line(a) + rest) == a + Unfolded(rest)
  {
    if a == [] {
      assert Line(a) + rest == [CR] + ([LF] + rest);
      Cons(CR, [LF] + rest);
      Cons(LF, rest);
      assert a + Unfolded(rest) == Unfolded(rest);
    } else {
      assert Sextet(a[0]).Some?;
      assert Line(a) + rest == [a[0]] + (Line(a[1..]) + rest);
      UnfoldedLine(a[1..], rest);
      HeadAndTail(a);
    }
  }

  /** The payload, line ends taken out: `n` characters of the alphabet, and which. */
  lemma {:induction false} PayloadHolds(w: nat, n: int, j: nat)
    requires w <= n && (w < n ==> w % 76 == 0)
    ensures var u := Unfolded(Payload(w, n));
            && |u| == n - w && Unpadded(u)
            && (j < n - w ==> Sextet(u[j]) == Some((w + j + j % 76) % 64))
    decreases n - w
  {
    hide Sextet, Unfolded, Coded, Unpadded;
    if w < n {
      var k := if n - w < 76 then n - w else 76;
      PayloadHolds(w + k, n, if j < k then 0 else j - k);
      var c := Coded(w, k);
      CodedHolds(w, k);
      UnfoldedLine(c, Payload(w + k, n));
      UnpaddedSum(c, Unfolded(Payload(w + k, n)));
      Column(j);
      Column(w + k);
    } else {
      NothingUnfolds();
    }
  }

  lemma CodedAt(w: nat, k: nat, i: nat)
    ensures |Coded(w, k)| == k && (i < k ==> Sextet(Coded(w, k)[i]) == Some((w + 2 * i) % 64))
  {
    hide Sextet;
    if i < k { AlphabetSextets((w + 2 * i) % 64); }
  }

  lemma CodedHolds(w: nat, k: nat)
    ensures var c := Coded(w, k);
            |c| == k && Unpadded(c) && forall i :: 0 <= i < k ==> Sextet(c[i]) == Some((w + 2 * i) % 64)
  {
    hide Sextet, Coded;
    CodedAt(w, k, 0);
    forall i | 0 <= i < k ensures Sextet(Coded(w, k)[i]) == Some((w + 2 * i) % 64) {
      CodedAt(w, k, i);
    }
  }

  lemma UnpaddedSum(a: bytes, b: bytes)
    requires Unpadded(a) && Unpadded(b)
    ensures Unpadded(a + b)
  {
  }

  lemma Column(j: nat)
    ensures j < 76 ==> j % 76 == j
    ensures j >= 76 ==> j % 76 == (j - 76) % 76
  {
  }

  lemma NothingUnfolds()
    ensures Unfolded([]) == [] && Unpadded([])
  {
  }

  // ---------------------------------------------------------------------- words

  predicate Gap(c: octet) { c == ' ' || c == CR || c == LF }

  function FirstToken(s: bytes): (r: bytes)
    ensures |r| <= |s|
    ensures s != [] && !Gap(s[0]) ==> r != []
  {
    if s == [] || Gap(s[0]) then [] else [s[0]] + FirstToken(s[1..])
  }

  /** The words of a text. */
  function Tokens(s: bytes): seq<bytes>
    decreases |s|
  {
    if s == [] then []
    else if Gap(s[0]) then Tokens(s[1..])
    else [FirstToken(s)] + Tokens(s[|FirstToken(s)|..])
  }

  predicate Unspaced(w: bytes) { w != [] && forall i :: 0 <= i < |w| ==> !Gap(w[i]) }

  lemma {:induction false} TokenEnds(w: bytes, rest: bytes)
    requires Unspaced(w) && rest != [] && Gap(rest[0])
    ensures FirstToken(w + rest) == w
  {
    HeadOfSum(w, rest);
    HeadAndTail(w);
    if |w| > 1 {
      TokenEnds(w[1..], rest);
    } else {
      assert w[1..] + rest == rest;
    }
  }

  lemma WordIsRead(w: bytes, gap: bytes, rest: bytes)
    requires Unspaced(w) && (gap == " " || gap == " " + CRLF)
    ensures Tokens((w + gap) + rest) == [w] + Tokens(rest)
  {
    var s := gap + rest;
    Assoc(w, gap, rest);
    TokenEnds(w, s);
    assert (w + s)[|w|..] == s;
    GapIsSkipped(gap, rest);
  }

  lemma GapIsSkipped(gap: bytes, rest: bytes)
    requires gap == " " || gap == " " + CRLF || gap == CRLF
    ensures Tokens(gap + rest) == Tokens(rest)
  {
    if gap == " " {
      Cons(' ', rest);
    } else if gap == CRLF {
      LineEndIsSkipped(rest);
    } else {
      LineEndIsSkipped(rest);
      Cons(' ', CRLF + rest);
      assert gap + rest == [' '] + (CRLF + rest);
    }
  }

  lemma LineEndIsSkipped(rest: bytes)
    ensures Tokens(CRLF + rest) == Tokens(rest)
  {
    Cons(CR, [LF] + rest);
    Cons(LF, rest);
    assert CRLF + rest == [CR] + ([LF] + rest);
  }

  /** The filler is the ten words in turn, over and over. */
  lemma {:induction false} WordsInTurn(ws: Vocabulary, i: nat, room: int, k: nat)
    requires forall j :: 0 <= j < 10 ==> Unspaced(ws[j])
    ensures var ts := Tokens(Words(ws, i, room));
            && (k < |ts| ==> ts[k] == ws[(i + k) % 10])
            && (room > 0 ==> ts != [])
    decreases room
  {
    hide Tokens, Unspaced, Word, Break;
    if room <= 0 {
      GapIsSkipped(CRLF, []);
      assert CRLF + [] == CRLF;
      NoTokens();
    } else {
      var next := Word(ws, i) + Break(i);
      NextWord(ws, i);
      var more := Words(ws, i + 1, room - |next|);
      WordIsRead(ws[i % 10], " " + Break(i), more);
      var left := if k > 0 then k - 1 else 0;
      WordsInTurn(ws, i + 1, room - |next|, left);
      assert k > 0 ==> (i + 1) + left == i + k;
    }
  }

  lemma NoTokens()
    ensures Tokens([]) == []
  {
  }

  lemma NextWord(ws: Vocabulary, i: nat)
    requires Unspaced(ws[i % 10])
    ensures Word(ws, i) + Break(i) == ws[i % 10] + (" " + Break(i)) && |Word(ws, i) + Break(i)| > 0
    ensures " " + Break(i) == " " || " " + Break(i) == " " + CRLF
  {
  }

  // ------------------------------------------------- what a generated message says

  /** Nothing the caller supplies breaks a line. */
  predicate Unbroken(s: Stamp) {
    LF !in s.from && LF !in s.to && LF !in s.tag && LF !in s.date
  }

  const FROM: bytes := "From"
  const TO: bytes := "To"
  const SUBJECT: bytes := "Subject"
  const ID: bytes := "Message-Id"
  const DATE: bytes := "Date"
  const VERSION: bytes := "MIME-Version"
  const TYPE: bytes := "Content-Type"
  const ENCODING: bytes := "Content-Transfer-Encoding"
  const DISPOSITION: bytes := "Content-Disposition"

  const NAMES: seq<bytes> := [FROM, TO, SUBJECT, ID, DATE, VERSION, TYPE]

  function Subject(s: Stamp): bytes { "loadtest message " + Dec(s.serial) }

  function MessageId(s: Stamp): bytes {
    "<lt-" + Dec(s.id) + "-" + Dec(s.serial) + "-" + s.tag + "@yarilo-loadtest>"
  }

  function Values(s: Stamp, kind: bytes): seq<bytes> {
    [s.from, s.to, Subject(s), MessageId(s), s.date, "1.0", kind]
  }

  const PLAIN: bytes := "text/plain; charset=utf-8"
  const MIXED: bytes := "multipart/mixed; boundary="
  const BOUNDARY: bytes := "yarilo-loadtest-boundary"
  const BINARY: bytes := "application/" + ("octet-stream; " + "name=payload.bin")
  const ATTACHMENT: bytes := "attachment; " + "filename=payload.bin"

  lemma NamesAreDistinct()
    ensures Distinct(NAMES)
  {
    assert |FROM| == 4 && |TO| == 2 && |SUBJECT| == 7 && |ID| == 10 && |DATE| == 4;
    assert |VERSION| == 12 && |TYPE| == 12;
    assert FROM[0] == 'F' && DATE[0] == 'D' && VERSION[0] == 'M' && TYPE[0] == 'C';
  }

  lemma StampFields(s: Stamp)
    ensures FromLine(s) == FROM + ": " + s.from && ToLine(s) == TO + ": " + s.to
    ensures SubjectLine(s) == SUBJECT + ": " + Subject(s) && DateLine(s) == DATE + ": " + s.date
  {
    hide Dec;
  }

  lemma IdField(s: Stamp)
    ensures IdLine(s) == ID + ": " + MessageId(s)
  {
    hide Dec;
    var id, serial := Dec(s.id), Dec(s.serial);
    var front: bytes, start: bytes := "Message-Id: <lt-", "<lt-";
    assert front == ID + ": " + start;
    assert MessageId(s) == start + (id + ("-" + (serial + ("-" + (s.tag + "@yarilo-loadtest>")))));
  }

  lemma VersionField()
    ensures Texts().mime == VERSION + ": " + "1.0"
  {
  }

  lemma PlainField()
    ensures Texts().plain == TYPE + ": " + PLAIN
  {
    assert PlainType() == PLAIN;
    Prefix(PLAIN);
  }

  lemma Prefix(kind: bytes)
    ensures Typed(kind) == TYPE + ": " + kind
  {
  }

  lemma MixedField()
    ensures Texts().mixed == TYPE + ": " + (MIXED + BOUNDARY)
  {
    assert Boundary() == BOUNDARY;
    Mixed(BOUNDARY);
    Prefix(MIXED + BOUNDARY);
  }

  lemma Mixed(boundary: bytes)
    ensures "multipart/mixed; " + ("boundary=" + boundary) == MIXED + boundary
  {
  }

  lemma BinaryField()
    ensures Texts().payload == TYPE + ": " + BINARY
  {
    assert PayloadType() == BINARY;
    Prefix(BINARY);
  }

  lemma EncodingField()
    ensures Texts().encoding == ENCODING + ": " + "base64"
  {
    var a: bytes, b: bytes := "Content-Transfer", "-Encoding: base64";
    assert Encoding() == a + b;
    assert ENCODING == a + "-Encoding";
    assert b == "-Encoding" + (": " + "base64");
    Assoc(a, "-Encoding", ": " + "base64");
  }

  lemma DispositionField()
    ensures Texts().disposition == DISPOSITION + ": " + ATTACHMENT
  {
    Disposed(ATTACHMENT);
  }

  lemma Disposed(kind: bytes)
    ensures "Content-Disposition: " + kind == DISPOSITION + ": " + kind
  {
  }

  lemma Delimiters()
    ensures Texts().boundary == "--" + BOUNDARY && Texts().closing == "--" + BOUNDARY + "--"
    ensures LF !in BOUNDARY
  {
    assert Boundary() == BOUNDARY;
  }

  /** The lines of the header, as fields. */
  lemma HeaderFields(s: Stamp, kind: bytes)
    ensures StampLines(s) + [Texts().mime, TYPE + ": " + kind] == Fields(NAMES, Values(s, kind))
  {
    hide Texts, FromLine, ToLine, SubjectLine, IdLine, DateLine, Subject, MessageId;
    StampFields(s);
    IdField(s);
    VersionField();
    var a, b := StampLines(s) + [Texts().mime, TYPE + ": " + kind], Fields(NAMES, Values(s, kind));
    assert a[0] == b[0] && a[1] == b[1] && a[2] == b[2] && a[3] == b[3] && a[4] == b[4] && a[5] == b[5] && a[6] == b[6];
  }

  predicate Announced(header: seq<bytes>, s: Stamp, kind: bytes) {
    && |header| == 7
    && Field(header, "From") == Some(s.from) && Field(header, "To") == Some(s.to)
    && Field(header, "Subject") == Some("loadtest message " + Dec(s.serial))
    && Field(header, "Message-Id")
       == Some("<lt-" + Dec(s.id) + "-" + Dec(s.serial) + "-" + s.tag + "@yarilo-loadtest>")
    && Field(header, "Date") == Some(s.date)
    && Field(header, "MIME-Version") == Some("1.0") && Field(header, "Content-Type") == Some(kind)
  }

  lemma FieldsAnnounce(s: Stamp, kind: bytes)
    ensures Announced(Fields(NAMES, Values(s, kind)), s, kind)
  {
    hide Field, Fields, Distinct;
    var values := Values(s, kind);
    NamesAreDistinct();
    FieldIsFound(NAMES, values, 0);
    FieldIsFound(NAMES, values, 1);
    FieldIsFound(NAMES, values, 2);
    FieldIsFound(NAMES, values, 3);
    FieldIsFound(NAMES, values, 4);
    FieldIsFound(NAMES, values, 5);
    FieldIsFound(NAMES, values, 6);
  }

  lemma FieldsAreLines(s: Stamp, kind: bytes)
    requires Unbroken(s) && LF !in kind
    ensures HeaderLines(Fields(NAMES, Values(s, kind)))
  {
    hide Dec, Subject, MessageId;
    NoLfInDec(s.serial);
    NoLfInDec(s.id);
    NoLfInValues(s);
    var values := Values(s, kind);
    assert forall i :: 0 <= i < |values| ==> LF !in values[i];
    NoLfInNames();
  }

  lemma NoLfInNames()
    ensures forall i :: 0 <= i < |NAMES| ==> LF !in NAMES[i]
  {
  }

  lemma NoLfInValues(s: Stamp)
    requires Unbroken(s) && LF !in Dec(s.serial) && LF !in Dec(s.id)
    ensures LF !in Subject(s) && LF !in MessageId(s)
  {
    hide Dec;
  }

  lemma OpensWith(s: Stamp, kind: bytes, body: bytes)
    requires Unbroken(s) && LF !in kind
    ensures var m := Open(Joined(StampLines(s) + [Texts().mime, TYPE + ": " + kind]) + (CRLF + body));
            m.body == body && Announced(m.header, s, kind)
  {
    hide Open, Announced, Texts, Fields, StampLines, HeaderLines, Joined, Subject, MessageId;
    HeaderFields(s, kind);
    FieldsAreLines(s, kind);
    FieldsAnnounce(s, kind);
    HeaderIsRead(Fields(NAMES, Values(s, kind)), body);
  }

  const TERMS: seq<bytes> := ["delivery", "mailbox", "index", "search", "message",
                              "attachment", "throughput", "latency", "checkpoint", "tokenise"]

  lemma TermsAreWords()
    ensures Terms() == TERMS && forall j :: 0 <= j < 10 ==> Unspaced(Terms()[j])
  {
    var ws := Terms();
    assert Unspaced(ws[0]) && Unspaced(ws[1]) && Unspaced(ws[2]) && Unspaced(ws[3]) && Unspaced(ws[4]);
    assert Unspaced(ws[5]) && Unspaced(ws[6]) && Unspaced(ws[7]) && Unspaced(ws[8]) && Unspaced(ws[9]);
  }

  lemma FillerSays(used: nat, target: int, k: nat)
    ensures var ts := Tokens(Filler(Terms(), used, target));
            (k < |ts| ==> ts[k] == TERMS[k % 10]) && (used < target ==> ts != [])
  {
    hide Tokens, Terms, Unspaced, Words;
    TermsAreWords();
    NoTokens();
    if used < target { WordsInTurn(Terms(), 0, target - used, k); }
  }

  lemma EmptyLine(ls: seq<bytes>)
    ensures Joined(ls + [[]]) == Joined(ls) + CRLF
  {
    hide Joined;
    JoinedAppend(ls, []);
    assert Line([]) == CRLF;
  }

  lemma PlainParts(s: Stamp, size: nat)
    ensures var lines := StampLines(s) + [Texts().mime, TYPE + ": " + PLAIN];
            Rendered(Texts(), StampLines(s), size, false)
            == Joined(lines) + (CRLF + Filler(Terms(), |PlainHead(Texts(), StampLines(s))|, size))
  {
    hide Joined, Filler, StampLines;
    var t := Texts();
    var lines := StampLines(s) + [t.mime, t.plain];
    PlainField();
    EmptyLine(lines);
    assert StampLines(s) + [t.mime, t.plain, []] == lines + [[]];
    Assoc(Joined(lines), CRLF, Filler(Terms(), |PlainHead(t, StampLines(s))|, size));
  }

  /** A plain message, read: its header says what it was generated from, and its text is the
      ten words in turn. */
  lemma PlainReads(s: Stamp, size: nat, k: nat)
    requires Unbroken(s)
    ensures var m := Open(Rendered(Texts(), StampLines(s), size, false));
            var words := Tokens(m.body);
            && Announced(m.header, s, PLAIN)
            && (k < |words| ==> words[k] == TERMS[k % 10])
            && (|PlainHead(Texts(), StampLines(s))| < size ==> words != [])
  {
    hide Open, Announced, Texts, StampLines, Joined, Rendered, PlainHead, Filler, Terms, Tokens;
    var head := |PlainHead(Texts(), StampLines(s))|;
    PlainParts(s, size);
    OpensWith(s, PLAIN, Filler(Terms(), head, size));
    FillerSays(head, size, k);
  }

  // -------------------------------------------------------------- with a payload

  /** The two parts, as they are written, and what is written around them. */
  function FirstPart(): bytes {
    Joined([TYPE + ": " + PLAIN]) + (CRLF + Words(Terms(), 0, 512))
  }

  function PartLines(): seq<bytes> {
    [TYPE + ": " + BINARY, ENCODING + ": " + "base64", DISPOSITION + ": " + ATTACHMENT]
  }

  function SecondPart(n: int): bytes {
    Joined(PartLines()) + (CRLF + Payload(0, n))
  }

  function Delimiter(): bytes { Line("--" + BOUNDARY) }
  function LastDelimiter(): bytes { Line("--" + BOUNDARY + "--") }

  function Body(n: int): bytes {
    Delimiter() + ((FirstPart() + CRLF) + (Delimiter() + ((SecondPart(n) + CRLF) + LastDelimiter())))
  }

  lemma Before(s: Stamp)
    ensures var lines := StampLines(s) + [Texts().mime, TYPE + ": " + (MIXED + BOUNDARY)];
            FirstHead(Texts(), StampLines(s))
            == (Joined(lines) + CRLF) + (Delimiter() + (Joined([TYPE + ": " + PLAIN]) + CRLF))
  {
    hide Joined, StampLines;
    var t := Texts();
    var lines := StampLines(s) + [t.mime, t.mixed];
    PlainField();
    MixedField();
    Delimiters();
    EmptyLine(lines);
    EmptyLine([t.plain]);
    var part: seq<bytes> := [t.boundary] + ([t.plain] + [[]]);
    assert StampLines(s) + [t.mime, t.mixed, [], t.boundary, t.plain, []] == (lines + [[]]) + part;
    JoinedSum(lines + [[]], part);
    JoinedSum([t.boundary], [t.plain] + [[]]);
    OneJoined(t.boundary);
  }

  lemma OneJoined(l: bytes)
    ensures Joined([l]) == Line(l)
  {
    assert [l][1..] == [];
  }

  lemma Between()
    ensures PartHead(Texts()) == CRLF + (Delimiter() + (Joined(PartLines()) + CRLF))
  {
    hide Joined;
    var t := Texts();
    BinaryField();
    EncodingField();
    DispositionField();
    Delimiters();
    var part := PartLines() + [[]];
    assert [[], t.boundary, t.payload, t.encoding, t.disposition, []] == [[]] + ([t.boundary] + part);
    JoinedSum([[]], [t.boundary] + part);
    JoinedSum([t.boundary], part);
    EmptyLine(PartLines());
    OneJoined([]);
    OneJoined(t.boundary);
    assert Line([]) == CRLF;
  }

  lemma After()
    ensures Closing(Texts()) == CRLF + LastDelimiter()
  {
    hide Joined;
    var t := Texts();
    Delimiters();
    var none: bytes := [];
    assert [none, t.closing] == [none] + [t.closing];
    JoinedSum([none], [t.closing]);
    OneJoined(none);
    OneJoined(t.closing);
    assert Line([]) == CRLF;
  }

  /** A message with a payload is its header, an empty line and such a body. */
  lemma AttachedParts(s: Stamp, size: nat)
    ensures var lines := StampLines(s) + [Texts().mime, TYPE + ": " + (MIXED + BOUNDARY)];
            Rendered(Texts(), StampLines(s), size, true)
            == Joined(lines) + (CRLF + Body(size - |Opening(Texts(), StampLines(s))|))
  {
    hide Joined, StampLines, Texts, FirstHead, PartHead, Closing, Words, Payload, Delimiter, LastDelimiter, PartLines;
    var lines := StampLines(s) + [Texts().mime, TYPE + ": " + (MIXED + BOUNDARY)];
    Before(s);
    Between();
    After();
    var n := size - |Opening(Texts(), StampLines(s))|;
    assert Texts().words == Terms() by { WordsOfTexts(); }
    Rebracket(Joined(lines), Delimiter(), Joined([TYPE + ": " + PLAIN]), Words(Terms(), 0, 512),
              Joined(PartLines()), Payload(0, n), LastDelimiter());
  }

  lemma WordsOfTexts()
    ensures Texts().words == Terms()
  {
  }

  lemma Rebracket(h: bytes, d: bytes, p: bytes, w: bytes, q: bytes, y: bytes, e: bytes)
    ensures ((((h + CRLF) + (d + (p + CRLF))) + w) + (CRLF + (d + (q + CRLF))) + y) + (CRLF + e)
         == h + (CRLF + (d + (((p + (CRLF + w)) + CRLF) + (d + (((q + (CRLF + y)) + CRLF) + e)))))
  {
  }

  lemma BareEnd(part: bytes)
    ensures Bare(part + CRLF) == part
  {
  }

  /** Lines that are no delimiters, a text without a hyphen, and the line end that is the
      next delimiter's. */
  lemma PartIsCut(ls: seq<bytes>, text: bytes, rest: bytes, boundary: bytes)
    requires forall i :: 0 <= i < |ls| ==> Passes(ls[i])
    requires '-' !in text && EndsInLf(text, true) && UpTo(rest, boundary).Cut? && UpTo(rest, boundary).before == []
    ensures UpTo(((Joined(ls) + (CRLF + text)) + CRLF) + rest, boundary)
         == UpTo(rest, boundary).(before := (Joined(ls) + (CRLF + text)) + CRLF)
  {
    hide UpTo, Joined;
    var none: bytes := [];
    assert Line(none) == CRLF;
    LinePasses(none, rest, boundary);
    TextPasses(text, CRLF + rest, boundary);
    LinesPass(ls + [none], text + (CRLF + rest), boundary);
    EmptyLine(ls);
    Grouped(Joined(ls), text, rest);
  }

  lemma Grouped(a: bytes, text: bytes, rest: bytes)
    ensures ((a + (CRLF + text)) + CRLF) + rest == (a + CRLF) + (text + (CRLF + rest))
    ensures (a + CRLF) + (text + CRLF) == (a + (CRLF + text)) + CRLF
    ensures CRLF + [] == CRLF
  {
  }

  lemma {:induction false} NoHyphenInWords(ws: Vocabulary, i: nat, room: int)
    requires forall j :: 0 <= j < 10 ==> '-' !in ws[j] && ws[j] != []
    ensures '-' !in Words(ws, i, room) && EndsInLf(Words(ws, i, room), true)
    decreases room
  {
    if room > 0 { NoHyphenInWords(ws, i + 1, room - |Word(ws, i) + Break(i)|); }
  }

  lemma TermsHaveNoHyphen()
    ensures forall j :: 0 <= j < 10 ==> '-' !in Terms()[j] && Terms()[j] != []
  {
    var ws := Terms();
    assert '-' !in ws[0] && '-' !in ws[1] && '-' !in ws[2] && '-' !in ws[3] && '-' !in ws[4];
    assert '-' !in ws[5] && '-' !in ws[6] && '-' !in ws[7] && '-' !in ws[8] && '-' !in ws[9];
  }

  lemma {:induction false} NoHyphenInPayload(w: nat, n: int)
    ensures '-' !in Payload(w, n) && EndsInLf(Payload(w, n), true)
    decreases n - w
  {
    hide Coded, Sextet, Unpadded;
    if w < n {
      var k := if n - w < 76 then n - w else 76;
      CodedHolds(w, k);
      NoHyphenIsUnpadded(Coded(w, k));
      NoHyphenInPayload(w + k, n);
    }
  }

  lemma NoHyphenIsUnpadded(s: bytes)
    requires Unpadded(s)
    ensures '-' !in s
  {
  }

  lemma FieldPasses(name: bytes, value: bytes)
    requires Passes(name) && name != [] && LF !in value
    ensures Passes(name + ": " + value) && name + ": " + value != []
  {
  }

  lemma NamesPass()
    ensures Passes(TYPE) && Passes(ENCODING) && Passes(DISPOSITION)
  {
  }

  lemma ValuesPass()
    ensures LF !in PLAIN && LF !in BINARY && LF !in ATTACHMENT && LF !in "base64"
  {
  }

  lemma PartLinesPass()
    ensures |PartLines()| == 3 && forall i :: 0 <= i < 3 ==> Passes(PartLines()[i]) && PartLines()[i] != []
    ensures Passes(TYPE + ": " + PLAIN)
  {
    NamesPass();
    ValuesPass();
    hide Passes;
    FieldPasses(TYPE, PLAIN);
    FieldPasses(TYPE, BINARY);
    FieldPasses(ENCODING, "base64");
    FieldPasses(DISPOSITION, ATTACHMENT);
  }

  lemma LastPart(n: int)
    ensures PartsFrom((SecondPart(n) + CRLF) + LastDelimiter(), BOUNDARY) == Some([SecondPart(n)])
  {
    hide UpTo, Joined, PartLines, Payload, LastDelimiter, Passes;
    var ending := LastDelimiter();
    Ending();
    PartLinesPass();
    NoHyphenInPayload(0, n);
    PartIsCut(PartLines(), Payload(0, n), ending, BOUNDARY);
    BareEnd(SecondPart(n));
  }

  lemma Ending()
    ensures UpTo(LastDelimiter(), BOUNDARY) == Cut([], true, [])
  {
    hide UpTo;
    Delimiters();
    DelimiterCuts(BOUNDARY, []);
    assert LastDelimiter() + [] == LastDelimiter();
  }

  lemma FirstPartCut(rest: bytes)
    ensures UpTo((FirstPart() + CRLF) + (Delimiter() + rest), BOUNDARY) == Cut(FirstPart() + CRLF, false, rest)
  {
    hide UpTo, Joined, Terms, Words, Passes;
    Delimiters();
    DelimiterCuts(BOUNDARY, rest);
    PartLinesPass();
    TermsHaveNoHyphen();
    NoHyphenInWords(Terms(), 0, 512);
    PartIsCut([TYPE + ": " + PLAIN], Words(Terms(), 0, 512), Delimiter() + rest, BOUNDARY);
  }

  lemma BodyParts(n: int)
    ensures Parts(Body(n), BOUNDARY) == Some([FirstPart(), SecondPart(n)])
  {
    hide UpTo, FirstPart, SecondPart, Delimiter, LastDelimiter;
    var second := (SecondPart(n) + CRLF) + LastDelimiter();
    var first := (FirstPart() + CRLF) + (Delimiter() + second);
    Delimiters();
    DelimiterCuts(BOUNDARY, first) by { DelimiterIs(); }
    DelimiterIs();
    FirstPartCut(second);
    LastPart(n);
    BareEnd(FirstPart());
    assert [FirstPart()] + [SecondPart(n)] == [FirstPart(), SecondPart(n)];
    assert PartsFrom(first, BOUNDARY) == Some([FirstPart(), SecondPart(n)]);
  }

  lemma DelimiterIs()
    ensures Delimiter() == Line("--" + BOUNDARY)
  {
  }

  /** The boundary a header declares. */
  function Declared(header: seq<bytes>): bytes {
    var kind := Field(header, TYPE);
    if kind.Some? && MIXED <= kind.value then kind.value[|MIXED|..] else []
  }

  /** How many characters of payload there are, `before` octets having gone before it. */
  function PayloadOctets(before: nat, size: nat): nat { if before < size then size - before else 0 }

  /** A part of words in turn, as many as fill 512 octets. */
  predicate TextPart(part: bytes, k: nat) {
    var text := Open(part);
    var words := Tokens(text.body);
    && |text.header| == 1 && Field(text.header, TYPE) == Some(PLAIN)
    && |text.body| == FilledTo(512) + 2 && words != [] && (k < |words| ==> words[k] == TERMS[k % 10])
  }

  /** A part in base64: `n` characters, and which the `j`-th is. It can be decoded if and
      only if their number is a multiple of four, since nothing pads it, and then to three
      octets for every four. */
  predicate PayloadPart(part: bytes, n: nat, j: nat) {
    var payload := Open(part);
    var code := Unfolded(payload.body);
    && |payload.header| == 3 && Field(payload.header, TYPE) == Some(BINARY)
    && Field(payload.header, ENCODING) == Some("base64") && Field(payload.header, DISPOSITION) == Some(ATTACHMENT)
    && Payloaded(code, n, j)
  }

  predicate Payloaded(code: bytes, n: nat, j: nat) {
    && |code| == n && (j < n ==> Sextet(code[j]) == Some((j + j % 76) % 64))
    && (Decode(code).Some? <==> n % 4 == 0) && (Decode(code).Some? ==> 4 * |Decode(code).value| == 3 * n)
  }

  lemma FirstPartReads(k: nat)
    ensures TextPart(FirstPart(), k)
  {
    hide Open, Joined, Tokens, Words, Terms, Unspaced, Passes, FilledTo, Field;
    var line := TYPE + ": " + PLAIN;
    PartLinesPass();
    IsHeaderLine(line);
    HeaderIsRead([line], Words(Terms(), 0, 512));
    OnlyField(line);
    TermsAreWords();
    WordsInTurn(Terms(), 0, 512, k);
    WordsReach(0, 512);
  }

  lemma OnlyField(line: bytes)
    requires line == TYPE + ": " + PLAIN
    ensures Field([line], TYPE) == Some(PLAIN)
  {
    assert ':' !in TYPE;
    NameTells(TYPE, PLAIN, TYPE);
  }

  lemma IsHeaderLine(l: bytes)
    requires Passes(l)
    ensures LF !in l
  {
  }

  lemma PartFields()
    ensures Field(PartLines(), TYPE) == Some(BINARY) && Field(PartLines(), ENCODING) == Some("base64")
    ensures Field(PartLines(), DISPOSITION) == Some(ATTACHMENT)
  {
    hide Field, Distinct, Fields;
    var names, values := [TYPE, ENCODING, DISPOSITION], [BINARY, "base64", ATTACHMENT];
    PartNames(names, values);
    FieldIsFound(names, values, 0);
    FieldIsFound(names, values, 1);
    FieldIsFound(names, values, 2);
  }

  lemma PartNames(names: seq<bytes>, values: seq<bytes>)
    requires names == [TYPE, ENCODING, DISPOSITION] && values == [BINARY, "base64", ATTACHMENT]
    ensures Distinct(names) && Fields(names, values) == PartLines()
  {
    assert |TYPE| == 12 && |ENCODING| == 25 && |DISPOSITION| == 19;
  }

  lemma SecondPartReads(n: int, j: nat)
    ensures PayloadPart(SecondPart(n), if n > 0 then n else 0, j)
  {
    hide Open, Joined, Passes, Field, Payloaded, Payload, Unfolded, PartLines;
    PartLinesPass();
    forall i | 0 <= i < 3 ensures LF !in PartLines()[i] { IsHeaderLine(PartLines()[i]); }
    HeaderIsRead(PartLines(), Payload(0, n));
    PartFields();
    PayloadReads(n, j);
  }

  lemma PayloadReads(n: int, j: nat)
    ensures Payloaded(Unfolded(Payload(0, n)), if n > 0 then n else 0, j)
  {
    hide Decode, Sextet, Unfolded, Unpadded;
    if n > 0 {
      PayloadHolds(0, n, j);
      DecodesIff(Unfolded(Payload(0, n)));
    } else {
      NothingUnfolds();
      DecodesIff([]);
    }
  }

  /** A message with a payload, read: its header says what it was generated from and
      declares a boundary; cut there, its body is two parts, the words and a payload in
      base64, with a character for every octet of the size that was left. */
  lemma AttachedReads(s: Stamp, size: nat, k: nat, j: nat)
    requires Unbroken(s)
    ensures var m := Open(Rendered(Texts(), StampLines(s), size, true));
            var parts := Parts(m.body, Declared(m.header));
            && Announced(m.header, s, MIXED + BOUNDARY)
            && parts.Some? && |parts.value| == 2 && TextPart(parts.value[0], k)
            && PayloadPart(parts.value[1], PayloadOctets(|Opening(Texts(), StampLines(s))|, size), j)
  {
    hide Open, Texts, StampLines, Joined, Rendered, Opening, Field, Parts, FirstPart, SecondPart, Body,
         Announced, TextPart, PayloadPart, Declared;
    var n := size - |Opening(Texts(), StampLines(s))|;
    AttachedParts(s, size);
    KindIsPlain();
    OpensWith(s, MIXED + BOUNDARY, Body(n));
    BoundaryIs(Open(Rendered(Texts(), StampLines(s), size, true)).header, s);
    BodyParts(n);
    FirstPartReads(k);
    SecondPartReads(n, j);
  }

  lemma KindIsPlain()
    ensures LF !in MIXED + BOUNDARY
  {
  }

  lemma BoundaryIs(header: seq<bytes>, s: Stamp)
    requires Announced(header, s, MIXED + BOUNDARY)
    ensures Declared(header) == BOUNDARY
  {
    hide Field;
    var kind := MIXED + BOUNDARY;
    assert kind[|MIXED|..] == BOUNDARY;
  }
}
