/** internal/pop3drv/pop3.go: one POP3 session, in step with the server (RFC 1939). */
module Pop3 {
  import opened Octets
  import opened DotStuffing

  // ------------------------------------------------------------- status lines

  const POSITIVE: bytes := "+OK"
  const NEGATIVE: bytes := "-ERR"

  datatype Status = Fine(text: bytes) | Denied | Odd | Gone

  /** `readStatus`: one line, and what followed +OK on it. */
  function StatusOf(s: bytes): (Status, bytes) {
    var r := ReadLine(s);
    var line := TrimEol(r.line);
    if r.eof then (Gone, r.rest)
    else if POSITIVE <= line then (Fine(TrimSpace(line[3..])), r.rest)
    else if NEGATIVE <= line then (Denied, r.rest)
    else (Odd, r.rest)
  }

  method ReadStatus(br: Reader) returns (st: Status)
    modifies br
    ensures (st, br.unread) == StatusOf(old(br.unread))
  {
    var line, eof := br.ReadString();
    if eof {
      return Gone;
    }
    line := TrimEol(line);
    if POSITIVE <= line {
      return Fine(TrimSpace(line[3..]));
    }
    if NEGATIVE <= line {
      return Denied;
    }
    return Odd;
  }

  function TrimmedField(s: bytes): bytes {
    if s == [] || IsSpace(s[0]) then [] else [s[0]] + TrimmedField(s[1..])
  }

  /** The number in the first field of STAT's answer, when there is one. */
  function CountIn(text: bytes): Option<int> {
    var f := TrimmedField(TrimLeft(text));
    if f == [] then None else Atoi(f)
  }

  // ------------------------------------------------------------------- replies

  const LIST: bytes := "LIST"
  const UIDL: bytes := "UIDL"
  const RETR: bytes := "RETR "

  /** The commands a text follows a positive status of (section 3 of RFC 1939: listings of
      the whole maildrop, and a message). The server goes by this, whatever the client
      reads. */
  predicate AsksForText(line: bytes) { line == LIST || line == UIDL || RETR <= line }

  /** A server's answer: a status line, and the text it would send to a command that asks
      for one. */
  datatype Reply = Reply(line: bytes, body: bytes)

  predicate Positive(r: Reply) { POSITIVE <= r.line }

  /** Section 3 of RFC 1939: one line that starts with +OK or -ERR. */
  predicate Conforming(r: Reply) {
    LF !in r.line && (POSITIVE <= r.line || NEGATIVE <= r.line)
  }

  function StatusLine(r: Reply): bytes { r.line + CRLF }

  /** What travels: a text only after a positive status, and only when the command asks
      for one. */
  function ReplyBytes(r: Reply, line: bytes): bytes {
    StatusLine(r) + if AsksForText(line) && Positive(r) then Wire(r.body) else []
  }

  function StatusText(r: Reply): bytes
    requires |TrimEol(StatusLine(r))| >= 3
  {
    TrimSpace(TrimEol(StatusLine(r))[3..])
  }

  lemma MarkIsKept(mark: bytes, line: bytes)
    requires 0 < |mark| && mark[|mark| - 1] != CR && mark[|mark| - 1] != LF
    ensures mark <= TrimEol(line + CRLF) <==> mark <= line
  {
    var l := line + CRLF;
    TrimEolIsPrefix(l);
    if mark <= line {
      assert l[|mark| - 1] == mark[|mark| - 1];
      TrimKeeps(l, |mark|);
      assert mark == l[..|mark|];
    }
    if mark <= TrimEol(l) {
      assert mark == l[..|mark|];
      assert l[|mark| - 1] == mark[|mark| - 1];
      assert |mark| <= |line|;
    }
  }

  lemma StatusIsRead(r: Reply, rest: bytes)
    requires Conforming(r)
    ensures StatusOf(StatusLine(r) + rest).1 == rest
    ensures StatusOf(StatusLine(r) + rest).0.Fine? <==> Positive(r)
    ensures Positive(r) ==> |TrimEol(StatusLine(r))| >= 3 && StatusOf(StatusLine(r) + rest).0 == Fine(StatusText(r))
  {
    var l := StatusLine(r);
    assert l[..|l| - 1] == r.line + [CR];
    IsLineIff(l);
    ReadWholeLine(l, rest);
    MarkIsKept(POSITIVE, r.line);
  }

  /** The status of a reply that holds a text is read off it, and then the text, to its
      last octet. */
  lemma TextIsRead(r: Reply, line: bytes)
    requires Conforming(r) && AsksForText(line)
    ensures var s := StatusOf(ReplyBytes(r, line));
            && (s.0.Fine? <==> Positive(r))
            && (Positive(r) ==> CountLines(s.1) == Counted(Newlines(Complete(r.body)), [], true))
  {
    hide StatusOf, StatusLine, StatusText, Wire, CountLines, Newlines, Complete, Conforming;
    var text := if Positive(r) then Wire(r.body) else [];
    StatusIsRead(r, text);
    if Positive(r) {
      Transparent(r.body, []);
      assert Wire(r.body) + [] == Wire(r.body);
    }
  }

  // ------------------------------------------------------------- the connection

  /** `sent` is every command line written, `answers` what the server will reply: it says
      nothing before it has the command. */
  class Link {
    const br: Reader
    var sent: seq<bytes>
    var answers: seq<Reply>

    constructor (greeting: Reply, answers: seq<Reply>)
      ensures fresh(br) && br.unread == StatusLine(greeting) && sent == [] && this.answers == answers
    {
      br := new Reader(StatusLine(greeting));
      sent, this.answers := [], answers;
    }

    /** Nothing is unread, and every command so far, `all` being the answers there were
        to begin with, was answered well. */
    ghost predicate InStep(all: seq<Reply>)
      reads this, br
    {
      && br.unread == [] && |sent| <= |all| && answers == all[|sent|..]
      && (forall i :: 0 <= i < |all| ==> Conforming(all[i]))
      && forall i :: 0 <= i < |sent| ==> Positive(all[i])
    }

    /** The server gets a command and says all it has to say to it. */
    method Send(line: bytes)
      modifies this, br
      ensures sent == old(sent) + [line]
      ensures old(answers) == [] ==> answers == [] && br.unread == old(br.unread)
      ensures old(answers) != [] ==>
                answers == old(answers)[1..] && br.unread == old(br.unread) + ReplyBytes(old(answers)[0], line)
    {
      sent := sent + [line];
      if answers != [] {
        br.unread := br.unread + ReplyBytes(answers[0], line);
        answers := answers[1..];
      }
    }

    /** A command answered by one line. */
    method Cmd(line: bytes, ghost all: seq<Reply>) returns (ok: bool, text: bytes)
      requires InStep(all) && !AsksForText(line)
      modifies this, br
      ensures sent == old(sent) + [line]
      ensures ok <==> |old(sent)| < |all| && Positive(all[|old(sent)|])
      ensures ok ==> InStep(all) && |TrimEol(StatusLine(all[|old(sent)|]))| >= 3 && text == StatusText(all[|old(sent)|])
    {
      hide StatusOf, StatusText, StatusLine, Conforming, Positive;
      ghost var k := |sent|;
      Send(line);
      if k < |all| {
        StatusIsRead(all[k], []);
        assert [] + (StatusLine(all[k]) + []) == StatusLine(all[k]) + [];
      } else {
        NothingIsGone();
      }
      var st := ReadStatus(br);
      ok, text := st.Fine?, if st.Fine? then st.text else [];
    }

    /** A command answered by a text, whose lines are counted. */
    method Multiline(line: bytes, ghost all: seq<Reply>) returns (ok: bool, n: nat)
      requires InStep(all) && AsksForText(line)
      modifies this, br
      ensures sent == old(sent) + [line]
      ensures ok <==> |old(sent)| < |all| && Positive(all[|old(sent)|])
      ensures ok ==> InStep(all) && n == Newlines(Complete(all[|old(sent)|].body))
    {
      hide StatusOf, StatusText, StatusLine, Conforming, Positive, Wire, CountLines, Newlines, Complete, AsksForText;
      ghost var k := |sent|;
      Send(line);
      if k < |all| {
        TextIsRead(all[k], line);
        assert [] + ReplyBytes(all[k], line) == ReplyBytes(all[k], line);
      } else {
        NothingIsGone();
      }
      var st := ReadStatus(br);
      if !st.Fine? {
        return false, 0;
      }
      n, ok := ReadMultiline(br);
    }
  }

  lemma NothingIsGone()
    ensures StatusOf([]) == (Gone, [])
  {
  }

  // ---------------------------------------------------------------- one session

  datatype Config = Config(user: bytes, password: bytes, perSession: nat, delete: bool, uidl: bool)

  function Retr(n: nat): bytes { RETR + Dec(n) }
  function Dele(n: nat): bytes { "DELE " + Dec(n) }

  function LogIn(c: Config): seq<bytes> {
    ["USER " + c.user, "PASS " + c.password, "STAT"]
  }

  function Survey(c: Config): seq<bytes> {
    [LIST] + if c.uidl then [UIDL] else []
  }

  function Round(n: nat, delete: bool): seq<bytes> {
    [Retr(n)] + if delete then [Dele(n)] else []
  }

  /** What is retrieved when `n` is the newest not yet retrieved and `left` may be. */
  function Retrieval(n: int, left: nat, delete: bool): seq<bytes> {
    if n <= 0 || left == 0 then [] else Round(n, delete) + Retrieval(n - 1, left - 1, delete)
  }

  lemma FirstTells(line: bytes)
    requires line != [] && line[0] != 'L' && line[0] != 'U' && line[0] != 'R'
    ensures !AsksForText(line)
  {
    assert LIST[0] == 'L' && UIDL[0] == 'U' && RETR[0] == 'R';
  }

  lemma UserIsNotUidl(user: bytes)
    ensures !AsksForText("USER " + user)
  {
    var line := "USER " + user;
    assert line[1] == 'S' && UIDL[1] == 'I' && line[0] == 'U' && LIST[0] == 'L' && RETR[0] == 'R';
  }

  /** What follows logging in, on a maildrop of `count` messages. */
  function Business(c: Config, count: int): seq<bytes> {
    (Survey(c) + Retrieval(count, c.perSession, c.delete)) + ["QUIT"]
  }

  /** All commands of a session. */
  function Script(c: Config, count: int): seq<bytes> {
    LogIn(c) + Business(c, count)
  }

  /** The count the answer to STAT holds. */
  function MaildropSize(all: seq<Reply>): Option<int> {
    if |all| > 2 && |TrimEol(StatusLine(all[2]))| >= 3 then CountIn(StatusText(all[2])) else None
  }

  predicate AllPositive(all: seq<Reply>, n: nat) {
    n <= |all| && forall i :: 0 <= i < n ==> Positive(all[i])
  }

  /** Lockstep: against a server that answers as RFC 1939 has it, every command is sent
      with nothing left unread; the commands are always the script of the maildrop's
      size, as far as the answers let it go; and the session succeeds exactly when the
      whole script was answered well and STAT held a number. */
  method Session(l: Link, c: Config, ghost g: Reply) returns (ok: bool)
    requires Conforming(g) && l.br.unread == StatusLine(g) && l.sent == []
    requires forall i :: 0 <= i < |l.answers| ==> Conforming(l.answers[i])
    modifies l, l.br
    ensures ok ==> l.br.unread == []
    ensures var all := old(l.answers);
            ok <==> Positive(g) && AllPositive(all, 3) && MaildropSize(all).Some?
                    && AllPositive(all, |Script(c, MaildropSize(all).value)|)
    ensures var n := MaildropSize(old(l.answers));
            if n.Some? then l.sent <= Script(c, n.value) && (ok ==> l.sent == Script(c, n.value))
            else l.sent <= LogIn(c)
  {
    ghost var all := l.answers;
    StatusIsRead(g, []);
    assert StatusLine(g) + [] == StatusLine(g);
    var st := ReadStatus(l.br);
    if !st.Fine? {
      return false;
    }
    var count;
    ok, count := Authenticate(l, c, all);
    if !ok {
      LogInIsPrefix(c, l.sent, all);
      return;
    }
    ok := Proceed(l, c, count, all);
  }

  lemma LogInIsPrefix(c: Config, sent: seq<bytes>, all: seq<Reply>)
    requires sent <= LogIn(c)
    ensures MaildropSize(all).Some? ==> sent <= Script(c, MaildropSize(all).value)
  {
  }

  method Authenticate(l: Link, c: Config, ghost all: seq<Reply>) returns (ok: bool, count: int)
    requires l.InStep(all) && l.sent == []
    modifies l, l.br
    ensures l.sent <= LogIn(c)
    ensures ok <==> AllPositive(all, 3) && MaildropSize(all).Some?
    ensures ok ==> l.InStep(all) && l.sent == LogIn(c) && count == MaildropSize(all).value
  {
    hide AsksForText, StatusText, StatusLine, Conforming, CountIn;
    count := 0;
    UserIsNotUidl(c.user);
    FirstTells("PASS " + c.password);
    FirstTells("STAT");
    var text;
    ok, text := l.Cmd("USER " + c.user, all);
    if !ok { return; }
    ok, text := l.Cmd("PASS " + c.password, all);
    if !ok { return; }
    ok, text := l.Cmd("STAT", all);
    if !ok { return; }
    var n := CountIn(text);
    if n.None? {
      return false, 0;
    }
    count := n.value;
  }

  method Look(l: Link, c: Config, ghost all: seq<Reply>) returns (ok: bool)
    requires l.InStep(all)
    modifies l, l.br
    ensures ok <==> AllPositive(all, |old(l.sent)| + |Survey(c)|)
    ensures old(l.sent) <= l.sent <= old(l.sent) + Survey(c)
    ensures ok ==> l.InStep(all) && l.sent == old(l.sent) + Survey(c)
  {
    var n;
    ok, n := l.Multiline(LIST, all);
    if !ok || !c.uidl { return; }
    ok, n := l.Multiline(UIDL, all);
  }

  /** One message, newest first. */
  method FetchOne(l: Link, c: Config, n: nat, ghost all: seq<Reply>) returns (ok: bool)
    requires l.InStep(all)
    modifies l, l.br
    ensures ok <==> AllPositive(all, |old(l.sent)| + |Round(n, c.delete)|)
    ensures old(l.sent) <= l.sent <= old(l.sent) + Round(n, c.delete)
    ensures ok ==> l.InStep(all) && l.sent == old(l.sent) + Round(n, c.delete)
  {
    var lines;
    ok, lines := l.Multiline(Retr(n), all);
    if !ok || !c.delete { return; }
    var text;
    FirstTells(Dele(n));
    ok, text := l.Cmd(Dele(n), all);
  }

  method Fetch(l: Link, c: Config, count: int, ghost all: seq<Reply>) returns (ok: bool)
    requires l.InStep(all)
    modifies l, l.br
    ensures ok <==> AllPositive(all, |old(l.sent)| + |Retrieval(count, c.perSession, c.delete)|)
    ensures old(l.sent) <= l.sent <= old(l.sent) + Retrieval(count, c.perSession, c.delete)
    ensures ok ==> l.InStep(all) && l.sent == old(l.sent) + Retrieval(count, c.perSession, c.delete)
  {
    hide Round, Positive;
    ghost var whole := l.sent + Retrieval(count, c.perSession, c.delete);
    var n, retrieved := count, 0;
    while n > 0 && retrieved < c.perSession
      invariant retrieved <= c.perSession
      invariant l.InStep(all) && old(l.sent) <= l.sent
      invariant l.sent + Retrieval(n, c.perSession - retrieved, c.delete) == whole
      decreases c.perSession - retrieved
    {
      ghost var tail := Retrieval(n - 1, c.perSession - retrieved - 1, c.delete);
      assert l.sent + (Round(n, c.delete) + tail) == (l.sent + Round(n, c.delete)) + tail;
      ok := FetchOne(l, c, n, all);
      if !ok { return; }
      retrieved := retrieved + 1;
      n := n - 1;
    }
    return true;
  }

  method Proceed(l: Link, c: Config, count: int, ghost all: seq<Reply>) returns (ok: bool)
    requires l.InStep(all)
    modifies l, l.br
    ensures ok <==> AllPositive(all, |old(l.sent)| + |Business(c, count)|)
    ensures old(l.sent) <= l.sent <= old(l.sent) + Business(c, count)
    ensures ok ==> l.InStep(all) && l.sent == old(l.sent) + Business(c, count)
  {
    ghost var before, survey, retrieval := l.sent, Survey(c), Retrieval(count, c.perSession, c.delete);
    assert before + Business(c, count) == ((before + survey) + retrieval) + ["QUIT"];
    ok := Look(l, c, all);
    if !ok { return; }
    ok := Fetch(l, c, count, all);
    if !ok { return; }
    var text;
    FirstTells("QUIT");
    ok, text := l.Cmd("QUIT", all);
  }

  // ------------------------------------------------------------------ promises

  function Fetched(count: int, limit: nat): nat {
    if count <= 0 then 0 else if count < limit then count else limit
  }

  /** How many are retrieved is the smaller of the maildrop and the limit, none of an empty
      one, and the `k`-th is the one `k` below the newest: each once, and none that the
      maildrop does not hold. */
  lemma {:induction false} RetrievesNewest(count: int, limit: nat, delete: bool, k: nat)
    requires k < Fetched(count, limit)
    ensures var step := if delete then 2 else 1;
            var r := Retrieval(count, limit, delete);
            && |r| == step * Fetched(count, limit)
            && 1 <= count - k <= count
            && r[step * k] == Retr(count - k)
            && (delete ==> r[step * k + 1] == Dele(count - k))
  {
    hide Retr, Dele;
    if k > 0 {
      var rest := Retrieval(count - 1, limit - 1, delete);
      RetrievesNewest(count - 1, limit - 1, delete, k - 1);
      assert Retrieval(count, limit, delete) == Round(count, delete) + rest;
      assert if delete then 2 * k == 2 * (k - 1) + 2 else k == (k - 1) + 1;
    } else {
      RetrievalLength(count, limit, delete);
    }
  }

  lemma {:induction false} RetrievalLength(count: int, limit: nat, delete: bool)
    ensures |Retrieval(count, limit, delete)| == (if delete then 2 else 1) * Fetched(count, limit)
  {
    if count > 0 && limit > 0 { RetrievalLength(count - 1, limit - 1, delete); }
  }

  /** No message is asked for twice. */
  lemma RetrievesEachOnce(m: nat, n: nat)
    ensures Retr(m) == Retr(n) <==> m == n
    ensures Retr(m) != Dele(n)
  {
    if Retr(m) == Retr(n) {
      assert Dec(m) == Retr(m)[5..] && Dec(n) == Retr(n)[5..];
      DecInjective(m, n);
    }
    assert Retr(m)[0] == 'R' && Dele(n)[0] == 'D';
  }

  /** A field: octets, none of which is a blank. */
  predicate Unbroken(s: bytes) { forall i :: 0 <= i < |s| ==> !Blank([s[i]]) }

  lemma {:induction false} FieldEnds(f: bytes, t: bytes)
    requires forall i :: 0 <= i < |f| ==> !IsSpace(f[i])
    requires t == [] || IsSpace(t[0])
    ensures TrimmedField(f + t) == f
  {
    if f == [] {
      assert f + t == t;
    } else {
      HeadOfSum(f, t);
      HeadAndTail(f);
      FieldEnds(f[1..], t);
    }
  }

  /** What is left of a status line with its end cut off still holds the field. */
  lemma FieldSurvives(lead: bytes, f: bytes, tail: bytes) returns (t: bytes)
    requires Blank(lead) && f != [] && Unbroken(f) && (tail == [] || Blank([tail[0]]))
    ensures t <= tail
    ensures TrimEol(POSITIVE + lead + f + tail + CRLF) == POSITIVE + lead + f + t
  {
    var kept := POSITIVE + lead + f;
    var l := kept + tail + CRLF;
    BlankIsSpace(f[|f| - 1]);
    assert l[|kept| - 1] == f[|f| - 1];
    TrimKeeps(l, |kept|);
    TrimEolIsPrefix(l);
    KeepsOfTail(kept + tail);
    t := TrimEol(l)[|kept|..];
    assert TrimEol(l) == kept + t;
    assert (kept + tail)[|kept|..] == tail;
  }

  lemma KeepsOfTail(s: bytes)
    ensures |TrimEol(s + CRLF)| <= |s|
  {
    var l := s + CRLF;
    assert l[..|l| - 1] == s + [CR];
    assert (s + [CR])[..|s|] == s;
  }

  /** STAT's answer, read field by field: the first run of octets without a blank after +OK
      is the count, if it is a number; and with no such run there is none. */
  lemma StatIsCounted(all: seq<Reply>, lead: bytes, f: bytes, tail: bytes)
    requires |all| > 2 && all[2].line == "+OK" + lead + f + tail
    requires Blank(lead) && Unbroken(f) && (tail == [] || (f != [] && Blank([tail[0]])))
    ensures MaildropSize(all) == if f == [] then None else Atoi(f)
  {
    var l := StatusLine(all[2]);
    forall i | 0 <= i < |lead| ensures IsSpace(lead[i]) { BlankIsSpace(lead[i]); }
    forall i | 0 <= i < |f| ensures !IsSpace(f[i]) { BlankIsSpace(f[i]); }
    assert l == POSITIVE + lead + f + tail + CRLF;
    if f != [] {
      var t := FieldSurvives(lead, f, tail);
      assert TrimEol(l)[3..] == lead + f + t;
      if tail != [] { BlankIsSpace(tail[0]); }
      FirstField(lead, f, t);
    } else {
      NoField(l, lead);
    }
  }

  lemma FirstField(lead: bytes, f: bytes, t: bytes)
    requires forall i :: 0 <= i < |lead| ==> IsSpace(lead[i])
    requires f != [] && forall i :: 0 <= i < |f| ==> !IsSpace(f[i])
    requires t == [] || IsSpace(t[0])
    ensures CountIn(TrimSpace(lead + f + t)) == Atoi(f)
  {
    hide Atoi;
    var s := lead + f + t;
    var k := |lead + f|;
    assert s[k - 1] == f[|f| - 1];
    TrimRightKeeps(s, k);
    var u := TrimRight(s)[k..];
    assert TrimRight(s) == lead + (f + u);
    assert u == [] || u[0] == t[0];
    TrimLeftDrops(lead, f + u);
    assert TrimLeft(f + u) == f + u;
    FieldEnds(f, u);
  }

  lemma NoField(l: bytes, lead: bytes)
    requires forall i :: 0 <= i < |lead| ==> IsSpace(lead[i])
    requires l == POSITIVE + lead + CRLF
    ensures |TrimEol(l)| >= 3 && CountIn(TrimSpace(TrimEol(l)[3..])) == None
  {
    assert l[2] == 'K';
    TrimKeeps(l, 3);
    TrimEolIsPrefix(l);
    KeepsOfTail(POSITIVE + lead);
    var s := TrimEol(l)[3..];
    forall i | 0 <= i < |s| ensures IsSpace(s[i]) { assert s[i] == lead[i]; }
    NothingLeft(s);
  }

  /** And every answer reads so in one way. */
  lemma {:induction false} HasFirstField(text: bytes) returns (lead: bytes, f: bytes, tail: bytes)
    ensures text == lead + f + tail && Blank(lead) && Unbroken(f)
    ensures tail == [] || (f != [] && Blank([tail[0]]))
  {
    lead, f, tail := [], [], [];
    if text != [] {
      lead, f, tail := HasFirstField(text[1..]);
      assert text == [text[0]] + text[1..];
      if Blank([text[0]]) {
        if lead == [] && f != [] {
          lead := [text[0]];
        } else {
          lead := [text[0]] + lead;
        }
      } else if lead == [] {
        f := [text[0]] + f;
      } else {
        lead, f, tail := [], [text[0]], lead + f + tail;
        assert Blank([tail[0]]);
      }
    }
  }

  /** What servers answer: the count and the octets of the maildrop. */
  lemma StatOfAMaildrop(all: seq<Reply>, n: nat, octets: nat)
    requires |all| > 2 && all[2].line == "+OK " + Dec(n) + " " + Dec(octets) && n <= MaxInt
    ensures MaildropSize(all) == Some(n)
  {
    hide Dec, MaildropSize, StatusText, Atoi;
    var f := Dec(n);
    var lead, tail := " ", " " + Dec(octets);
    assert all[2].line == "+OK" + lead + f + tail;
    forall i | 0 <= i < |f| ensures !Blank([f[i]]) {
      assert IsDigit(f[i]);
      BlankIsSpace(f[i]);
    }
    BlankIsSpace(tail[0]);
    StatIsCounted(all, lead, f, tail);
    AtoiOfDec(n);
  }

  /** The whole script, literally: where each retrieval stands and that it is of the `k`-th
      newest message, for as many as there are and may be, and nothing else. */
  lemma ScriptMeans(c: Config, n: int, k: nat)
    ensures var s := Script(c, n);
            var first := if c.uidl then 5 else 4;
            var step := if c.delete then 2 else 1;
            && |s| == first + step * (if n <= 0 then 0 else if n < c.perSession then n else c.perSession) + 1
            && s[0] == "USER " + c.user && s[1] == "PASS " + c.password && s[2] == "STAT" && s[3] == "LIST"
            && (c.uidl ==> s[4] == "UIDL")
            && (k < n && k < c.perSession ==>
                  && first + step * k + step < |s|
                  && s[first + step * k] == "RETR " + Dec(n - k)
                  && (c.delete ==> s[first + step * k + 1] == "DELE " + Dec(n - k)))
            && s[|s| - 1] == "QUIT"
  {
    hide Dec;
    var r := Retrieval(n, c.perSession, c.delete);
    RetrievalLength(n, c.perSession, c.delete);
    if k < n && k < c.perSession { RetrievesNewest(n, c.perSession, c.delete, k); }
    assert Script(c, n) == (LogIn(c) + Survey(c)) + r + ["QUIT"];
  }
}
