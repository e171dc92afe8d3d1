/** internal/lmtp/lmtp.go: one delivery, command by command, in step with the server
    (RFC 2033), and the rotation over recipients. */
module Lmtp {
  import opened Octets
  import opened DotStuffing
  import opened Counting

  // ---------------------------------------------------------------- replies

  datatype Verdict = Fine | NoReply | ShortReply | Unwanted

  /** `readReply`: lines are taken until one has a space after its code. */
  function Reading(s: bytes, want: bytes): (Verdict, bytes)
    decreases |s|
  {
    var r := ReadLine(s);
    var line := TrimEol(r.line);
    if r.eof then (NoReply, r.rest)
    else if |line| < 4 then (ShortReply, r.rest)
    else if !(want <= line) then (Unwanted, r.rest)
    else if line[3] == ' ' then (Fine, r.rest)
    else Reading(r.rest, want)
  }

  method ReadReply(br: Reader, want: bytes) returns (v: Verdict)
    modifies br
    ensures (v, br.unread) == Reading(old(br.unread), want)
  {
    ghost var whole := Reading(br.unread, want);
    while true
      invariant Reading(br.unread, want) == whole
      decreases |br.unread|
    {
      var line, eof := br.ReadString();
      if eof {
        return NoReply;
      }
      line := TrimEol(line);
      if |line| < 4 {
        return ShortReply;
      }
      if !(want <= line) {
        return Unwanted;
      }
      if line[3] == ' ' {
        return Fine;
      }
    }
  }

  /** A reply as section 4.2.1 of RFC 5321 has it: the same code on every line, a hyphen
      after it on all lines but the last. */
  datatype Reply = Reply(code: bytes, more: seq<bytes>, last: bytes)

  predicate PlainText(t: bytes) { LF !in t }

  predicate Conforming(r: Reply) {
    && |r.code| == 3 && (forall i :: 0 <= i < 3 ==> IsDigit(r.code[i]))
    && PlainText(r.last) && forall i :: 0 <= i < |r.more| ==> PlainText(r.more[i])
  }

  function ReplyLine(code: bytes, mark: octet, text: bytes): bytes {
    (code + [mark]) + (text + CRLF)
  }

  function ReplyBytes(r: Reply): bytes
    decreases |r.more|
  {
    if r.more == [] then ReplyLine(r.code, ' ', r.last)
    else ReplyLine(r.code, '-', r.more[0]) + ReplyBytes(r.(more := r.more[1..]))
  }

  lemma ReplyLineReads(code: bytes, mark: octet, text: bytes, rest: bytes)
    requires |code| == 3 && (forall i :: 0 <= i < 3 ==> IsDigit(code[i])) && PlainText(text)
    requires mark == ' ' || mark == '-'
    ensures var l := ReplyLine(code, mark, text);
            && ReadLine(l + rest) == Read(l, rest, false)
            && |TrimEol(l)| >= 4 && code <= TrimEol(l) && TrimEol(l)[3] == mark
  {
    var l := ReplyLine(code, mark, text);
    assert l[..|l| - 1] == (code + [mark]) + (text + [CR]);
    assert l[3] == mark && l[..3] == code;
    IsLineIff(l);
    ReadWholeLine(l, rest);
    TrimKeeps(l, 4);
    TrimEolIsPrefix(l);
    var t := TrimEol(l);
    assert t == l[..|t|] && t[..3] == l[..3] && t[3] == l[3];
  }

  /** A conforming reply is consumed to its last octet when its code is the one wanted,
      however many lines it has, and refused when it is not. */
  lemma {:induction false} ReplyIsRead(r: Reply, want: bytes, rest: bytes)
    requires Conforming(r) && |want| == 3
    ensures r.code == want ==> Reading(ReplyBytes(r) + rest, want) == (Fine, rest)
    ensures r.code != want ==> Reading(ReplyBytes(r) + rest, want).0 == Unwanted
    decreases |r.more|
  {
    if r.more == [] {
      ReplyLineReads(r.code, ' ', r.last, rest);
      CodeIsPrefix(r.code, want, TrimEol(ReplyLine(r.code, ' ', r.last)));
    } else {
      var tail := r.(more := r.more[1..]);
      var l := ReplyLine(r.code, '-', r.more[0]);
      ReplyIsRead(tail, want, rest);
      Assoc(l, ReplyBytes(tail), rest);
      ReplyLineReads(r.code, '-', r.more[0], ReplyBytes(tail) + rest);
      CodeIsPrefix(r.code, want, TrimEol(l));
    }
  }

  lemma CodeIsPrefix(code: bytes, want: bytes, line: bytes)
    requires |code| == |want| && code <= line
    ensures want <= line <==> code == want
  {
  }

  /** A verdict stands whatever arrives after the lines it was read from. */
  lemma {:induction false} VerdictIsFinal(s: bytes, t: bytes, want: bytes)
    requires Reading(s, want).0 != NoReply
    ensures Reading(s + t, want) == (Reading(s, want).0, Reading(s, want).1 + t)
    decreases |s|
  {
    hide ReadLine, TrimEol;
    var r := ReadLine(s);
    var line := TrimEol(r.line);
    LineIsFinal(s, t);
    if |line| >= 4 && want <= line && line[3] != ' ' { VerdictIsFinal(r.rest, t, want); }
  }

  /** A reply that is cut short, between its lines or within one, is never taken for the
      one that was wanted. */
  lemma CutShortIsNoReply(r: Reply, k: nat)
    requires Conforming(r) && k < |ReplyBytes(r)|
    ensures Reading(ReplyBytes(r)[..k], r.code).0 == NoReply
  {
    hide Reading, ReplyBytes;
    var cut, left := ReplyBytes(r)[..k], ReplyBytes(r)[k..];
    ReplyIsRead(r, r.code, []);
    assert ReplyBytes(r) + [] == ReplyBytes(r) == cut + left && |left| > 0;
    VerdictLeaves(cut, left, r.code);
  }

  lemma VerdictLeaves(s: bytes, t: bytes, want: bytes)
    ensures Reading(s, want).0 != NoReply ==> |Reading(s + t, want).1| >= |t|
  {
    hide Reading;
    if Reading(s, want).0 != NoReply { VerdictIsFinal(s, t, want); }
  }

  // ----------------------------------------------------------- one delivery

  function LhloLine(): bytes { "LHLO yarilo-loadtest" }
  function MailLine(sender: bytes): bytes { "MAIL FROM:<" + sender + ">" }
  function RcptLine(rcpt: bytes): bytes { RCPT + (rcpt + ">") }

  /** The answers there are begin with these codes, in this order. */
  predicate Wanted(answers: seq<Reply>, codes: seq<bytes>) {
    |codes| <= |answers| && forall i :: 0 <= i < |codes| ==> answers[i].code == codes[i]
  }

  function Accepted(n: nat): (r: seq<bytes>)
    ensures |r| == n && forall i :: 0 <= i < n ==> r[i] == "250"
  {
    seq(n, i => "250")
  }

  lemma WantedSum(answers: seq<Reply>, a: seq<bytes>, b: seq<bytes>)
    ensures Wanted(answers, a + b) <==> Wanted(answers, a) && Wanted(answers[|a|..], b)
  {
  }

  /** What a server has said and nobody has read: replies, one after the other. */
  function RepliesBytes(rs: seq<Reply>): bytes {
    if rs == [] then [] else ReplyBytes(rs[0]) + RepliesBytes(rs[1..])
  }

  lemma FirstIsRead(rs: seq<Reply>, want: bytes)
    requires rs != [] && Conforming(rs[0]) && |want| == 3
    ensures rs[0].code == want ==> Reading(RepliesBytes(rs), want) == (Fine, RepliesBytes(rs[1..]))
    ensures rs[0].code != want ==> Reading(RepliesBytes(rs), want).0 == Unwanted
  {
    hide Reading, ReplyBytes, Conforming;
    ReplyIsRead(rs[0], want, RepliesBytes(rs[1..]));
  }

  lemma NothingToRead(want: bytes)
    ensures Reading(RepliesBytes([]), want) == (NoReply, [])
  {
  }

  lemma OneReply(r: Reply)
    ensures RepliesBytes([r]) == ReplyBytes(r)
  {
    assert [r][1..] == [];
  }

  const RCPT: bytes := "RCPT TO:<"

  /** How many replies the server owes for the message: one for every recipient it has
      accepted, as it counts them (RFC 2033, section 4.2). */
  function NowAccepted(accepted: nat, line: bytes, r: Reply): nat {
    if RCPT <= line && r.code == "250" then accepted + 1 else accepted
  }

  /** One delivery's connection. `sent` is everything written to it. The rest is the
      server's: `answers` is what it will say, in this order, and `accepted` how many
      recipients it has accepted. It answers a command with one reply and the end of a
      message with one for every recipient it accepted, at once, whoever reads them. */
  class Session {
    const br: Reader
    var sent: bytes
    var answers: seq<Reply>
    var accepted: nat

    constructor (greeting: Reply, answers: seq<Reply>)
      ensures fresh(br) && br.unread == ReplyBytes(greeting) && sent == [] && this.answers == answers && accepted == 0
    {
      br := new Reader(ReplyBytes(greeting));
      sent, this.answers, accepted := [], answers, 0;
    }

    ghost predicate Conforms()
      reads this
    {
      forall i :: 0 <= i < |answers| ==> Conforming(answers[i])
    }

    /** The server gets a command line. */
    method WriteLine(line: bytes)
      modifies this, br
      ensures sent == old(sent) + (line + CRLF)
      ensures old(answers) == [] ==> br.unread == old(br.unread) && answers == [] && accepted == old(accepted)
      ensures old(answers) != [] ==>
                && br.unread == old(br.unread) + ReplyBytes(old(answers)[0]) && answers == old(answers)[1..]
                && accepted == NowAccepted(old(accepted), line, old(answers)[0])
    {
      sent := sent + (line + CRLF);
      if answers != [] {
        br.unread := br.unread + ReplyBytes(answers[0]);
        accepted := NowAccepted(accepted, line, answers[0]);
        answers := answers[1..];
      }
    }

    /** The server gets the end of a message, and says all it has to say to that. */
    method WriteMessage(stuffed: bytes, end: bytes)
      modifies this, br
      ensures sent == old(sent) + (stuffed + end)
      ensures var n := if old(accepted) < |old(answers)| then old(accepted) else |old(answers)|;
              && br.unread == old(br.unread) + RepliesBytes(old(answers)[..n]) && answers == old(answers)[n..]
      ensures accepted == 0
    {
      Assoc(sent, stuffed, end);
      sent := sent + stuffed;
      sent := sent + end;
      var n := if accepted < |answers| then accepted else |answers|;
      br.unread := br.unread + RepliesBytes(answers[..n]);
      answers, accepted := answers[n..], 0;
    }

    /** Sends one command and reads the reply to it. That nothing is left unread from the
        command before is what the callers have to show. */
    method Cmd(line: bytes, want: bytes) returns (ok: bool)
      requires Conforms() && br.unread == [] && |want| == 3
      modifies this, br
      ensures Conforms() && sent == old(sent) + (line + CRLF)
      ensures ok <==> old(answers) != [] && old(answers)[0].code == want
      ensures ok ==> br.unread == [] && answers == old(answers)[1..]
      ensures ok ==> accepted == NowAccepted(old(accepted), line, old(answers)[0])
    {
      hide Reading, ReplyBytes, RepliesBytes, Conforming, NowAccepted;
      ghost var before := answers;
      WriteLine(line);
      if before == [] {
        NothingToRead(want);
        NoReplies();
      } else {
        FirstIsRead([before[0]], want);
        OneReply(before[0]);
        NoReplies();
        assert [] + ReplyBytes(before[0]) == ReplyBytes(before[0]) && [before[0]][1..] == [];
      }
      var v := ReadReply(br, want);
      ok := v == Fine;
    }

    /** Writes the message and reads as many replies as it named recipients. */
    method Body(msg: bytes, recipients: nat) returns (ok: bool)
      requires Conforms() && br.unread == [] && accepted == recipients
      modifies this, br
      ensures Conforms() && sent == old(sent) + Wire(msg)
      ensures ok <==> Wanted(old(answers), Accepted(recipients))
      ensures ok ==> br.unread == [] && answers == old(answers)[recipients..]
    {
      hide Reading, ReplyBytes, RepliesBytes, Conforming, Stuffed, Terminator;
      var stuffed := StuffDots(msg);
      ghost var all, n := answers, if recipients < |answers| then recipients else |answers|;
      WriteMessage(stuffed, Terminator(msg));
      assert [] + RepliesBytes(all[..n]) == RepliesBytes(all[..n]);
      for i := 0 to recipients
        invariant i <= n && Conforms() && answers == all[n..] && sent == old(sent) + Wire(msg)
        invariant br.unread == RepliesBytes(all[i..n])
        invariant Wanted(all, Accepted(i))
      {
        ok := Recipient(all[i..n]);
        if !ok {
          assert Accepted(recipients)[i] == "250";
          return;
        }
        assert all[i..n][0] == all[i] && all[i..n][1..] == all[i + 1..n];
      }
      NoReplies();
      assert all[recipients..n] == [];
      return true;
    }

    /** Reads one reply of those that have arrived. */
    method Recipient(ghost waiting: seq<Reply>) returns (ok: bool)
      requires br.unread == RepliesBytes(waiting) && forall i :: 0 <= i < |waiting| ==> Conforming(waiting[i])
      modifies br
      ensures ok <==> waiting != [] && waiting[0].code == "250"
      ensures ok ==> br.unread == RepliesBytes(waiting[1..])
    {
      hide Reading, RepliesBytes, Conforming;
      if waiting == [] {
        NothingToRead("250");
      } else {
        FirstIsRead(waiting, "250");
      }
      var v := ReadReply(br, "250");
      ok := v == Fine;
    }
  }

  lemma NoReplies()
    ensures RepliesBytes([]) == []
  {
  }

  function DataLine(): bytes { "DATA" + CRLF }
  function QuitLine(): bytes { "QUIT" + CRLF }

  function RcptBytes(rcpts: seq<bytes>): bytes {
    if rcpts == [] then [] else (RcptLine(rcpts[0]) + CRLF) + RcptBytes(rcpts[1..])
  }

  function Opening(sender: bytes): bytes {
    (LhloLine() + CRLF) + (MailLine(sender) + CRLF)
  }

  function AfterOpening(rcpts: seq<bytes>, msg: bytes): bytes {
    RcptBytes(rcpts) + (DataLine() + (Wire(msg) + QuitLine()))
  }

  /** Everything a completed delivery writes. */
  function ClientBytes(sender: bytes, rcpts: seq<bytes>, msg: bytes): bytes {
    Opening(sender) + AfterOpening(rcpts, msg)
  }

  lemma {:induction false} RcptBytesAppend(rcpts: seq<bytes>, r: bytes)
    ensures RcptBytes(rcpts + [r]) == RcptBytes(rcpts) + (RcptLine(r) + CRLF)
  {
    if rcpts == [] {
      assert [r][1..] == [] && rcpts + [r] == [r];
    } else {
      assert (rcpts + [r])[1..] == rcpts[1..] + [r];
      RcptBytesAppend(rcpts[1..], r);
      Assoc(RcptLine(rcpts[0]) + CRLF, RcptBytes(rcpts[1..]), RcptLine(r) + CRLF);
    }
  }

  lemma OpeningPrefix(sender: bytes)
    ensures LhloLine() + CRLF <= Opening(sender)
  {
  }

  method Handshake(s: Session, sender: bytes, ghost g: Reply) returns (ok: bool)
    requires s.Conforms() && s.sent == [] && Conforming(g) && s.br.unread == ReplyBytes(g) && s.accepted == 0
    modifies s, s.br
    ensures s.Conforms() && s.sent <= Opening(sender) && (ok ==> s.accepted == 0)
    ensures ok <==> g.code == "220" && Wanted(old(s.answers), Accepted(2))
    ensures ok ==> s.br.unread == [] && s.sent == Opening(sender) && s.answers == old(s.answers)[2..]
  {
    ReplyIsRead(g, "220", []);
    assert ReplyBytes(g) + [] == ReplyBytes(g);
    OpeningPrefix(sender);
    MailIsNotRcpt(sender);
    var v := ReadReply(s.br, "220");
    if v != Fine {
      return false;
    }
    ok := s.Cmd(LhloLine(), "250");
    assert [] + (LhloLine() + CRLF) == LhloLine() + CRLF;
    if !ok { return; }
    ok := s.Cmd(MailLine(sender), "250");
  }

  /** The codes a delivery to `n` recipients needs, after the greeting's. */
  function Codes(n: nat): seq<bytes> {
    Accepted(2) + (Accepted(n) + (["354"] + (Accepted(n) + ["221"])))
  }

  /** Lockstep: against a server whose replies conform, every command of a delivery is
      sent with nothing left unread; what is written is always a beginning of the commands
      and the message, one after the other, and all of it in a delivery that succeeds,
      which one does exactly when every reply has the code it should. */
  method Deliver(s: Session, sender: bytes, rcpts: seq<bytes>, msg: bytes, ghost g: Reply) returns (ok: bool)
    requires s.Conforms() && s.sent == [] && Conforming(g) && s.br.unread == ReplyBytes(g) && s.accepted == 0
    modifies s, s.br
    ensures s.sent <= ClientBytes(sender, rcpts, msg)
    ensures ok <==> g.code == "220" && Wanted(old(s.answers), Codes(|rcpts|))
    ensures ok ==> s.br.unread == [] && s.sent == ClientBytes(sender, rcpts, msg)
  {
    ghost var all, n := s.answers, |rcpts|;
    WantedSum(all, Accepted(2), Accepted(n) + (["354"] + (Accepted(n) + ["221"])));
    Beginning([], Opening(sender), AfterOpening(rcpts, msg));
    ok := Handshake(s, sender, g);
    if !ok { return; }
    ok := Transaction(s, rcpts, msg);
  }

  lemma Beginning(before: bytes, a: bytes, b: bytes)
    ensures before + a <= before + (a + b)
    ensures a <= a + b
    ensures before + (a + b) == (before + a) + b
  {
  }

  lemma StillBeginning(sent: bytes, before: bytes, a: bytes, b: bytes)
    requires sent <= before + a
    ensures sent <= before + (a + b)
  {
  }

  method Transaction(s: Session, rcpts: seq<bytes>, msg: bytes) returns (ok: bool)
    requires s.Conforms() && s.br.unread == [] && s.accepted == 0
    modifies s, s.br
    ensures s.sent <= old(s.sent) + AfterOpening(rcpts, msg)
    ensures ok <==> Wanted(old(s.answers), Accepted(|rcpts|) + (["354"] + (Accepted(|rcpts|) + ["221"])))
    ensures ok ==> s.br.unread == [] && s.sent == old(s.sent) + AfterOpening(rcpts, msg)
  {
    ghost var before, all, n := s.sent, s.answers, |rcpts|;
    ghost var data := DataLine() + (Wire(msg) + QuitLine());
    WantedSum(all, Accepted(n), ["354"] + (Accepted(n) + ["221"]));
    ok := SendRecipients(s, rcpts);
    StillBeginning(s.sent, before, RcptBytes(rcpts), data);
    if !ok { return; }
    Assoc(before, RcptBytes(rcpts), data);
    ok := SendMessage(s, |rcpts|, msg);
  }

  lemma StartsWithRcpt(rcpt: bytes)
    ensures RCPT <= RcptLine(rcpt) && !(RCPT <= LhloLine()) && !(RCPT <= "DATA")
  {
    assert LhloLine()[0] == 'L';
  }

  lemma MailIsNotRcpt(sender: bytes)
    ensures !(RCPT <= MailLine(sender)) && !(RCPT <= LhloLine())
  {
    assert LhloLine()[0] == 'L' && MailLine(sender)[0] == 'M';
  }

  method SendRecipients(s: Session, rcpts: seq<bytes>) returns (ok: bool)
    requires s.Conforms() && s.br.unread == [] && s.accepted == 0
    modifies s, s.br
    ensures s.Conforms() && s.sent <= old(s.sent) + RcptBytes(rcpts) && (ok ==> s.accepted == |rcpts|)
    ensures ok <==> Wanted(old(s.answers), Accepted(|rcpts|))
    ensures ok ==> s.br.unread == [] && s.sent == old(s.sent) + RcptBytes(rcpts)
                   && s.answers == old(s.answers)[|rcpts|..]
  {
    ghost var all := s.answers;
    for i := 0 to |rcpts|
      invariant s.Conforms() && s.br.unread == [] && s.sent == old(s.sent) + RcptBytes(rcpts[..i])
      invariant Wanted(all, Accepted(i)) && s.answers == all[i..] && s.accepted == i
    {
      RcptBytesAppend(rcpts[..i], rcpts[i]);
      assert rcpts[..i + 1] == rcpts[..i] + [rcpts[i]];
      Assoc(old(s.sent), RcptBytes(rcpts[..i]), RcptLine(rcpts[i]) + CRLF);
      StartsWithRcpt(rcpts[i]);
      ok := s.Cmd(RcptLine(rcpts[i]), "250");
      if !ok {
        assert Accepted(|rcpts|)[i] == "250";
        RcptBytesSplit(rcpts, i + 1);
        StillBeginning(s.sent, old(s.sent), RcptBytes(rcpts[..i + 1]), RcptBytes(rcpts[i + 1..]));
        return;
      }
    }
    assert rcpts[..|rcpts|] == rcpts;
    return true;
  }

  lemma {:induction false} RcptBytesSplit(rcpts: seq<bytes>, k: nat)
    requires k <= |rcpts|
    ensures RcptBytes(rcpts) == RcptBytes(rcpts[..k]) + RcptBytes(rcpts[k..])
  {
    if k == 0 {
      assert rcpts[..0] == [] && rcpts[0..] == rcpts;
    } else {
      RcptBytesSplit(rcpts[1..], k - 1);
      assert rcpts[..k][1..] == rcpts[1..][..k - 1] && rcpts[k..] == rcpts[1..][k - 1..];
      Assoc(RcptLine(rcpts[0]) + CRLF, RcptBytes(rcpts[1..][..k - 1]), RcptBytes(rcpts[k..]));
    }
  }

  method SendMessage(s: Session, n: nat, msg: bytes) returns (ok: bool)
    requires s.Conforms() && s.br.unread == [] && s.accepted == n
    modifies s, s.br
    ensures s.Conforms() && s.sent <= old(s.sent) + (DataLine() + (Wire(msg) + QuitLine()))
    ensures ok <==> Wanted(old(s.answers), ["354"] + (Accepted(n) + ["221"]))
    ensures ok ==> s.br.unread == [] && s.sent == old(s.sent) + (DataLine() + (Wire(msg) + QuitLine()))
  {
    ghost var before, all := s.sent, s.answers;
    var data, quit := DataLine(), QuitLine();
    WantedSum(all, ["354"], Accepted(n) + ["221"]);
    Beginning(before, data, Wire(msg) + quit);
    StartsWithRcpt([]);
    ok := s.Cmd("DATA", "354");
    if !ok { return; }
    WantedSum(s.answers, Accepted(n), ["221"]);
    Beginning(before + data, Wire(msg), quit);
    ok := s.Body(msg, n);
    if !ok { return; }
    ok := s.Cmd("QUIT", "221");
  }

  // ------------------------------------------------- what the server receives

  datatype Item = Line(text: bytes) | Mail(text: bytes)

  /** A server reading the client's stream: command lines, except that after DATA comes a
      message. */
  function Parsed(s: bytes): seq<Item>
    decreases |s|
  {
    var r := ReadLine(s);
    if r.eof then []
    else if TrimEol(r.line) != "DATA" then [Line(TrimEol(r.line))] + Parsed(r.rest)
    else
      var m := Receive(r.rest);
      if m.Truncated? || |m.rest| > |r.rest| then [Line("DATA")]
      else [Line("DATA"), Mail(m.text)] + Parsed(m.rest)
  }

  predicate CommandText(t: bytes) {
    LF !in t && t != [] && t[|t| - 1] != CR
  }

  lemma CommandReads(t: bytes, rest: bytes)
    requires CommandText(t)
    ensures ReadLine((t + CRLF) + rest) == Read(t + CRLF, rest, false) && TrimEol(t + CRLF) == t
  {
    var l := t + CRLF;
    assert l[..|l| - 1] == t + [CR];
    IsLineIff(l);
    ReadWholeLine(l, rest);
    TrimEolKeeps(t, CRLF);
  }

  lemma LineParses(t: bytes, rest: bytes)
    requires CommandText(t) && t != "DATA"
    ensures Parsed((t + CRLF) + rest) == [Line(t)] + Parsed(rest)
  {
    CommandReads(t, rest);
  }

  lemma DataParses(msg: bytes, rest: bytes)
    ensures Parsed(DataLine() + (Wire(msg) + rest)) == [Line("DATA"), Mail(Complete(msg))] + Parsed(rest)
  {
    CommandReads("DATA", Wire(msg) + rest);
    Transparent(msg, rest);
  }

  function RcptItems(rcpts: seq<bytes>): (r: seq<Item>)
    ensures |r| == |rcpts| && forall i :: 0 <= i < |r| ==> r[i] == Line(RcptLine(rcpts[i]))
  {
    seq(|rcpts|, i requires 0 <= i < |rcpts| => Line(RcptLine(rcpts[i])))
  }

  lemma RcptLineIsCommand(r: bytes)
    requires LF !in r
    ensures CommandText(RcptLine(r)) && RcptLine(r) != "DATA"
  {
  }

  lemma RcptItemsStep(rcpts: seq<bytes>, rest: seq<Item>)
    requires rcpts != []
    ensures RcptItems(rcpts) + rest == [Line(RcptLine(rcpts[0]))] + (RcptItems(rcpts[1..]) + rest)
  {
  }

  lemma {:induction false} RcptsParse(rcpts: seq<bytes>, rest: bytes)
    requires forall r :: r in rcpts ==> LF !in r
    ensures Parsed(RcptBytes(rcpts) + rest) == RcptItems(rcpts) + Parsed(rest)
  {
    hide Parsed, RcptLine, CommandText;
    if rcpts == [] {
      assert RcptBytes(rcpts) + rest == rest;
    } else {
      RcptLineIsCommand(rcpts[0]);
      RcptsParse(rcpts[1..], rest);
      LineParses(RcptLine(rcpts[0]), RcptBytes(rcpts[1..]) + rest);
      Assoc(RcptLine(rcpts[0]) + CRLF, RcptBytes(rcpts[1..]), rest);
      RcptItemsStep(rcpts, Parsed(rest));
    }
  }

  function Dialogue(sender: bytes, rcpts: seq<bytes>, msg: bytes): seq<Item> {
    [Line(LhloLine()), Line(MailLine(sender))]
    + (RcptItems(rcpts) + ([Line("DATA"), Mail(Complete(msg))] + [Line("QUIT")]))
  }

  lemma QuitParses()
    ensures Parsed(QuitLine()) == [Line("QUIT")]
  {
    LineParses("QUIT", []);
    assert QuitLine() + [] == QuitLine();
    assert Parsed([]) == [];
  }

  lemma OpeningLines(sender: bytes)
    requires LF !in sender
    ensures CommandText(LhloLine()) && LhloLine() != "DATA"
    ensures CommandText(MailLine(sender)) && MailLine(sender) != "DATA"
  {
    assert LhloLine()[0] == 'L' && MailLine(sender)[0] == 'M';
  }

  lemma OpeningParses(sender: bytes, rest: bytes)
    requires LF !in sender
    ensures Parsed(Opening(sender) + rest) == [Line(LhloLine()), Line(MailLine(sender))] + Parsed(rest)
  {
    hide Parsed, LhloLine, MailLine, CommandText;
    Assoc(LhloLine() + CRLF, MailLine(sender) + CRLF, rest);
    OpeningLines(sender);
    LineParses(LhloLine(), (MailLine(sender) + CRLF) + rest);
    LineParses(MailLine(sender), rest);
  }

  /** Whatever octets the message holds, the server reads the client's stream as exactly
      the commands that were meant and the message, and is back at commands for QUIT. */
  lemma ServerReadsWhatWasMeant(sender: bytes, rcpts: seq<bytes>, msg: bytes)
    requires LF !in sender && forall r :: r in rcpts ==> LF !in r
    ensures Parsed(ClientBytes(sender, rcpts, msg)) == Dialogue(sender, rcpts, msg)
  {
    hide Parsed, Opening, RcptBytes, RcptItems, LhloLine, MailLine, Wire, Complete, DataLine, QuitLine;
    var quit := QuitLine();
    var data := DataLine() + (Wire(msg) + quit);
    OpeningParses(sender, RcptBytes(rcpts) + data);
    RcptsParse(rcpts, data);
    DataParses(msg, quit);
    QuitParses();
  }

  // ------------------------------------------------- what the server understands

  /** The path of a MAIL or RCPT command: the octets up to the first `>`, of a text that
      starts with `<` and ends there. */
  function Path(s: bytes): Option<bytes> {
    if s == [] || s[0] != '<' || s[|s| - 1] != '>' || '>' in s[..|s| - 1] then None else Some(s[1..|s| - 1])
  }

  /** What a command line says after a given beginning. */
  function PathAfter(verb: bytes, line: bytes): Option<bytes> {
    if verb <= line then Path(line[|verb|..]) else None
  }

  /** The recipients of the RCPT lines a stream starts with, and what is left. */
  function Recipients(s: bytes): (seq<bytes>, bytes)
    decreases |s|
  {
    var r := ReadLine(s);
    var p := PathAfter("RCPT TO:", TrimEol(r.line));
    if r.eof || p.None? then ([], s)
    else var more := Recipients(r.rest); ([p.value] + more.0, more.1)
  }

  datatype Order = Order(host: bytes, sender: bytes, rcpts: seq<bytes>, mail: bytes, rest: bytes)

  /** One delivery, as a server that knows only RFC 2033 reads it off the connection. */
  function Understood(s: bytes): Option<Order> {
    var hello := ReadLine(s);
    var mail := ReadLine(hello.rest);
    var rcpts := Recipients(mail.rest);
    var data := ReadLine(rcpts.1);
    var text := Receive(data.rest);
    var sender := PathAfter("MAIL FROM:", TrimEol(mail.line));
    if "LHLO " <= TrimEol(hello.line) && sender.Some? && TrimEol(data.line) == "DATA" && text.Message?
    then Some(Order(TrimEol(hello.line)[5..], sender.value, rcpts.0, text.text, text.rest))
    else None
  }

  /** Addresses that may stand between `<` and `>`. */
  predicate Plain(address: bytes) { LF !in address && '>' !in address }

  lemma PathIsRead(verb: bytes, address: bytes)
    requires Plain(address)
    ensures PathAfter(verb, verb + ("<" + address + ">")) == Some(address)
  {
    var p := "<" + address + ">";
    assert (verb + p)[|verb|..] == p;
    assert p[..|p| - 1] == "<" + address;
  }

  lemma RcptLineNames(rcpt: bytes, rest: bytes)
    requires Plain(rcpt)
    ensures var r := ReadLine((RcptLine(rcpt) + CRLF) + rest);
            r.rest == rest && !r.eof && PathAfter("RCPT TO:", TrimEol(r.line)) == Some(rcpt)
  {
    PathIsRead("RCPT TO:", rcpt);
    assert RcptLine(rcpt) == "RCPT TO:" + ("<" + rcpt + ">");
    RcptLineIsCommand(rcpt);
    CommandReads(RcptLine(rcpt), rest);
  }

  lemma MailLineNames(sender: bytes, rest: bytes)
    requires Plain(sender)
    ensures var r := ReadLine((MailLine(sender) + CRLF) + rest);
            r.rest == rest && PathAfter("MAIL FROM:", TrimEol(r.line)) == Some(sender)
  {
    PathIsRead("MAIL FROM:", sender);
    assert MailLine(sender) == "MAIL FROM:" + ("<" + sender + ">");
    OpeningLines(sender);
    CommandReads(MailLine(sender), rest);
  }

  lemma NoMoreRecipients(rest: bytes)
    ensures Recipients(DataLine() + rest) == ([], DataLine() + rest)
    ensures var r := ReadLine(DataLine() + rest); r.rest == rest && TrimEol(r.line) == "DATA"
  {
    CommandReads("DATA", rest);
    assert "DATA"[0] == 'D' && "RCPT TO:"[0] == 'R';
  }

  lemma {:induction false} RecipientsAreRead(rcpts: seq<bytes>, rest: bytes)
    requires forall r :: r in rcpts ==> Plain(r)
    ensures Recipients(RcptBytes(rcpts) + (DataLine() + rest)) == (rcpts, DataLine() + rest)
  {
    hide RcptLine, DataLine, PathAfter;
    var data := DataLine() + rest;
    if rcpts == [] {
      NoMoreRecipients(rest);
      assert RcptBytes(rcpts) + data == data;
    } else {
      RecipientsAreRead(rcpts[1..], rest);
      Assoc(RcptLine(rcpts[0]) + CRLF, RcptBytes(rcpts[1..]), data);
      RcptLineNames(rcpts[0], RcptBytes(rcpts[1..]) + data);
      assert rcpts == [rcpts[0]] + rcpts[1..];
    }
  }

  lemma HelloIsRead(rest: bytes)
    ensures var r := ReadLine((LhloLine() + CRLF) + rest);
            r.rest == rest && "LHLO " <= TrimEol(r.line) && TrimEol(r.line)[5..] == "yarilo-loadtest"
  {
    hide LhloLine, CommandText;
    HelloIsPlain();
    CommandReads(LhloLine(), rest);
    SplitAt("LHLO ", "yarilo-loadtest");
  }

  lemma HelloIsPlain()
    ensures LhloLine() == "LHLO " + "yarilo-loadtest" && CommandText(LhloLine())
  {
  }

  lemma SplitAt(a: bytes, b: bytes)
    ensures a <= a + b && (a + b)[|a|..] == b
  {
  }

  lemma QuitIsSent()
    ensures QuitLine() == "QUIT\r\n"
  {
  }

  /** The envelope and the message arrive as they were given: a server that knows nothing of
      the client takes from the stream the sender, the recipients, all of them and in their
      order, and the message, octet for octet, and is left with QUIT and what follows it. */
  lemma DeliveryIsUnderstood(sender: bytes, rcpts: seq<bytes>, msg: bytes, rest: bytes)
    requires Plain(sender) && forall r :: r in rcpts ==> Plain(r)
    ensures Understood(ClientBytes(sender, rcpts, msg) + rest)
         == Some(Order("yarilo-loadtest", sender, rcpts, Complete(msg), "QUIT\r\n" + rest))
  {
    hide LhloLine, MailLine, RcptBytes, DataLine, Wire, Complete, PathAfter, Recipients;
    var quit := QuitLine() + rest;
    var data := DataLine() + (Wire(msg) + quit);
    var after := RcptBytes(rcpts) + data;
    StreamParts(sender, rcpts, msg, rest);
    HelloIsRead((MailLine(sender) + CRLF) + after);
    MailLineNames(sender, after);
    RecipientsAreRead(rcpts, Wire(msg) + quit);
    NoMoreRecipients(Wire(msg) + quit);
    Transparent(msg, quit);
    QuitIsSent();
  }

  lemma StreamParts(sender: bytes, rcpts: seq<bytes>, msg: bytes, rest: bytes)
    ensures ClientBytes(sender, rcpts, msg) + rest
         == (LhloLine() + CRLF) + ((MailLine(sender) + CRLF)
            + (RcptBytes(rcpts) + (DataLine() + (Wire(msg) + (QuitLine() + rest)))))
  {
    hide LhloLine, MailLine, RcptBytes, DataLine, Wire, QuitLine;
    var hello, mail, to := LhloLine() + CRLF, MailLine(sender) + CRLF, RcptBytes(rcpts);
    var data, text, quit := DataLine(), Wire(msg), QuitLine();
    assert ClientBytes(sender, rcpts, msg) == (hello + mail) + (to + (data + (text + quit)));
    Regroup(hello, mail, to, data, text, quit, rest);
  }

  lemma Regroup(a: bytes, b: bytes, c: bytes, d: bytes, e: bytes, f: bytes, g: bytes)
    ensures ((a + b) + (c + (d + (e + f)))) + g == a + (b + (c + (d + (e + (f + g)))))
  {
    Assoc(a + b, c + (d + (e + f)), g);
    Assoc(a, b, (c + (d + (e + f))) + g);
    Assoc(c, d + (e + f), g);
    Assoc(d, e + f, g);
    Assoc(e, f, g);
  }

  /** The codes one by one: LHLO, MAIL and every RCPT, the go-ahead, every recipient of the
      message again, and QUIT. */
  lemma CodesAre(n: nat, i: nat)
    ensures var c := Codes(n);
            && |c| == 2 * n + 4
            && (i < n + 2 ==> c[i] == "250") && c[n + 2] == "354"
            && (n + 3 <= i < 2 * n + 3 ==> c[i] == "250") && c[2 * n + 3] == "221"
  {
  }

  // -------------------------------------------------------------- the rotation

  function Share(len: nat, perMessage: nat): nat {
    if perMessage > len then len else perMessage
  }

  function Position(start: nat, i: nat, len: nat): (p: nat)
    requires len > 0
    ensures p < len
  {
    (start + i) % len
  }

  /** The recipients of a run and the counter its deliveries share. Deliveries draw from it
      in one atomic step each, so whatever order they draw in, that is the order of its
      calls; `taken` holds the positions of the list handed out so far, `drawn` how many
      deliveries have drawn. */
  class Rotation {
    const recipients: seq<bytes>
    const perMessage: nat
    var counter: nat
    ghost var taken: seq<nat>
    ghost var drawn: nat

    constructor (recipients: seq<bytes>, perMessage: int)
      ensures this.recipients == recipients && counter == 0 && taken == [] && drawn == 0 && Valid()
      ensures this.perMessage == if perMessage <= 0 then 1 else perMessage
    {
      this.recipients := recipients;
      this.perMessage := if perMessage <= 0 then 1 else perMessage;
      counter, taken, drawn := 0, [], 0;
    }

    /** The positions taken are 0, 1, 2, ... modulo the list, in this order, with no gap and
        no overlap between deliveries. */
    ghost predicate Valid()
      reads this
    {
      && |taken| == counter == drawn * Share(|recipients|, perMessage)
      && forall j :: 0 <= j < |taken| ==> recipients != [] && taken[j] == j % |recipients|
    }

    /** One delivery's recipients: the counter moves by as many as it takes, in one step. */
    method NextRecipients() returns (out: seq<bytes>)
      requires Valid()
      modifies `counter, `taken, `drawn
      ensures Valid() && drawn == old(drawn) + 1
      ensures |out| == if perMessage > |recipients| then |recipients| else perMessage
      ensures |taken| == |old(taken)| + |out| && old(taken) <= taken
      ensures forall i :: 0 <= i < |out| ==>
                taken[|old(taken)| + i] < |recipients| && out[i] == recipients[taken[|old(taken)| + i]]
    {
      var n := perMessage;
      if n > |recipients| {
        n := |recipients|;
      }
      counter := counter + n;
      var start := counter - n;
      out := [];
      ghost var more: seq<nat> := [];
      for i := 0 to n
        invariant |out| == |more| == i
        invariant forall k :: 0 <= k < i ==>
                    more[k] == Position(start, k, |recipients|) && out[k] == recipients[more[k]]
      {
        more := more + [Position(start, i, |recipients|)];
        out := out + [recipients[(start + i) % |recipients|]];
      }
      OneMoreDraw(drawn, n);
      taken, drawn := taken + more, drawn + 1;
    }
  }

  lemma OneMoreDraw(k: nat, n: nat)
    ensures (k + 1) * n == k * n + n
  {
  }

  function Occurrences(s: seq<nat>, p: nat): nat {
    if s == [] then 0 else Occurrences(s[..|s| - 1], p) + (if s[|s| - 1] == p then 1 else 0)
  }

  lemma {:induction false} OccurrencesAreCount(s: seq<nat>, p: nat, len: nat)
    requires len > 0 && forall j :: 0 <= j < |s| ==> s[j] == j % len
    ensures Occurrences(s, p) == Count(IsResidue(len, p), 0, |s|)
  {
    if s != [] {
      OccurrencesAreCount(s[..|s| - 1], p, len);
    }
  }

  /** Round-robin balance under any interleaving: after any number of deliveries from one
      rotation, a recipient's position has been taken once for every whole round there was,
      and once more if the last, partial round reached it. */
  lemma Balanced(r: Rotation, p: nat)
    requires r.Valid() && p < |r.recipients|
    ensures var all, len := r.drawn * Share(|r.recipients|, r.perMessage), |r.recipients|;
            Occurrences(r.taken, p) == all / len + (if p < all % len then 1 else 0)
  {
    hide Count, IsResidue;
    OccurrencesAreCount(r.taken, p, |r.recipients|);
    WholeRounds(|r.taken|, |r.recipients|, p);
  }

  lemma Rounds(all: nat, len: nat) returns (q: nat, tail: nat)
    requires len > 0
    ensures all == q * len + tail && tail < len && q == all / len && tail == all % len
  {
    q, tail := all / len, all % len;
  }

  lemma WholeRounds(all: nat, len: nat, p: nat)
    requires p < len
    ensures Count(IsResidue(len, p), 0, all) == all / len + (if p < all % len then 1 else 0)
  {
    var q, tail := Rounds(all, len);
    ResidueCount(len, p, q, tail);
  }

  /** No two of any `len` consecutive draws take the same position, so no delivery names a
      recipient's position twice. */
  lemma NoRepeats(r: Rotation, a: nat, b: nat)
    requires r.Valid() && a < b < |r.taken| && b - a < |r.recipients|
    ensures r.taken[a] != r.taken[b]
  {
    ResiduesDiffer(a, b, |r.recipients|);
  }
}
