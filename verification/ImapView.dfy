/** internal/imapdrv/session.go: what a client believes about the mailbox it has open,
    and the floor it holds the server's reports to. */
module ImapView {
  import opened Octets

  /** A report that contradicts what this client put there. */
  datatype Mismatch = Mismatch(mailbox: bytes, reported: int, added: int, lastSaw: int)

  /** `count` is the server's last reported message count, `baseline` the count the
      floor starts from, `appended` what this client has added since. */
  datatype V = V(mailbox: bytes, count: int, baseline: int, appended: int, mismatch: Option<Mismatch>)

  function Fresh(mailbox: bytes): V { V(mailbox, 0, 0, 0, None) }

  /** The part of an untagged response that can move the count. */
  datatype Event = Report(n: int) | Expunged | Other

  /** "12 EXISTS" as (12, "EXISTS"); the number is cut off at the first space. */
  function SplitNum(line: bytes): Option<(int, bytes)> {
    var i := FirstSpace(line);
    if i == |line| then None
    else
      var n := Atoi(line[..i]);
      if n.None? then None else Some((n.value, line[i + 1..]))
  }

  function FirstSpace(line: bytes): (i: nat)
    ensures i <= |line|
    ensures ' ' !in line[..i]
    ensures i < |line| ==> line[i] == ' '
  {
    if line == [] || line[0] == ' ' then 0
    else
      var i := FirstSpace(line[1..]);
      assert line[..i + 1] == [line[0]] + line[1..][..i];
      i + 1
  }

  function EventOf(line: bytes): Event {
    match SplitNum(line)
    case None => Other
    case Some((n, rest)) =>
      if "EXISTS" <= rest then Report(n)
      else if "EXPUNGE" <= rest then Expunged
      else Other
  }

  function EventsOf(lines: seq<bytes>): (es: seq<Event>)
    ensures |es| == |lines|
    ensures forall i :: 0 <= i < |lines| ==> es[i] == EventOf(lines[i])
  {
    seq(|lines|, i requires 0 <= i < |lines| => EventOf(lines[i]))
  }

  lemma {:induction false} FirstSpaceAfter(a: bytes, b: bytes)
    requires ' ' !in a
    ensures FirstSpace(a + " " + b) == |a|
  {
    if a != [] {
      assert (a + " " + b)[1..] == a[1..] + " " + b;
      FirstSpaceAfter(a[1..], b);
    }
  }

  /** A count printed by a server is read back as that count. */
  lemma CountIsRead(n: nat, rest: bytes)
    requires n <= MaxInt
    ensures SplitNum(Dec(n) + " " + rest) == Some((n, rest))
  {
    AtoiOfDec(n);
    assert forall k :: 0 <= k < |Dec(n)| ==> IsDigit(Dec(n)[k]);
    FirstSpaceAfter(Dec(n), rest);
    var line := Dec(n) + " " + rest;
    assert line[..|Dec(n)|] == Dec(n) && line[|Dec(n)| + 1..] == rest;
  }

  // ------------------------------------------------- lines as servers print them

  /** Section 7.3.1 of RFC 3501, and whatever may follow on the line. */
  function ExistsLine(n: nat, tail: bytes): bytes { Dec(n) + " " + ("EXISTS" + tail) }

  /** Section 7.4.1 of RFC 3501: the message of that sequence number has gone. */
  function ExpungeLine(n: nat, tail: bytes): bytes { Dec(n) + " " + ("EXPUNGE" + tail) }

  lemma ExistsIsReport(n: nat, tail: bytes)
    requires n <= MaxInt
    ensures EventOf(ExistsLine(n, tail)) == Report(n)
  {
    CountIsRead(n, "EXISTS" + tail);
  }

  lemma ExpungeIsExpunged(n: nat, tail: bytes)
    requires n <= MaxInt
    ensures EventOf(ExpungeLine(n, tail)) == Expunged
  {
    CountIsRead(n, "EXPUNGE" + tail);
    assert ("EXPUNGE" + tail)[2] == 'P' && "EXISTS"[2] == 'I';
  }

  /** A line moves nothing when what precedes its first space is no number, when it has no
      space, or when neither word follows. */
  predicate Immaterial(line: bytes) {
    forall k :: 0 <= k < |line| && line[k] == ' ' && ' ' !in line[..k] ==>
      Atoi(line[..k]).None? || (!("EXISTS" <= line[k + 1..]) && !("EXPUNGE" <= line[k + 1..]))
  }

  lemma ImmaterialIsOther(line: bytes)
    requires Immaterial(line)
    ensures EventOf(line) == Other
  {
    var i := FirstSpace(line);
    assert i < |line| ==> line[i] == ' ' && ' ' !in line[..i];
  }

  /** What one printed line makes of a view, counter by counter. */
  lemma PrintedLines(v: V, n: nat, tail: bytes)
    requires n <= MaxInt
    ensures Fold(v, EventsOf([ExistsLine(n, tail)]))
         == V(v.mailbox, n, n, 0, if n < v.baseline + v.appended
                                  then Some(Mismatch(v.mailbox, n, v.appended, v.baseline)) else v.mismatch)
    ensures Fold(v, EventsOf([ExpungeLine(n, tail)]))
         == V(v.mailbox, if v.count > 0 then v.count - 1 else v.count,
              if v.baseline > 0 then v.baseline - 1 else v.baseline, v.appended, v.mismatch)
  {
    hide EventOf, ExistsLine, ExpungeLine, Fold;
    ExistsIsReport(n, tail);
    ExpungeIsExpunged(n, tail);
    FoldsOne(v, ExistsLine(n, tail));
    FoldsOne(v, ExpungeLine(n, tail));
  }

  lemma FoldsOne(v: V, line: bytes)
    ensures Fold(v, EventsOf([line])) == Step(v, EventOf(line))
  {
    assert EventsOf([line])[..0] == [];
  }

  lemma ImmaterialLines(v: V, line: bytes)
    requires Immaterial(line)
    ensures Fold(v, EventsOf([line])) == v
  {
    hide EventOf, Fold;
    ImmaterialIsOther(line);
    FoldsOne(v, line);
  }

  /** Lines are taken in one after the other. */
  lemma {:induction false} LinesInTurn(v: V, a: seq<bytes>, b: seq<bytes>)
    ensures Fold(v, EventsOf(a + b)) == Fold(Fold(v, EventsOf(a)), EventsOf(b))
  {
    hide Fold, EventsOf, EventOf;
    if b == [] {
      assert a + b == a;
      FoldsNone(Fold(v, EventsOf(a)));
    } else {
      var n := |b| - 1;
      LinesInTurn(v, a, b[..n]);
      FoldsLast(v, a + b);
      FoldsLast(Fold(v, EventsOf(a)), b);
      assert (a + b)[..|a + b| - 1] == a + b[..n];
    }
  }

  lemma FoldsNone(v: V)
    ensures Fold(v, EventsOf([])) == v
  {
  }

  lemma FoldsLast(v: V, lines: seq<bytes>)
    requires lines != []
    ensures var n := |lines| - 1;
            Fold(v, EventsOf(lines)) == Step(Fold(v, EventsOf(lines[..n])), EventOf(lines[n]))
  {
    assert EventsOf(lines)[..|lines| - 1] == EventsOf(lines[..|lines| - 1]);
  }

  // ------------------------------------------------------ the class

  function Reported(v: V, n: int): V {
    V(v.mailbox, n, n, 0,
      if n < v.baseline + v.appended then Some(Mismatch(v.mailbox, n, v.appended, v.baseline)) else v.mismatch)
  }

  function Step(v: V, e: Event): V {
    match e
    case Report(n) => Reported(v, n)
    case Expunged =>
      v.(count := if v.count > 0 then v.count - 1 else v.count,
         baseline := if v.baseline > 0 then v.baseline - 1 else v.baseline)
    case Other => v
  }

  /** The events applied in order. */
  function Fold(v: V, es: seq<Event>): V {
    if es == [] then v else Step(Fold(v, es[..|es| - 1]), es[|es| - 1])
  }

  lemma FoldOne(v: V, es: seq<Event>, e: Event)
    ensures Fold(v, es + [e]) == Step(Fold(v, es), e)
  {
  }

  lemma FoldLine(v: V, lines: seq<bytes>, i: nat)
    requires i < |lines|
    ensures Fold(v, EventsOf(lines[..i + 1])) == Step(Fold(v, EventsOf(lines[..i])), EventOf(lines[i]))
  {
    hide Fold, Step, EventOf;
    FoldOne(v, EventsOf(lines[..i]), EventOf(lines[i]));
    assert EventsOf(lines[..i + 1]) == EventsOf(lines[..i]) + [EventOf(lines[i])];
  }

  class View {
    var mailbox: bytes
    var count: int
    var baseline: int
    var appended: int
    var mismatch: Option<Mismatch>

    ghost function State(): V
      reads this
    {
      V(mailbox, count, baseline, appended, mismatch)
    }

    constructor ()
      ensures State() == Fresh([])
    {
      mailbox, count, baseline, appended, mismatch := [], 0, 0, 0, None;
    }

    /** `view{mailbox: mbox}`: nothing is known of a newly opened mailbox. */
    method Reset(mbox: bytes)
      modifies this
      ensures State() == Fresh(mbox)
    {
      mailbox, count, baseline, appended, mismatch := mbox, 0, 0, 0, None;
    }

    method Report(n: int)
      modifies this
      ensures State() == Reported(old(State()), n)
    {
      if n < baseline + appended {
        mismatch := Some(Mismatch(mailbox, n, appended, baseline));
      }
      count := n;
      baseline := n;
      appended := 0;
    }

    /** One untagged response. */
    method ApplyLine(line: bytes)
      modifies this
      ensures State() == Step(old(State()), EventOf(line))
    {
      var split := SplitNum(line);
      if split.None? {
        return;
      }
      var (num, rest) := split.value;
      if "EXISTS" <= rest {
        Report(num);
      } else if "EXPUNGE" <= rest {
        if count > 0 {
          count := count - 1;
        }
        if baseline > 0 {
          baseline := baseline - 1;
        }
      }
    }

    method ApplyUntagged(lines: seq<bytes>)
      modifies this
      ensures State() == Fold(old(State()), EventsOf(lines))
    {
      for i := 0 to |lines|
        invariant State() == Fold(old(State()), EventsOf(lines[..i]))
      {
        FoldLine(old(State()), lines, i);
        ApplyLine(lines[i]);
      }
      assert lines[..|lines|] == lines;
    }

    method CheckMismatch() returns (err: Option<Mismatch>)
      modifies this
      ensures err == old(mismatch)
      ensures State() == old(State()).(mismatch := None)
    {
      err := mismatch;
      mismatch := None;
    }
  }

  // ------------------------------------------- the alarm and its history

  /** What happens within one selection of a mailbox: the server tells the client
      something, or acknowledges one of the client's appends. */
  datatype Happening = Told(e: Event) | Acked

  function Replay(mailbox: bytes, h: seq<Happening>): V {
    if h == [] then Fresh(mailbox)
    else
      var v := Replay(mailbox, h[..|h| - 1]);
      match h[|h| - 1]
      case Told(e) => Step(v, e)
      case Acked => v.(appended := v.appended + 1)
  }

  function Tolds(es: seq<Event>): (h: seq<Happening>)
    ensures |h| == |es| && forall i :: 0 <= i < |es| ==> h[i] == Told(es[i])
  {
    seq(|es|, i requires 0 <= i < |es| => Told(es[i]))
  }

  /** The position just after the last report in a history, 0 when there is none. */
  function AfterLastReport(h: seq<Happening>): (i: nat)
    ensures i <= |h|
    ensures i > 0 ==> h[i - 1].Told? && h[i - 1].e.Report?
    ensures forall k :: i <= k < |h| ==> !(h[k].Told? && h[k].e.Report?)
  {
    if h == [] then 0
    else if h[|h| - 1].Told? && h[|h| - 1].e.Report? then |h|
    else AfterLastReport(h[..|h| - 1])
  }

  function Expunges(h: seq<Happening>): nat {
    if h == [] then 0
    else Expunges(h[..|h| - 1]) + (if h[|h| - 1] == Told(Expunged) then 1 else 0)
  }

  function Acks(h: seq<Happening>): nat {
    if h == [] then 0
    else Acks(h[..|h| - 1]) + (if h[|h| - 1] == Acked then 1 else 0)
  }

  /** `k` messages fewer, but never below zero on account of that. */
  function Less(n: int, k: nat): int {
    if n <= 0 then n else if n < k then 0 else n - k
  }

  /** The fewest messages the server can truthfully report after `h`: its last report
      in this selection, less the expunges it has announced since, plus the appends
      it has acknowledged since. */
  function Floor(h: seq<Happening>): int {
    var i := AfterLastReport(h);
    Less(if i == 0 then 0 else h[i - 1].e.n, Expunges(h[i..])) + Acks(h[i..])
  }

  /** The view's two counters always add up to the floor of its history. */
  lemma {:induction false} ReplayIsFloor(mailbox: bytes, h: seq<Happening>)
    ensures var v := Replay(mailbox, h); var i := AfterLastReport(h);
            && v.baseline == Less(if i == 0 then 0 else h[i - 1].e.n, Expunges(h[i..]))
            && v.appended == Acks(h[i..])
            && v.count == v.baseline
            && v.mailbox == mailbox
  {
    if h != [] {
      var init := h[..|h| - 1];
      ReplayIsFloor(mailbox, init);
      var i := AfterLastReport(h);
      if i < |h| { SinceReport(h, i); }
    }
  }

  /** One more happening since the last report. */
  lemma SinceReport(h: seq<Happening>, i: nat)
    requires i < |h|
    ensures var init, last := h[..|h| - 1], h[|h| - 1];
            && Expunges(h[i..]) == Expunges(init[i..]) + (if last == Told(Expunged) then 1 else 0)
            && Acks(h[i..]) == Acks(init[i..]) + (if last == Acked then 1 else 0)
  {
    assert h[i..][..|h[i..]| - 1] == h[..|h| - 1][i..];
  }

  /** Some report among `es`, made after history `h`, is below the floor that stands
      at that moment. */
  ghost predicate Contradicted(h: seq<Happening>, es: seq<Event>) {
    exists j :: 0 <= j < |es| && es[j].Report? && es[j].n < Floor(h + Tolds(es[..j]))
  }

  /** The view after `h` when every contradiction so far has been taken away by
      `CheckMismatch`, which leaves the counters alone. */
  function Settled(mailbox: bytes, h: seq<Happening>): V {
    Replay(mailbox, h).(mismatch := None)
  }

  lemma {:induction false} FoldSettled(mailbox: bytes, h: seq<Happening>, es: seq<Event>)
    ensures Fold(Settled(mailbox, h), es).(mismatch := None) == Settled(mailbox, h + Tolds(es))
  {
    if es == [] {
      assert h + Tolds(es) == h;
    } else {
      var init := es[..|es| - 1];
      FoldSettled(mailbox, h, init);
      assert (h + Tolds(es))[..|h + Tolds(es)| - 1] == h + Tolds(init);
    }
  }

  /** Whether the last of several events adds a contradiction of its own. */
  lemma ContradictedStep(h: seq<Happening>, init: seq<Event>, last: Event)
    ensures Contradicted(h, init + [last]) <==>
            Contradicted(h, init) || (last.Report? && last.n < Floor(h + Tolds(init)))
  {
    var es := init + [last];
    assert forall j :: 0 <= j <= |init| ==> es[..j] == init[..j];
    assert init[..|init|] == init;
    assert forall j :: 0 <= j < |init| ==> es[j] == init[j];
    if Contradicted(h, init) {
      var j :| 0 <= j < |init| && init[j].Report? && init[j].n < Floor(h + Tolds(init[..j]));
      assert es[j].Report? && es[j].n < Floor(h + Tolds(es[..j]));
    }
    if last.Report? && last.n < Floor(h + Tolds(init)) {
      assert es[|init|] == last && es[|init|].n < Floor(h + Tolds(es[..|init|]));
    }
  }

  lemma StepRaises(v: V, e: Event)
    ensures Step(v, e).mismatch.Some? <==> v.mismatch.Some? || (e.Report? && e.n < v.baseline + v.appended)
  {
  }

  lemma FloorOfFold(mailbox: bytes, h: seq<Happening>, es: seq<Event>)
    ensures var v := Fold(Settled(mailbox, h), es); v.baseline + v.appended == Floor(h + Tolds(es))
  {
    FoldSettled(mailbox, h, es);
    ReplayIsFloor(mailbox, h + Tolds(es));
  }

  lemma AlarmStep(mailbox: bytes, h: seq<Happening>, init: seq<Event>, last: Event)
    requires Fold(Settled(mailbox, h), init).mismatch.Some? <==> Contradicted(h, init)
    ensures Fold(Settled(mailbox, h), init + [last]).mismatch.Some? <==> Contradicted(h, init + [last])
  {
    hide Fold, Settled, Tolds, Floor, Contradicted, Step;
    FoldOne(Settled(mailbox, h), init, last);
    StepRaises(Fold(Settled(mailbox, h), init), last);
    FloorOfFold(mailbox, h, init);
    ContradictedStep(h, init, last);
  }

  lemma FoldNone(v: V)
    ensures Fold(v, []) == v
  {
  }

  lemma SettledIsClear(mailbox: bytes, h: seq<Happening>)
    ensures Settled(mailbox, h).mismatch.None?
  {
  }

  /** The alarm refines the history, whatever the server says: after a completed
      command the view holds a mismatch exactly when one of that command's reports
      was below the floor of everything that went before it in this selection. */
  lemma {:induction false} AlarmIffContradicted(mailbox: bytes, h: seq<Happening>, es: seq<Event>)
    ensures Fold(Settled(mailbox, h), es).mismatch.Some? <==> Contradicted(h, es)
  {
    hide Fold, Settled, Tolds, Floor;
    if es == [] {
      FoldNone(Settled(mailbox, h));
      SettledIsClear(mailbox, h);
    } else {
      AlarmIffContradicted(mailbox, h, es[..|es| - 1]);
      AlarmStep(mailbox, h, es[..|es| - 1], es[|es| - 1]);
      assert es == es[..|es| - 1] + [es[|es| - 1]];
    }
  }

  /** Report `j` among `es` is below the floor that stands at that moment. */
  ghost predicate Offends(h: seq<Happening>, es: seq<Event>, j: nat)
    requires j < |es|
  {
    es[j].Report? && es[j].n < Floor(h + Tolds(es[..j]))
  }

  /** A mismatch says what the last such report was, and what the client held against it:
      how many it had added since the report before, and how many were left of that one. */
  ghost predicate NamesAt(m: Mismatch, mailbox: bytes, h: seq<Happening>, es: seq<Event>, j: nat)
    requires j < |es|
  {
    var before := Settled(mailbox, h + Tolds(es[..j]));
    && es[j] == Report(m.reported) && m.mailbox == mailbox
    && m.added == before.appended && m.lastSaw == before.baseline && m.reported < m.added + m.lastSaw
    && forall k :: j < k < |es| ==> !Offends(h, es, k)
  }

  ghost predicate Names(m: Mismatch, mailbox: bytes, h: seq<Happening>, es: seq<Event>) {
    exists j :: 0 <= j < |es| && NamesAt(m, mailbox, h, es, j)
  }

  lemma NamesStill(m: Mismatch, mailbox: bytes, h: seq<Happening>, init: seq<Event>, last: Event)
    requires Names(m, mailbox, h, init) && !(last.Report? && last.n < Floor(h + Tolds(init)))
    ensures Names(m, mailbox, h, init + [last])
  {
    hide Floor, Settled, Tolds;
    var es := init + [last];
    assert es[..|init|] == init;
    assert forall k :: 0 <= k < |init| ==> es[..k] == init[..k];
    var j :| 0 <= j < |init| && NamesAt(m, mailbox, h, init, j);
    forall k | j < k < |es| ensures !Offends(h, es, k) {
      if k < |init| { assert !Offends(h, init, k); }
    }
    assert NamesAt(m, mailbox, h, es, j);
  }

  lemma NamesLast(mailbox: bytes, h: seq<Happening>, init: seq<Event>, n: int)
    requires n < Floor(h + Tolds(init))
    ensures var m := Step(Fold(Settled(mailbox, h), init), Report(n)).mismatch;
            m.Some? && Names(m.value, mailbox, h, init + [Report(n)])
  {
    hide Floor, Replay, Tolds, Fold;
    var es, v := init + [Report(n)], Fold(Settled(mailbox, h), init);
    FloorOfFold(mailbox, h, init);
    FoldSettled(mailbox, h, init);
    FoldKeepsMailbox(mailbox, h + Tolds(init));
    assert es[..|init|] == init;
    assert NamesAt(Mismatch(mailbox, n, v.appended, v.baseline), mailbox, h, es, |init|);
  }

  lemma FoldKeepsMailbox(mailbox: bytes, h: seq<Happening>)
    ensures Settled(mailbox, h).mailbox == mailbox
  {
    ReplayIsFloor(mailbox, h);
  }

  lemma StepLeaves(v: V, e: Event)
    requires !(e.Report? && e.n < v.baseline + v.appended)
    ensures Step(v, e).mismatch == v.mismatch
  {
  }

  /** What the alarm says is true. */
  lemma {:induction false} AlarmNames(mailbox: bytes, h: seq<Happening>, es: seq<Event>)
    ensures var m := Fold(Settled(mailbox, h), es).mismatch;
            m.Some? ==> Names(m.value, mailbox, h, es)
  {
    hide Fold, Settled, Tolds, Floor, Names, Step;
    if es == [] {
      FoldNone(Settled(mailbox, h));
      SettledIsClear(mailbox, h);
    } else {
      var init, last := es[..|es| - 1], es[|es| - 1];
      assert es == init + [last];
      AlarmNames(mailbox, h, init);
      FoldOne(Settled(mailbox, h), init, last);
      FloorOfFold(mailbox, h, init);
      if last.Report? && last.n < Floor(h + Tolds(init)) {
        NamesLast(mailbox, h, init, last.n);
      } else {
        var v := Fold(Settled(mailbox, h), init);
        StepLeaves(v, last);
        if v.mismatch.Some? { NamesStill(v.mismatch.value, mailbox, h, init, last); }
      }
    }
  }

  /** A server that acknowledges appends and stores nothing is caught at its first
      report after an acknowledgement: it last reported `n` messages, has announced
      only expunges since, and reports no more than the rest. */
  lemma StoringNothingIsCaught(mailbox: bytes, h: seq<Happening>, n: nat, since: seq<Happening>, now: int)
    requires forall k :: 0 <= k < |since| ==> !(since[k].Told? && since[k].e.Report?)
    requires Acked in since
    requires now <= Less(n, Expunges(since))
    ensures Fold(Settled(mailbox, h + [Told(Report(n))] + since), [Report(now)]).mismatch.Some?
  {
    var all := h + [Told(Report(n))] + since;
    LastReportIs(h, n, since);
    AckedCounts(since);
    AlarmIffContradicted(mailbox, all, [Report(now)]);
    assert [Report(now)][0].n < Floor(all + Tolds([Report(now)][..0])) by {
      assert all + Tolds([Report(now)][..0]) == all;
    }
  }

  /** So in printed lines: it last printed a count of `n`, has expunged `gone` messages since
      and acknowledged an append, and prints no more than the rest. */
  lemma NothingStoredIsSeen(mailbox: bytes, h: seq<Happening>, n: nat, gone: nat, acks: nat, now: nat, tail: bytes)
    requires n <= MaxInt && now <= MaxInt && acks > 0 && now <= if n < gone then 0 else n - gone
    ensures var since := seq(gone, i => Told(EventOf(ExpungeLine(1, [])))) + seq(acks, i => Acked);
            var last := h + [Told(EventOf(ExistsLine(n, tail)))] + since;
            Fold(Settled(mailbox, last), EventsOf([ExistsLine(now, tail)])).mismatch.Some?
  {
    hide ExistsLine, ExpungeLine, Settled, EventOf;
    ExistsIsReport(n, tail);
    ExistsIsReport(now, tail);
    ExpungeIsExpunged(1, []);
    var gones, acked := seq(gone, i => Told(Expunged)), seq(acks, i => Acked);
    assert gones == seq(gone, i => Told(EventOf(ExpungeLine(1, []))));
    ExpungesOf(gone, acks);
    assert (gones + acked)[gone] == Acked;
    StoringNothingIsCaught(mailbox, h, n, gones + acked, now);
    assert EventsOf([ExistsLine(now, tail)]) == [Report(now)];
  }

  lemma {:induction false} ExpungesOf(gone: nat, acks: nat)
    ensures Expunges(seq(gone, i => Told(Expunged)) + seq(acks, i => Acked)) == gone
  {
    var h := seq(gone, i => Told(Expunged)) + seq(acks, i => Acked);
    if acks > 0 {
      ExpungesOf(gone, acks - 1);
      assert h[..|h| - 1] == seq(gone, i => Told(Expunged)) + seq(acks - 1, i => Acked);
    } else if gone > 0 {
      ExpungesOf(gone - 1, 0);
      assert h[..|h| - 1] == seq(gone - 1, i => Told(Expunged)) + seq(0, i => Acked);
    }
  }

  lemma LastReportIs(h: seq<Happening>, n: nat, since: seq<Happening>)
    requires forall k :: 0 <= k < |since| ==> !(since[k].Told? && since[k].e.Report?)
    ensures var all := h + [Told(Report(n))] + since;
            AfterLastReport(all) == |h| + 1 && all[|h|] == Told(Report(n)) && all[|h| + 1..] == since
  {
    var all := h + [Told(Report(n))] + since;
    assert all[|h|] == Told(Report(n));
    assert forall k :: |h| + 1 <= k < |all| ==> all[k] == since[k - |h| - 1];
  }

  lemma {:induction false} AckedCounts(h: seq<Happening>)
    requires Acked in h
    ensures Acks(h) > 0
  {
    if h[|h| - 1] != Acked { AckedCounts(h[..|h| - 1]); }
  }
}
