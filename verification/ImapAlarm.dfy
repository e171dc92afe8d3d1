/** When exactly the alarm goes off in runs of the system of `ImapSystem`. */
module ImapAlarm {
  import opened Octets
  import opened ImapCommands
  import opened ImapView
  import opened ImapDriver
  import opened ImapSystem

  /** A run without its last step is a run, which that step takes to its end. */
  lemma RunBefore(cfg: Config, states: seq<System>, actions: seq<Action>)
    requires Usable(cfg) && IsRun(cfg, states, actions) && actions != []
    ensures var n := |actions| - 1;
            && IsRun(cfg, states[..n + 1], actions[..n])
            && states[..n + 1][n] == states[n] && states[..n + 1][0] == states[0]
            && Possible(cfg, states[n], actions[n]) && states[n + 1] == Apply(cfg, states[n], actions[n])
  {
    hide Possible, Apply, Initial;
    PathBefore(cfg, states, actions);
  }

  lemma InitiallyTracked(s: System)
    requires Initial(s)
    ensures Inv(s)
  {
  }

  /** The invariant holds at the end of every run. */
  lemma {:induction false} RunKeepsInv(cfg: Config, states: seq<System>, actions: seq<Action>)
    requires Usable(cfg) && IsRun(cfg, states, actions)
    ensures Inv(states[|actions|]) && |states[|actions|].clients| == |states[0].clients|
  {
    hide Possible, Apply, Initial, Inv;
    if actions == [] {
      InitiallyTracked(states[0]);
    } else {
      var n := |actions| - 1;
      RunBefore(cfg, states, actions);
      RunKeepsInv(cfg, states[..n + 1], actions[..n]);
      StepKeepsInv(cfg, states[n], actions[n]);
    }
  }

  /** An alarm is due to client `c`: since what it heard last was settled, something set
      it off. */
  ghost predicate Due(cfg: Config, states: seq<System>, actions: seq<Action>, c: nat)
    requires Usable(cfg) && IsPath(cfg, states, actions)
    decreases |actions|
  {
    actions != [] &&
    var n := |actions| - 1;
    PathBefore(cfg, states, actions);
    var before := Due(cfg, states[..n + 1], actions[..n], c);
    if !Concerns(actions[n], c) then before
    else !Settles(cfg, states[n], actions[n]) && (SetsOff(cfg, states[n], actions[n]) || before)
  }

  lemma DueStep(cfg: Config, s: System, a: Action, c: nat, due: bool)
    requires Usable(cfg) && Possible(cfg, s, a) && Inv(s) && c < |s.clients|
    requires if HasSession(s.clients[c].link) then Pending(s.clients[c]).mismatch.Some? <==> due else !due
    ensures var t := Apply(cfg, s, a);
            && |t.clients| == |s.clients|
            && var now := if Concerns(a, c) then !Settles(cfg, s, a) && (SetsOff(cfg, s, a) || due) else due;
               if HasSession(t.clients[c].link) then Pending(t.clients[c]).mismatch.Some? <==> now else !now
  {
    hide Inv, Pending, Settles, SetsOff, Moved, Apply;
    if Concerns(a, c) {
      MovedPending(cfg, s, a);
      MovedInPlace(cfg, s, a);
    } else {
      OthersStay(cfg, s, a, c);
    }
  }

  /** At any moment of a run the responses on their way to a client contradict its view if
      and only if an alarm is due to it. */
  lemma {:induction false} PendingIsDue(cfg: Config, states: seq<System>, actions: seq<Action>, c: nat)
    requires Usable(cfg) && IsRun(cfg, states, actions) && c < |states[0].clients|
    ensures c < |states[|actions|].clients|
    ensures var k := states[|actions|].clients[c];
            if HasSession(k.link) then Pending(k).mismatch.Some? <==> Due(cfg, states, actions, c)
            else !Due(cfg, states, actions, c)
  {
    hide Possible, Apply, Initial, Inv, Settles, SetsOff, Pending;
    RunKeepsInv(cfg, states, actions);
    if actions == [] {
      NobodyConnected(states[0], c);
    } else {
      var n := |actions| - 1;
      RunBefore(cfg, states, actions);
      RunKeepsInv(cfg, states[..n + 1], actions[..n]);
      PendingIsDue(cfg, states[..n + 1], actions[..n], c);
      DueStep(cfg, states[n], actions[n], c, Due(cfg, states[..n + 1], actions[..n], c));
    }
  }

  lemma NobodyConnected(s: System, c: nat)
    requires Initial(s) && c < |s.clients|
    ensures !HasSession(s.clients[c].link)
  {
  }

  /** Step `j` set off an alarm to client `c` that nothing has settled since. */
  ghost predicate SetOffAt(cfg: Config, states: seq<System>, actions: seq<Action>, c: nat, j: nat)
    requires Usable(cfg) && IsPath(cfg, states, actions)
  {
    && j < |actions| && Concerns(actions[j], c) && SetsOff(cfg, states[j], actions[j])
    && forall m :: j <= m < |actions| && Concerns(actions[m], c) ==> !Settles(cfg, states[m], actions[m])
  }

  lemma SetOffBefore(cfg: Config, states: seq<System>, actions: seq<Action>, c: nat, j: nat)
    requires Usable(cfg) && IsPath(cfg, states, actions) && j + 1 < |actions|
    ensures var n := |actions| - 1;
            && IsPath(cfg, states[..n + 1], actions[..n])
            && (SetOffAt(cfg, states, actions, c, j) <==>
                  SetOffAt(cfg, states[..n + 1], actions[..n], c, j)
                  && (Concerns(actions[n], c) ==> !Settles(cfg, states[n], actions[n])))
  {
    hide Possible, Apply, SetsOff, Settles;
    PathBefore(cfg, states, actions);
    var n := |actions| - 1;
    assert forall m :: 0 <= m < n ==> actions[..n][m] == actions[m] && states[..n + 1][m] == states[m];
  }

  /** That is what an alarm's being due means. */
  lemma {:induction false} DueMeans(cfg: Config, states: seq<System>, actions: seq<Action>, c: nat)
    requires Usable(cfg) && IsPath(cfg, states, actions)
    ensures Due(cfg, states, actions, c) <==> exists j :: SetOffAt(cfg, states, actions, c, j)
    decreases |actions|
  {
    hide Possible, Apply, SetsOff, Settles;
    if actions != [] {
      var n := |actions| - 1;
      var states', actions' := states[..n + 1], actions[..n];
      PathBefore(cfg, states, actions);
      DueMeans(cfg, states', actions', c);
      if j: nat :| SetOffAt(cfg, states, actions, c, j) && j < n {
        SetOffBefore(cfg, states, actions, c, j);
      }
      if j: nat :| SetOffAt(cfg, states', actions', c, j) {
        SetOffBefore(cfg, states, actions, c, j);
      }
      LastSetsOff(cfg, states, actions, c);
    }
  }

  lemma LastSetsOff(cfg: Config, states: seq<System>, actions: seq<Action>, c: nat)
    requires Usable(cfg) && IsPath(cfg, states, actions) && actions != []
    ensures var n := |actions| - 1;
            && Possible(cfg, states[n], actions[n])
            && (SetOffAt(cfg, states, actions, c, n) <==>
                  Concerns(actions[n], c) && SetsOff(cfg, states[n], actions[n])
                  && !Settles(cfg, states[n], actions[n]))
  {
    hide Apply, SetsOff, Settles;
  }

  /** The exact condition for an alarm, for every run of any number of clients and a server
      that tells the truth: a client completing a command reports a mismatch if and only if
      since its last command an EXISTS fell short of what it counts on, or a SELECT found
      fewer messages than an unread report of the mailbox it left had said. */
  lemma AlarmsExactly(cfg: Config, states: seq<System>, actions: seq<Action>, c: nat)
    requires Usable(cfg) && IsRun(cfg, states, actions) && Possible(cfg, states[|actions|], Finish(c))
    ensures Taken(states[|actions|].clients[c]).mismatch.Some?
            <==> exists j :: SetOffAt(cfg, states, actions, c, j)
  {
    hide Apply, Initial, Settles, SetsOff, Pending, Taken, Tracked;
    RunKeepsInv(cfg, states, actions);
    PendingIsDue(cfg, states, actions, c);
    DueMeans(cfg, states, actions, c);
    var s := states[|actions|];
    assert Tracked(s.clients[c], s.tally);
    FinishedKeeps(s.clients[c], s.tally);
  }

  // ------------------------------------------------------------- no false alarm

  /** Nothing that a client counts on changes behind its back: no count is announced inside
      the reply to an APPEND, and no append of its own that is gone is passed over. */
  predicate Candid(cfg: Config, s: System, a: Action)
    requires Usable(cfg) && Possible(cfg, s, a)
  {
    if a.Announce? || a.Notice? then Listening(s.clients[a.c].link)
    else if a.Forget? then
      a.lost !in s.clients[a.c].link.sess.acked && StoredOf(s.clients[a.c].link) != Some(a.lost)
    else true
  }

  /** No report of the mailbox that is open is unread when another SELECT is sent. */
  predicate Timely(cfg: Config, s: System, a: Action)
    requires Usable(cfg) && Possible(cfg, s, a)
  {
    a.Send? && s.clients[a.c].link.Idle? && Choice(cfg, s.clients[a.c].view, a.n) == Select ==>
      forall e :: e in s.clients[a.c].link.heard ==> !e.Report?
  }

  /** With a candid server the client counts on exactly what the server records. */
  predicate Recorded(sess: Sess) {
    && sess.missed == {} && sess.spent <= sess.base
    && sess.told == sess.base - sess.spent && sess.mine == sess.acked
  }

  predicate Calm(l: Link) {
    HasSession(l) ==> Recorded(l.sess) && (StoredOf(l).Some? ==> StoredOf(l).value in l.sess.queue - l.sess.acked)
  }

  ghost predicate AllCalm(s: System) {
    forall c :: 0 <= c < |s.clients| ==> Calm(s.clients[c].link)
  }

  lemma RecordedNeverFallsShort(sess: Sess, r: nat)
    requires Recorded(sess)
    ensures !Shortfall(sess, r)
  {
    SubsetSize(sess.spent, sess.base);
  }

  lemma ToldIsPlain(sess: Sess, news: set<Msg>)
    ensures Recorded(Heard(sess, news))
  {
  }

  lemma NoticedIsPlain(sess: Sess, lost: Msg)
    requires Recorded(sess) && lost in sess.told
    ensures Recorded(Noticed(sess, lost))
  {
  }

  lemma AcknowledgedIsPlain(sess: Sess, m: Msg)
    requires Recorded(sess) && m in sess.queue
    ensures Recorded(Acknowledged(sess, m))
  {
  }

  lemma AnnouncedIsCalm(k: Client, news: set<Msg>)
    requires Listening(k.link) && Calm(k.link) && (k.link.Busy? ==> StoredWell(k.link))
    ensures Calm(Announced(k, news).link)
  {
    hide Recorded, Owed;
    ToldIsPlain(k.link.sess, news);
  }

  lemma LostIsCalm(k: Client, lost: Msg)
    requires k.link.Busy? && Listening(k.link) && Calm(k.link) && StoredWell(k.link) && lost in k.link.sess.told
    ensures Calm(Lost(k, lost).link)
  {
    hide Recorded, Owed;
    NoticedIsPlain(k.link.sess, lost);
  }

  lemma UnmentionedIsCalm(k: Client, lost: Msg)
    requires HasSession(k.link) && Calm(k.link) && lost !in k.link.sess.acked && StoredOf(k.link) != Some(lost)
    ensures Calm(Unmentioned(k, lost).link)
  {
    var sess, t := k.link.sess, Unmentioned(k, lost).link.sess;
    assert t.told == sess.told && t.acked == sess.acked && t.missed == sess.missed;
  }

  lemma FinishedIsCalm(k: Client)
    requires k.link.Busy? && Calm(k.link) && (k.link.cmd == Append ==> k.link.stored.Some?)
    ensures Calm(Finished(k).link)
  {
    hide Recorded, Taken;
    if k.link.cmd == Append { AcknowledgedIsPlain(k.link.sess, k.link.stored.value); }
  }

  lemma MovedIsCalm(cfg: Config, s: System, a: Action)
    requires Usable(cfg) && Possible(cfg, s, a) && !a.Deliver? && !a.Remove? && Candid(cfg, s, a)
    requires Tracked(s.clients[a.c], s.tally) && Calm(s.clients[a.c].link)
    ensures Calm(Moved(cfg, s, a).link)
  {
    hide Recorded, Consistent, Owed, Pending, InStep, Fold, Rising, LastReport, Choice, Taken, Finished,
         Announced, Lost, Unmentioned, Storing, Selecting;
    var k := s.clients[a.c];
    match a {
      case Connect(_) =>
      case Send(_, n, m) => SentIsCalm(cfg, k, a.c, n, m);
      case Open(_) => SelectingIsCalm(k, Live(s, k.link.box));
      case Store(_) => StoringIsCalm(k, Own(a.c, s.tally), s.tally);
      case Announce(_, news) => AnnouncedIsCalm(k, news);
      case Notice(_, lost) => LostIsCalm(k, lost);
      case Forget(_, lost) => UnmentionedIsCalm(k, lost);
      case Flag(_, _) =>
      case Chatter(_) =>
      case Finish(_) => FinishedIsCalm(k);
      case Drop(_) =>
    }
  }

  lemma SentIsCalm(cfg: Config, k: Client, c: nat, n: nat, m: nat)
    requires Usable(cfg) && (k.link.Authed? || k.link.Idle?) && Calm(k.link)
    ensures Calm(Sent(cfg, k, c, n, m))
  {
    hide Recorded, Choice, UserOf, Rotation;
  }

  lemma SelectingIsCalm(k: Client, now: set<Msg>)
    requires k.link.Opening?
    ensures Calm(Selecting(k, now).link)
  {
  }

  lemma StoringIsCalm(k: Client, m: Msg, tally: nat)
    requires k.link.Busy? && Calm(k.link) && Consistent(k.link.sess, tally) && m.serial == tally
    ensures Calm(Storing(k, m).link)
  {
  }

  lemma OthersStayCalm(cfg: Config, s: System, a: Action, c: nat)
    requires Usable(cfg) && Possible(cfg, s, a) && c < |s.clients| && !Concerns(a, c) && Calm(s.clients[c].link)
    ensures |Apply(cfg, s, a).clients| == |s.clients| && Calm(Apply(cfg, s, a).clients[c].link)
  {
    hide Moved;
  }

  lemma StepKeepsCalm(cfg: Config, s: System, a: Action)
    requires Usable(cfg) && Possible(cfg, s, a) && Inv(s) && AllCalm(s) && Candid(cfg, s, a)
    ensures AllCalm(Apply(cfg, s, a))
  {
    hide Tracked, Moved, Apply, Calm, Candid;
    var t := Apply(cfg, s, a);
    if a.Deliver? || a.Remove? {
      SameClients(cfg, s, a);
    } else {
      assert Tracked(s.clients[a.c], s.tally) && Calm(s.clients[a.c].link);
      MovedIsCalm(cfg, s, a);
      MovedInPlace(cfg, s, a);
    }
    forall c | 0 <= c < |t.clients| ensures Calm(t.clients[c].link) {
      if !Concerns(a, c) { OthersStayCalm(cfg, s, a, c); }
    }
  }

  ghost predicate CandidRun(cfg: Config, states: seq<System>, actions: seq<Action>)
    requires Usable(cfg)
  {
    IsRun(cfg, states, actions) && forall i :: 0 <= i < |actions| ==> Candid(cfg, states[i], actions[i])
  }

  lemma CandidBefore(cfg: Config, states: seq<System>, actions: seq<Action>)
    requires Usable(cfg) && CandidRun(cfg, states, actions) && actions != []
    ensures var n := |actions| - 1;
            && CandidRun(cfg, states[..n + 1], actions[..n]) && IsRun(cfg, states[..n + 1], actions[..n])
            && states[..n + 1][n] == states[n] && states[..n + 1][0] == states[0]
            && Possible(cfg, states[n], actions[n]) && states[n + 1] == Apply(cfg, states[n], actions[n])
            && Candid(cfg, states[n], actions[n])
  {
    hide Possible, Apply, Initial, Candid;
    RunBefore(cfg, states, actions);
  }

  lemma {:induction false} RunKeepsCalm(cfg: Config, states: seq<System>, actions: seq<Action>)
    requires Usable(cfg) && CandidRun(cfg, states, actions)
    ensures AllCalm(states[|actions|])
  {
    hide Possible, Apply, Inv, Calm, Candid, Initial;
    if actions == [] {
      InitiallyCalm(states[0]);
    } else {
      var n := |actions| - 1;
      CandidBefore(cfg, states, actions);
      RunKeepsCalm(cfg, states[..n + 1], actions[..n]);
      RunKeepsInv(cfg, states[..n + 1], actions[..n]);
      StepKeepsCalm(cfg, states[n], actions[n]);
    }
  }

  lemma InitiallyCalm(s: System)
    requires Initial(s)
    ensures AllCalm(s)
  {
  }

  /** Nothing of the mailbox left is unread once a SELECT is on its way. */
  predicate Clear(l: Link) {
    l.Opening? ==> LastReport(l.unread) == 0
  }

  lemma {:induction false} NoReports(es: seq<Event>)
    requires forall e :: e in es ==> !e.Report?
    ensures LastReport(es) == 0
  {
    if es != [] { NoReports(es[..|es| - 1]); }
  }

  ghost predicate AllClear(s: System) {
    forall c :: 0 <= c < |s.clients| ==> Clear(s.clients[c].link)
  }

  lemma SentIsClear(cfg: Config, k: Client, c: nat, n: nat, m: nat)
    requires Usable(cfg) && (k.link.Authed? || k.link.Idle?)
    requires k.link.Idle? && Choice(cfg, k.view, n) == Select ==> forall e :: e in k.link.heard ==> !e.Report?
    ensures Clear(Sent(cfg, k, c, n, m))
  {
    hide Choice, UserOf, Rotation, LastReport;
    NoReports([]);
    if k.link.Idle? && Choice(cfg, k.view, n) == Select { NoReports(k.link.heard); }
  }

  lemma MovedIsClear(cfg: Config, s: System, a: Action)
    requires Usable(cfg) && Possible(cfg, s, a) && !a.Deliver? && !a.Remove? && Timely(cfg, s, a)
    ensures Clear(Moved(cfg, s, a).link)
  {
    hide Choice, UserOf, Rotation, LastReport, Sent, Taken, Acknowledged, Heard, Unheard, Forgotten, Queued;
    if a.Send? { SentIsClear(cfg, s.clients[a.c], a.c, a.n, a.m); }
  }

  lemma OthersStayClear(cfg: Config, s: System, a: Action, c: nat)
    requires Usable(cfg) && Possible(cfg, s, a) && c < |s.clients| && !Concerns(a, c) && Clear(s.clients[c].link)
    ensures |Apply(cfg, s, a).clients| == |s.clients| && Clear(Apply(cfg, s, a).clients[c].link)
  {
    hide Moved, LastReport;
  }

  lemma StepKeepsClear(cfg: Config, s: System, a: Action)
    requires Usable(cfg) && Possible(cfg, s, a) && AllClear(s) && Timely(cfg, s, a)
    ensures AllClear(Apply(cfg, s, a))
  {
    hide Moved, Apply, Clear, Timely;
    var t := Apply(cfg, s, a);
    if a.Deliver? || a.Remove? {
      SameClients(cfg, s, a);
    } else {
      MovedIsClear(cfg, s, a);
      MovedInPlace(cfg, s, a);
    }
    forall c | 0 <= c < |t.clients| ensures Clear(t.clients[c].link) {
      if !Concerns(a, c) { OthersStayClear(cfg, s, a, c); }
    }
  }

  ghost predicate TimelyRun(cfg: Config, states: seq<System>, actions: seq<Action>)
    requires Usable(cfg)
  {
    IsRun(cfg, states, actions) && forall i :: 0 <= i < |actions| ==> Timely(cfg, states[i], actions[i])
  }

  lemma TimelyBefore(cfg: Config, states: seq<System>, actions: seq<Action>)
    requires Usable(cfg) && TimelyRun(cfg, states, actions) && actions != []
    ensures var n := |actions| - 1;
            && TimelyRun(cfg, states[..n + 1], actions[..n])
            && states[..n + 1][n] == states[n]
            && Possible(cfg, states[n], actions[n]) && states[n + 1] == Apply(cfg, states[n], actions[n])
            && Timely(cfg, states[n], actions[n])
  {
    hide Possible, Apply, Initial, Timely;
    RunBefore(cfg, states, actions);
  }

  lemma {:induction false} RunKeepsClear(cfg: Config, states: seq<System>, actions: seq<Action>)
    requires Usable(cfg) && TimelyRun(cfg, states, actions)
    ensures AllClear(states[|actions|])
  {
    hide Possible, Apply, Timely, Clear, Initial;
    if actions == [] {
      InitiallyClear(states[0]);
    } else {
      var n := |actions| - 1;
      TimelyBefore(cfg, states, actions);
      RunKeepsClear(cfg, states[..n + 1], actions[..n]);
      StepKeepsClear(cfg, states[n], actions[n]);
    }
  }

  lemma InitiallyClear(s: System)
    requires Initial(s)
    ensures AllClear(s)
  {
  }

  lemma NothingSetsOff(cfg: Config, s: System, a: Action)
    requires Usable(cfg) && Possible(cfg, s, a) && AllCalm(s) && AllClear(s) && !a.Deliver? && !a.Remove?
    ensures !SetsOff(cfg, s, a)
  {
    hide Shortfall, LastReport;
    var l := s.clients[a.c].link;
    assert Calm(l) && Clear(l);
    if HasSession(l) && a.Announce? { RecordedNeverFallsShort(l.sess, |l.sess.told + a.news|); }
  }

  lemma {:induction false} NothingIsDue(cfg: Config, states: seq<System>, actions: seq<Action>, c: nat)
    requires Usable(cfg) && CandidRun(cfg, states, actions) && TimelyRun(cfg, states, actions)
    ensures !Due(cfg, states, actions, c)
  {
    hide Possible, Apply, Settles, SetsOff, Candid, Timely, AllCalm, AllClear, Initial;
    if actions != [] {
      var n := |actions| - 1;
      CandidBefore(cfg, states, actions);
      TimelyBefore(cfg, states, actions);
      NothingIsDue(cfg, states[..n + 1], actions[..n], c);
      RunKeepsCalm(cfg, states[..n + 1], actions[..n]);
      RunKeepsClear(cfg, states[..n + 1], actions[..n]);
      if Concerns(actions[n], c) { NothingSetsOff(cfg, states[n], actions[n]); }
    }
  }

  /** No false alarm: however many clients share mailboxes, whenever arrivals are announced
      between and within commands, and however commands, deliveries, removals and failures
      interleave, no client of a candid server reports a mismatch, provided no report is
      unread when a SELECT leaves a mailbox. */
  lemma {:induction false} NoFalseAlarm(cfg: Config, states: seq<System>, actions: seq<Action>)
    requires Usable(cfg) && CandidRun(cfg, states, actions) && TimelyRun(cfg, states, actions)
    ensures forall i :: 0 <= i < |states| ==> !states[i].alarmed
  {
    hide Possible, Apply, Candid, Timely;
    if actions != [] {
      var n := |actions| - 1;
      CandidBefore(cfg, states, actions);
      TimelyBefore(cfg, states, actions);
      NoFalseAlarm(cfg, states[..n + 1], actions[..n]);
      assert !states[..n + 1][n].alarmed;
      NoAlarmNow(cfg, states[..n + 1], actions[..n], actions[n]);
      forall i | 0 <= i < |states| ensures !states[i].alarmed {
        if i <= n { assert states[i] == states[..n + 1][i]; }
      }
    }
  }

  lemma NoAlarmNow(cfg: Config, states: seq<System>, actions: seq<Action>, a: Action)
    requires Usable(cfg) && CandidRun(cfg, states, actions) && TimelyRun(cfg, states, actions)
    requires Possible(cfg, states[|actions|], a) && !states[|actions|].alarmed
    ensures !Apply(cfg, states[|actions|], a).alarmed
  {
    hide Moved, Candid, Timely, SetsOff, Settles, Taken, Initial;
    if a.Finish? {
      AlarmsExactly(cfg, states, actions, a.c);
      DueMeans(cfg, states, actions, a.c);
      NothingIsDue(cfg, states, actions, a.c);
    }
  }

  // ---------------------------------------- why the server has to be candid

  /** The only step of the run that is not candid is `x`. */
  ghost predicate CandidBut(cfg: Config, states: seq<System>, actions: seq<Action>, x: Action)
    requires Usable(cfg)
  {
    IsRun(cfg, states, actions)
    && forall i :: 0 <= i < |actions| ==> Candid(cfg, states[i], actions[i]) || actions[i] == x
  }

  lemma Go(cfg: Config, states: seq<System>, actions: seq<Action>, a: Action)
      returns (states': seq<System>, actions': seq<Action>)
    requires Usable(cfg) && IsRun(cfg, states, actions) && Possible(cfg, states[|actions|], a)
    ensures states' == states + [Apply(cfg, states[|actions|], a)] && actions' == actions + [a]
    ensures IsRun(cfg, states', actions') && states'[0] == states[0]
    ensures states'[|actions'|] == Apply(cfg, states[|actions|], a)
    ensures CandidRun(cfg, states, actions) && Candid(cfg, states[|actions|], a) ==> CandidRun(cfg, states', actions')
    ensures TimelyRun(cfg, states, actions) && Timely(cfg, states[|actions|], a) ==> TimelyRun(cfg, states', actions')
  {
    hide Possible, Apply, Candid, Timely, Initial;
    states', actions' := states + [Apply(cfg, states[|actions|], a)], actions + [a];
    assert forall i :: 0 <= i < |actions| ==> actions'[i] == actions[i] && states'[i] == states[i];
  }

  lemma GoBut(cfg: Config, states: seq<System>, actions: seq<Action>, a: Action, x: Action)
      returns (states': seq<System>, actions': seq<Action>)
    requires Usable(cfg) && CandidBut(cfg, states, actions, x) && TimelyRun(cfg, states, actions)
    requires Possible(cfg, states[|actions|], a)
    requires (Candid(cfg, states[|actions|], a) || a == x) && Timely(cfg, states[|actions|], a)
    ensures CandidBut(cfg, states', actions', x) && TimelyRun(cfg, states', actions')
    ensures states'[|actions'|] == Apply(cfg, states[|actions|], a)
  {
    hide Possible, Apply, Candid, TimelyRun, Initial;
    states', actions' := Go(cfg, states, actions, a);
    forall i | 0 <= i < |actions'| ensures Candid(cfg, states'[i], actions'[i]) || actions'[i] == x {
      if i < |actions| { assert actions'[i] == actions[i] && states'[i] == states[i]; }
    }
  }

  /** A system of one client. */
  predicate Now(s: System, v: V, l: Link) {
    s.clients == [Client(v, l)]
  }

  lemma ConnectStep(cfg: Config, s: System, v: V)
    requires Usable(cfg) && Now(s, v, Down)
    ensures var a := Connect(0);
            && Possible(cfg, s, a) && Candid(cfg, s, a) && Timely(cfg, s, a)
            && var t := Apply(cfg, s, a); Now(t, v, Authed) && t.(clients := s.clients) == s
  {
  }

  lemma SendStep(cfg: Config, s: System, v: V, l: Link, n: nat, m: nat)
    requires Usable(cfg) && Now(s, v, l) && (l.Authed? || l.Idle?)
    ensures var a := ImapSystem.Send(0, n, m);
            && Possible(cfg, s, a) && Candid(cfg, s, a)
            && (l.Authed? || l.heard == [] || Choice(cfg, v, n) != Select ==> Timely(cfg, s, a))
            && var t := Apply(cfg, s, a); Now(t, v, Sent(cfg, Client(v, l), 0, n, m)) && t.(clients := s.clients) == s
  {
    hide Sent, Choice;
  }

  lemma OpenStep(cfg: Config, s: System, v: V, l: Link)
    requires Usable(cfg) && Now(s, v, l) && l.Opening?
    ensures var a := Open(0);
            && Possible(cfg, s, a) && Candid(cfg, s, a) && Timely(cfg, s, a)
            && var t := Apply(cfg, s, a);
               Now(t, v, Selecting(Client(v, l), Live(s, l.box)).link) && t.(clients := s.clients) == s
  {
  }

  lemma FinishStep(cfg: Config, s: System, v: V, l: Link)
    requires Usable(cfg) && Now(s, v, l) && l.Busy? && (l.cmd == Append ==> l.stored.Some?)
    ensures var a := Finish(0);
            && Possible(cfg, s, a) && Candid(cfg, s, a) && Timely(cfg, s, a)
            && var t := Apply(cfg, s, a);
               && t.clients == [Finished(Client(v, l))] && t.live == s.live && t.tally == s.tally
               && t.alarmed == (s.alarmed || Taken(Client(v, l)).mismatch.Some?)
  {
    hide Finished, Taken;
  }

  lemma DeliverStep(cfg: Config, s: System, v: V, l: Link, b: Box)
    requires Usable(cfg) && Now(s, v, l) && l.Idle? && l.sess.box == b
    ensures var a := Deliver(b);
            && Possible(cfg, s, a) && Candid(cfg, s, a) && Timely(cfg, s, a)
            && var t := Apply(cfg, s, a);
               && Now(t, v, Idle(Queued(l.sess, Foreign(s.tally)), l.heard)) && t.alarmed == s.alarmed
               && t.tally == s.tally + 1 && t.live == s.live[b := Live(s, b) + {Foreign(s.tally)}]
  {
  }

  lemma StoreStep(cfg: Config, s: System, v: V, l: Link)
    requires Usable(cfg) && Now(s, v, l) && l.Busy? && l.cmd == Append && l.stored.None?
    ensures var a, m := ImapSystem.Store(0), Own(0, s.tally);
            && Possible(cfg, s, a) && Candid(cfg, s, a) && Timely(cfg, s, a)
            && var t := Apply(cfg, s, a);
               && Now(t, v, Busy(Queued(l.sess, m), l.cmd, l.out, Some(m))) && t.alarmed == s.alarmed
               && t.tally == s.tally + 1 && t.live == s.live[l.sess.box := Live(s, l.sess.box) + {m}]
  {
  }

  lemma RemoveStep(cfg: Config, s: System, b: Box, gone: set<Msg>)
    requires Usable(cfg) && gone <= Live(s, b)
    ensures var a := Remove(b, gone);
            && Possible(cfg, s, a) && Candid(cfg, s, a) && Timely(cfg, s, a)
            && Apply(cfg, s, a) == s.(live := s.live[b := Live(s, b) - gone])
  {
  }

  lemma AnnounceStep(cfg: Config, s: System, v: V, l: Link, news: set<Msg>)
    requires Usable(cfg) && Now(s, v, l) && HasSession(l) && l.sess.acked <= news <= l.sess.queue
    ensures var a := Announce(0, news);
            && Possible(cfg, s, a) && (Listening(l) ==> Candid(cfg, s, a)) && Timely(cfg, s, a)
            && var t := Apply(cfg, s, a);
               Now(t, v, Announced(Client(v, l), news).link) && t.(clients := s.clients) == s
  {
  }

  lemma NoticeStep(cfg: Config, s: System, v: V, l: Link, lost: Msg)
    requires Usable(cfg) && Now(s, v, l) && l.Busy? && lost in l.sess.told && lost !in Live(s, l.sess.box)
    ensures var a := Notice(0, lost);
            && Possible(cfg, s, a) && (Listening(l) ==> Candid(cfg, s, a)) && Timely(cfg, s, a)
            && var t := Apply(cfg, s, a);
               Now(t, v, ImapSystem.Lost(Client(v, l), lost).link) && t.(clients := s.clients) == s
  {
  }

  lemma ForgetStep(cfg: Config, s: System, v: V, l: Link, lost: Msg)
    requires Usable(cfg) && Now(s, v, l) && HasSession(l) && lost in l.sess.queue && lost !in Live(s, l.sess.box)
    ensures var a := Forget(0, lost);
            && Possible(cfg, s, a) && Timely(cfg, s, a)
            && var t := Apply(cfg, s, a);
               Now(t, v, Unmentioned(Client(v, l), lost).link) && t.(clients := s.clients) == s
  {
  }

  /** One client with an empty mailbox open. */
  ghost predicate Ready(cfg: Config, states: seq<System>, actions: seq<Action>, b: Box)
    requires Usable(cfg)
  {
    && IsRun(cfg, states, actions) && CandidRun(cfg, states, actions) && TimelyRun(cfg, states, actions)
    && var s := states[|actions|];
       && Now(s, Fresh(b.name), Idle(JustOpened(b, {}), [])) && s.live == map[] && s.tally == 0 && !s.alarmed
  }

  lemma SelectsEmpty(b: Box)
    ensures Finished(Client(Fresh([]), Busy(JustOpened(b, {}), Select, [] + [Report(0)], None)))
         == Client(Fresh(b.name), Idle(JustOpened(b, {}), []))
    ensures Taken(Client(Fresh([]), Busy(JustOpened(b, {}), Select, [] + [Report(0)], None))).mismatch.None?
  {
    TakesIn(Fresh(b.name), [], Report(0));
  }

  lemma StartsEmpty(cfg: Config) returns (states: seq<System>, actions: seq<Action>)
    requires Usable(cfg)
    ensures IsRun(cfg, states, actions) && CandidRun(cfg, states, actions) && TimelyRun(cfg, states, actions)
    ensures actions == [] && Now(states[0], Fresh([]), Down) && states[0].live == map[]
    ensures states[0].tally == 0 && !states[0].alarmed
  {
    states, actions := [System([Client(Fresh([]), Down)], map[], 0, false, {})], [];
  }

  lemma GetsReady(cfg: Config) returns (states: seq<System>, actions: seq<Action>)
    requires Usable(cfg)
    ensures Ready(cfg, states, actions, BoxFor(cfg, 0, 0))
  {
    hide Possible, Apply, Candid, Timely, Finished, Taken, Moved, UserOf, ImapDriver.Rotation;
    var v, b := Fresh([]), BoxFor(cfg, 0, 0);
    states, actions := StartsEmpty(cfg);
    ConnectStep(cfg, states[|actions|], v);
    states, actions := Go(cfg, states, actions, Connect(0));
    SendStep(cfg, states[|actions|], v, Authed, 0, 0);
    states, actions := Go(cfg, states, actions, ImapSystem.Send(0, 0, 0));
    OpenStep(cfg, states[|actions|], v, Opening(b, []));
    states, actions := Go(cfg, states, actions, Open(0));
    SelectsEmpty(b);
    FinishStep(cfg, states[|actions|], v, Busy(JustOpened(b, {}), Select, [] + [Report(0)], None));
    states, actions := Go(cfg, states, actions, Finish(0));
  }

  lemma ReadsBoth(b: Box, v: V)
    ensures Taken(Client(v, Busy(JustOpened(b, {}), Select, [Report(1)] + [Report(0)], None))).mismatch.Some?
  {
    hide Fold;
    FoldNothing(Fresh(b.name));
    TakesIn(Fresh(b.name), [], Report(1));
    TakesIn(Fresh(b.name), [Report(1)], Report(0));
    assert [] + [Report(1)] == [Report(1)];
  }

  lemma Arrives(b: Box, m: Msg)
    ensures var sess := Queued(JustOpened(b, {}), m);
            && sess.queue == {m} && sess.acked == {}
            && Announced(Client(Fresh(b.name), Idle(sess, [])), {m}).link == Idle(Heard(sess, {m}), [Report(1)])
  {
    assert {} + {m} == {m} && [] + [Report(1)] == [Report(1)];
  }

  function OnlySelect(): Config {
    Config(["u"], ["a", "b"], 0, [Weighted(Select, 1)])
  }

  /** A message has arrived in the only client's mailbox and been announced to it, unread. */
  lemma HearsOfOne() returns (states: seq<System>, actions: seq<Action>)
    ensures var cfg, a, m := OnlySelect(), Box("u", "a"), Foreign(0);
            && Usable(cfg) && CandidRun(cfg, states, actions)
            && var s := states[|actions|];
               && Now(s, Fresh("a"), Idle(Heard(Queued(JustOpened(a, {}), m), {m}), [Report(1)]))
               && s.live == map[a := {m}] && !s.alarmed
  {
    hide Possible, Apply, Candid, Timely, Moved, Heard, Queued, Announced;
    var cfg, a, m := OnlySelect(), Box("u", "a"), Foreign(0);
    var v, sess := Fresh("a"), JustOpened(a, {});
    states, actions := GetsReady(cfg);
    DeliverStep(cfg, states[|actions|], v, Idle(sess, []), a);
    states, actions := Go(cfg, states, actions, Deliver(a));
    Arrives(a, m);
    AnnounceStep(cfg, states[|actions|], v, Idle(Queued(sess, m), []), {m});
    states, actions := Go(cfg, states, actions, Announce(0, {m}));
    assert {} + {m} == {m};
  }

  /** A candid server and a false alarm: one message arrives in the mailbox a client has
      open and is announced to it between commands; the client's next command selects an
      empty mailbox, reads the announcement as part of the reply and takes the empty
      mailbox for one that has lost a message. */
  lemma StaleReport() returns (cfg: Config, states: seq<System>, actions: seq<Action>)
    ensures Usable(cfg) && CandidRun(cfg, states, actions) && states[|actions|].alarmed
  {
    hide Possible, Apply, Candid, Timely, Finished, Taken, Moved, Heard, Queued;
    cfg := OnlySelect();
    var a, b, m := Box("u", "a"), Box("u", "b"), Foreign(0);
    var v, sess := Fresh("a"), Heard(Queued(JustOpened(a, {}), m), {m});
    states, actions := HearsOfOne();
    assert Choice(cfg, v, 0) == Select;
    SendStep(cfg, states[|actions|], v, Idle(sess, [Report(1)]), 0, 1);
    states, actions := Go(cfg, states, actions, ImapSystem.Send(0, 0, 1));
    OpenStep(cfg, states[|actions|], v, Opening(b, [Report(1)]));
    states, actions := Go(cfg, states, actions, Open(0));
    ReadsBoth(b, v);
    FinishStep(cfg, states[|actions|], v, Busy(JustOpened(b, {}), Select, [Report(1)] + [Report(0)], None));
    states, actions := Go(cfg, states, actions, Finish(0));
  }

  /** A session after an append of its own was announced to it within the append's reply,
      and after one that nobody mentioned before it was gone. */
  function ToldBehind(b: Box, m: Msg): Sess {
    Sess(b, {m}, {}, {}, {}, {m}, {}, {})
  }

  function PassedBy(b: Box, m: Msg): Sess {
    Sess(b, {}, {}, {}, {}, {m}, {}, {m})
  }

  function Appended(b: Box): V {
    Fresh(b.name).(appended := 1)
  }

  lemma AppendsUnheard(b: Box, m: Msg)
    ensures var v, l := Fresh(b.name), Busy(Queued(JustOpened(b, {}), m), Append, [], Some(m));
            && Announced(Client(v, l), {m}).link == Busy(Unheard(l.sess, {m}), Append, [Report(1)], Some(m))
            && Finished(Client(v, Busy(Unheard(l.sess, {m}), Append, [Report(1)], Some(m))))
               == Client(Appended(b), Idle(ToldBehind(b, m), []))
  {
    assert {} + {m} == {m} && [] + [Report(1)] == [Report(1)];
  }

  lemma AppendsHeard(b: Box, m: Msg)
    ensures var k := Client(Fresh(b.name), Busy(Queued(JustOpened(b, {}), m), Append, [], Some(m)));
            Finished(k) == Client(Appended(b), Idle(Sess(b, {}, {m}, {m}, {}, {m}, {}, {}), []))
  {
    var none: set<Msg> := {};
    assert none + {m} == {m} && none + ({m} * {m}) == {m};
  }

  lemma TakesBoth(b: Box)
    ensures Fold(Appended(b), ([] + [Expunged]) + [Report(0)]).mismatch.Some?
  {
    hide Fold;
    var v := Appended(b);
    FoldNothing(v);
    TakesIn(v, [], Expunged);
    TakesIn(v, [] + [Expunged], Report(0));
    assert Step(v, Expunged).appended == 1;
  }

  lemma ThenExpunged(b: Box, m: Msg)
    ensures var v, l := Appended(b), Busy(ToldBehind(b, m), Noop, [], None);
            var t := ImapSystem.Lost(Client(v, l), m).link;
            var u := Announced(Client(v, t), {}).link;
            && t.Busy? && t.cmd == Noop && t.sess.acked == {}
            && u.Busy? && u.cmd == Noop && Taken(Client(v, u)).mismatch.Some?
  {
    hide Fold;
    TakesBoth(b);
    var none: set<Msg> := {};
    assert {m} - {m} == none && none + none == none;
  }

  lemma ThenReported(b: Box, m: Msg)
    ensures var v, l := Appended(b), Busy(PassedBy(b, m), Noop, [], None);
            var u := Announced(Client(v, l), {}).link;
            u.Busy? && u.cmd == Noop && Taken(Client(v, u)).mismatch.Some?
  {
    TakesIn(Appended(b), [], Report(0));
    var none: set<Msg> := {};
    assert none + none == none;
  }

  function AppendThenNoop(): Config {
    Config(["u"], ["a"], 0, [Weighted(Append, 1), Weighted(Noop, 1)])
  }

  lemma Appends(b: Box)
    requires b == Box("u", "a")
    ensures var cfg := AppendThenNoop();
            && Usable(cfg) && BoxFor(cfg, 0, 0) == b
            && (forall v :: Choice(cfg, v, 0) == Append && Choice(cfg, v, 1) == Noop)
  {
  }

  /** One client that has appended to an empty mailbox; the message is stored and not yet
      acknowledged. */
  lemma Stores() returns (states: seq<System>, actions: seq<Action>)
    ensures var cfg, b, m := AppendThenNoop(), Box("u", "a"), Own(0, 0);
            && Usable(cfg) && CandidRun(cfg, states, actions) && TimelyRun(cfg, states, actions)
            && var s := states[|actions|];
               && Now(s, Fresh(b.name), Busy(Queued(JustOpened(b, {}), m), Append, [], Some(m)))
               && s.live == map[b := {m}] && !s.alarmed
  {
    hide Possible, Apply, Candid, Timely, Finished, Taken, Moved, Choice, Queued;
    var cfg, b := AppendThenNoop(), Box("u", "a");
    var v, sess := Fresh(b.name), JustOpened(b, {});
    Appends(b);
    states, actions := GetsReady(cfg);
    SendStep(cfg, states[|actions|], v, Idle(sess, []), 0, 0);
    states, actions := Go(cfg, states, actions, ImapSystem.Send(0, 0, 0));
    StoreStep(cfg, states[|actions|], v, Busy(sess, Append, [], None));
    states, actions := Go(cfg, states, actions, ImapSystem.Store(0));
    assert {} + {Own(0, 0)} == {Own(0, 0)};
  }

  /** A false alarm over a single message, for announcing an append within its own reply: the
      message is expunged by someone else before the next report. */
  lemma UnheardReport() returns (cfg: Config, states: seq<System>, actions: seq<Action>)
    ensures Usable(cfg) && TimelyRun(cfg, states, actions) && states[|actions|].alarmed
    ensures CandidBut(cfg, states, actions, Announce(0, {Own(0, 0)}))
  {
    hide Possible, Apply, Candid, Timely, Finished, Taken, Moved, Choice, Queued, Unheard, Announced, ImapSystem.Lost;
    cfg := AppendThenNoop();
    var b, m := Box("u", "a"), Own(0, 0);
    var x := Announce(0, {m});
    var v, l := Fresh(b.name), Busy(Queued(JustOpened(b, {}), m), Append, [], Some(m));
    states, actions := Stores();
    QueueOf(b, m);
    AppendsUnheard(b, m);
    AnnounceStep(cfg, states[|actions|], v, l, {m});
    states, actions := GoBut(cfg, states, actions, x, x);
    FinishStep(cfg, states[|actions|], v, Busy(Unheard(l.sess, {m}), Append, [Report(1)], Some(m)));
    states, actions := GoBut(cfg, states, actions, Finish(0), x);
    RemoveStep(cfg, states[|actions|], b, {m});
    states, actions := GoBut(cfg, states, actions, Remove(b, {m}), x);
    Appends(b);
    SendStep(cfg, states[|actions|], Appended(b), Idle(ToldBehind(b, m), []), 1, 0);
    states, actions := GoBut(cfg, states, actions, ImapSystem.Send(0, 1, 0), x);
    var busy := Busy(ToldBehind(b, m), Noop, [], None);
    NoticeStep(cfg, states[|actions|], Appended(b), busy, m);
    states, actions := GoBut(cfg, states, actions, Notice(0, m), x);
    ThenExpunged(b, m);
    var noticed := ImapSystem.Lost(Client(Appended(b), busy), m).link;
    AnnounceStep(cfg, states[|actions|], Appended(b), noticed, {});
    states, actions := GoBut(cfg, states, actions, Announce(0, {}), x);
    FinishStep(cfg, states[|actions|], Appended(b), Announced(Client(Appended(b), noticed), {}).link);
    states, actions := GoBut(cfg, states, actions, Finish(0), x);
  }

  lemma QueueOf(b: Box, m: Msg)
    ensures var sess := Queued(JustOpened(b, {}), m); sess.box == b && sess.queue == {m} && sess.acked == {}
  {
  }

  /** And one for passing over an append that is gone: it was acknowledged, and expunged by
      someone else before it was ever announced. */
  lemma PassedOver() returns (cfg: Config, states: seq<System>, actions: seq<Action>)
    ensures Usable(cfg) && TimelyRun(cfg, states, actions) && states[|actions|].alarmed
    ensures CandidBut(cfg, states, actions, Forget(0, Own(0, 0)))
  {
    hide Possible, Apply, Candid, Timely, Finished, Taken, Moved, Choice, Queued, Announced, Unmentioned;
    cfg := AppendThenNoop();
    var b, m := Box("u", "a"), Own(0, 0);
    var x := Forget(0, m);
    var v, l := Fresh(b.name), Busy(Queued(JustOpened(b, {}), m), Append, [], Some(m));
    states, actions := Stores();
    AppendsHeard(b, m);
    FinishStep(cfg, states[|actions|], v, l);
    states, actions := GoBut(cfg, states, actions, Finish(0), x);
    RemoveStep(cfg, states[|actions|], b, {m});
    states, actions := GoBut(cfg, states, actions, Remove(b, {m}), x);
    var acked := Idle(Sess(b, {}, {m}, {m}, {}, {m}, {}, {}), []);
    ForgetStep(cfg, states[|actions|], Appended(b), acked, m);
    states, actions := GoBut(cfg, states, actions, x, x);
    PassesBy(b, m);
    Appends(b);
    SendStep(cfg, states[|actions|], Appended(b), Idle(PassedBy(b, m), []), 1, 0);
    states, actions := GoBut(cfg, states, actions, ImapSystem.Send(0, 1, 0), x);
    var busy := Busy(PassedBy(b, m), Noop, [], None);
    AnnounceStep(cfg, states[|actions|], Appended(b), busy, {});
    states, actions := GoBut(cfg, states, actions, Announce(0, {}), x);
    ThenReported(b, m);
    FinishStep(cfg, states[|actions|], Appended(b), Announced(Client(Appended(b), busy), {}).link);
    states, actions := GoBut(cfg, states, actions, Finish(0), x);
  }

  lemma PassesBy(b: Box, m: Msg)
    ensures Unmentioned(Client(Appended(b), Idle(Sess(b, {}, {m}, {m}, {}, {m}, {}, {}), [])), m).link
         == Idle(PassedBy(b, m), [])
  {
    assert {m} - {m} == {} && {} + {m} == {m};
  }
}
