/** One IMAP client alone with its mailboxes: how exactly it knows them, and what the
    steady state does when they start out too large. */
module ImapSolo {
  import opened Octets
  import opened ImapCommands
  import opened ImapView
  import opened ImapDriver
  import opened ImapSystem
  import opened ImapAlarm
  import opened ImapGrowth

  // ------------------------------------------------------ one client alone

  /** Steps of a run with one client and nobody else at the mailboxes: no mail from
      elsewhere, messages leave only through the client's own EXPUNGE, only marked ones it
      was told of, and it is told of every one before that command completes. */
  predicate Solo(s: System, a: Action) {
    && |s.clients| == 1
    && var l := s.clients[0].link;
       match a
       case Deliver(_) => false
       case Remove(b, gone) => l.Busy? && l.cmd == Expunge && b == l.sess.box && gone <= l.sess.told * s.flagged
       case Finish(_) => l.Busy? && (l.cmd == Expunge ==> l.sess.told <= Live(s, l.sess.box))
       case _ => true
  }

  /** What the session was told of and what awaits announcement is the mailbox, except
      that an EXPUNGE under way may be ahead of its announcements. */
  predicate Accurate(l: Link, live: set<Msg>)
    requires HasSession(l)
  {
    && l.sess.queue == l.sess.acked + (if StoredOf(l).Some? then {StoredOf(l).value} else {})
    && l.sess.queue <= live <= l.sess.told + l.sess.queue
    && (!(l.Busy? && l.cmd == Expunge) ==> l.sess.told <= live)
  }

  /** The client's record is accurate, and ready for its next command it states the true
      count of the mailbox it has open. */
  predicate Exact(s: System) {
    && |s.clients| == 1
    && var k := s.clients[0];
       && (HasSession(k.link) ==> Accurate(k.link, Live(s, k.link.sess.box)))
       && (k.link.Idle? ==> Held(k.view) == |Live(s, k.link.sess.box)|)
  }

  lemma AccurateSize(sess: Sess, l: Link, live: set<Msg>, tally: nat)
    requires HasSession(l) && l.sess == sess && Accurate(l, live) && Consistent(sess, tally)
    requires StoredOf(l).None? && !(l.Busy? && l.cmd == Expunge)
    ensures |live| == |sess.told| + |sess.acked|
  {
    UnionSize(sess.told, sess.acked);
    assert live == sess.told + sess.acked;
  }

  lemma AnnouncedIsAccurate(k: Client, news: set<Msg>, live: set<Msg>)
    requires Listening(k.link) && Accurate(k.link, live) && k.link.sess.acked <= news <= k.link.sess.queue
    requires k.link.Busy? ==> StoredWell(k.link)
    ensures Accurate(Announced(k, news).link, live)
  {
    assert StoredOf(k.link).None?;
    assert k.link.sess.queue - news == {};
  }

  lemma LostIsAccurate(k: Client, lost: Msg, live: set<Msg>)
    requires k.link.Busy? && k.link.cmd != Append && Accurate(k.link, live) && lost in k.link.sess.told && lost !in live
    ensures Accurate(ImapSystem.Lost(k, lost).link, live)
  {
  }

  lemma FinishedIsAccurate(k: Client, live: set<Msg>)
    requires k.link.Busy? && Accurate(k.link, live) && StoredWell(k.link)
    requires k.link.cmd == Append ==> k.link.stored.Some? && k.link.stored.value in k.link.sess.queue
    requires k.link.cmd == Expunge ==> k.link.sess.told <= live
    ensures HasSession(Finished(k).link) ==> Accurate(Finished(k).link, live)
  {
    hide Taken;
  }

  lemma StoringIsAccurate(k: Client, m: Msg, live: set<Msg>, tally: nat)
    requires k.link.Busy? && k.link.cmd == Append && k.link.stored.None? && Accurate(k.link, live)
    ensures Accurate(Storing(k, m).link, live + {m})
  {
  }

  lemma SentIsAccurate(cfg: Config, k: Client, n: nat, m: nat, live: set<Msg>)
    requires Usable(cfg) && (k.link.Authed? || k.link.Idle?) && (k.link.Idle? ==> Accurate(k.link, live))
    ensures var l := Sent(cfg, k, 0, n, m); HasSession(l) ==> k.link.Idle? && Accurate(l, live)
  {
    hide Choice, UserOf, ImapDriver.Rotation;
  }

  lemma ChatterIsAccurate(k: Client, live: set<Msg>)
    requires HasSession(k.link) && Accurate(k.link, live)
    ensures Accurate(With(k.link, k.link.sess, Other), live)
  {
  }

  lemma StoreIsAccurate(cfg: Config, s: System, a: Action)
    requires Usable(cfg) && Possible(cfg, s, a) && Candid(cfg, s, a) && Solo(s, a) && !a.Deliver? && !a.Remove?
    requires Tracked(s.clients[0], s.tally) && Calm(s.clients[0].link) && Exact(s)
    requires a.Store?
    ensures var l := Moved(cfg, s, a).link;
            HasSession(l) ==> Accurate(l, Live(Apply(cfg, s, a), l.sess.box))
  {
    hide Tracked, Calm, Apply, Storing, Accurate, Held;
    var k := s.clients[0];
    LiveAfter(cfg, s, a, k.link.sess.box);
    KeepsBox(cfg, s, a);
    StoringIsAccurate(k, Own(a.c, s.tally), Live(s, k.link.sess.box), s.tally);
  }

  lemma BusyIsStoredWell(k: Client, tally: nat)
    requires Tracked(k, tally) && k.link.Busy?
    ensures StoredWell(k.link)
  {
    hide Consistent, InStep, Pending, Rising, LastReport, Owed;
  }

  /** What the client is told, or not, leaves its record accurate. */
  lemma TalkIsAccurate(cfg: Config, s: System, a: Action)
    requires Usable(cfg) && Possible(cfg, s, a) && Candid(cfg, s, a) && Solo(s, a) && !a.Deliver? && !a.Remove?
    requires Tracked(s.clients[0], s.tally) && Calm(s.clients[0].link) && Exact(s)
    requires a.Announce? || a.Notice? || a.Forget? || a.Chatter?
    ensures var l := Moved(cfg, s, a).link;
            HasSession(l) ==> Accurate(l, Live(Apply(cfg, s, a), l.sess.box))
  {
    hide Tracked, Calm, Apply, Announced, ImapSystem.Lost, Unmentioned, Accurate, Held, StoredWell, With;
    var k := s.clients[0];
    var l, live := k.link, Live(s, k.link.sess.box);
    KeepsBox(cfg, s, a);
    LiveOfMoved(cfg, s, a);
    if l.Busy? { BusyIsStoredWell(k, s.tally); }
    match a {
      case Announce(_, news) => AnnouncedIsAccurate(k, news, live);
      case Notice(_, lost) => LostIsAccurate(k, lost, live);
      case Forget(_, lost) => NothingUnmentioned(l, lost, live);
      case Chatter(_) => ChatterIsAccurate(k, live);
    }
  }

  /** What the client holds is what the server counts. */
  lemma HeldIsCounted(v: V, sess: Sess)
    requires InStep(v, sess) && Recorded(sess)
    ensures Held(v) == |sess.told| + |sess.acked|
  {
    SubsetSize(sess.spent, sess.base);
    UnionSize(sess.base - sess.spent, sess.spent);
    assert sess.base == (sess.base - sess.spent) + sess.spent;
  }

  /** One step of a lone client leaves its record accurate. */
  lemma MovedIsAccurate(cfg: Config, s: System, a: Action)
    requires Usable(cfg) && Possible(cfg, s, a) && Candid(cfg, s, a) && Solo(s, a) && !a.Deliver? && !a.Remove?
    requires Tracked(s.clients[0], s.tally) && Calm(s.clients[0].link) && Exact(s)
    ensures var l := Moved(cfg, s, a).link;
            HasSession(l) ==> Accurate(l, Live(Apply(cfg, s, a), l.sess.box))
  {
    hide InStep, Pending, Consistent, Owed, Rising, LastReport, Apply, Recorded, Finished, Storing,
         Announced, ImapSystem.Lost, Unmentioned, With, Selecting, Sent, Accurate, Held;
    var k := s.clients[0];
    var l := k.link;
    var live := if HasSession(l) then Live(s, l.sess.box) else {};
    if !a.Store? { LiveOfMoved(cfg, s, a); }
    match a {
      case Send(_, n, m) => SentIsAccurate(cfg, k, n, m, live); KeepsBox(cfg, s, a);
      case Open(_) => SelectingIsAccurate(k, Live(s, l.box)); KeepsBox(cfg, s, a);
      case Store(_) => StoreIsAccurate(cfg, s, a);
      case Finish(_) => FinishedIsAccurate(k, live); KeepsBox(cfg, s, a);
      case Connect(_) =>
      case Flag(_, _) =>
      case Drop(_) =>
      case _ => TalkIsAccurate(cfg, s, a);
    }
  }

  lemma SelectingIsAccurate(k: Client, now: set<Msg>)
    requires k.link.Opening?
    ensures Accurate(Selecting(k, now).link, now)
  {
  }

  lemma NothingUnmentioned(l: Link, lost: Msg, live: set<Msg>)
    requires HasSession(l) && Accurate(l, live) && lost in l.sess.queue
    ensures lost in live
  {
  }

  /** A lone client's arithmetic gives the true size of its mailbox when it is done with a
      command. */
  lemma FinishedIsExact(k: Client, live: set<Msg>, tally: nat)
    requires k.link.Busy? && Tracked(k, tally) && Calm(k.link) && Accurate(k.link, live)
    requires (k.link.cmd == Append ==> k.link.stored.Some?) && (k.link.cmd == Expunge ==> k.link.sess.told <= live)
    ensures Finished(k).link.Idle? ==> Held(Finished(k).view) == |live|
  {
    hide Fold, Consistent, Owed, Recorded, Accurate, InStep, Rising, LastReport, Taken, Pending, Held;
    var t := Finished(k);
    FinishedKeeps(k, tally);
    FinishedIsAccurate(k, live);
    FinishedIsCalm(k);
    FinishedIsPending(k);
    if t.link.Idle? {
      HeldIsCounted(t.view, t.link.sess);
      AccurateSize(t.link.sess, t.link, live, tally);
    }
  }

  lemma FinishedIsPending(k: Client)
    requires k.link.Busy? && (k.link.cmd == Append ==> k.link.stored.Some?)
    ensures Finished(k).link.Idle? ==> Pending(Finished(k)) == Finished(k).view
  {
    hide Taken;
    FoldNothing(Finished(k).view);
  }

  lemma SoloKeepsExact(cfg: Config, s: System, a: Action)
    requires Usable(cfg) && Possible(cfg, s, a) && Candid(cfg, s, a) && Solo(s, a)
    requires Inv(s) && AllCalm(s) && Exact(s)
    ensures Exact(Apply(cfg, s, a))
  {
    hide Accurate, Calm, Candid, Held, Apply;
    var k := s.clients[0];
    assert Tracked(k, s.tally) && Calm(k.link);
    if a.Remove? {
      SoloRemove(cfg, s, a);
    } else {
      SoloMoved(cfg, s, a);
    }
  }

  lemma SoloRemove(cfg: Config, s: System, a: Action)
    requires Usable(cfg) && Possible(cfg, s, a) && Solo(s, a) && a.Remove? && Exact(s) && Tracked(s.clients[0], s.tally)
    ensures Exact(Apply(cfg, s, a))
  {
    hide Rising, LastReport, Fold, InStep, Pending, Owed;
    var l := s.clients[0].link;
    assert StoredOf(l).None?;
    assert Live(Apply(cfg, s, a), l.sess.box) == Live(s, l.sess.box) - a.gone;
  }

  lemma SoloMoved(cfg: Config, s: System, a: Action)
    requires Usable(cfg) && Possible(cfg, s, a) && Candid(cfg, s, a) && Solo(s, a) && !a.Remove?
    requires Tracked(s.clients[0], s.tally) && Calm(s.clients[0].link) && Exact(s)
    ensures Exact(Apply(cfg, s, a))
  {
    hide Accurate, Calm, Candid, Held, Apply, Tracked, Finished, Taken, Choice, UserOf, ImapDriver.Rotation,
         Heard, Noticed, Forgotten, Storing, Selecting, Unheard, NoticedUnheard;
    MovedInPlace(cfg, s, a);
    MovedIsAccurate(cfg, s, a);
    KeepsBox(cfg, s, a);
    if !a.Store? { LiveOfMoved(cfg, s, a); }
    if a.Finish? { FinishedIsExact(s.clients[0], Live(s, s.clients[0].link.sess.box), s.tally); }
    IdleView(cfg, s, a);
  }

  /** A client that stays ready keeps its view; it becomes ready only by finishing. */
  lemma IdleView(cfg: Config, s: System, a: Action)
    requires Usable(cfg) && Possible(cfg, s, a) && !a.Deliver? && !a.Remove?
    ensures var k, t := s.clients[a.c], Moved(cfg, s, a);
            t.link.Idle? && !a.Finish? ==> k.link.Idle? && t.view == k.view && !a.Store?
  {
    hide Heard, Noticed, Forgotten, Unheard, NoticedUnheard, Choice, UserOf, ImapDriver.Rotation, Taken;
  }

  function Max(a: nat, b: nat): nat { if a < b then b else a }

  /** Only storing makes a lone client's mailbox larger, from at most twice the target. */
  lemma SoloGrowth(cfg: Config, s: System, a: Action, b: Box)
    requires Usable(cfg) && cfg.target > 0 && Possible(cfg, s, a) && Solo(s, a) && Exact(s)
    requires Tracked(s.clients[0], s.tally) && AllLean(cfg, s)
    ensures |Live(Apply(cfg, s, a), b)| <= Max(|Live(s, b)|, 2 * cfg.target + 1)
  {
    hide Apply, Moved, Accurate, Consistent, Held;
    LiveAfter(cfg, s, a, b);
    var l := s.clients[0].link;
    if a.Store? && l.sess.box == b {
      assert Lean(cfg, l);
      AccurateSize(l.sess, l, Live(s, b), s.tally);
      UnionSize(Live(s, b), {Own(a.c, s.tally)});
    } else {
      SubsetSize(Live(Apply(cfg, s, a), b), Live(s, b));
    }
  }

  /** Exact tracking: whenever a lone client is ready for its next command, its view
      states the true count of the mailbox it has open; and no mailbox of its rotation
      outgrows the larger of its initial size and twice the target plus one. */
  lemma {:induction false} SoloRun(cfg: Config, states: seq<System>, actions: seq<Action>, b: Box)
    requires Usable(cfg) && cfg.target > 0 && CandidRun(cfg, states, actions) && |states[0].clients| == 1
    requires forall i :: 0 <= i < |actions| ==> Solo(states[i], actions[i])
    ensures var s := states[|actions|];
            && Exact(s) && |Live(s, b)| <= Max(|Live(states[0], b)|, 2 * cfg.target + 1)
            && (s.clients[0].link.Idle? ==> Held(s.clients[0].view) == |Live(s, s.clients[0].link.sess.box)|)
  {
    hide Possible, Apply, Inv, AllCalm, AllLean, Candid, ModestRun, Live, Initial, Solo, Accurate, Held, Tracked;
    if actions == [] {
      SoloInitially(states[0]);
    } else {
      var n := |actions| - 1;
      CandidBefore(cfg, states, actions);
      assert forall i :: 0 <= i < n ==> actions[..n][i] == actions[i] && states[..n + 1][i] == states[i];
      SoloRun(cfg, states[..n + 1], actions[..n], b);
      CandidIsModest(cfg, states[..n + 1], actions[..n]);
      RunKeepsLean(cfg, states[..n + 1], actions[..n]);
      RunKeepsInv(cfg, states[..n + 1], actions[..n]);
      RunKeepsCalm(cfg, states[..n + 1], actions[..n]);
      SoloKeepsExact(cfg, states[n], actions[n]);
      LoneIsTracked(states[n]);
      SoloGrowth(cfg, states[n], actions[n], b);
    }
  }

  lemma LoneIsTracked(s: System)
    requires Inv(s) && |s.clients| == 1
    ensures Tracked(s.clients[0], s.tally)
  {
  }

  lemma SoloInitially(s: System)
    requires Initial(s) && |s.clients| == 1
    ensures Exact(s) && !s.clients[0].link.Idle?
  {
  }

  // -------------------------------------------------- above twice the target

  /** Every mailbox the lone client can open holds more than twice the target. */
  ghost predicate Overfull(cfg: Config, s: System)
    requires Usable(cfg)
  {
    forall n: nat :: |Live(s, BoxFor(cfg, 0, n))| > 2 * cfg.target
  }

  /** The client does nothing but select and expunge, in mailboxes of its rotation. */
  ghost predicate OnlyExpunges(cfg: Config, l: Link)
    requires Usable(cfg)
  {
    && (l.Busy? ==> l.cmd == Select || l.cmd == Expunge)
    && (l.Opening? ==> exists n: nat :: l.box == BoxFor(cfg, 0, n))
    && (HasSession(l) ==> exists n: nat :: l.sess.box == BoxFor(cfg, 0, n))
  }

  /** Nothing in any mailbox is marked as deleted. */
  ghost predicate Unflagged(s: System) {
    forall b :: Live(s, b) !! s.flagged
  }

  lemma SendsExpunge(cfg: Config, s: System, a: Action)
    requires Usable(cfg) && cfg.target > 0 && Possible(cfg, s, a) && a.Send? && |s.clients| == 1
    requires Exact(s) && Overfull(cfg, s) && OnlyExpunges(cfg, s.clients[0].link)
    ensures OnlyExpunges(cfg, Moved(cfg, s, a).link)
  {
    hide Accurate, UserOf, ImapDriver.Rotation;
    var k := s.clients[0];
    if k.link.Idle? {
      assert |Live(s, k.link.sess.box)| > 2 * cfg.target;
      SteadyState(cfg, k.view, a.n);
    }
  }

  lemma MovesOnlyExpunge(cfg: Config, s: System, a: Action)
    requires Usable(cfg) && Possible(cfg, s, a) && !a.Deliver? && !a.Remove? && !a.Send? && a.c == 0
    requires OnlyExpunges(cfg, s.clients[0].link)
    ensures OnlyExpunges(cfg, Moved(cfg, s, a).link)
  {
    hide Heard, Unheard, Noticed, NoticedUnheard, Forgotten, Acknowledged, Fold, Taken, BoxFor, Choice;
    KeepsBox(cfg, s, a);
  }

  lemma OverfullStep(cfg: Config, s: System, a: Action)
    requires Usable(cfg) && cfg.target > 0 && Possible(cfg, s, a) && Solo(s, a)
    requires Exact(s) && Overfull(cfg, s) && OnlyExpunges(cfg, s.clients[0].link) && Unflagged(s)
    ensures var t := Apply(cfg, s, a);
            && (forall b :: Live(t, b) == Live(s, b)) && t.flagged == s.flagged
            && |t.clients| == 1 && OnlyExpunges(cfg, t.clients[0].link)
  {
    hide Apply, Moved, Exact, Overfull, OnlyExpunges, Accurate, Unflagged;
    var t := Apply(cfg, s, a);
    if a.Remove? { NothingToExpunge(cfg, s, a); }
    FlagsNothing(cfg, s, a);
    LeavesMailboxes(cfg, s, a);
    if a.Remove? {
      SameClients(cfg, s, a);
      RemovalMovesNobody(cfg, s, a);
    } else {
      MovedInPlace(cfg, s, a);
      if a.Send? { SendsExpunge(cfg, s, a); } else { MovesOnlyExpunge(cfg, s, a); }
    }
  }

  /** An EXPUNGE removes what is marked as deleted (section 6.4.3 of RFC 3501). */
  lemma NothingToExpunge(cfg: Config, s: System, a: Action)
    requires Usable(cfg) && Possible(cfg, s, a) && Solo(s, a) && a.Remove? && Unflagged(s)
    ensures a.gone == {}
  {
    hide Live;
    assert Live(s, a.box) !! s.flagged;
    assert a.gone <= Live(s, a.box) * s.flagged;
  }

  /** Only a DELETE marks anything. */
  lemma FlagsNothing(cfg: Config, s: System, a: Action)
    requires Usable(cfg) && Possible(cfg, s, a) && Solo(s, a) && OnlyExpunges(cfg, s.clients[0].link)
    ensures Apply(cfg, s, a).flagged == s.flagged
  {
    hide Moved, BoxFor;
  }

  lemma RemovalMovesNobody(cfg: Config, s: System, a: Action)
    requires Usable(cfg) && Possible(cfg, s, a) && a.Remove?
    ensures Apply(cfg, s, a).clients == s.clients
  {
  }

  lemma LeavesMailboxes(cfg: Config, s: System, a: Action)
    requires Usable(cfg) && Possible(cfg, s, a) && Solo(s, a) && OnlyExpunges(cfg, s.clients[0].link)
    requires a.Remove? ==> a.gone == {}
    ensures forall b :: Live(Apply(cfg, s, a), b) == Live(s, b)
  {
    hide Apply, Live, BoxFor;
    forall b ensures Live(Apply(cfg, s, a), b) == Live(s, b) { LiveAfter(cfg, s, a, b); }
  }

  /** The downward half of the steady state: above twice the target a client does nothing
      but expunge, so it never marks anything, so nothing is ever expunged. A lone client
      whose mailboxes all begin above twice the target, with nothing marked in them, leaves
      every one of them as it is for ever, and sends nothing but SELECT and EXPUNGE. */
  lemma {:induction false} StaysOverfull(cfg: Config, states: seq<System>, actions: seq<Action>)
    requires Usable(cfg) && cfg.target > 0 && CandidRun(cfg, states, actions)
    requires (forall i :: 0 <= i < |states| ==> |states[i].clients| == 1)
    requires (forall i :: 0 <= i < |actions| ==> Solo(states[i], actions[i]))
    requires Overfull(cfg, states[0]) && Unflagged(states[0])
    ensures forall i :: 0 <= i < |states| ==> OnlyExpunges(cfg, states[i].clients[0].link)
    ensures forall i, b :: 0 <= i < |states| ==> Live(states[i], b) == Live(states[0], b)
    ensures states[|actions|].flagged == states[0].flagged
  {
    hide Possible, Apply, Candid, Live, Initial, Solo, OnlyExpunges;
    if actions == [] {
      OverfullInitially(cfg, states[0]);
    } else {
      var n := |actions| - 1;
      var states', actions' := states[..n + 1], actions[..n];
      CandidBefore(cfg, states, actions);
      assert forall i :: 0 <= i < n ==> actions'[i] == actions[i];
      assert forall i :: 0 <= i <= n ==> states'[i] == states[i];
      StaysOverfull(cfg, states', actions');
      SoloRun(cfg, states', actions', Box([], []));
      StillOverfull(cfg, states[0], states[n]);
      OverfullStep(cfg, states[n], actions[n]);
    }
  }

  lemma StillOverfull(cfg: Config, s: System, t: System)
    requires Usable(cfg) && Overfull(cfg, s) && Unflagged(s) && t.flagged == s.flagged
    requires forall b :: Live(t, b) == Live(s, b)
    ensures Overfull(cfg, t) && Unflagged(t)
  {
    hide Live, BoxFor;
  }

  lemma OverfullInitially(cfg: Config, s: System)
    requires Usable(cfg) && Initial(s) && |s.clients| == 1
    ensures OnlyExpunges(cfg, s.clients[0].link)
  {
  }
}
