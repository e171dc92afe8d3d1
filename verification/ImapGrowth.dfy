/** The steady state in runs of the system of `ImapSystem`: it tops a mailbox up to the
    target, and bounds how large the mailboxes can get. */
module ImapGrowth {
  import opened Octets
  import opened ImapCommands
  import opened ImapView
  import opened ImapDriver
  import opened ImapSystem
  import opened ImapAlarm

  // ------------------------------------------------- topping up to the target

  function Sends(actions: seq<Action>, c: nat): nat {
    if actions == [] then 0
    else
      var a := actions[|actions| - 1];
      Sends(actions[..|actions| - 1], c) + (if a.Send? && a.c == c then 1 else 0)
  }

  function Finishes(actions: seq<Action>, c: nat): nat {
    if actions == [] then 0
    else
      var a := actions[|actions| - 1];
      Finishes(actions[..|actions| - 1], c) + (if a.Finish? && a.c == c then 1 else 0)
  }

  /** A client that has sent nothing but appends, `done` of which are finished, and is now
      ready for the next command or busy with one more append. */
  predicate ToppingUp(k: Client, held: int, sent: nat, done: nat) {
    && Held(k.view) == held + done
    && ((k.link.Idle? && sent == done) || (k.link.Busy? && k.link.cmd == Append && sent == done + 1))
  }

  lemma MovedTopsUp(cfg: Config, s: System, a: Action, held: int, sent: nat, done: nat)
    requires Usable(cfg) && cfg.target > 0 && Possible(cfg, s, a) && !a.Deliver? && !a.Remove?
    requires ToppingUp(s.clients[a.c], held, sent, done)
    requires a.Send? ==> held + sent + 1 <= cfg.target
    requires Moved(cfg, s, a).link != Down
    ensures ToppingUp(Moved(cfg, s, a), held, if a.Send? then sent + 1 else sent, if a.Finish? then done + 1 else done)
  {
    hide Heard, Unheard, Noticed, NoticedUnheard, Forgotten, Acknowledged, Fold;
  }

  lemma OthersLeaveView(cfg: Config, s: System, a: Action, c: nat)
    requires Usable(cfg) && Possible(cfg, s, a) && c < |s.clients| && !Concerns(a, c)
    ensures var t := Apply(cfg, s, a);
            && |t.clients| == |s.clients| && t.clients[c].view == s.clients[c].view
            && t.clients[c].link.Idle? == s.clients[c].link.Idle? && t.clients[c].link.Busy? == s.clients[c].link.Busy?
            && (s.clients[c].link.Busy? ==> t.clients[c].link.cmd == s.clients[c].link.cmd)
  {
    hide Moved;
  }

  /** Its connection never goes down. */
  predicate StaysUp(states: seq<System>, c: nat) {
    forall i :: 0 <= i < |states| && c < |states[i].clients| ==> states[i].clients[c].link != Down
  }

  /** Each of the client's commands is an APPEND. */
  predicate OnlyAppends(states: seq<System>, actions: seq<Action>, c: nat)
    requires |states| == |actions| + 1
  {
    forall i :: 0 <= i < |actions| && actions[i].Send? && actions[i].c == c ==>
      && c < |states[i + 1].clients|
      && states[i + 1].clients[c].link.Busy? && states[i + 1].clients[c].link.cmd == Append
  }

  /** A client short of its target appends until it is exactly reached, whatever its profile
      says and whatever anyone else does: from any state in which it is ready for a command
      and holds less than the target, along any path on which its connection stays up, its
      commands are all APPEND as long as there are no more of them than it is short of, and
      it holds one message more for each that is finished. */
  lemma {:induction false} TopsUpToTheTarget(cfg: Config, states: seq<System>, actions: seq<Action>, c: nat)
    requires Usable(cfg) && cfg.target > 0 && IsPath(cfg, states, actions)
    requires c < |states[0].clients| && states[0].clients[c].link.Idle?
    requires Held(states[0].clients[c].view) + Sends(actions, c) <= cfg.target
    requires StaysUp(states, c)
    ensures OnlyAppends(states, actions, c)
    ensures c < |states[|actions|].clients|
    ensures ToppingUp(states[|actions|].clients[c], Held(states[0].clients[c].view),
                      Sends(actions, c), Finishes(actions, c))
    decreases |actions|
  {
    hide Possible, Apply, Moved, ToppingUp, Held;
    if actions == [] {
      StartsToppingUp(states[0].clients[c]);
    } else {
      var n := |actions| - 1;
      PathBefore(cfg, states, actions);
      TopsUpBefore(states, c);
      TopsUpToTheTarget(cfg, states[..n + 1], actions[..n], c);
      TopUpStep(cfg, states[n], actions[n], c, Held(states[0].clients[c].view),
                Sends(actions[..n], c), Finishes(actions[..n], c));
      AppendsStill(states, actions, c);
    }
  }

  lemma TopsUpBefore(states: seq<System>, c: nat)
    requires StaysUp(states, c) && states != []
    ensures StaysUp(states[..|states| - 1], c)
  {
    var before := states[..|states| - 1];
    assert forall i :: 0 <= i < |before| ==> before[i] == states[i];
  }

  lemma AppendsStill(states: seq<System>, actions: seq<Action>, c: nat)
    requires |states| == |actions| + 1 && actions != []
    requires var n := |actions| - 1;
             && OnlyAppends(states[..n + 1], actions[..n], c)
             && (actions[n].Send? && actions[n].c == c ==>
                   && c < |states[n + 1].clients|
                   && states[n + 1].clients[c].link.Busy? && states[n + 1].clients[c].link.cmd == Append)
    ensures OnlyAppends(states, actions, c)
  {
    var n := |actions| - 1;
    var before, earlier := states[..n + 1], actions[..n];
    assert forall i :: 0 <= i < n ==> earlier[i] == actions[i] && before[i + 1] == states[i + 1];
  }

  lemma StartsToppingUp(k: Client)
    requires k.link.Idle?
    ensures ToppingUp(k, Held(k.view), 0, 0)
  {
  }

  lemma TopUpStep(cfg: Config, s: System, a: Action, c: nat, held: int, sent: nat, done: nat)
    requires Usable(cfg) && cfg.target > 0 && Possible(cfg, s, a) && c < |s.clients|
    requires ToppingUp(s.clients[c], held, sent, done)
    requires a.Send? && a.c == c ==> held + sent + 1 <= cfg.target
    requires c < |Apply(cfg, s, a).clients| ==> Apply(cfg, s, a).clients[c].link != Down
    ensures var t, mine := Apply(cfg, s, a), Concerns(a, c);
            && c < |t.clients|
            && ToppingUp(t.clients[c], held, if mine && a.Send? then sent + 1 else sent,
                         if mine && a.Finish? then done + 1 else done)
            && (mine && a.Send? ==> t.clients[c].link.Busy? && t.clients[c].link.cmd == Append)
  {
    hide Moved, Apply;
    if Concerns(a, c) {
      MovedInPlace(cfg, s, a);
      MovedTopsUp(cfg, s, a, held, sent, done);
    } else {
      OthersLeaveView(cfg, s, a, c);
    }
  }

  // ---------------------------------------------------------- the growth bound

  function OwnedBy(c: nat, ms: set<Msg>): set<Msg> {
    set m | m in ms && m.Own? && m.client == c
  }

  function ForeignIn(ms: set<Msg>): set<Msg> {
    set m | m in ms && m.Foreign?
  }

  function UnderWay(l: Link): set<Msg> { if StoredOf(l).Some? then {StoredOf(l).value} else {} }

  /** What a session's client can account for: messages it was told of, its own
      acknowledged appends, and the one it is appending as long as that is neither
      announced nor gone. */
  function Accounted(l: Link): set<Msg>
    requires HasSession(l)
  {
    l.sess.told + l.sess.acked + UnderWay(l) * l.sess.queue
  }

  /** What has gone into its count: the messages its last report counted, its appends
      since, and the one it is appending. */
  function Reckoned(l: Link): set<Msg>
    requires HasSession(l)
  {
    l.sess.base + l.sess.mine + UnderWay(l)
  }

  /** Since the last report nothing has happened to the session that its client did not
      hear, and it has not appended. */
  predicate Unaltered(l: Link)
    requires HasSession(l)
  {
    var sess := l.sess;
    && sess.mine == {} && sess.acked == {} && sess.missed == {} && StoredOf(l).None?
    && !(l.Busy? && l.cmd == Append)
    && sess.told <= sess.base && sess.spent <= sess.base
  }

  /** Of the messages its last report counted, those the mailbox may still hold. */
  function Surviving(sess: Sess): set<Msg> { sess.base * (sess.told + sess.queue) }

  /** A client accounts for and reckons with all its own surviving messages in the mailbox
      it has open; it begins to append only when at most twice the target are left of those
      its last report counted, and goes on only while its own appends are no more. */
  ghost predicate InHand(cfg: Config, c: nat, l: Link, live: set<Msg>)
    requires HasSession(l)
  {
    && OwnedBy(c, live) <= Accounted(l) && OwnedBy(c, live) <= Reckoned(l)
    && (Unaltered(l) || |Surviving(l.sess)| <= 2 * cfg.target)
    && (l.Busy? && l.cmd == Append && l.stored.None? ==> |l.sess.mine| <= 2 * cfg.target)
  }

  predicate AtHome(cfg: Config, c: nat, l: Link)
    requires Usable(cfg)
  {
    && (l.Opening? ==> l.box.user == UserOf(cfg, c))
    && (HasSession(l) ==> l.sess.box.user == UserOf(cfg, c))
  }

  ghost predicate OwnInHand(cfg: Config, s: System, c: nat)
    requires Usable(cfg) && c < |s.clients|
  {
    var l := s.clients[c].link;
    AtHome(cfg, c, l) && (HasSession(l) ==> InHand(cfg, c, l, Live(s, l.sess.box)))
  }

  /** Every client's own message is in a mailbox of that client's user. */
  ghost predicate FromSharers(cfg: Config, b: Box, ms: set<Msg>, n: nat)
    requires Usable(cfg)
  {
    forall m :: m in ms && m.Own? ==> m.client < n && UserOf(cfg, m.client) == b.user
  }

  ghost predicate AllInHand(cfg: Config, s: System)
    requires Usable(cfg)
  {
    forall c :: 0 <= c < |s.clients| ==> OwnInHand(cfg, s, c)
  }

  /** No client has more than so many messages of its own anywhere. */
  ghost predicate FewOwned(live: map<Box, set<Msg>>, each: nat) {
    forall c: nat, b :: |OwnedBy(c, At(live, b))| <= each
  }

  ghost predicate OwnersKnown(cfg: Config, live: map<Box, set<Msg>>, n: nat)
    requires Usable(cfg)
  {
    forall b :: FromSharers(cfg, b, At(live, b), n)
  }

  ghost predicate Bounded(cfg: Config, s: System)
    requires Usable(cfg)
  {
    AllInHand(cfg, s) && FewOwned(s.live, 4 * cfg.target + 1) && OwnersKnown(cfg, s.live, |s.clients|)
  }

  /** What a step makes of a mailbox: one message of someone else's more, one of a client's
      own more in the mailbox it has open, or none more. */
  lemma LiveAfter(cfg: Config, s: System, a: Action, b: Box)
    requires Usable(cfg) && Possible(cfg, s, a)
    ensures var before, now := Live(s, b), Live(Apply(cfg, s, a), b);
            if a == Deliver(b) then now == before + {Foreign(s.tally)}
            else if a.Store? && s.clients[a.c].link.sess.box == b then now == before + {Own(a.c, s.tally)}
            else if a.Remove? && a.box == b then now == before - a.gone
            else now == before
  {
    hide Moved;
  }

  lemma OwnedAfter(cfg: Config, s: System, a: Action, c: nat, b: Box)
    requires Usable(cfg) && Possible(cfg, s, a)
    ensures var before, now := OwnedBy(c, Live(s, b)), OwnedBy(c, Live(Apply(cfg, s, a), b));
            if a.Store? && a.c == c && s.clients[a.c].link.sess.box == b then now == before + {Own(c, s.tally)}
            else now <= before && |now| <= |before|
  {
    hide Apply, Possible, Live;
    LiveAfter(cfg, s, a, b);
    var before, now := OwnedBy(c, Live(s, b)), OwnedBy(c, Live(Apply(cfg, s, a), b));
    if now <= before { SubsetSize(now, before); }
  }

  /** Storing an append is the one step that adds to a client's own messages. */
  lemma StepKeepsFew(cfg: Config, s: System, a: Action, each: nat)
    requires Usable(cfg) && Possible(cfg, s, a) && FewOwned(s.live, each)
    requires a.Store? ==>
               var b := s.clients[a.c].link.sess.box; |OwnedBy(a.c, Live(s, b)) + {Own(a.c, s.tally)}| <= each
    ensures FewOwned(Apply(cfg, s, a).live, each)
  {
    hide Apply, Moved, OwnedBy;
    var t := Apply(cfg, s, a);
    forall c: nat, b ensures |OwnedBy(c, At(t.live, b))| <= each {
      OwnedAfter(cfg, s, a, c, b);
      assert |OwnedBy(c, At(s.live, b))| <= each;
    }
  }

  /** It makes at most one more than are left of the last report and its own appends. */
  lemma OneMoreOwned(cfg: Config, c: nat, l: Link, live: set<Msg>, m: Msg)
    requires l.Busy? && l.cmd == Append && l.stored.None? && InHand(cfg, c, l, live)
    requires l.sess.acked <= l.sess.queue
    ensures |OwnedBy(c, live) + {m}| <= 4 * cfg.target + 1
  {
    hide OwnedBy;
    var sess := l.sess;
    assert OwnedBy(c, live) <= Surviving(sess) + sess.mine;
    SubsetSize(OwnedBy(c, live), Surviving(sess) + sess.mine);
    UnionSize(Surviving(sess), sess.mine);
    UnionSize(OwnedBy(c, live), {m});
  }

  lemma StepKeepsOwners(cfg: Config, s: System, a: Action)
    requires Usable(cfg) && Bounded(cfg, s) && Possible(cfg, s, a)
    ensures OwnersKnown(cfg, Apply(cfg, s, a).live, |s.clients|)
  {
    hide Apply, Moved, InHand, UserOf;
    var t := Apply(cfg, s, a);
    forall b ensures FromSharers(cfg, b, At(t.live, b), |s.clients|) {
      LiveAfter(cfg, s, a, b);
      assert FromSharers(cfg, b, At(s.live, b), |s.clients|);
      if a.Store? { assert OwnInHand(cfg, s, a.c); }
    }
  }

  // ------------------------------------------------- who accounts for what

  lemma CountsOf(k: Client, tally: nat)
    requires Tracked(k, tally) && HasSession(k.link)
    ensures Consistent(k.link.sess, tally) && InStep(Pending(k), k.link.sess)
    ensures k.link.Idle? && k.link.heard == [] ==> Pending(k) == k.view
    ensures k.link.Busy? ==> StoredWell(k.link)
  {
    hide Consistent, InStep, Rising, LastReport, Owed;
    FoldNothing(k.view);
  }

  lemma SurvivingIsLeft(sess: Sess, tally: nat)
    requires Consistent(sess, tally) && sess.mine == {} && sess.acked == {} && sess.missed == {}
    ensures Surviving(sess) <= sess.base - sess.spent
  {
  }

  lemma Fewer<T>(a: set<T>, b: set<T>)
    requires b <= a
    ensures |a - b| == |a| - |b|
  {
    UnionSize(a - b, b);
    assert a == (a - b) + b;
  }

  /** What is left of the last report, when the client has heard all that happened since. */
  lemma LeftOfReport(sess: Sess, tally: nat)
    requires Consistent(sess, tally) && sess.spent <= sess.base
    requires sess.mine == {} && sess.acked == {} && sess.missed == {}
    ensures |Surviving(sess)| <= |sess.base| - |sess.spent|
  {
    hide Consistent, Surviving;
    SurvivingIsLeft(sess, tally);
    SubsetSize(Surviving(sess), sess.base - sess.spent);
    Fewer(sess.base, sess.spent);
  }

  /** It is within what the client holds, and so are its own appends since. */
  lemma HeldCovers(v: V, l: Link, tally: nat)
    requires HasSession(l) && Consistent(l.sess, tally) && InStep(v, l.sess)
    ensures |l.sess.mine| <= Held(v)
    ensures Unaltered(l) ==> |Surviving(l.sess)| <= Held(v)
  {
    hide Consistent, Surviving;
    if Unaltered(l) {
      LeftOfReport(l.sess, tally);
      SubsetSize(l.sess.spent, l.sess.base);
    }
  }

  lemma BusyAccountsAlike(sess: Sess, heard: seq<Event>, cmd: Command)
    ensures var l, t := Idle(sess, heard), Busy(sess, cmd, heard, None);
            Accounted(t) == Accounted(l) && Reckoned(t) == Reckoned(l)
  {
  }

  lemma SentInHand(cfg: Config, c: nat, k: Client, n: nat, m: nat, live: set<Msg>, tally: nat)
    requires Usable(cfg) && cfg.target > 0 && k.link.Idle? && InHand(cfg, c, k.link, live) && Tracked(k, tally)
    ensures var l := Sent(cfg, k, c, n, m); HasSession(l) ==> InHand(cfg, c, l, live)
  {
    hide OwnedBy, UserOf, ImapDriver.Rotation, Choice, Surviving, Consistent, InStep, Tracked, Accounted, Reckoned;
    if k.link.Idle? { BusyAccountsAlike(k.link.sess, k.link.heard, Choice(cfg, k.view, n)); }
    CountsOf(k, tally);
    if k.link.heard == [] {
      SteadyState(cfg, k.view, n);
      HeldCovers(k.view, k.link, tally);
    }
  }

  lemma HeardIsAccounted(k: Client, news: set<Msg>)
    requires Listening(k.link) && StoredOf(k.link).None? && k.link.sess.acked <= news
    ensures var t := Announced(k, news).link;
            && Accounted(k.link) <= Accounted(t) && Accounted(k.link) <= Reckoned(t) && Unaltered(t)
  {
  }

  lemma HeardInHand(cfg: Config, c: nat, k: Client, news: set<Msg>, live: set<Msg>)
    requires Listening(k.link) && k.link.sess.acked <= news && InHand(cfg, c, k.link, live)
    requires k.link.Busy? ==> StoredWell(k.link)
    ensures InHand(cfg, c, Announced(k, news).link, live)
  {
    hide OwnedBy, Owed, Accounted, Reckoned, Surviving, Unaltered, Heard;
    assert StoredOf(k.link).None?;
    HeardIsAccounted(k, news);
  }

  lemma UnheardInHand(cfg: Config, c: nat, k: Client, news: set<Msg>, live: set<Msg>)
    requires k.link.Busy? && k.link.cmd == Append && k.link.sess.acked <= news <= k.link.sess.queue
    requires InHand(cfg, c, k.link, live)
    ensures InHand(cfg, c, Announced(k, news).link, live)
  {
    hide OwnedBy;
    var sess := k.link.sess;
    assert Surviving(Unheard(sess, news)) == Surviving(sess);
  }

  /** A message that has gone is none of anyone's in the mailbox. */
  lemma GoneIsNotOwned(c: nat, live: set<Msg>, lost: Msg, all: set<Msg>, left: set<Msg>)
    requires lost !in live && OwnedBy(c, live) <= all && all - {lost} <= left
    ensures OwnedBy(c, live) <= left
  {
  }

  lemma LostIsAccounted(k: Client, lost: Msg)
    requires k.link.Busy? && lost in k.link.sess.told
    ensures var l, t := k.link, ImapSystem.Lost(k, lost).link;
            && Accounted(l) - {lost} <= Accounted(t) && Reckoned(t) == Reckoned(l)
            && Surviving(t.sess) <= Surviving(l.sess) && t.sess.mine == l.sess.mine
            && (Unaltered(l) ==> Unaltered(t))
  {
  }

  lemma LostInHand(cfg: Config, c: nat, k: Client, lost: Msg, live: set<Msg>)
    requires k.link.Busy? && lost in k.link.sess.told && lost !in live && InHand(cfg, c, k.link, live)
    ensures InHand(cfg, c, ImapSystem.Lost(k, lost).link, live)
  {
    hide OwnedBy, Accounted, Reckoned, Surviving, Unaltered, Noticed, NoticedUnheard;
    var l, t := k.link, ImapSystem.Lost(k, lost).link;
    LostIsAccounted(k, lost);
    GoneIsNotOwned(c, live, lost, Accounted(l), Accounted(t));
    SubsetSize(Surviving(t.sess), Surviving(l.sess));
  }

  lemma UnmentionedIsAccounted(k: Client, lost: Msg)
    requires HasSession(k.link)
    ensures var l, t := k.link, Unmentioned(k, lost).link;
            && Accounted(l) - {lost} <= Accounted(t) && Reckoned(t) == Reckoned(l)
            && Surviving(t.sess) <= Surviving(l.sess) && t.sess.mine == l.sess.mine
  {
  }

  lemma UnmentionedIsUnaltered(k: Client, lost: Msg)
    requires HasSession(k.link) && Unaltered(k.link)
    ensures Unaltered(Unmentioned(k, lost).link)
  {
    var none: set<Msg> := {};
    assert none - {lost} == none;
  }

  lemma UnmentionedInHand(cfg: Config, c: nat, k: Client, lost: Msg, live: set<Msg>)
    requires HasSession(k.link) && lost !in live && InHand(cfg, c, k.link, live)
    ensures InHand(cfg, c, Unmentioned(k, lost).link, live)
  {
    hide OwnedBy, Accounted, Reckoned, Surviving, Unaltered, Forgotten;
    var l, t := k.link, Unmentioned(k, lost).link;
    UnmentionedIsAccounted(k, lost);
    GoneIsNotOwned(c, live, lost, Accounted(l), Accounted(t));
    SubsetSize(Surviving(t.sess), Surviving(l.sess));
    if Unaltered(l) { UnmentionedIsUnaltered(k, lost); }
  }

  lemma FinishedInHand(cfg: Config, c: nat, k: Client, live: set<Msg>)
    requires k.link.Busy? && (k.link.cmd == Append ==> k.link.stored.Some?)
    requires StoredWell(k.link) && InHand(cfg, c, k.link, live)
    ensures HasSession(Finished(k).link) ==> InHand(cfg, c, Finished(k).link, live)
  {
    hide OwnedBy, Taken, Owed;
  }

  lemma SelectedInHand(cfg: Config, c: nat, k: Client, live: set<Msg>)
    requires k.link.Opening?
    ensures InHand(cfg, c, Selecting(k, live).link, live)
  {
  }

  lemma ChatterInHand(cfg: Config, c: nat, k: Client, live: set<Msg>)
    requires HasSession(k.link) && InHand(cfg, c, k.link, live)
    ensures InHand(cfg, c, With(k.link, k.link.sess, Other), live)
  {
    hide OwnedBy, Surviving;
  }

  lemma StoredIsAccounted(k: Client, m: Msg, tally: nat)
    requires k.link.Busy? && k.link.stored.None? && Consistent(k.link.sess, tally) && m.serial == tally
    ensures var t := Storing(k, m).link;
            && Accounted(k.link) + {m} <= Accounted(t) && Reckoned(k.link) + {m} <= Reckoned(t)
            && Surviving(t.sess) == Surviving(k.link.sess) && t.sess.mine == k.link.sess.mine
  {
    assert m !in k.link.sess.base;
  }

  lemma StoredInHand(cfg: Config, c: nat, k: Client, m: Msg, live: set<Msg>, now: set<Msg>, tally: nat)
    requires k.link.Busy? && k.link.cmd == Append && k.link.stored.None? && InHand(cfg, c, k.link, live)
    requires OwnedBy(c, now) == OwnedBy(c, live) + {m} && Consistent(k.link.sess, tally) && m.serial == tally
    ensures InHand(cfg, c, Storing(k, m).link, now)
  {
    hide OwnedBy, Accounted, Reckoned, Surviving, Consistent;
    StoredIsAccounted(k, m, tally);
    assert !Unaltered(k.link);
  }

  lemma TalkStaysHome(cfg: Config, s: System, a: Action)
    requires Usable(cfg) && Possible(cfg, s, a) && !a.Deliver? && !a.Remove? && AtHome(cfg, a.c, s.clients[a.c].link)
    ensures AtHome(cfg, a.c, Moved(cfg, s, a).link)
  {
    hide UserOf, ImapDriver.Rotation, Choice, Taken, Heard, Unheard, Noticed, NoticedUnheard, Acknowledged, Forgotten;
    var sess := if HasSession(s.clients[a.c].link) then s.clients[a.c].link.sess else JustOpened(Box([], []), {});
    SameBox(sess, a);
  }

  lemma SameBox(sess: Sess, a: Action)
    ensures a.Announce? ==> Heard(sess, a.news).box == sess.box && Unheard(sess, a.news).box == sess.box
    ensures a.Notice? ==> Noticed(sess, a.lost).box == sess.box && NoticedUnheard(sess, a.lost).box == sess.box
    ensures a.Forget? ==> forall x :: Forgotten(sess, a.lost, x).box == sess.box
    ensures forall m :: Acknowledged(sess, m).box == sess.box
  {
  }

  /** One step of a client leaves it accounting for its own messages. */
  lemma MovedInHand(cfg: Config, s: System, a: Action)
    requires Usable(cfg) && cfg.target > 0 && Possible(cfg, s, a) && !a.Deliver? && !a.Remove?
    requires Tracked(s.clients[a.c], s.tally) && OwnInHand(cfg, s, a.c)
    ensures var l := Moved(cfg, s, a).link;
            HasSession(l) ==> InHand(cfg, a.c, l, Live(Apply(cfg, s, a), l.sess.box))
  {
    hide InHand, InStep, Pending, Consistent, Apply, Choice, Taken, Finished, Tracked, StoredWell, With,
         Announced, ImapSystem.Lost, Unmentioned, Storing, Selecting, Sent;
    var k := s.clients[a.c];
    var l := k.link;
    var live := if HasSession(l) then Live(s, l.sess.box) else {};
    KeepsBox(cfg, s, a);
    if HasSession(l) { CountsOf(k, s.tally); }
    if !a.Store? { LiveOfMoved(cfg, s, a); }
    match a {
      case Connect(_) =>
      case Send(_, n, m) => if l.Idle? { SentInHand(cfg, a.c, k, n, m, live, s.tally); }
      case Open(_) => SelectedInHand(cfg, a.c, k, Live(s, l.box));
      case Store(_) =>
        OwnedAfter(cfg, s, a, a.c, l.sess.box);
        StoredInHand(cfg, a.c, k, Own(a.c, s.tally), live, Live(Apply(cfg, s, a), l.sess.box), s.tally);
      case Announce(_, news) =>
        if Listening(l) { HeardInHand(cfg, a.c, k, news, live); } else { UnheardInHand(cfg, a.c, k, news, live); }
      case Notice(_, lost) => LostInHand(cfg, a.c, k, lost, live);
      case Forget(_, lost) => UnmentionedInHand(cfg, a.c, k, lost, live);
      case Flag(_, _) =>
      case Chatter(_) => ChatterInHand(cfg, a.c, k, live);
      case Finish(_) => FinishedInHand(cfg, a.c, k, live);
      case Drop(_) =>
    }
  }

  /** A session that goes on stays on its mailbox. */
  lemma KeepsBox(cfg: Config, s: System, a: Action)
    requires Usable(cfg) && Possible(cfg, s, a) && !a.Deliver? && !a.Remove?
    ensures var l, m := s.clients[a.c].link, Moved(cfg, s, a).link;
            && (HasSession(m) && HasSession(l) ==> m.sess.box == l.sess.box)
            && (HasSession(m) && a.Open? ==> m.sess.box == l.box)
            && (HasSession(m) ==> HasSession(l) || a.Open?)
  {
    hide UserOf, ImapDriver.Rotation, Choice, Taken, Heard, Unheard, Noticed, NoticedUnheard, Acknowledged, Forgotten;
    var sess := if HasSession(s.clients[a.c].link) then s.clients[a.c].link.sess else JustOpened(Box([], []), {});
    SameBox(sess, a);
  }

  lemma LiveOfMoved(cfg: Config, s: System, a: Action)
    requires Usable(cfg) && Possible(cfg, s, a) && !a.Deliver? && !a.Remove? && !a.Store?
    ensures Apply(cfg, s, a).live == s.live
  {
    hide Moved;
  }

  lemma QueuedIsAccounted(l: Link, m: Msg, tally: nat)
    requires HasSession(l) && Consistent(l.sess, tally) && m.serial == tally
    ensures var t := WithSess(l, Queued(l.sess, m));
            && Accounted(l) <= Accounted(t) && Reckoned(t) == Reckoned(l)
            && Surviving(t.sess) == Surviving(l.sess) && t.sess.mine == l.sess.mine
            && (Unaltered(l) ==> Unaltered(t))
  {
    assert m !in l.sess.base;
  }

  /** A message that reaches a session from elsewhere is none of those reported to it. */
  lemma QueuedInHand(cfg: Config, c: nat, l: Link, live: set<Msg>, m: Msg, now: set<Msg>, tally: nat)
    requires HasSession(l) && InHand(cfg, c, l, live) && OwnedBy(c, now) <= OwnedBy(c, live)
    requires Consistent(l.sess, tally) && m.serial == tally
    ensures InHand(cfg, c, WithSess(l, Queued(l.sess, m)), now)
  {
    hide OwnedBy, Accounted, Reckoned, Surviving, Unaltered, Consistent, Queued;
    QueuedIsAccounted(l, m, tally);
  }

  lemma OthersInHand(cfg: Config, s: System, a: Action, c: nat)
    requires Usable(cfg) && Possible(cfg, s, a) && c < |s.clients| && !Concerns(a, c) && OwnInHand(cfg, s, c)
    requires Tracked(s.clients[c], s.tally)
    ensures |Apply(cfg, s, a).clients| == |s.clients| && OwnInHand(cfg, Apply(cfg, s, a), c)
  {
    hide Moved, OwnedBy, UserOf, Apply, Tracked, Unaltered, Surviving, Accounted, Reckoned, Consistent, InStep, Pending;
    var k, t := s.clients[c], Apply(cfg, s, a);
    LinksOfOthers(cfg, s, a, c);
    if HasSession(k.link) {
      CountsOf(k, s.tally);
      OwnedAfter(cfg, s, a, c, k.link.sess.box);
      if t.clients[c] != k {
        var m := if a.Deliver? then Foreign(s.tally) else Own(a.c, s.tally);
        QueuedInHand(cfg, c, k.link, Live(s, k.link.sess.box), m, Live(t, k.link.sess.box), s.tally);
      }
    }
  }

  lemma LinksOfOthers(cfg: Config, s: System, a: Action, c: nat)
    requires Usable(cfg) && Possible(cfg, s, a) && c < |s.clients| && !Concerns(a, c)
    ensures var k, t := s.clients[c], Apply(cfg, s, a);
            && |t.clients| == |s.clients|
            && (t.clients[c] == k
                || (HasSession(k.link) && (a.Deliver? || a.Store?)
                    && var m := if a.Deliver? then Foreign(s.tally) else Own(a.c, s.tally);
                       t.clients[c] == k.(link := WithSess(k.link, Queued(k.link.sess, m)))))
  {
    hide Moved;
  }

  lemma StepKeepsInHand(cfg: Config, s: System, a: Action)
    requires Usable(cfg) && cfg.target > 0 && Possible(cfg, s, a) && Inv(s) && AllInHand(cfg, s)
    ensures AllInHand(cfg, Apply(cfg, s, a))
  {
    hide Moved, Apply, InHand, Tracked, AtHome;
    var t := Apply(cfg, s, a);
    if a.Deliver? || a.Remove? {
      SameClients(cfg, s, a);
    } else {
      assert Tracked(s.clients[a.c], s.tally) && OwnInHand(cfg, s, a.c);
      MovedInPlace(cfg, s, a);
      MovedInHand(cfg, s, a);
      TalkStaysHome(cfg, s, a);
    }
    forall c | 0 <= c < |t.clients| ensures OwnInHand(cfg, t, c) {
      if !Concerns(a, c) {
        assert |t.clients| == |s.clients| && OwnInHand(cfg, s, c) && Tracked(s.clients[c], s.tally);
        OthersInHand(cfg, s, a, c);
      }
    }
  }

  /** One step keeps every client's own messages accounted for, few, and with its user. */
  lemma StepKeepsBound(cfg: Config, s: System, a: Action)
    requires Usable(cfg) && cfg.target > 0 && Possible(cfg, s, a) && Inv(s) && Bounded(cfg, s)
    ensures Bounded(cfg, Apply(cfg, s, a)) && |Apply(cfg, s, a).clients| == |s.clients|
  {
    hide Apply, AllInHand, FewOwned, OwnersKnown, InHand, Tracked, Consistent, OwnedBy;
    StepKeepsInHand(cfg, s, a);
    if a.Store? { StoresOneMore(cfg, s, a); }
    StepKeepsFew(cfg, s, a, 4 * cfg.target + 1);
    StepKeepsOwners(cfg, s, a);
    StepKeepsInv(cfg, s, a);
  }

  lemma StoresOneMore(cfg: Config, s: System, a: Action)
    requires Usable(cfg) && Possible(cfg, s, a) && Inv(s) && AllInHand(cfg, s) && a.Store?
    ensures var b := s.clients[a.c].link.sess.box;
            |OwnedBy(a.c, Live(s, b)) + {Own(a.c, s.tally)}| <= 4 * cfg.target + 1
  {
    hide InHand, Tracked, Pending, OwnedBy, InStep;
    var k := s.clients[a.c];
    assert OwnInHand(cfg, s, a.c) && Tracked(k, s.tally);
    CountsOf(k, s.tally);
    OneMoreOwned(cfg, a.c, k.link, Live(s, k.link.sess.box), Own(a.c, s.tally));
  }

  // ---------------------------------------------- a server that announces sparingly

  /** Inside an APPEND's reply nothing is announced but the client's own appends. */
  predicate Modest(cfg: Config, s: System, a: Action)
    requires Usable(cfg) && Possible(cfg, s, a)
  {
    a.Announce? ==>
      var l := s.clients[a.c].link; Listening(l) || a.news <= l.sess.acked + UnderWay(l)
  }

  /** The client has counted everything it was told of, and everything it has heard go. */
  predicate Counted(l: Link) {
    HasSession(l) ==> l.sess.told + l.sess.acked <= Reckoned(l) && l.sess.spent <= Reckoned(l)
  }

  /** It appends only while what it was told of and its own acknowledged appends are at
      most twice the target. */
  predicate Lean(cfg: Config, l: Link) {
    Counted(l) && (l.Busy? && l.cmd == Append && l.stored.None? ==> |l.sess.told| + |l.sess.acked| <= 2 * cfg.target)
  }

  ghost predicate AllLean(cfg: Config, s: System) {
    (forall c :: 0 <= c < |s.clients| ==> Lean(cfg, s.clients[c].link)) && FewOwned(s.live, 2 * cfg.target + 1)
  }

  /** What the client holds covers what the server counts. */
  lemma HeldIsEnough(v: V, l: Link, tally: nat)
    requires HasSession(l) && Consistent(l.sess, tally) && InStep(v, l.sess) && Counted(l) && StoredOf(l).None?
    ensures |l.sess.told| + |l.sess.acked| <= Held(v)
  {
    var sess := l.sess;
    var all, here := sess.base + sess.mine, sess.told + sess.acked;
    UnionSize(sess.told, sess.acked);
    UnionSize(sess.base, sess.mine);
    UnionSize(here, sess.spent);
    SubsetSize(here + sess.spent, all);
  }

  lemma SentIsLean(cfg: Config, c: nat, k: Client, n: nat, m: nat, tally: nat)
    requires Usable(cfg) && cfg.target > 0 && (k.link.Idle? || k.link.Authed?)
    requires Lean(cfg, k.link) && Tracked(k, tally)
    ensures Lean(cfg, Sent(cfg, k, c, n, m))
  {
    hide UserOf, ImapDriver.Rotation, Choice, Consistent, InStep, Tracked;
    if k.link.Idle? {
      CountsOf(k, tally);
      if k.link.heard == [] {
        SteadyState(cfg, k.view, n);
        HeldIsEnough(k.view, k.link, tally);
      }
    }
  }

  lemma AnnouncedIsLean(cfg: Config, k: Client, news: set<Msg>)
    requires HasSession(k.link) && k.link.sess.acked <= news <= k.link.sess.queue && Lean(cfg, k.link)
    requires k.link.Busy? ==> StoredWell(k.link)
    requires Listening(k.link) || news <= k.link.sess.acked + UnderWay(k.link)
    ensures Lean(cfg, Announced(k, news).link)
  {
    hide Owed;
    var sess := k.link.sess;
    if k.link.Busy? && k.link.cmd == Append && k.link.stored.None? {
      assert news == sess.acked;
      UnionSize(sess.told, news);
    }
  }

  lemma LostIsLean(cfg: Config, k: Client, lost: Msg)
    requires k.link.Busy? && lost in k.link.sess.told && Lean(cfg, k.link)
    ensures Lean(cfg, ImapSystem.Lost(k, lost).link)
  {
    SubsetSize(k.link.sess.told - {lost}, k.link.sess.told);
  }

  lemma UnmentionedIsLean(cfg: Config, k: Client, lost: Msg)
    requires HasSession(k.link) && Lean(cfg, k.link)
    ensures Lean(cfg, Unmentioned(k, lost).link)
  {
    SubsetSize(k.link.sess.acked - {lost}, k.link.sess.acked);
  }

  lemma FinishedIsLean(cfg: Config, k: Client)
    requires k.link.Busy? && (k.link.cmd == Append ==> k.link.stored.Some?) && StoredWell(k.link) && Lean(cfg, k.link)
    ensures Lean(cfg, Finished(k).link)
  {
    hide Taken, Owed;
  }

  lemma StoringIsLean(cfg: Config, k: Client, m: Msg)
    requires k.link.Busy? && k.link.cmd == Append && k.link.stored.None? && Lean(cfg, k.link)
    ensures Lean(cfg, Storing(k, m).link)
  {
  }

  lemma SelectingIsLean(cfg: Config, k: Client, now: set<Msg>)
    requires k.link.Opening?
    ensures Lean(cfg, Selecting(k, now).link)
  {
  }

  lemma ChatterIsLean(cfg: Config, k: Client)
    requires HasSession(k.link) && Lean(cfg, k.link)
    ensures Lean(cfg, With(k.link, k.link.sess, Other))
  {
  }

  lemma MovedIsLean(cfg: Config, s: System, a: Action)
    requires Usable(cfg) && cfg.target > 0 && Possible(cfg, s, a) && Modest(cfg, s, a) && !a.Deliver? && !a.Remove?
    requires Tracked(s.clients[a.c], s.tally) && Lean(cfg, s.clients[a.c].link)
    ensures Lean(cfg, Moved(cfg, s, a).link)
  {
    hide Lean, InStep, Pending, Consistent, Choice, Finished, Tracked, StoredWell, With,
         Announced, ImapSystem.Lost, Unmentioned, Storing, Selecting, Sent;
    var k := s.clients[a.c];
    if HasSession(k.link) { CountsOf(k, s.tally); }
    match a {
      case Connect(_) => NoSessionIsLean(cfg, Authed);
      case Send(_, n, m) => SentIsLean(cfg, a.c, k, n, m, s.tally);
      case Open(_) => SelectingIsLean(cfg, k, Live(s, k.link.box));
      case Store(_) => StoringIsLean(cfg, k, Own(a.c, s.tally));
      case Announce(_, news) => AnnouncedIsLean(cfg, k, news);
      case Notice(_, lost) => LostIsLean(cfg, k, lost);
      case Forget(_, lost) => UnmentionedIsLean(cfg, k, lost);
      case Flag(_, _) =>
      case Chatter(_) => ChatterIsLean(cfg, k);
      case Finish(_) => FinishedIsLean(cfg, k);
      case Drop(_) => NoSessionIsLean(cfg, Down);
    }
  }

  lemma NoSessionIsLean(cfg: Config, l: Link)
    requires !HasSession(l)
    ensures Lean(cfg, l)
  {
  }

  lemma OthersStayLean(cfg: Config, s: System, a: Action, c: nat)
    requires Usable(cfg) && Possible(cfg, s, a) && c < |s.clients| && !Concerns(a, c) && Lean(cfg, s.clients[c].link)
    ensures |Apply(cfg, s, a).clients| == |s.clients| && Lean(cfg, Apply(cfg, s, a).clients[c].link)
  {
    hide Moved, Apply;
    LinksOfOthers(cfg, s, a, c);
  }

  /** Storing makes one more than the client was told of and has acknowledged. */
  lemma StoresFewer(cfg: Config, s: System, a: Action)
    requires Usable(cfg) && Possible(cfg, s, a) && AllLean(cfg, s) && AllInHand(cfg, s) && a.Store?
    ensures var b := s.clients[a.c].link.sess.box;
            |OwnedBy(a.c, Live(s, b)) + {Own(a.c, s.tally)}| <= 2 * cfg.target + 1
  {
    hide OwnedBy, Unaltered, Surviving, Reckoned;
    var l := s.clients[a.c].link;
    assert Lean(cfg, l) && OwnInHand(cfg, s, a.c);
    var mine := OwnedBy(a.c, Live(s, l.sess.box));
    SubsetSize(mine, l.sess.told + l.sess.acked);
    UnionSize(l.sess.told, l.sess.acked);
    UnionSize(mine, {Own(a.c, s.tally)});
  }

  lemma StepKeepsLean(cfg: Config, s: System, a: Action)
    requires Usable(cfg) && cfg.target > 0 && Possible(cfg, s, a) && Modest(cfg, s, a)
    requires Inv(s) && AllInHand(cfg, s) && AllLean(cfg, s)
    ensures AllLean(cfg, Apply(cfg, s, a))
  {
    hide Moved, Apply, Tracked, Lean, Modest, OwnedBy, FewOwned, AllInHand;
    var t := Apply(cfg, s, a);
    if a.Store? { StoresFewer(cfg, s, a); }
    StepKeepsFew(cfg, s, a, 2 * cfg.target + 1);
    if a.Deliver? || a.Remove? {
      SameClients(cfg, s, a);
    } else {
      assert Tracked(s.clients[a.c], s.tally) && Lean(cfg, s.clients[a.c].link);
      MovedIsLean(cfg, s, a);
      MovedInPlace(cfg, s, a);
    }
    forall c | 0 <= c < |t.clients| ensures Lean(cfg, t.clients[c].link) {
      if !Concerns(a, c) { OthersStayLean(cfg, s, a, c); }
    }
  }

  ghost predicate ModestRun(cfg: Config, states: seq<System>, actions: seq<Action>)
    requires Usable(cfg)
  {
    IsRun(cfg, states, actions) && forall i :: 0 <= i < |actions| ==> Modest(cfg, states[i], actions[i])
  }

  lemma ModestBefore(cfg: Config, states: seq<System>, actions: seq<Action>)
    requires Usable(cfg) && ModestRun(cfg, states, actions) && actions != []
    ensures var n := |actions| - 1;
            && ModestRun(cfg, states[..n + 1], actions[..n]) && states[..n + 1][n] == states[n]
            && Possible(cfg, states[n], actions[n]) && states[n + 1] == Apply(cfg, states[n], actions[n])
            && Modest(cfg, states[n], actions[n])
  {
    hide Possible, Apply, Initial, Modest;
    RunBefore(cfg, states, actions);
  }

  /** A candid server is modest. */
  lemma CandidIsModest(cfg: Config, states: seq<System>, actions: seq<Action>)
    requires Usable(cfg) && CandidRun(cfg, states, actions)
    ensures ModestRun(cfg, states, actions)
  {
    hide Possible, Apply, Initial;
    forall i | 0 <= i < |actions| ensures Modest(cfg, states[i], actions[i]) {
      assert Candid(cfg, states[i], actions[i]);
      CandidStepIsModest(cfg, states[i], actions[i]);
    }
  }

  lemma CandidStepIsModest(cfg: Config, s: System, a: Action)
    requires Usable(cfg) && Possible(cfg, s, a) && Candid(cfg, s, a)
    ensures Modest(cfg, s, a)
  {
  }

  // ----------------------------------------------------- the bound on a mailbox

  function Deliveries(actions: seq<Action>, b: Box): nat {
    if actions == [] then 0
    else Deliveries(actions[..|actions| - 1], b) + (if actions[|actions| - 1] == Deliver(b) then 1 else 0)
  }

  /** How many of the first `n` clients share the mailboxes of `user`. */
  function Sharers(cfg: Config, n: nat, user: bytes): nat
    requires Usable(cfg)
  {
    if n == 0 then 0 else Sharers(cfg, n - 1, user) + (if UserOf(cfg, n - 1) == user then 1 else 0)
  }

  function OwnedBelow(ms: set<Msg>, n: nat): set<Msg> {
    set m | m in ms && (m.Foreign? || m.client < n)
  }

  lemma {:induction false} SumOfParts(cfg: Config, b: Box, ms: set<Msg>, n: nat, each: nat)
    requires Usable(cfg) && forall c: nat :: c < n ==> |OwnedBy(c, ms)| <= each
    requires forall c: nat :: c < n && UserOf(cfg, c) != b.user ==> OwnedBy(c, ms) == {}
    ensures |OwnedBelow(ms, n)| <= |ForeignIn(ms)| + Sharers(cfg, n, b.user) * each
  {
    hide UserOf;
    if n == 0 {
      assert OwnedBelow(ms, 0) == ForeignIn(ms);
    } else {
      SumOfParts(cfg, b, ms, n - 1, each);
      assert OwnedBelow(ms, n) == OwnedBelow(ms, n - 1) + OwnedBy(n - 1, ms);
      UnionSize(OwnedBelow(ms, n - 1), OwnedBy(n - 1, ms));
      OneMoreTimes(Sharers(cfg, n - 1, b.user), each);
    }
  }

  lemma OneMoreTimes(k: nat, each: nat)
    ensures (k + 1) * each == k * each + each
  {
  }

  lemma StepKeepsForeign(cfg: Config, s: System, a: Action, b: Box)
    requires Usable(cfg) && Possible(cfg, s, a)
    ensures |ForeignIn(Live(Apply(cfg, s, a), b))| <= |ForeignIn(Live(s, b))| + (if a == Deliver(b) then 1 else 0)
  {
    hide Apply, Possible, Live;
    var before, now := Live(s, b), Live(Apply(cfg, s, a), b);
    LiveAfter(cfg, s, a, b);
    if a == Deliver(b) {
      assert ForeignIn(now) == ForeignIn(before) + {Foreign(s.tally)};
    } else {
      SubsetSize(ForeignIn(now), ForeignIn(before));
    }
  }

  lemma InitiallyBounded(cfg: Config, s: System)
    requires Usable(cfg) && Initial(s)
    ensures Bounded(cfg, s)
  {
    hide UserOf;
    forall c: nat, b ensures OwnedBy(c, At(s.live, b)) == {} {}
  }

  /** The growth invariant of every run. */
  lemma {:induction false} RunKeepsBound(cfg: Config, states: seq<System>, actions: seq<Action>, b: Box)
    requires Usable(cfg) && cfg.target > 0 && IsRun(cfg, states, actions)
    ensures var s := states[|actions|];
            && Bounded(cfg, s) && |s.clients| == |states[0].clients|
            && |ForeignIn(Live(s, b))| <= |Live(states[0], b)| + Deliveries(actions, b)
  {
    hide Possible, Apply, Inv, Bounded, Live, Initial;
    if actions == [] {
      InitiallyBounded(cfg, states[0]);
      SubsetSize(ForeignIn(Live(states[0], b)), Live(states[0], b));
    } else {
      var n := |actions| - 1;
      RunBefore(cfg, states, actions);
      RunKeepsBound(cfg, states[..n + 1], actions[..n], b);
      RunKeepsInv(cfg, states[..n + 1], actions[..n]);
      StepKeepsBound(cfg, states[n], actions[n]);
      StepKeepsForeign(cfg, states[n], actions[n], b);
    }
  }

  lemma InitiallyLean(cfg: Config, s: System)
    requires Initial(s)
    ensures AllLean(cfg, s)
  {
    forall c: nat, b ensures OwnedBy(c, At(s.live, b)) == {} {}
  }

  /** And of every run with a modest server. */
  lemma {:induction false} RunKeepsLean(cfg: Config, states: seq<System>, actions: seq<Action>)
    requires Usable(cfg) && cfg.target > 0 && ModestRun(cfg, states, actions)
    ensures AllLean(cfg, states[|actions|])
  {
    hide Possible, Apply, Inv, Modest, Initial, AllLean, AllInHand, FewOwned, OwnersKnown;
    if actions == [] {
      InitiallyLean(cfg, states[0]);
    } else {
      var n := |actions| - 1;
      ModestBefore(cfg, states, actions);
      RunKeepsLean(cfg, states[..n + 1], actions[..n]);
      RunKeepsInv(cfg, states[..n + 1], actions[..n]);
      RunKeepsBound(cfg, states[..n + 1], actions[..n], Box([], []));
      StepKeepsLean(cfg, states[n], actions[n]);
    }
  }

  /** A bound on every client's own messages bounds the whole mailbox. */
  lemma BoundOfParts(cfg: Config, s: System, b: Box, each: nat)
    requires Usable(cfg) && FewOwned(s.live, each) && OwnersKnown(cfg, s.live, |s.clients|)
    ensures |Live(s, b)| <= |ForeignIn(Live(s, b))| + Sharers(cfg, |s.clients|, b.user) * each
  {
    hide UserOf;
    var ms := At(s.live, b);
    assert FromSharers(cfg, b, ms, |s.clients|);
    assert forall c: nat :: |OwnedBy(c, ms)| <= each;
    SumOfParts(cfg, b, ms, |s.clients|, each);
    assert OwnedBelow(ms, |s.clients|) == ms;
  }

  lemma Beginning(cfg: Config, states: seq<System>, actions: seq<Action>, i: nat)
    requires Usable(cfg) && IsRun(cfg, states, actions) && i <= |actions|
    ensures IsRun(cfg, states[..i + 1], actions[..i])
    ensures states[..i + 1][i] == states[i] && states[..i + 1][0] == states[0]
    ensures ModestRun(cfg, states, actions) ==> ModestRun(cfg, states[..i + 1], actions[..i])
  {
    hide Possible, Apply, Modest, Initial;
  }

  /** Shared growth bound: with the steady state on, a mailbox never holds more than it
      began with, plus what others delivered to it, plus so many for every client that
      shares it, in any run, through failed appends, reconnects and reselects: four times
      the target and one against any truthful server, twice the target and one when nothing
      is announced inside an APPEND's reply but the client's own appends. */
  lemma MailboxStaysBounded(cfg: Config, states: seq<System>, actions: seq<Action>, b: Box, i: nat)
    requires Usable(cfg) && cfg.target > 0 && IsRun(cfg, states, actions) && i <= |actions|
    ensures var others := |Live(states[0], b)| + Deliveries(actions[..i], b);
            var sharers := Sharers(cfg, |states[0].clients|, b.user);
            && |Live(states[i], b)| <= others + sharers * (4 * cfg.target + 1)
            && (ModestRun(cfg, states, actions) ==> |Live(states[i], b)| <= others + sharers * (2 * cfg.target + 1))
  {
    hide Possible, Apply, ModestRun, AllInHand, FewOwned, OwnersKnown, Live, Initial;
    Beginning(cfg, states, actions, i);
    RunKeepsBound(cfg, states[..i + 1], actions[..i], b);
    BoundOfParts(cfg, states[i], b, 4 * cfg.target + 1);
    if ModestRun(cfg, states, actions) {
      RunKeepsLean(cfg, states[..i + 1], actions[..i]);
      BoundOfParts(cfg, states[i], b, 2 * cfg.target + 1);
    }
  }
}
