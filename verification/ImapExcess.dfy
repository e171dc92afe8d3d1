/** How far a client of a truthful server can exceed twice the target: a run in which, with
    a target of one, it comes to own five messages. Inside the reply to an APPEND it is told
    of mail that it never counts, and then hears that mail go. */
module ImapExcess {
  import opened Octets
  import opened ImapCommands
  import opened ImapView
  import opened ImapDriver
  import opened ImapSystem
  import opened ImapAlarm
  import opened ImapGrowth

  function Setting(): Config {
    Config(["u"], ["a"], 1, [Weighted(Append, 1), Weighted(Noop, 1)])
  }

  function Home(): Box { Box("u", "a") }

  function Seen(n: nat, appended: nat): V { V("a", n, n, appended, None) }

  lemma Chooses(n: nat, appended: nat)
    ensures Usable(Setting()) && BoxFor(Setting(), 0, 0) == Home()
    ensures n + appended <= 2 ==> Choice(Setting(), Seen(n, appended), 0) == Append
    ensures 1 <= n + appended <= 2 ==> Choice(Setting(), Seen(n, appended), 1) == Noop
    ensures n + appended > 2 ==> Choice(Setting(), Seen(n, appended), 0) == Expunge
  {
  }

  /** Where a run of the only client has come to. */
  ghost predicate Stage(states: seq<System>, actions: seq<Action>, v: V, l: Link, live: set<Msg>, tally: nat) {
    && Usable(Setting()) && IsRun(Setting(), states, actions) && |states| == |actions| + 1
    && var s := states[|actions|]; Now(s, v, l) && Live(s, Home()) == live && s.tally == tally
  }

  lemma Begins() returns (states: seq<System>, actions: seq<Action>)
    ensures Stage(states, actions, Seen(0, 0), Idle(JustOpened(Home(), {}), []), {}, 0)
  {
    hide Possible, Apply, Candid, Timely, CandidRun, TimelyRun, Initial, Setting, JustOpened, BoxFor;
    Chooses(0, 0);
    states, actions := GetsReady(Setting());
  }

  lemma Sends(states: seq<System>, actions: seq<Action>, v: V, sess: Sess, live: set<Msg>, tally: nat,
              n: nat, cmd: Command)
      returns (states': seq<System>, actions': seq<Action>)
    requires Stage(states, actions, v, Idle(sess, []), live, tally)
    requires Choice(Setting(), v, n) == cmd != Select
    ensures Stage(states', actions', v, Busy(sess, cmd, [], None), live, tally)
  {
    hide Possible, Apply, Candid, Timely, CandidRun, TimelyRun, Initial, Setting, Choice, Usable;
    SendStep(Setting(), states[|actions|], v, Idle(sess, []), n, 0);
    states', actions' := Go(Setting(), states, actions, ImapSystem.Send(0, n, 0));
  }

  lemma Stores(states: seq<System>, actions: seq<Action>, v: V, sess: Sess, out: seq<Event>, live: set<Msg>, tally: nat)
      returns (states': seq<System>, actions': seq<Action>)
    requires Stage(states, actions, v, Busy(sess, Append, out, None), live, tally) && sess.box == Home()
    ensures var m := Own(0, tally);
            Stage(states', actions', v, Busy(Queued(sess, m), Append, out, Some(m)), live + {m}, tally + 1)
  {
    hide Possible, Apply, Candid, Timely, CandidRun, TimelyRun, Initial, Setting, Usable, Queued;
    StoreStep(Setting(), states[|actions|], v, Busy(sess, Append, out, None));
    states', actions' := Go(Setting(), states, actions, ImapSystem.Store(0));
  }

  lemma Tells(states: seq<System>, actions: seq<Action>, v: V, l: Link, live: set<Msg>, tally: nat, news: set<Msg>)
      returns (states': seq<System>, actions': seq<Action>)
    requires Stage(states, actions, v, l, live, tally) && HasSession(l) && l.sess.acked <= news <= l.sess.queue
    ensures Stage(states', actions', v, Announced(Client(v, l), news).link, live, tally)
  {
    hide Possible, Apply, Candid, Timely, CandidRun, TimelyRun, Initial, Setting, Usable, Announced;
    AnnounceStep(Setting(), states[|actions|], v, l, news);
    states', actions' := Go(Setting(), states, actions, Announce(0, news));
  }

  lemma TellsGone(states: seq<System>, actions: seq<Action>, v: V, l: Link, live: set<Msg>, tally: nat, lost: Msg)
      returns (states': seq<System>, actions': seq<Action>)
    requires Stage(states, actions, v, l, live, tally) && l.Busy? && l.sess.box == Home()
    requires lost in l.sess.told && lost !in live
    ensures Stage(states', actions', v, ImapSystem.Lost(Client(v, l), lost).link, live, tally)
  {
    hide Possible, Apply, Candid, Timely, CandidRun, TimelyRun, Initial, Setting, Usable, ImapSystem.Lost;
    NoticeStep(Setting(), states[|actions|], v, l, lost);
    states', actions' := Go(Setting(), states, actions, Notice(0, lost));
  }

  lemma Receives(states: seq<System>, actions: seq<Action>, v: V, sess: Sess, live: set<Msg>, tally: nat)
      returns (states': seq<System>, actions': seq<Action>)
    requires Stage(states, actions, v, Idle(sess, []), live, tally) && sess.box == Home()
    ensures var m := Foreign(tally); Stage(states', actions', v, Idle(Queued(sess, m), []), live + {m}, tally + 1)
  {
    hide Possible, Apply, Candid, Timely, CandidRun, TimelyRun, Initial, Setting, Usable, Queued;
    DeliverStep(Setting(), states[|actions|], v, Idle(sess, []), Home());
    states', actions' := Go(Setting(), states, actions, Deliver(Home()));
  }

  lemma Loses(states: seq<System>, actions: seq<Action>, v: V, l: Link, live: set<Msg>, tally: nat, gone: set<Msg>)
      returns (states': seq<System>, actions': seq<Action>)
    requires Stage(states, actions, v, l, live, tally) && gone <= live
    ensures Stage(states', actions', v, l, live - gone, tally)
  {
    hide Possible, Apply, Candid, Timely, CandidRun, TimelyRun, Initial, Setting, Usable;
    RemoveStep(Setting(), states[|actions|], Home(), gone);
    states', actions' := Go(Setting(), states, actions, Remove(Home(), gone));
  }

  lemma Ends(states: seq<System>, actions: seq<Action>, v: V, l: Link, live: set<Msg>, tally: nat, w: V, m: Link)
      returns (states': seq<System>, actions': seq<Action>)
    requires Stage(states, actions, v, l, live, tally) && l.Busy? && (l.cmd == Append ==> l.stored.Some?)
    requires Finished(Client(v, l)) == Client(w, m)
    ensures Stage(states', actions', w, m, live, tally)
  {
    hide Possible, Apply, Candid, Timely, CandidRun, TimelyRun, Initial, Setting, Usable, Finished, Taken;
    FinishStep(Setting(), states[|actions|], v, l);
    states', actions' := Go(Setting(), states, actions, Finish(0));
  }

  // --------------------------------------------------- what its commands come to

  /** An APPEND that nothing is announced in. */
  lemma Adds(states: seq<System>, actions: seq<Action>, n: nat, appended: nat, sess: Sess, live: set<Msg>, tally: nat)
      returns (states': seq<System>, actions': seq<Action>)
    requires Stage(states, actions, Seen(n, appended), Idle(sess, []), live, tally)
    requires n + appended <= 2 && sess.box == Home()
    ensures var m := Own(0, tally);
            Stage(states', actions', Seen(n, appended + 1), Idle(Acknowledged(Queued(sess, m), m), []),
                  live + {m}, tally + 1)
  {
    hide Stage, Setting, Choice, Usable, Queued, Acknowledged;
    var v, m := Seen(n, appended), Own(0, tally);
    Chooses(n, appended);
    states', actions' := Sends(states, actions, v, sess, live, tally, 0, Append);
    states', actions' := Stores(states', actions', v, sess, [], live, tally);
    states', actions' := Ends(states', actions', v, Busy(Queued(sess, m), Append, [], Some(m)), live + {m}, tally + 1,
                              Seen(n, appended + 1), Idle(Acknowledged(Queued(sess, m), m), []));
  }

  const A: Msg := Own(0, 0)
  const B: Msg := Own(0, 1)
  const F: Msg := Foreign(2)
  const G: Msg := Foreign(3)
  const C: Msg := Own(0, 4)
  const D: Msg := Own(0, 5)
  const E: Msg := Own(0, 6)

  function Twice(): Sess { Sess(Home(), {}, {A, B}, {A, B}, {}, {A, B}, {}, {}) }
  function Reported(): Sess { Sess(Home(), {A, B}, {}, {}, {A, B}, {}, {}, {}) }
  function Visited(): Sess { Reported().(queue := {F, G}) }
  function Misled(): Sess { Sess(Home(), {A, B, F, G}, {C}, {C}, {A, B}, {C}, {}, {}) }
  function Deceived(): Sess { Sess(Home(), {A, B}, {C}, {C}, {A, B}, {C}, {F, G}, {}) }

  lemma TwiceIs()
    ensures Acknowledged(Queued(Acknowledged(Queued(JustOpened(Home(), {}), A), A), B), B) == Twice()
  {
    var none: set<Msg> := {};
    assert none + {A} == {A} && {A} + {B} == {A, B} && {A} * {A} == {A} && {B} * {A, B} == {B};
  }

  /** It appends two messages. */
  lemma First() returns (states: seq<System>, actions: seq<Action>)
    ensures Stage(states, actions, Seen(0, 2), Idle(Twice(), []), {A, B}, 2)
  {
    hide Stage, JustOpened, Queued, Acknowledged, Twice;
    var sess := JustOpened(Home(), {});
    OpensHome();
    states, actions := Begins();
    states, actions := Adds(states, actions, 0, 0, sess, {}, 0);
    QueuedAtHome(sess, A);
    states, actions := Adds(states, actions, 0, 1, Acknowledged(Queued(sess, A), A), {} + {A}, 1);
    TwiceIs();
    assert ({} + {A}) + {B} == {A, B};
  }

  lemma OpensHome()
    ensures JustOpened(Home(), {}).box == Home()
  {
  }

  lemma QueuedAtHome(sess: Sess, m: Msg)
    ensures Queued(sess, m).box == sess.box && Acknowledged(Queued(sess, m), m).box == sess.box
  {
  }

  lemma TwoAre()
    ensures Heard(Twice(), {A, B}) == Reported() && |Twice().told + {A, B}| == 2
    ensures Twice().acked <= {A, B} <= Twice().queue
  {
    var none: set<Msg> := {};
    assert none + {A, B} == {A, B} && {A, B} - {A, B} == none && |{A, B}| == 2;
  }

  lemma ReportIs()
    ensures Announced(Client(Seen(0, 2), Busy(Twice(), Noop, [], None)), {A, B}).link
         == Busy(Reported(), Noop, [Report(2)], None)
  {
    hide Heard, Twice, Reported;
    TwoAre();
    assert [] + [Report(2)] == [Report(2)];
  }

  lemma CountsTwo()
    ensures Finished(Client(Seen(0, 2), Busy(Reported(), Noop, [Report(2)], None)))
         == Client(Seen(2, 0), Idle(Reported(), []))
  {
    hide Fold, Reported;
    FoldNothing(Seen(0, 2));
    TakesIn(Seen(0, 2), [], Report(2));
    assert [] + [Report(2)] == [Report(2)];
  }

  /** It is told of both: its count is right. */
  lemma Second() returns (states: seq<System>, actions: seq<Action>)
    ensures Stage(states, actions, Seen(2, 0), Idle(Reported(), []), {A, B}, 2)
  {
    hide Stage, Reported, Finished, Announced, Choice, Setting;
    states, actions := First();
    Chooses(0, 2);
    TwoAre();
    ReportIs();
    CountsTwo();
    states, actions := Sends(states, actions, Seen(0, 2), Twice(), {A, B}, 2, 1, Noop);
    states, actions := Tells(states, actions, Seen(0, 2), Busy(Twice(), Noop, [], None), {A, B}, 2, {A, B});
    states, actions := Ends(states, actions, Seen(0, 2), Busy(Reported(), Noop, [Report(2)], None), {A, B}, 2,
                            Seen(2, 0), Idle(Reported(), []));
  }

  lemma VisitedIs()
    ensures Queued(Queued(Reported(), F), G) == Visited()
    ensures Reported().box == Home() && Queued(Reported(), F).box == Home()
    ensures ({A, B} + {F}) + {G} == {A, B, F, G}
  {
    var none: set<Msg> := {};
    assert none + {F} == {F} && {F} + {G} == {F, G};
  }

  lemma MisledIs()
    ensures var told := Announced(Client(Seen(2, 0), Busy(Visited(), Append, [], None)), {F, G}).link;
            && told.Busy? && told.cmd == Append && told.stored.None? && told.sess.box == Home()
            && Acknowledged(Queued(told.sess, C), C) == Misled()
  {
    var none: set<Msg> := {};
    assert {A, B} + {F, G} == {A, B, F, G} && {F, G} - {F, G} == none && none + {C} == {C} && {C} * {C} == {C};
  }

  /** Two messages arrive from elsewhere, and are announced inside the reply to its third
      append, unheard. */
  lemma Third() returns (states: seq<System>, actions: seq<Action>)
    ensures Stage(states, actions, Seen(2, 1), Idle(Misled(), []), {A, B, F, G, C}, 5)
  {
    hide Stage, Reported, Visited, Misled, Announced, Choice, Setting, Queued, Acknowledged;
    states, actions := Second();
    Chooses(2, 0);
    VisitedIs();
    states, actions := Receives(states, actions, Seen(2, 0), Reported(), {A, B}, 2);
    states, actions := Receives(states, actions, Seen(2, 0), Queued(Reported(), F), {A, B} + {F}, 3);
    states, actions := Sends(states, actions, Seen(2, 0), Visited(), {A, B, F, G}, 4, 0, Append);
    MisledIs();
    states, actions := IsToldOfVisitors(states, actions);
    var told := Announced(Client(Seen(2, 0), Busy(Visited(), Append, [], None)), {F, G}).link;
    states, actions := Stores(states, actions, Seen(2, 0), told.sess, told.out, {A, B, F, G}, 4);
    states, actions := Ends(states, actions, Seen(2, 0), Busy(Queued(told.sess, C), Append, told.out, Some(C)),
                            {A, B, F, G} + {C}, 5, Seen(2, 1), Idle(Misled(), []));
    assert {A, B, F, G} + {C} == {A, B, F, G, C};
  }

  lemma IsToldOfVisitors(states: seq<System>, actions: seq<Action>)
      returns (states': seq<System>, actions': seq<Action>)
    requires Stage(states, actions, Seen(2, 0), Busy(Visited(), Append, [], None), {A, B, F, G}, 4)
    ensures Stage(states', actions', Seen(2, 0),
                  Announced(Client(Seen(2, 0), Busy(Visited(), Append, [], None)), {F, G}).link, {A, B, F, G}, 4)
  {
    hide Stage, Announced;
    states', actions' := Tells(states, actions, Seen(2, 0), Busy(Visited(), Append, [], None), {A, B, F, G}, 4, {F, G});
  }

  function Once(): Link { Busy(Misled().(told := {A, B, G}, spent := {F}), Expunge, [Expunged], None) }
  function Both(): Link { Busy(Deceived(), Expunge, [Expunged] + [Expunged], None) }

  lemma DeceivedIs()
    ensures ImapSystem.Lost(Client(Seen(2, 1), Busy(Misled(), Expunge, [], None)), F).link == Once()
    ensures ImapSystem.Lost(Client(Seen(2, 1), Once()), G).link == Both()
    ensures {A, B, F, G, C} - {F, G} == {A, B, C}
  {
    var none: set<Msg> := {};
    assert {A, B, F, G} - {F} == {A, B, G} && {A, B, G} - {G} == {A, B} && none + {F} == {F} && {F} + {G} == {F, G};
    assert [] + [Expunged] == [Expunged];
  }

  lemma CountsDown()
    ensures Finished(Client(Seen(2, 1), Both())) == Client(Seen(0, 1), Idle(Deceived(), []))
  {
    hide Deceived, Fold;
    FoldNothing(Seen(2, 1));
    TakesIn(Seen(2, 1), [], Expunged);
    TakesIn(Seen(2, 1), [Expunged], Expunged);
    assert [] + [Expunged] == [Expunged];
  }

  /** They are expunged again, which it hears: of three messages it now counts one. */
  lemma Fourth() returns (states: seq<System>, actions: seq<Action>)
    ensures Stage(states, actions, Seen(0, 1), Idle(Deceived(), []), {A, B, C}, 5)
  {
    hide Stage, Finished, ImapSystem.Lost, Choice, Setting;
    states, actions := Third();
    Chooses(2, 1);
    DeceivedIs();
    states, actions := Sends(states, actions, Seen(2, 1), Misled(), {A, B, F, G, C}, 5, 0, Expunge);
    states, actions := Loses(states, actions, Seen(2, 1), Busy(Misled(), Expunge, [], None), {A, B, F, G, C}, 5,
                             {F, G});
    states, actions := TellsGone(states, actions, Seen(2, 1), Busy(Misled(), Expunge, [], None), {A, B, C}, 5, F);
    states, actions := TellsGone(states, actions, Seen(2, 1), Once(), {A, B, C}, 5, G);
    CountsDown();
    states, actions := Ends(states, actions, Seen(2, 1), Both(), {A, B, C}, 5, Seen(0, 1), Idle(Deceived(), []));
  }

  /** The bound of four times the target and one is reached: it appends twice more. */
  lemma FiveOfItsOwn() returns (states: seq<System>, actions: seq<Action>)
    ensures Usable(Setting()) && Setting().target == 1 && IsRun(Setting(), states, actions)
    ensures |OwnedBy(0, Live(states[|actions|], Home()))| == 4 * Setting().target + 1
  {
    hide Stage, Deceived, Queued, Acknowledged;
    states, actions := Fourth();
    DeceivedAtHome();
    states, actions := Adds(states, actions, 0, 1, Deceived(), {A, B, C}, 5);
    QueuedAtHome(Deceived(), D);
    states, actions := Adds(states, actions, 0, 2, Acknowledged(Queued(Deceived(), D), D), {A, B, C} + {D}, 6);
    Concludes(states, actions, Acknowledged(Queued(Acknowledged(Queued(Deceived(), D), D), E), E));
  }

  lemma DeceivedAtHome()
    ensures Deceived().box == Home()
  {
  }

  lemma Concludes(states: seq<System>, actions: seq<Action>, sess: Sess)
    requires Stage(states, actions, Seen(0, 3), Idle(sess, []), ({A, B, C} + {D}) + {E}, 7)
    ensures Usable(Setting()) && IsRun(Setting(), states, actions)
    ensures |OwnedBy(0, Live(states[|actions|], Home()))| == 5
  {
    hide IsRun, Usable, Setting, Now;
    var five := ({A, B, C} + {D}) + {E};
    assert OwnedBy(0, five) == {A, B, C, D, E} && |{A, B, C, D, E}| == 5;
  }
}
