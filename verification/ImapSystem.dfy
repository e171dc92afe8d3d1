/** Any number of IMAP clients over shared mailboxes, and a server that tells the truth.

    Each client is the one of `ImapDriver`: it chooses by `Choice`, folds what it is told
    into its view, raises the alarm by the same check. The server is not an implementation
    but everything a truthful one may do; what it may not do are the guards in `Possible`:

    - SELECT reports the number of messages in the mailbox (section 6.3.1 of RFC 3501);
    - EXISTS counts the messages the session was told of and not since expunged to it, and
      covers every append of its own that was acknowledged and is neither told nor gone;
    - a message is expunged to a session only while a command of it is in progress, and only
      if it was told of it and the message is gone (section 7.4.1);
    - an APPEND is acknowledged only once its message was stored.

    Within that anything may happen: the server announces arrivals at any time, between
    commands too (section 5.3), and inside the reply to an APPEND (section 6.3.11); messages
    that are gone before a session was told of them may never be mentioned to it; commands
    of different sessions interleave at every announcement, connections fail at any moment,
    mail arrives from elsewhere, and messages are removed at any time by anyone.

    What a client hears between commands it reads with its next reply. `appendMessage` takes
    it for a refusal (internal/imapdrv/client.go:187-193) and throws away what comes inside
    an APPEND's reply (internal/imapdrv/client.go:200). */
module ImapSystem {
  import opened Octets
  import opened ImapCommands
  import opened ImapView
  import opened ImapDriver

  /** A message is known by who put it there. */
  datatype Msg = Foreign(serial: nat) | Own(client: nat, serial: nat)

  datatype Box = Box(user: bytes, name: bytes)

  /** A session on an open mailbox. The server's record of it: the messages announced to it
      and not since expunged to it, the arrivals not yet announced, and among those the
      session's own acknowledged appends. And what passed since the client last heard a
      report: the messages that one counted, the client's appends acknowledged since, the
      messages expunged to it since, and those it counts on that went without its hearing
      of it. */
  datatype Sess = Sess(
    box: Box, told: set<Msg>, queue: set<Msg>, acked: set<Msg>,
    base: set<Msg>, mine: set<Msg>, spent: set<Msg>, missed: set<Msg>)

  /** What has been announced and not read yet is `unread`, `heard` or `out`. */
  datatype Link =
    | Down
    | Authed
    | Opening(box: Box, unread: seq<Event>)
    | Idle(sess: Sess, heard: seq<Event>)
    | Busy(sess: Sess, cmd: Command, out: seq<Event>, stored: Option<Msg>)

  /** A client's view matters only while it has a mailbox open. */
  datatype Client = Client(view: V, link: Link)

  /** `flagged` are the messages marked as deleted. */
  datatype System = System(
    clients: seq<Client>, live: map<Box, set<Msg>>, tally: nat, alarmed: bool, flagged: set<Msg>)

  function At(live: map<Box, set<Msg>>, b: Box): set<Msg> {
    if b in live then live[b] else {}
  }

  function Live(s: System, b: Box): set<Msg> {
    At(s.live, b)
  }

  function BoxFor(cfg: Config, c: nat, n: nat): Box
    requires Usable(cfg)
  {
    Box(UserOf(cfg, c), Rotation(cfg, n))
  }

  predicate HasSession(l: Link) { l.Idle? || l.Busy? }

  /** Whether the client takes in what this session is told now. */
  predicate Listening(l: Link) { l.Idle? || (l.Busy? && l.cmd != Append) }

  datatype Action =
    | Connect(c: nat)
    | Send(c: nat, n: nat, m: nat)          // with the operation numbers drawn
    | Open(c: nat)                          // the server carries out a SELECT
    | Store(c: nat)                         // the server stores an APPEND's message
    | Announce(c: nat, news: set<Msg>)      // EXISTS
    | Notice(c: nat, lost: Msg)             // EXPUNGE
    | Forget(c: nat, lost: Msg)             // an arrival gone before it was announced
    | Flag(c: nat, marked: set<Msg>)        // the server carries out a DELETE
    | Chatter(c: nat)                       // any other untagged response
    | Finish(c: nat)                        // OK: the client takes the responses in
    | Drop(c: nat)                          // NO, BAD, or the connection fails
    | Deliver(box: Box)                     // mail from elsewhere
    | Remove(box: Box, gone: set<Msg>)      // messages leave the mailbox

  predicate Possible(cfg: Config, s: System, a: Action)
    requires Usable(cfg)
  {
    if a.Deliver? then true
    else if a.Remove? then a.gone <= Live(s, a.box)
    else a.c < |s.clients| && MayMove(s, s.clients[a.c].link, a)
  }

  predicate MayMove(s: System, l: Link, a: Action) {
    match a
    case Connect(_) => l.Down?
    case Send(_, _, _) => l.Authed? || l.Idle?
    case Open(_) => l.Opening?
    case Store(_) => l.Busy? && l.cmd == Append && l.stored.None?
    case Announce(_, news) => HasSession(l) && l.sess.acked <= news <= l.sess.queue
    case Notice(_, lost) => l.Busy? && lost in l.sess.told && lost !in Live(s, l.sess.box)
    case Forget(_, lost) => HasSession(l) && lost in l.sess.queue && lost !in Live(s, l.sess.box)
    case Flag(_, marked) => l.Busy? && l.cmd == Delete && marked <= l.sess.told
    case Chatter(_) => HasSession(l)
    case Finish(_) => l.Busy? && (l.cmd == Append ==> l.stored.Some?)
    case Drop(_) => !l.Down?
    case Deliver(_) | Remove(_, _) => true
  }

  // ------------------------------------------------- what becomes of a session

  function Queued(sess: Sess, m: Msg): Sess {
    sess.(queue := sess.queue + {m})
  }

  /** An EXISTS the client will take in: everything is counted anew. */
  function Heard(sess: Sess, news: set<Msg>): Sess {
    Sess(sess.box, sess.told + news, sess.queue - news, {}, sess.told + news, {}, {}, {})
  }

  function Unheard(sess: Sess, news: set<Msg>): Sess {
    sess.(told := sess.told + news, queue := sess.queue - news, acked := {})
  }

  function Noticed(sess: Sess, lost: Msg): Sess {
    sess.(told := sess.told - {lost}, spent := sess.spent + {lost})
  }

  function NoticedUnheard(sess: Sess, lost: Msg): Sess {
    sess.(told := sess.told - {lost}, missed := sess.missed + {lost})
  }

  function Forgotten(sess: Sess, lost: Msg, stored: Option<Msg>): Sess {
    sess.(queue := sess.queue - {lost}, acked := sess.acked - {lost},
          missed := if lost in sess.acked || stored == Some(lost) then sess.missed + {lost} else sess.missed)
  }

  function Acknowledged(sess: Sess, m: Msg): Sess {
    sess.(acked := sess.acked + ({m} * sess.queue), mine := sess.mine + {m})
  }

  function JustOpened(b: Box, now: set<Msg>): Sess {
    Sess(b, now, {}, {}, now, {}, {}, {})
  }

  function WithSess(l: Link, sess: Sess): Link
    requires HasSession(l)
  {
    if l.Idle? then Idle(sess, l.heard) else Busy(sess, l.cmd, l.out, l.stored)
  }

  function StoredOf(l: Link): Option<Msg> {
    if l.Busy? then l.stored else None
  }

  /** A new message reaches every session that has the mailbox open. */
  function Arrived(k: Client, b: Box, m: Msg): Client {
    if HasSession(k.link) && k.link.sess.box == b
    then k.(link := WithSess(k.link, Queued(k.link.sess, m)))
    else k
  }

  function Arrive(s: System, b: Box, m: Msg): System {
    s.(clients := seq(|s.clients|, i requires 0 <= i < |s.clients| => Arrived(s.clients[i], b, m)),
       live := s.live[b := Live(s, b) + {m}],
       tally := s.tally + 1)
  }

  /** One more response on its way to the client. */
  function With(l: Link, sess: Sess, e: Event): Link
    requires HasSession(l)
  {
    if l.Idle? then Idle(sess, l.heard + [e]) else Busy(sess, l.cmd, l.out + [e], l.stored)
  }

  /** The view after a completed command, before the check. */
  function Taken(k: Client): V
    requires k.link.Busy?
  {
    var l := k.link;
    match l.cmd
    case Append => k.view.(appended := k.view.appended + 1)
    case Select => Fold(Fresh(l.sess.box.name), l.out)
    case _ => Fold(k.view, l.out)
  }

  /** A client sending its next command. An APPEND that finds something unread takes it for
      a refusal; the first responses to a SELECT are whatever is still unread of the
      mailbox it leaves. */
  function Sent(cfg: Config, k: Client, c: nat, n: nat, m: nat): Link
    requires Usable(cfg) && (k.link.Authed? || k.link.Idle?)
  {
    if k.link.Authed? then Opening(BoxFor(cfg, c, n), [])
    else
      var cmd := Choice(cfg, k.view, n);
      if cmd == Select then Opening(BoxFor(cfg, c, m), k.link.heard)
      else if cmd == Append && k.link.heard != [] then Down
      else Busy(k.link.sess, cmd, k.link.heard, None)
  }

  function Announced(k: Client, news: set<Msg>): Client
    requires HasSession(k.link)
  {
    var l := k.link;
    k.(link := With(l, if Listening(l) then Heard(l.sess, news) else Unheard(l.sess, news),
                    Report(|l.sess.told + news|)))
  }

  function Lost(k: Client, lost: Msg): Client
    requires HasSession(k.link)
  {
    var l := k.link;
    k.(link := With(l, if Listening(l) then Noticed(l.sess, lost) else NoticedUnheard(l.sess, lost), Expunged))
  }

  function Unmentioned(k: Client, lost: Msg): Client
    requires HasSession(k.link)
  {
    k.(link := WithSess(k.link, Forgotten(k.link.sess, lost, StoredOf(k.link))))
  }

  function Storing(k: Client, m: Msg): Client
    requires k.link.Busy?
  {
    var l := k.link;
    k.(link := Busy(Queued(l.sess, m), l.cmd, l.out, Some(m)))
  }

  function Selecting(k: Client, now: set<Msg>): Client
    requires k.link.Opening?
  {
    k.(link := Busy(JustOpened(k.link.box, now), Select, k.link.unread + [Report(|now|)], None))
  }

  function Finished(k: Client): Client
    requires k.link.Busy? && (k.link.cmd == Append ==> k.link.stored.Some?)
  {
    var l, v := k.link, Taken(k);
    var sess := if l.cmd == Append then Acknowledged(l.sess, l.stored.value) else l.sess;
    Client(v.(mismatch := None), if l.cmd == Logout || v.mismatch.Some? then Down else Idle(sess, []))
  }

  /** What action `a` makes of the one client it is about. */
  function Moved(cfg: Config, s: System, a: Action): Client
    requires Usable(cfg) && Possible(cfg, s, a) && !a.Deliver? && !a.Remove?
  {
    var k := s.clients[a.c];
    var l := k.link;
    match a
    case Connect(_) => k.(link := Authed)
    case Send(_, n, m) => k.(link := Sent(cfg, k, a.c, n, m))
    case Open(_) => Selecting(k, Live(s, l.box))
    case Store(_) => Storing(k, Own(a.c, s.tally))
    case Announce(_, news) => Announced(k, news)
    case Notice(_, lost) => Lost(k, lost)
    case Forget(_, lost) => Unmentioned(k, lost)
    case Flag(_, _) => k
    case Chatter(_) => k.(link := With(l, l.sess, Other))
    case Finish(_) => Finished(k)
    case Drop(_) => k.(link := Down)
  }

  function Apply(cfg: Config, s: System, a: Action): System
    requires Usable(cfg) && Possible(cfg, s, a)
  {
    match a
    case Deliver(b) => Arrive(s, b, Foreign(s.tally))
    case Remove(b, gone) => s.(live := s.live[b := Live(s, b) - gone])
    case Store(c) =>
      var t := Arrive(s, s.clients[c].link.sess.box, Own(c, s.tally));
      t.(clients := t.clients[c := Moved(cfg, s, a)])
    case Flag(c, marked) => s.(clients := s.clients[c := Moved(cfg, s, a)], flagged := s.flagged + marked)
    case Finish(c) =>
      s.(clients := s.clients[c := Moved(cfg, s, a)],
         alarmed := s.alarmed || Taken(s.clients[c]).mismatch.Some?)
    case _ => s.(clients := s.clients[a.c := Moved(cfg, s, a)])
  }

  /** How a run begins: nobody connected, any messages in the mailboxes. */
  ghost predicate Initial(s: System) {
    && !s.alarmed
    && (forall c :: 0 <= c < |s.clients| ==> s.clients[c].link == Down)
    && (forall b, m :: b in s.live && m in s.live[b] ==> m.Foreign? && m.serial < s.tally)
  }

  /** Steps that follow one another from any state. */
  ghost predicate IsPath(cfg: Config, states: seq<System>, actions: seq<Action>)
    requires Usable(cfg)
  {
    && |states| == |actions| + 1
    && forall i :: 0 <= i < |actions| ==>
         Possible(cfg, states[i], actions[i]) && states[i + 1] == Apply(cfg, states[i], actions[i])
  }

  ghost predicate IsRun(cfg: Config, states: seq<System>, actions: seq<Action>)
    requires Usable(cfg)
  {
    IsPath(cfg, states, actions) && Initial(states[0])
  }

  /** A path without its last step is a path, which that step takes to its end. */
  lemma PathBefore(cfg: Config, states: seq<System>, actions: seq<Action>)
    requires Usable(cfg) && IsPath(cfg, states, actions) && actions != []
    ensures var n := |actions| - 1;
            && IsPath(cfg, states[..n + 1], actions[..n])
            && states[..n + 1][n] == states[n] && states[..n + 1][0] == states[0]
            && Possible(cfg, states[n], actions[n]) && states[n + 1] == Apply(cfg, states[n], actions[n])
  {
  }

  // ---------------------------------------------------------- the invariant

  predicate Before(ms: set<Msg>, tally: nat) {
    forall m :: m in ms ==> m.serial < tally
  }

  /** The messages the client counts on are accounted for by the server. */
  predicate Consistent(sess: Sess, tally: nat) {
    && sess.told !! sess.queue && sess.spent !! (sess.told + sess.queue)
    && sess.acked <= sess.queue && sess.acked <= sess.mine
    && sess.base !! sess.mine
    && sess.base + sess.mine <= sess.told + sess.acked + sess.spent + sess.missed
    && Before(sess.told + sess.queue + sess.spent + sess.missed, tally) && Before(sess.base + sess.mine, tally)
  }

  /** The client's counters are the sizes of the server's sets. */
  predicate InStep(v: V, sess: Sess) {
    v.count == v.baseline == Less(|sess.base|, |sess.spent|) && v.appended == |sess.mine|
  }

  function LastReport(es: seq<Event>): int {
    if es == [] then 0
    else if es[|es| - 1].Report? then es[|es| - 1].n else LastReport(es[..|es| - 1])
  }

  /** Reports that never fall, and nothing that moves a count otherwise: all that is heard
      between commands. */
  predicate Rising(es: seq<Event>) {
    es == [] ||
    var init, e := es[..|es| - 1], es[|es| - 1];
    Rising(init) && (e.Other? || (e.Report? && LastReport(init) <= e.n))
  }

  /** What a view holds once everything on its way to the client has been taken in. */
  function Pending(k: Client): V
    requires HasSession(k.link)
  {
    if k.link.Idle? then Fold(k.view, k.link.heard)
    else if k.link.cmd == Append then k.view
    else if k.link.cmd == Select then Fold(Fresh(k.link.sess.box.name), k.link.out)
    else Fold(k.view, k.link.out)
  }

  /** A message stored for the client that it does not count on yet. */
  predicate Owed(sess: Sess, m: Msg) {
    m in sess.told + sess.queue + sess.missed && m !in sess.base + sess.mine
  }

  predicate StoredWell(l: Link)
    requires l.Busy?
  {
    l.stored.Some? ==> l.cmd == Append && Owed(l.sess, l.stored.value)
  }

  ghost predicate Tracked(k: Client, tally: nat) {
    var l := k.link;
    && (l.Opening? ==> Rising(l.unread))
    && (HasSession(l) ==> Consistent(l.sess, tally) && InStep(Pending(k), l.sess))
    && (l.Idle? ==> Rising(l.heard) && LastReport(l.heard) <= |l.sess.told| && k.view.mismatch.None?)
    && (l.Busy? ==> StoredWell(l) && (l.cmd == Append ==> k.view.mismatch.None?))
  }

  ghost predicate Inv(s: System) {
    && (forall c :: 0 <= c < |s.clients| ==> Tracked(s.clients[c], s.tally))
    && (forall b :: b in s.live ==> Before(s.live[b], s.tally))
  }

  lemma SubsetSize<T>(a: set<T>, b: set<T>)
    requires a <= b
    ensures |a| <= |b|
  {
    assert b == a + (b - a);
  }

  lemma UnionSize<T>(a: set<T>, b: set<T>)
    ensures |a + b| <= |a| + |b|
    ensures a !! b ==> |a + b| == |a| + |b|
  {
    assert a + b == a + (b - a);
    SubsetSize(b - a, b);
  }

  // ------------------------------------------------ when a report is too small

  /** The report an EXISTS makes sets off the alarm: the client has heard more expunges
      since the report before than that one counted, and the new one does not even cover
      its appends acknowledged since; or messages it counts on went without its hearing of
      it, and the new one shows. */
  predicate Shortfall(sess: Sess, r: nat) {
    || (|sess.spent| > |sess.base| && r < |sess.mine|)
    || (sess.missed != {} && |sess.spent| <= |sess.base| && r < |sess.base| - |sess.spent| + |sess.mine|)
  }

  /** A report is below the client's floor exactly when it falls short. */
  lemma ShortfallIff(v: V, sess: Sess, news: set<Msg>, tally: nat)
    requires Consistent(sess, tally) && InStep(v, sess) && sess.acked <= news <= sess.queue
    ensures var r := |sess.told + news|; r < v.baseline + v.appended <==> Shortfall(sess, r)
  {
    var r := |sess.told + news|;
    if |sess.spent| <= |sess.base| && sess.missed == {} {
      SubsetSize(sess.base + sess.mine, (sess.told + news) + sess.spent);
      UnionSize(sess.base, sess.mine);
      UnionSize(sess.told + news, sess.spent);
    }
  }

  lemma {:induction false} FoldRising(b: bytes, es: seq<Event>)
    requires Rising(es)
    ensures var v := Fold(Fresh(b), es);
            v.mismatch.None? && v.appended == 0 && v.baseline == LastReport(es) && v.count == v.baseline
  {
    if es != [] { FoldRising(b, es[..|es| - 1]); }
  }

  /** Whether action `a` is about client `c`. */
  predicate Concerns(a: Action, c: nat) {
    !a.Deliver? && !a.Remove? && a.c == c
  }

  predicate AnnounceSetsOff(l: Link, news: set<Msg>)
    requires HasSession(l)
  {
    Listening(l) && Shortfall(l.sess, |l.sess.told + news|)
  }

  predicate OpenSetsOff(l: Link, now: set<Msg>)
    requires l.Opening?
  {
    |now| < LastReport(l.unread)
  }

  /** The step puts a response on its way that contradicts the client's view: a report that
      falls short, or a SELECT that finds fewer messages than a report of the mailbox being
      left, still unread, has said. */
  predicate SetsOff(cfg: Config, s: System, a: Action)
    requires Usable(cfg) && Possible(cfg, s, a) && !a.Deliver? && !a.Remove?
  {
    var l := s.clients[a.c].link;
    (a.Announce? && AnnounceSetsOff(l, a.news)) || (a.Open? && OpenSetsOff(l, Live(s, l.box)))
  }

  /** The step ends what its client has heard so far: a completed or failed command, or a
      SELECT, which starts the view afresh. */
  predicate Settles(cfg: Config, s: System, a: Action)
    requires Usable(cfg) && Possible(cfg, s, a) && !a.Deliver? && !a.Remove?
  {
    var l := s.clients[a.c].link;
    a.Finish? || a.Drop? || a.Connect? || (a.Send? && !Sent(cfg, s.clients[a.c], a.c, a.n, a.m).Busy?)
  }

  lemma TakesIn(v: V, es: seq<Event>, e: Event)
    ensures Fold(v, es + [e]) == Step(Fold(v, es), e)
  {
    FoldOne(v, es, e);
  }

  lemma PendingWith(k: Client, sess: Sess, e: Event)
    requires Listening(k.link) && sess.box == k.link.sess.box
    ensures Pending(k.(link := With(k.link, sess, e))) == Step(Pending(k), e)
  {
    var l := k.link;
    if l.Idle? {
      TakesIn(k.view, l.heard, e);
    } else {
      TakesIn(k.view, l.out, e);
      TakesIn(Fresh(l.sess.box.name), l.out, e);
    }
  }

  // --------------------------------------------- steps of one client keep it

  lemma ToldStays(sess: Sess, news: set<Msg>, tally: nat)
    requires Consistent(sess, tally) && sess.acked <= news <= sess.queue
    ensures Consistent(Heard(sess, news), tally) && |sess.told| <= |sess.told + news|
  {
    SubsetSize(sess.told, sess.told + news);
  }

  lemma ToldUnheardStays(sess: Sess, news: set<Msg>, stored: Option<Msg>, tally: nat)
    requires Consistent(sess, tally) && sess.acked <= news <= sess.queue
    ensures Consistent(Unheard(sess, news), tally)
    ensures stored.Some? && Owed(sess, stored.value) ==> Owed(Unheard(sess, news), stored.value)
  {
  }

  lemma NoticedStays(sess: Sess, lost: Msg, tally: nat)
    requires Consistent(sess, tally) && lost in sess.told
    ensures Consistent(Noticed(sess, lost), tally) && |Noticed(sess, lost).spent| == |sess.spent| + 1
  {
  }

  lemma NoticedUnheardStays(sess: Sess, lost: Msg, stored: Option<Msg>, tally: nat)
    requires Consistent(sess, tally) && lost in sess.told
    ensures Consistent(NoticedUnheard(sess, lost), tally)
    ensures stored.Some? && Owed(sess, stored.value) ==> Owed(NoticedUnheard(sess, lost), stored.value)
  {
  }

  lemma ForgottenStays(sess: Sess, lost: Msg, stored: Option<Msg>, tally: nat)
    requires Consistent(sess, tally) && lost in sess.queue
    ensures Consistent(Forgotten(sess, lost, stored), tally)
    ensures stored.Some? && Owed(sess, stored.value) ==> Owed(Forgotten(sess, lost, stored), stored.value)
  {
  }

  lemma QueuedStays(sess: Sess, m: Msg, stored: Option<Msg>, tally: nat)
    requires Consistent(sess, tally) && m.serial == tally
    ensures Consistent(Queued(sess, m), tally + 1) && Owed(Queued(sess, m), m)
    ensures stored.Some? && Owed(sess, stored.value) ==> Owed(Queued(sess, m), stored.value)
  {
  }

  lemma AcknowledgedStays(sess: Sess, m: Msg, tally: nat)
    requires Consistent(sess, tally) && Owed(sess, m)
    ensures Consistent(Acknowledged(sess, m), tally) && |Acknowledged(sess, m).mine| == |sess.mine| + 1
  {
  }

  lemma JustOpenedStays(b: Box, now: set<Msg>, tally: nat)
    requires Before(now, tally)
    ensures Consistent(JustOpened(b, now), tally)
  {
  }

  lemma RisingOne(es: seq<Event>, e: Event)
    requires Rising(es) && (e.Other? || (e.Report? && LastReport(es) <= e.n))
    ensures Rising(es + [e]) && LastReport(es + [e]) == if e.Report? then e.n else LastReport(es)
  {
    assert (es + [e])[..|es|] == es;
  }

  lemma HeardKeeps(k: Client, news: set<Msg>, tally: nat)
    requires Tracked(k, tally) && Listening(k.link) && k.link.sess.acked <= news <= k.link.sess.queue
    ensures var t := Announced(k, news);
            && Tracked(t, tally)
            && (Pending(t).mismatch.Some? <==> Pending(k).mismatch.Some? || AnnounceSetsOff(k.link, news))
  {
    hide Consistent, Owed, Fold, Rising, LastReport, Shortfall;
    var l, r := k.link, |k.link.sess.told + news|;
    ToldStays(l.sess, news, tally);
    ShortfallIff(Pending(k), l.sess, news, tally);
    PendingWith(k, Heard(l.sess, news), Report(r));
    if l.Idle? { RisingOne(l.heard, Report(r)); }
  }

  predicate SameSums(sess: Sess, t: Sess) {
    t.box == sess.box && t.base == sess.base && t.mine == sess.mine && t.spent == sess.spent
  }

  /** A change of the server's record that the client's counters do not see. */
  lemma BusyWith(k: Client, t: Sess, out: seq<Event>, stored: Option<Msg>, tally: nat, later: nat)
    requires Tracked(k, tally) && k.link.Busy? && Consistent(t, later) && SameSums(k.link.sess, t)
    requires out == k.link.out || k.link.cmd == Append
    requires stored.Some? ==> k.link.cmd == Append && Owed(t, stored.value)
    ensures var u := k.(link := Busy(t, k.link.cmd, out, stored)); Tracked(u, later) && Pending(u) == Pending(k)
  {
    hide Consistent, Owed, Fold, InStep, Rising, LastReport;
    SameStep(Pending(k), k.link.sess, t);
  }

  lemma IdleWith(k: Client, t: Sess, tally: nat, later: nat)
    requires Tracked(k, tally) && k.link.Idle? && Consistent(t, later) && SameSums(k.link.sess, t)
    requires t.told == k.link.sess.told
    ensures var u := k.(link := Idle(t, k.link.heard)); Tracked(u, later) && Pending(u) == Pending(k)
  {
    hide Consistent, Owed, Fold, InStep, Rising, LastReport;
    SameStep(Pending(k), k.link.sess, t);
  }

  lemma StoredIsOwed(k: Client, tally: nat)
    requires Tracked(k, tally) && k.link.Busy? && k.link.stored.Some?
    ensures k.link.cmd == Append && Owed(k.link.sess, k.link.stored.value)
  {
    hide Consistent, Owed, Fold, InStep, Rising, LastReport, Pending;
  }

  lemma SessIsConsistent(k: Client, tally: nat)
    requires Tracked(k, tally) && HasSession(k.link)
    ensures Consistent(k.link.sess, tally)
  {
    hide Consistent, Owed, Fold, InStep, Rising, LastReport, Pending;
  }

  lemma UnheardKeeps(k: Client, news: set<Msg>, tally: nat)
    requires Tracked(k, tally) && HasSession(k.link) && !Listening(k.link)
    requires k.link.sess.acked <= news <= k.link.sess.queue
    ensures Tracked(Announced(k, news), tally) && Pending(Announced(k, news)) == Pending(k)
  {
    hide Consistent, Owed, Tracked, Pending;
    var l := k.link;
    var t := Unheard(l.sess, news);
    SessIsConsistent(k, tally);
    if l.stored.Some? { StoredIsOwed(k, tally); }
    ToldUnheardStays(l.sess, news, l.stored, tally);
    BusyWith(k, t, l.out + [Report(|l.sess.told + news|)], l.stored, tally, tally);
  }

  lemma OneFewer(v: V, sess: Sess, lost: Msg)
    requires InStep(v, sess) && |Noticed(sess, lost).spent| == |sess.spent| + 1
    ensures InStep(Step(v, Expunged), Noticed(sess, lost))
  {
    assert Noticed(sess, lost).base == sess.base && Noticed(sess, lost).mine == sess.mine;
  }

  lemma SameStep(v: V, sess: Sess, t: Sess)
    requires InStep(v, sess) && t.base == sess.base && t.mine == sess.mine && t.spent == sess.spent
    ensures InStep(v, t)
  {
  }

  lemma LostHeardKeeps(k: Client, lost: Msg, tally: nat)
    requires Tracked(k, tally) && k.link.Busy? && k.link.cmd != Append && lost in k.link.sess.told
    ensures Tracked(Lost(k, lost), tally)
    ensures Pending(Lost(k, lost)).mismatch.Some? <==> Pending(k).mismatch.Some?
  {
    hide Consistent, Owed, Fold, InStep;
    NoticedStays(k.link.sess, lost, tally);
    OneFewer(Pending(k), k.link.sess, lost);
    PendingWith(k, Noticed(k.link.sess, lost), Expunged);
  }

  lemma LostUnheardKeeps(k: Client, lost: Msg, tally: nat)
    requires Tracked(k, tally) && k.link.Busy? && k.link.cmd == Append && lost in k.link.sess.told
    ensures Tracked(Lost(k, lost), tally) && Pending(Lost(k, lost)) == Pending(k)
  {
    hide Consistent, Owed, Tracked, Pending;
    var l := k.link;
    SessIsConsistent(k, tally);
    if l.stored.Some? { StoredIsOwed(k, tally); }
    NoticedUnheardStays(l.sess, lost, l.stored, tally);
    BusyWith(k, NoticedUnheard(l.sess, lost), l.out + [Expunged], l.stored, tally, tally);
  }

  lemma ChatterKeeps(k: Client, tally: nat)
    requires Tracked(k, tally) && HasSession(k.link)
    ensures var t := k.(link := With(k.link, k.link.sess, Other)); Tracked(t, tally) && Pending(t) == Pending(k)
  {
    hide Consistent, Owed, Fold, Rising, LastReport, InStep;
    if Listening(k.link) { PendingWith(k, k.link.sess, Other); }
    if k.link.Idle? { RisingOne(k.link.heard, Other); }
  }

  lemma UnmentionedKeeps(k: Client, lost: Msg, tally: nat)
    requires Tracked(k, tally) && HasSession(k.link) && lost in k.link.sess.queue
    ensures Tracked(Unmentioned(k, lost), tally) && Pending(Unmentioned(k, lost)) == Pending(k)
  {
    hide Consistent, Owed, Tracked, Pending;
    var l := k.link;
    var t := Forgotten(l.sess, lost, StoredOf(l));
    SessIsConsistent(k, tally);
    if l.Busy? && l.stored.Some? { StoredIsOwed(k, tally); }
    ForgottenStays(l.sess, lost, StoredOf(l), tally);
    if l.Idle? { IdleWith(k, t, tally, tally); } else { BusyWith(k, t, l.out, l.stored, tally, tally); }
  }

  lemma SelectingKeeps(k: Client, now: set<Msg>, tally: nat)
    requires Tracked(k, tally) && k.link.Opening? && Before(now, tally)
    ensures var t := Selecting(k, now);
            Tracked(t, tally) && (Pending(t).mismatch.Some? <==> OpenSetsOff(k.link, now))
  {
    hide Consistent, Owed, Fold, Rising, LastReport;
    var l := k.link;
    JustOpenedStays(l.box, now, tally);
    FoldRising(l.box.name, l.unread);
    TakesIn(Fresh(l.box.name), l.unread, Report(|now|));
  }

  lemma StoringKeeps(k: Client, m: Msg, tally: nat)
    requires Tracked(k, tally) && k.link.Busy? && k.link.cmd == Append && m.serial == tally
    ensures Tracked(Storing(k, m), tally + 1) && Pending(Storing(k, m)) == Pending(k)
  {
    hide Consistent, Owed, Tracked, Pending;
    SessIsConsistent(k, tally);
    QueuedStays(k.link.sess, m, None, tally);
    BusyWith(k, Queued(k.link.sess, m), k.link.out, Some(m), tally, tally + 1);
  }

  lemma ClearedStays(v: V, sess: Sess)
    requires InStep(v, sess)
    ensures InStep(v.(mismatch := None), sess)
  {
  }

  lemma OneMoreOwn(v: V, sess: Sess, m: Msg)
    requires InStep(v, sess) && |Acknowledged(sess, m).mine| == |sess.mine| + 1
    ensures InStep(v.(appended := v.appended + 1), Acknowledged(sess, m))
  {
  }

  /** What an idle client is left with when it has taken everything in. */
  lemma IdleAgain(k: Client, sess: Sess, tally: nat)
    requires k.link == Idle(sess, []) && k.view.mismatch.None? && Consistent(sess, tally) && InStep(k.view, sess)
    ensures Tracked(k, tally)
  {
    hide Consistent, InStep, Fold;
    FoldNothing(k.view);
  }

  lemma FinishedAppendKeeps(k: Client, tally: nat)
    requires Tracked(k, tally) && k.link.Busy? && k.link.cmd == Append && k.link.stored.Some?
    ensures Tracked(Finished(k), tally) && Taken(k).mismatch.None? && Pending(k).mismatch.None?
  {
    hide Consistent, Owed, Fold, InStep, Rising, LastReport, Acknowledged;
    var sess, m := k.link.sess, k.link.stored.value;
    AcknowledgedStays(sess, m, tally);
    OneMoreOwn(k.view, sess, m);
    IdleAgain(Finished(k), Acknowledged(sess, m), tally);
  }

  lemma FinishedOtherKeeps(k: Client, tally: nat)
    requires Tracked(k, tally) && k.link.Busy? && k.link.cmd != Append
    ensures Tracked(Finished(k), tally) && Taken(k) == Pending(k)
  {
    hide Consistent, Owed, Fold, InStep, Rising, LastReport;
    ClearedStays(Taken(k), k.link.sess);
    if !Finished(k).link.Down? { IdleAgain(Finished(k), k.link.sess, tally); }
  }

  lemma FinishedKeeps(k: Client, tally: nat)
    requires Tracked(k, tally) && k.link.Busy? && (k.link.cmd == Append ==> k.link.stored.Some?)
    ensures Tracked(Finished(k), tally)
    ensures Taken(k).mismatch.Some? <==> Pending(k).mismatch.Some?
  {
    hide Tracked, Finished, Taken, Pending;
    if k.link.cmd == Append { FinishedAppendKeeps(k, tally); } else { FinishedOtherKeeps(k, tally); }
  }

  lemma SentKeeps(cfg: Config, k: Client, c: nat, n: nat, m: nat, tally: nat)
    requires Usable(cfg) && Tracked(k, tally) && (k.link.Authed? || k.link.Idle?)
    ensures var t := k.(link := Sent(cfg, k, c, n, m));
            Tracked(t, tally) && (t.link.Busy? ==> k.link.Idle? && Pending(t) == Pending(k))
  {
    hide Consistent, Owed, Fold, Rising, LastReport, Choice, UserOf, Rotation, InStep;
    FoldNothing(k.view);
  }

  lemma FoldNothing(v: V)
    ensures Fold(v, []) == v && Rising([]) && LastReport([]) == 0
  {
  }

  lemma ArrivalKeeps(k: Client, b: Box, m: Msg, tally: nat)
    requires Tracked(k, tally) && m.serial == tally
    ensures Tracked(Arrived(k, b, m), tally + 1)
    ensures HasSession(k.link) ==> Pending(Arrived(k, b, m)) == Pending(k)
  {
    hide Consistent, Owed, Fold, InStep, Rising, LastReport, StoredOf;
    if HasSession(k.link) {
      LaterStays(k.link.sess, tally);
      if k.link.sess.box == b { QueueingKeeps(k, m, tally); }
    }
  }

  lemma QueueingKeeps(k: Client, m: Msg, tally: nat)
    requires Tracked(k, tally) && m.serial == tally && HasSession(k.link)
    ensures var t := k.(link := WithSess(k.link, Queued(k.link.sess, m)));
            Tracked(t, tally + 1) && Pending(t) == Pending(k)
  {
    hide Consistent, Owed, Tracked, Pending;
    var l := k.link;
    SessIsConsistent(k, tally);
    if l.Busy? && l.stored.Some? { StoredIsOwed(k, tally); }
    QueuedStays(l.sess, m, StoredOf(l), tally);
    if l.Idle? {
      IdleWith(k, Queued(l.sess, m), tally, tally + 1);
    } else {
      BusyWith(k, Queued(l.sess, m), l.out, l.stored, tally, tally + 1);
    }
  }

  lemma LaterStays(sess: Sess, tally: nat)
    requires Consistent(sess, tally)
    ensures Consistent(sess, tally + 1)
  {
  }

  /** One step of a client keeps it tracked. */
  lemma MovedKeeps(cfg: Config, s: System, a: Action)
    requires Usable(cfg) && Possible(cfg, s, a) && Inv(s) && !a.Deliver? && !a.Remove?
    ensures Tracked(Moved(cfg, s, a), if a.Store? then s.tally + 1 else s.tally)
  {
    hide Consistent, Owed, Fold, InStep, Rising, LastReport, StoredWell, Pending, Choice;
    var k := s.clients[a.c];
    assert Tracked(k, s.tally);
    match a {
      case Connect(_) =>
      case Send(_, n, m) => SentKeeps(cfg, k, a.c, n, m, s.tally);
      case Open(_) => SelectingKeeps(k, Live(s, k.link.box), s.tally);
      case Store(_) => StoringKeeps(k, Own(a.c, s.tally), s.tally);
      case Announce(_, news) =>
        if Listening(k.link) { HeardKeeps(k, news, s.tally); } else { UnheardKeeps(k, news, s.tally); }
      case Notice(_, lost) =>
        if k.link.cmd == Append { LostUnheardKeeps(k, lost, s.tally); } else { LostHeardKeeps(k, lost, s.tally); }
      case Forget(_, lost) => UnmentionedKeeps(k, lost, s.tally);
      case Flag(_, _) =>
      case Chatter(_) => ChatterKeeps(k, s.tally);
      case Finish(_) => FinishedKeeps(k, s.tally);
      case Drop(_) =>
    }
  }

  /** What a step does to the alarm that is on its way to its client: nothing, unless it
      sets it off or ends what was heard. */
  lemma MovedPending(cfg: Config, s: System, a: Action)
    requires Usable(cfg) && Possible(cfg, s, a) && Inv(s) && !a.Deliver? && !a.Remove?
    ensures var k, t := s.clients[a.c], Moved(cfg, s, a);
            if !HasSession(t.link) then Settles(cfg, s, a)
            else Pending(t).mismatch.Some? <==>
                   !Settles(cfg, s, a) && (SetsOff(cfg, s, a) || (HasSession(k.link) && Pending(k).mismatch.Some?))
  {
    hide Consistent, Owed, InStep, Rising, LastReport, StoredWell, Choice, Shortfall, Fold;
    var k := s.clients[a.c];
    assert Tracked(k, s.tally);
    match a {
      case Connect(_) =>
      case Send(_, n, m) => SentKeeps(cfg, k, a.c, n, m, s.tally);
      case Open(_) => SelectingKeeps(k, Live(s, k.link.box), s.tally);
      case Store(_) => StoringKeeps(k, Own(a.c, s.tally), s.tally);
      case Announce(_, news) =>
        if Listening(k.link) { HeardKeeps(k, news, s.tally); } else { UnheardKeeps(k, news, s.tally); }
      case Notice(_, lost) =>
        if k.link.cmd == Append { LostUnheardKeeps(k, lost, s.tally); } else { LostHeardKeeps(k, lost, s.tally); }
      case Forget(_, lost) => UnmentionedKeeps(k, lost, s.tally);
      case Flag(_, _) =>
      case Chatter(_) => ChatterKeeps(k, s.tally);
      case Finish(_) => FoldNothing(Finished(k).view);
      case Drop(_) =>
    }
  }

  lemma OthersStay(cfg: Config, s: System, a: Action, c: nat)
    requires Usable(cfg) && Possible(cfg, s, a) && Inv(s) && c < |s.clients| && !Concerns(a, c)
    ensures var t := Apply(cfg, s, a);
            && |t.clients| == |s.clients| && Tracked(t.clients[c], t.tally)
            && HasSession(t.clients[c].link) == HasSession(s.clients[c].link)
            && (HasSession(s.clients[c].link) ==> Pending(t.clients[c]) == Pending(s.clients[c]))
  {
    hide Consistent, Owed, Fold, InStep, Rising, LastReport, StoredWell, Pending, Moved, Tracked;
    assert Tracked(s.clients[c], s.tally);
    if a.Deliver? {
      ArrivalKeeps(s.clients[c], a.box, Foreign(s.tally), s.tally);
    } else if a.Store? {
      ArrivalKeeps(s.clients[c], s.clients[a.c].link.sess.box, Own(a.c, s.tally), s.tally);
    }
  }

  lemma MovedInPlace(cfg: Config, s: System, a: Action)
    requires Usable(cfg) && Possible(cfg, s, a) && !a.Deliver? && !a.Remove?
    ensures var t := Apply(cfg, s, a);
            && |t.clients| == |s.clients| && t.clients[a.c] == Moved(cfg, s, a)
            && t.tally == if a.Store? then s.tally + 1 else s.tally
  {
    hide Moved;
  }

  lemma LiveStaysBefore(cfg: Config, s: System, a: Action)
    requires Usable(cfg) && Possible(cfg, s, a) && Inv(s)
    ensures var t := Apply(cfg, s, a); forall b :: b in t.live ==> Before(t.live[b], t.tally)
  {
    hide Moved, Tracked;
  }

  /** One step of the whole system keeps every client tracked. */
  lemma StepKeepsInv(cfg: Config, s: System, a: Action)
    requires Usable(cfg) && Possible(cfg, s, a) && Inv(s)
    ensures Inv(Apply(cfg, s, a)) && |Apply(cfg, s, a).clients| == |s.clients|
  {
    hide Tracked, Moved, Apply;
    var t := Apply(cfg, s, a);
    LiveStaysBefore(cfg, s, a);
    if a.Deliver? || a.Remove? {
      SameClients(cfg, s, a);
    } else {
      MovedInPlace(cfg, s, a);
      MovedKeeps(cfg, s, a);
    }
    forall c | 0 <= c < |t.clients| ensures Tracked(t.clients[c], t.tally) {
      if !Concerns(a, c) { OthersStay(cfg, s, a, c); }
    }
  }

  lemma SameClients(cfg: Config, s: System, a: Action)
    requires Usable(cfg) && Possible(cfg, s, a) && (a.Deliver? || a.Remove?)
    ensures |Apply(cfg, s, a).clients| == |s.clients|
  {
  }

  // ----------------------------------------------- the client is the driver's

  /** What a client of the system sends is the request of the driver's next step; an APPEND
      that finds something unread ends the connection. `m` is the counter drawn for a
      SELECT the profile chose, `n + 1` unless another client drew in between. */
  lemma SentIsNextRequest(cfg: Config, k: Client, c: nat, n: nat, m: nat)
    requires Usable(cfg) && (k.link.Authed? || k.link.Idle?)
    ensures var req := NextRequest(cfg, if k.link.Idle? then Selected else Authenticated, k.view, n);
            var l := Sent(cfg, k, c, n, m);
            && (l.Busy? <==> k.link.Idle? && req.cmd != Select && !(req.cmd == Append && k.link.heard != []))
            && (l.Busy? ==> l == Busy(k.link.sess, req.cmd, k.link.heard, None))
            && (l.Opening? <==> req.cmd == Select)
            && (l.Opening? ==> l.box == Box(UserOf(cfg, c), Rotation(cfg, if k.link.Idle? then m else n)))
            && (l.Opening? && (k.link.Idle? ==> m == n + 1) ==> req == Named(Select, l.box.name))
            && (l.Opening? ==> l.unread == if k.link.Idle? then k.link.heard else [])
            && (l.Down? <==> req.cmd == Append && k.link.Idle? && k.link.heard != [])
  {
  }

  /** What a client of the system makes of a completed command is what the driver's
      session makes of it: for responses that say what was announced, the alarm is raised
      exactly when they contradict the history, and the view goes on as that history's. */
  lemma FinishedIsAbsorbed(k: Client, h: seq<Happening>, req: Request, lines: seq<bytes>)
    requires k.link.Busy? && req.cmd == k.link.cmd && EventsOf(lines) == k.link.out
    requires k.view == Settled(k.view.mailbox, h)
    ensures var mailbox := if req.cmd == Select then k.link.sess.box.name else k.view.mailbox;
            && (Taken(k).mismatch.Some? <==> Raises(h, ImapDriver.Send(req, true), lines))
            && Taken(k).(mismatch := None) == Settled(mailbox, NextHistory(h, ImapDriver.Send(req, true), lines))
  {
    hide Fold, Replay, Tolds, Floor, EventsOf;
    var mailbox := if req.cmd == Select then k.link.sess.box.name else k.view.mailbox;
    var before := if req.cmd == Select then [] else h;
    if req.cmd == Append {
      OneAcked(mailbox, h);
    } else {
      NewSelection(mailbox);
      AlarmIffContradicted(mailbox, before, k.link.out);
      FoldSettled(mailbox, before, k.link.out);
      assert [] + Tolds(k.link.out) == Tolds(k.link.out);
    }
  }

  lemma OneAcked(mailbox: bytes, h: seq<Happening>)
    ensures var v := Settled(mailbox, h);
            && v.mismatch.None? && v.(appended := v.appended + 1) == Settled(mailbox, h + [Acked])
  {
    assert (h + [Acked])[..|h|] == h;
  }
}
