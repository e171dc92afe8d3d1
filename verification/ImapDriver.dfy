/** internal/imapdrv/driver.go: one persistent client, its choice of the next command,
    and everything it puts on the wire over a whole run. */
module ImapDriver {
  import opened Octets
  import opened Counting
  import opened ImapCommands
  import opened ImapView

  // -------------------------------------------------- configuration and choice

  /** What `New` leaves behind: at least one user, one mailbox and one enabled command. */
  datatype Config = Config(users: seq<bytes>, mailboxes: seq<bytes>, target: nat, weights: seq<Weighted>)

  predicate Usable(cfg: Config) {
    cfg.users != [] && cfg.mailboxes != [] && cfg.weights != [] && AllPositive(cfg.weights)
  }

  datatype Phase = Disconnected | Authenticated | Selected

  predicate Legal(phase: Phase, c: Command) {
    match c
    case List | Status | Select | Logout => phase != Disconnected
    case _ => phase == Selected
  }

  /** The mailbox the `n`th operation of the run opens. */
  function Rotation(cfg: Config, n: nat): bytes
    requires Usable(cfg)
  {
    cfg.mailboxes[n % |cfg.mailboxes|]
  }

  /** The user that client `c` is for as long as it lives. */
  function UserOf(cfg: Config, c: nat): bytes
    requires Usable(cfg)
  {
    cfg.users[c % |cfg.users|]
  }

  function TakesTurn(names: seq<bytes>, name: bytes): nat -> bool
    requires names != []
  {
    (n: nat) => names[n % |names|] == name
  }

  lemma {:induction false} TurnsSoFar(names: seq<bytes>, name: bytes, k: nat)
    requires names != [] && k <= |names|
    ensures Count(TakesTurn(names, name), 0, k) == multiset(names[..k])[name]
  {
    if k > 0 {
      TurnsSoFar(names, name, k - 1);
      Division(k - 1, |names|, 0, k - 1);
      OneMoreTurn(names, name, k - 1);
    }
  }

  lemma OneMoreTurn(names: seq<bytes>, name: bytes, k: nat)
    requires k < |names|
    ensures multiset(names[..k + 1])[name] == multiset(names[..k])[name] + (if names[k] == name then 1 else 0)
  {
    assert names[..k + 1] == names[..k] + [names[k]];
  }

  /** Any `|names|` turns in a row take each name as often as it is listed. */
  lemma TurnsAreFair(names: seq<bytes>, name: bytes, start: nat)
    requires names != []
    ensures Count(TakesTurn(names, name), start, |names|) == multiset(names)[name]
  {
    hide Count;
    var p := TakesTurn(names, name);
    forall n: nat ensures p(n + |names|) == p(n) { SameRemainder(n, |names|); }
    OnePeriod(p, start, |names|);
    TurnsSoFar(names, name, |names|);
    assert names[..|names|] == names;
  }

  lemma {:induction false} CountSame(p: nat -> bool, q: nat -> bool, start: nat, len: nat)
    requires forall n: nat :: p(n) == q(n)
    ensures Count(p, start, len) == Count(q, start, len)
  {
    if len > 0 { CountSame(p, q, start, len - 1); }
  }

  function Opens(cfg: Config, name: bytes): nat -> bool
    requires Usable(cfg)
  {
    (n: nat) => Rotation(cfg, n) == name
  }

  function Serves(cfg: Config, user: bytes): nat -> bool
    requires Usable(cfg)
  {
    (c: nat) => UserOf(cfg, c) == user
  }

  /** The rotation opens the mailboxes in their order, and any `|mailboxes|` consecutive
      numbers open each of them once, as often as it is configured. */
  lemma RotationTakesTurns(cfg: Config, name: bytes, start: nat, n: nat)
    requires Usable(cfg)
    ensures Count(Opens(cfg, name), start, |cfg.mailboxes|) == multiset(cfg.mailboxes)[name]
    ensures n < |cfg.mailboxes| ==> Rotation(cfg, n) == cfg.mailboxes[n]
  {
    hide Count;
    TurnsAreFair(cfg.mailboxes, name, start);
    CountSame(Opens(cfg, name), TakesTurn(cfg.mailboxes, name), start, |cfg.mailboxes|);
    if n < |cfg.mailboxes| { Division(n, |cfg.mailboxes|, 0, n); }
  }

  /** And so do the clients take the users. */
  lemma UsersTakeTurns(cfg: Config, user: bytes, start: nat, c: nat)
    requires Usable(cfg)
    ensures Count(Serves(cfg, user), start, |cfg.users|) == multiset(cfg.users)[user]
    ensures c < |cfg.users| ==> UserOf(cfg, c) == cfg.users[c]
  {
    hide Count;
    TurnsAreFair(cfg.users, user, start);
    CountSame(Serves(cfg, user), TakesTurn(cfg.users, user), start, |cfg.users|);
    if c < |cfg.users| { Division(c, |cfg.users|, 0, c); }
  }

  /** How many messages the client counts as held: what it was told and what it added. */
  function Held(v: V): int { v.count + v.appended }

  /** The steady-state rule first, the profile after it. */
  function Choice(cfg: Config, v: V, n: nat): Command
    requires Usable(cfg)
  {
    if cfg.target > 0 && Held(v) < cfg.target then Append
    else if cfg.target > 0 && Held(v) > 2 * cfg.target then Expunge
    else Picked(cfg.weights, n)
  }

  /** With the steady state on, a client appends only while it holds at most twice the
      target, and always while it holds less than the target. */
  lemma SteadyState(cfg: Config, v: V, n: nat)
    requires Usable(cfg) && cfg.target > 0
    ensures Choice(cfg, v, n) == Append ==> Held(v) <= 2 * cfg.target
    ensures Held(v) < cfg.target ==> Choice(cfg, v, n) == Append
    ensures Held(v) > 2 * cfg.target ==> Choice(cfg, v, n) == Expunge
  {
  }

  // ------------------------------------------------------------- the wire

  datatype Request =
    | Plain(cmd: Command)
    | Named(cmd: Command, mailbox: bytes)
    | Ranged(cmd: Command, from: int, to: int)

  /** What a client does to its connections, each act with its outcome. */
  datatype Act = Dial(ok: bool) | Login(user: bytes, ok: bool) | Send(req: Request, ok: bool) | Close

  /** How one exchange with the outside turns out: whether it succeeds, the untagged
      lines it brings, whether the run has ended by the time it returns, and how many
      operation numbers other clients take in the meantime. */
  datatype Answer = Answer(ok: bool, lines: seq<bytes>, ended: bool, others: nat)

  /** A script that is used up ends the run and breaks the connection. */
  function Head(script: seq<Answer>): Answer {
    if script == [] then Answer(false, [], true, 0) else script[0]
  }

  function Tail(script: seq<Answer>): (r: seq<Answer>)
    ensures |r| <= |script|
  {
    if script == [] then [] else script[1..]
  }

  // --------------------------------------------------- what may be sent when

  /** Where a client stands according to what it has done so far: no connection, one
      just dialled, logged in, within a mailbox, after LOGOUT, after a failure. */
  datatype Stage = NoConn | Greeted | LoggedIn | Within(mailbox: bytes) | Leaving | Failing | Broken

  /** The acts a well-behaved client may take at each stage; anything else is Broken. */
  function Advance(st: Stage, a: Act): Stage {
    match st
    case NoConn => if a.Dial? then (if a.ok then Greeted else NoConn) else Broken
    case Greeted => if a.Login? then (if a.ok then LoggedIn else Failing) else Broken
    case LoggedIn =>
      if a.Send? && a.req.Named? && a.req.cmd == Select then (if a.ok then Within(a.req.mailbox) else Failing)
      else Broken
    case Within(m) =>
      if a == Close then NoConn
      else if !a.Send? then Broken
      else if a.req.cmd == Select then
        if !a.req.Named? then Broken else if a.ok then Within(a.req.mailbox) else Failing
      else if a.req.Named? && a.req.mailbox != m then Broken
      else if !a.ok then Failing
      else if a.req.cmd == Logout then Leaving
      else st
    case Leaving | Failing => if a == Close then NoConn else Broken
    case Broken => Broken
  }

  function StageAfter(trace: seq<Act>): Stage {
    if trace == [] then NoConn else Advance(StageAfter(trace[..|trace| - 1]), trace[|trace| - 1])
  }

  lemma StageStep(trace: seq<Act>, a: Act)
    ensures StageAfter(trace + [a]) == Advance(StageAfter(trace), a)
  {
  }

  /** The commands a configuration can send: SELECT, those with a weight, and with the
      steady state on the two that maintain it. */
  predicate Enabled(cfg: Config, c: Command) {
    c == Select || Listed(cfg.weights, c) || (cfg.target > 0 && (c == Append || c == Expunge))
  }

  predicate Listed(ws: seq<Weighted>, c: Command) {
    exists i :: 0 <= i < |ws| && ws[i].cmd == c
  }

  /** Logins are as the client's user; only enabled commands are sent; APPEND names its mailbox; a range names at most
      twenty messages, none below 1. */
  predicate Configured(cfg: Config, user: bytes, a: Act) {
    && (a.Login? ==> a.user == user)
    && (a.Send? ==>
      && Enabled(cfg, a.req.cmd)
      && (a.req.cmd == Append ==> a.req.Named?)
      && (a.req.Ranged? ==> 1 <= a.req.from <= a.req.to < a.req.from + 20))
  }

  predicate Failed(a: Act) { a != Close && !a.ok }

  /** The last thing done failed, but for closing the connection. */
  predicate EndsInFailure(trace: seq<Act>) {
    var n := |trace|;
    n > 0 && (Failed(trace[n - 1]) || (n > 1 && trace[n - 1] == Close && Failed(trace[n - 2])))
  }

  function Opened(trace: seq<Act>): nat {
    if trace == [] then 0
    else Opened(trace[..|trace| - 1]) + (if trace[|trace| - 1] == Dial(true) then 1 else 0)
  }

  function Closed(trace: seq<Act>): nat {
    if trace == [] then 0
    else Closed(trace[..|trace| - 1]) + (if trace[|trace| - 1] == Close then 1 else 0)
  }

  /** A trace that is never Broken has at most one connection open at a time, and has
      closed every connection it opened exactly when it ends without one. */
  lemma {:induction false} ClosedOnce(trace: seq<Act>)
    requires StageAfter(trace) != Broken
    ensures Opened(trace) == Closed(trace) + (if StageAfter(trace) == NoConn then 0 else 1)
  {
    if trace != [] { ClosedOnce(trace[..|trace| - 1]); }
  }

  /** Stages never recover from Broken, so the whole trace was legal if its end is. */
  lemma {:induction false} LegalThroughout(trace: seq<Act>, i: nat)
    requires StageAfter(trace) != Broken && i <= |trace|
    ensures StageAfter(trace[..i]) != Broken
  {
    if i < |trace| {
      LegalThroughout(trace[..|trace| - 1], i);
      assert trace[..|trace| - 1][..i] == trace[..i];
    } else {
      assert trace[..i] == trace;
    }
  }

  /** Every APPEND of a legal trace goes to the mailbox of the latest SELECT, with
      nothing but commands of that selection between the two. */
  lemma {:induction false} AppendTargetsTheOpenMailbox(trace: seq<Act>, i: nat) returns (j: nat)
    requires StageAfter(trace) != Broken && i < |trace|
    requires trace[i].Send? && trace[i].req.Named? && trace[i].req.cmd == Append
    ensures j < i && trace[j] == Send(Named(Select, trace[i].req.mailbox), true)
    ensures forall k :: j < k < i ==> trace[k].Send? && trace[k].req.cmd != Select && trace[k].req.cmd != Logout
  {
    LegalThroughout(trace, i);
    LegalThroughout(trace, i + 1);
    StageStep(trace[..i], trace[i]);
    assert trace[..i + 1] == trace[..i] + [trace[i]];
    j := SelectOf(trace[..i]);
  }

  /** Nothing is sent on a connection before the login on it has succeeded. */
  lemma {:induction false} LoginComesFirst(trace: seq<Act>, i: nat) returns (j: nat)
    requires StageAfter(trace) != Broken && i < |trace| && trace[i].Send?
    ensures 0 < j < i && trace[j].Login? && trace[j].ok && trace[j - 1] == Dial(true)
    ensures forall k :: j < k < i ==> trace[k].Send?
  {
    LegalThroughout(trace, i);
    LegalThroughout(trace, i + 1);
    StageStep(trace[..i], trace[i]);
    assert trace[..i + 1] == trace[..i] + [trace[i]];
    j := LoginOf(trace[..i]);
  }

  lemma {:induction false} LoginOf(trace: seq<Act>) returns (j: nat)
    requires StageAfter(trace).LoggedIn? || StageAfter(trace).Within?
    ensures 0 < j < |trace| && trace[j].Login? && trace[j].ok && trace[j - 1] == Dial(true)
    ensures forall k :: j < k < |trace| ==> trace[k].Send?
  {
    var n := |trace| - 1;
    if trace[n].Login? {
      j := n;
      assert trace[..n] != [] && trace[..n][n - 1] == trace[n - 1];
    } else {
      j := LoginOf(trace[..n]);
    }
  }

  lemma {:induction false} SelectOf(trace: seq<Act>) returns (j: nat)
    requires StageAfter(trace).Within?
    ensures j < |trace| && trace[j] == Send(Named(Select, StageAfter(trace).mailbox), true)
    ensures forall k :: j < k < |trace| ==> trace[k].Send? && trace[k].req.cmd != Select && trace[k].req.cmd != Logout
  {
    var n := |trace| - 1;
    if trace[n].req.cmd == Select {
      j := n;
    } else {
      j := SelectOf(trace[..n]);
    }
  }

  // --------------------------------------------------- what a trace was told

  /** The history of the selection a trace is in, after one more act and the lines it
      brought. */
  function NextHistory(h: seq<Happening>, a: Act, ls: seq<bytes>): seq<Happening> {
    if !a.Send? || !a.ok then h
    else if a.req.cmd == Select then Tolds(EventsOf(ls))
    else if a.req.cmd == Append then h + [Acked]
    else h + Tolds(EventsOf(ls))
  }

  function HistoryOf(trace: seq<Act>, lines: seq<seq<bytes>>): seq<Happening>
    requires |lines| == |trace|
  {
    if trace == [] then []
    else
      var n := |trace| - 1;
      NextHistory(HistoryOf(trace[..n], lines[..n]), trace[n], lines[n])
  }

  /** A completed command contradicts the history of its selection, which a SELECT begins
      anew. What an APPEND is told is not looked at. */
  ghost predicate Raises(h: seq<Happening>, a: Act, ls: seq<bytes>) {
    && a.Send? && a.ok && a.req.cmd != Append
    && Contradicted(if a.req.cmd == Select then [] else h, EventsOf(ls))
  }

  /** The last act of a trace does. */
  ghost predicate Alarms(trace: seq<Act>, lines: seq<seq<bytes>>)
    requires |lines| == |trace|
  {
    trace != [] && var n := |trace| - 1; Raises(HistoryOf(trace[..n], lines[..n]), trace[n], lines[n])
  }

  /** The last thing done contradicts the history, but for closing the connection. */
  ghost predicate EndsInAlarm(trace: seq<Act>, lines: seq<seq<bytes>>)
    requires |lines| == |trace|
  {
    var n := |trace| - 1;
    Alarms(trace, lines) || (n >= 0 && trace[n] == Close && Alarms(trace[..n], lines[..n]))
  }

  /** None does. */
  ghost predicate AlarmFree(trace: seq<Act>, lines: seq<seq<bytes>>)
    requires |lines| == |trace|
  {
    trace == [] ||
    var n := |trace| - 1; AlarmFree(trace[..n], lines[..n]) && !Alarms(trace, lines)
  }

  lemma {:induction false} AlarmFreeMeans(trace: seq<Act>, lines: seq<seq<bytes>>)
    requires |lines| == |trace|
    ensures AlarmFree(trace, lines) <==> forall i :: 0 <= i <= |trace| ==> !Alarms(trace[..i], lines[..i])
  {
    hide Raises, NextHistory;
    assert trace[..|trace|] == trace && lines[..|lines|] == lines;
    if trace != [] {
      var n := |trace| - 1;
      var before, told := trace[..n], lines[..n];
      AlarmFreeMeans(before, told);
      assert forall i :: 0 <= i <= n ==> before[..i] == trace[..i] && told[..i] == lines[..i];
    }
  }

  /** What one more act does to all that. */
  lemma ToldStep(trace: seq<Act>, lines: seq<seq<bytes>>, a: Act, ls: seq<bytes>)
    requires |lines| == |trace|
    ensures var t, l, h := trace + [a], lines + [ls], HistoryOf(trace, lines);
            && HistoryOf(t, l) == NextHistory(h, a, ls)
            && (Alarms(t, l) <==> Raises(h, a, ls))
            && (AlarmFree(t, l) <==> AlarmFree(trace, lines) && !Raises(h, a, ls))
            && (EndsInAlarm(t, l) <==> Raises(h, a, ls) || (a == Close && Alarms(trace, lines)))
  {
    hide Raises, NextHistory;
    assert (trace + [a])[..|trace|] == trace && (lines + [ls])[..|lines|] == lines;
  }

  // ------------------------------------------------------------ the client

  /** Everything outside one client: the servers it talks to, the run's context and
      the counter it shares with the other clients. */
  class World {
    const cfg: Config
    /** Who the client is. */
    const user: bytes
    var script: seq<Answer>
    var ended: bool
    var ticket: nat
    var trace: seq<Act>
    ghost var stage: Stage
    /** What each act of the trace brought, and the history it leaves. */
    ghost var lines: seq<seq<bytes>>
    ghost var told: seq<Happening>
    /** Whether no act of the trace contradicts its history. */
    ghost var free: bool

    constructor (cfg: Config, user: bytes, script: seq<Answer>, ticket: nat)
      ensures this.cfg == cfg && this.user == user && this.script == script && this.ticket == ticket
      ensures !ended && trace == [] && lines == [] && Coherent()
    {
      this.cfg, this.user, this.script, this.ticket := cfg, user, script, ticket;
      ended, trace, stage := false, [], NoConn;
      lines, told, free := [], [], true;
    }

    ghost predicate Coherent()
      reads this
    {
      && stage == StageAfter(trace) && (forall i :: 0 <= i < |trace| ==> Configured(cfg, user, trace[i]))
      && |lines| == |trace| && told == HistoryOf(trace, lines) && free == AlarmFree(trace, lines)
    }

    method Next() returns (a: Answer)
      modifies `script, `ended, `ticket
      ensures a == Head(old(script)) && script == Tail(old(script))
      ensures ended == (old(ended) || a.ended) && ticket == old(ticket) + a.others
      ensures |script| < |old(script)| || ended
    {
      a := Head(script);
      script := Tail(script);
      ended := ended || a.ended;
      ticket := ticket + a.others;
    }

    /** An act, and the lines it brought. */
    method Record(a: Act, ghost ls: seq<bytes>)
      requires Coherent() && Configured(cfg, user, a)
      modifies `trace, `stage, `lines, `told, `free
      ensures Coherent() && trace == old(trace) + [a] && stage == Advance(old(stage), a) && lines == old(lines) + [ls]
      ensures told == NextHistory(old(told), a, ls) && free == (old(free) && !Raises(old(told), a, ls))
      ensures Alarms(trace, lines) <==> Raises(old(told), a, ls)
      ensures EndsInAlarm(trace, lines) <==> Raises(old(told), a, ls) || (a == Close && old(Alarms(trace, lines)))
    {
      hide StageAfter, HistoryOf, AlarmFree, Alarms, EndsInAlarm, Raises, NextHistory;
      StageStep(trace, a);
      ToldStep(trace, lines, a, ls);
      free := free && !Raises(told, a, ls);
      told := NextHistory(told, a, ls);
      lines := lines + [ls];
      trace := trace + [a];
      stage := Advance(stage, a);
    }

    /** Opens a connection, or fails to. */
    method TryDial() returns (ok: bool)
      requires Coherent()
      modifies this
      ensures Coherent() && ok == Head(old(script)).ok
      ensures trace == old(trace) + [Dial(ok)] && stage == Advance(old(stage), Dial(ok))
      ensures told == old(told) && free == old(free)
      ensures !ok ==> EndsInFailure(trace)
      ensures |script| <= |old(script)| && (old(ended) ==> ended)
    {
      var a := Next();
      Record(Dial(a.ok), []);
      if !a.ok { EndsWith(old(trace), Dial(false)); }
      ok := a.ok;
    }

    /** `seq.Add(1) - 1`. */
    method Ticket() returns (n: nat)
      modifies `ticket
      ensures n == old(ticket) && ticket == n + 1
    {
      n := ticket;
      ticket := ticket + 1;
    }
  }

  datatype Failure = Transport | Contradiction(m: Mismatch)

  /** A failure that names the report the responses are contradicted by. */
  ghost predicate Says(err: Option<Failure>, mailbox: bytes, h: seq<Happening>, responses: seq<bytes>) {
    IsAlarm(err) && Names(err.value.m, mailbox, h, EventsOf(responses))
  }

  predicate IsAlarm(err: Option<Failure>) { err.Some? && err.value.Contradiction? }

  function Standing(phase: Phase, mailbox: bytes): Stage {
    match phase
    case Disconnected => NoConn
    case Authenticated => LoggedIn
    case Selected => Within(mailbox)
  }

  class Session {
    var online: bool      // cl != nil
    var phase: Phase
    var user: bytes
    const view: View
    var commands: nat
    /** Everything that has happened in the current selection. */
    ghost var history: seq<Happening>

    constructor ()
      ensures !online && phase == Disconnected && fresh(view)
    {
      online, phase, user, commands, history := false, Disconnected, [], 0, [];
      view := new View();
    }

    /** The session agrees with what it has done on the wire, and its view with what it
        has been told in this selection. */
    ghost predicate Valid(w: World)
      reads this, view, w
    {
      && w.stage == Standing(phase, view.mailbox)
      && online == (phase != Disconnected)
      && (phase == Selected ==> history == w.told && view.State() == Settled(view.mailbox, history))
    }

    /** The untagged responses of a completed command, and the check that follows them. */
    method Absorb(lines: seq<bytes>) returns (err: Option<Failure>)
      requires view.State() == Settled(view.mailbox, history)
      modifies `history, view
      ensures view.mailbox == old(view.mailbox) && history == old(history) + Tolds(EventsOf(lines))
      ensures view.State() == Settled(view.mailbox, history)
      ensures err.Some? <==> Contradicted(old(history), EventsOf(lines))
      ensures err.Some? ==> Says(err, view.mailbox, old(history), lines)
    {
      ghost var mbox, h, es := view.mailbox, history, EventsOf(lines);
      AlarmIffContradicted(mbox, h, es);
      AlarmNames(mbox, h, es);
      FoldSettled(mbox, h, es);
      ReplayIsFloor(mbox, h + Tolds(es));
      view.ApplyUntagged(lines);
      history := h + Tolds(es);
      var m := view.CheckMismatch();
      return if m.Some? then Some(Contradiction(m.value)) else None;
    }

    /** An append of this client's own has been acknowledged. */
    method Acknowledge()
      requires view.State() == Settled(view.mailbox, history)
      modifies `history, view`appended
      ensures history == old(history) + [Acked]
      ensures view.State() == Settled(view.mailbox, history)
    {
      view.appended := view.appended + 1;
      assert (history + [Acked])[..|history|] == history;
      history := history + [Acked];
    }

    /** Closes the connection and forgets it, if there is one. */
    method Hangup(w: World)
      requires w.Coherent()
      modifies `online, `phase, w`trace, w`stage, w`lines, w`told, w`free
      ensures !online && phase == Disconnected && w.Coherent() && w.free == old(w.free)
      ensures EndsInAlarm(w.trace, w.lines)
              == if old(online) then old(Alarms(w.trace, w.lines)) else old(EndsInAlarm(w.trace, w.lines))
      ensures w.trace == old(w.trace) + (if old(online) then [Close] else [])
      ensures w.stage == if old(online) then Advance(old(w.stage), Close) else old(w.stage)
    {
      hide HistoryOf, AlarmFree, Alarms, EndsInAlarm, StageAfter;
      if online {
        w.Record(Close, []);
        online := false;
      }
      phase := Disconnected;
    }
  }

  /** The newest messages: twenty of them, or all there are where there are fewer, and the
      first of an empty mailbox. */
  function RangeOf(count: int): (r: (int, int))
    ensures 1 <= r.0 <= r.1 < r.0 + 20
    ensures r.0 == 1 || r.1 == r.0 + 19
    ensures r.1 == count || (count < 1 && r.1 == 1)
  {
    (if count - 20 + 1 < 1 then 1 else count - 20 + 1, if count < 1 then 1 else count)
  }

  function RequestFor(cmd: Command, v: V): Request {
    match cmd
    case Status | Append => Named(cmd, v.mailbox)
    case Fetch | Fetch2 | Store | Delete => var (from, to) := RangeOf(v.count); Ranged(cmd, from, to)
    case _ => Plain(cmd)
  }

  /** What a client sends next, given where it stands: SELECT before anything else, then
      what the steady state or the profile chooses for this counter. */
  function NextRequest(cfg: Config, phase: Phase, v: V, n: nat): Request
    requires Usable(cfg)
  {
    if phase != Selected then Named(Select, Rotation(cfg, n))
    else
      var cmd := Choice(cfg, v, n);
      if cmd == Select then Named(Select, Rotation(cfg, n + 1)) else RequestFor(cmd, v)
  }

  /** Whether a request sent at counter `n` is one of command `c`, with the views a client
      holds at each counter. */
  function Issues(cfg: Config, view: nat -> V, c: Command): nat -> bool
    requires Usable(cfg)
  {
    (n: nat) => NextRequest(cfg, Selected, view(n), n).cmd == c
  }

  /** The steady state leaves the choice to the profile. */
  predicate ProfileDecides(cfg: Config, v: V) {
    cfg.target == 0 || cfg.target <= Held(v) <= 2 * cfg.target
  }

  /** The profile's law, of what is sent: over any `k` rounds of consecutive counters, the
      requests of clients with a mailbox open, as long as the steady state leaves the choice
      to the profile, are of each command `k` times its configured weight. */
  lemma RequestsFollowTheProfile(cfg: Config, p: Profile, view: nat -> V, c: Command, start: nat, k: nat)
    requires Usable(cfg) && Renders(cfg.weights, p) && forall n: nat :: ProfileDecides(cfg, view(n))
    ensures Sum(cfg.weights) > 0
    ensures Count(Issues(cfg, view, c), start, k * Sum(cfg.weights))
         == k * (if p.WeightOf(c) > 0 then p.WeightOf(c) else 0)
  {
    hide Count, Picked, Sum, Renders;
    ProfileIsHonoured(p, cfg.weights, c, start, k);
    CountSame(Issues(cfg, view, c), Chooses(cfg.weights, c), start, k * Sum(cfg.weights));
  }

  /** Field by field. */
  lemma EveryShare(cfg: Config, p: Profile, view: nat -> V, start: nat)
    requires Usable(cfg) && Renders(cfg.weights, p) && forall n: nat :: ProfileDecides(cfg, view(n))
    ensures var round := Sum(cfg.weights);
            var share := (c: Command) => Count(Issues(cfg, view, c), start, if round > 0 then round else 0);
            && share(List) == Enough(p.list) && share(Status) == Enough(p.status) && share(Select) == Enough(p.select)
            && share(Fetch) == Enough(p.fetch) && share(Fetch2) == Enough(p.fetch2) && share(Store) == Enough(p.store)
            && share(Delete) == Enough(p.delete) && share(Expunge) == Enough(p.expunge)
            && share(Search) == Enough(p.search) && share(Noop) == Enough(p.noop)
            && share(Append) == Enough(p.append) && share(Logout) == Enough(p.logout)
  {
    hide Count, Sum, Renders, Issues;
    ShareIs(cfg, p, view, List, start);
    ShareIs(cfg, p, view, Status, start);
    ShareIs(cfg, p, view, Select, start);
    ShareIs(cfg, p, view, Fetch, start);
    ShareIs(cfg, p, view, Fetch2, start);
    ShareIs(cfg, p, view, Store, start);
    ShareIs(cfg, p, view, Delete, start);
    ShareIs(cfg, p, view, Expunge, start);
    ShareIs(cfg, p, view, Search, start);
    ShareIs(cfg, p, view, Noop, start);
    ShareIs(cfg, p, view, Append, start);
    ShareIs(cfg, p, view, Logout, start);
  }

  function Enough(w: int): nat { if w > 0 then w else 0 }

  lemma ShareIs(cfg: Config, p: Profile, view: nat -> V, c: Command, start: nat)
    requires Usable(cfg) && Renders(cfg.weights, p) && forall n: nat :: ProfileDecides(cfg, view(n))
    ensures Sum(cfg.weights) > 0 && Count(Issues(cfg, view, c), start, Sum(cfg.weights)) == Enough(p.WeightOf(c))
  {
    hide Count, Sum, Renders;
    RequestsFollowTheProfile(cfg, p, view, c, start, 1);
  }

  /** What a request names: an append and a status the mailbox that is open, a fetch, a store
      or a deletion exactly the twenty newest messages, or all there are, and nothing else
      any message. */
  lemma RequestsName(v: V, cmd: Command, m: int)
    ensures var r := RequestFor(cmd, v);
            && r.cmd == cmd
            && (r.Named? <==> cmd == Status || cmd == Append) && (r.Named? ==> r.mailbox == v.mailbox)
            && (r.Ranged? <==> cmd == Fetch || cmd == Fetch2 || cmd == Store || cmd == Delete)
            && (r.Ranged? && v.count > 0 ==> (r.from <= m <= r.to <==> 1 <= m <= v.count && v.count - m < 20))
            && (r.Ranged? && v.count <= 0 ==> r.from == r.to == 1)
  {
  }

  /** What a completed command adds to the selection's history. */
  function Adds(cmd: Command, a: Answer): seq<Happening> {
    if cmd == Append then [Acked] else Tolds(EventsOf(a.lines))
  }

  /** The first legal choice among those for `n`, `n + 1`, ... `n + tries`, else NOOP. */
  function FirstLegal(ws: seq<Weighted>, phase: Phase, n: nat, tries: nat): Command
    requires AllPositive(ws)
    decreases tries
  {
    var c := Picked(ws, n);
    if Legal(phase, c) then c
    else if tries == 0 then Noop
    else FirstLegal(ws, phase, n + 1, tries - 1)
  }

  predicate Fits(phase: Phase, c: Command) {
    phase == Selected || c == List || c == Status || c == Select || c == Logout
  }

  ghost predicate NoneFits(ws: seq<Weighted>, phase: Phase, n: nat, before: nat)
    requires AllPositive(ws)
  {
    forall i: nat :: n <= i < before ==> !Fits(phase, Picked(ws, i))
  }

  /** What that is: of the choices for `n`, `n + 1`, ... the first that may be sent where the
      client stands: anything with a mailbox open, and else only what needs none. */
  lemma {:induction false} FirstLegalMeans(ws: seq<Weighted>, phase: Phase, n: nat, tries: nat) returns (at: nat)
    requires AllPositive(ws) && phase != Disconnected
    ensures n <= at <= n + tries + 1 && NoneFits(ws, phase, n, at)
    ensures at <= n + tries ==> Fits(phase, Picked(ws, at)) && FirstLegal(ws, phase, n, tries) == Picked(ws, at)
    ensures at == n + tries + 1 ==> FirstLegal(ws, phase, n, tries) == Noop
    decreases tries
  {
    hide Picked;
    if Legal(phase, Picked(ws, n)) {
      at := n;
    } else if tries > 0 {
      at := FirstLegalMeans(ws, phase, n + 1, tries - 1);
    } else {
      at := n + 1;
    }
  }

  lemma EndsWith(trace: seq<Act>, a: Act)
    requires Failed(a)
    ensures EndsInFailure(trace + [a]) && EndsInFailure((trace + [a]) + [Close])
  {
  }

  lemma EndsWithLast(trace: seq<Act>)
    requires trace != [] && Failed(trace[|trace| - 1])
    ensures EndsInFailure(trace) && EndsInFailure(trace + [Close]) && EndsInFailure(trace + [])
  {
    assert trace + [] == trace;
  }

  /** A login, and the hanging up that follows a failed one. */
  function LoginActs(user: bytes, ok: bool): seq<Act> {
    if ok then [Login(user, true)] else [Login(user, false), Close]
  }

  lemma NothingTold(h: seq<Happening>)
    ensures !Contradicted(h, EventsOf([])) && h + Tolds(EventsOf([])) == h
  {
  }

  lemma NewSelection(mbox: bytes)
    ensures Settled(mbox, []) == Fresh(mbox)
  {
  }

  /** How many counters a step draws: one, and one more for a SELECT of the profile's. */
  function Tickets(phase: Phase, sent: Command): nat {
    if phase == Selected && sent == Select then 2 else 1
  }

  class Driver {
    const cfg: Config

    constructor (cfg: Config)
      requires Usable(cfg)
      ensures this.cfg == cfg
    {
      this.cfg := cfg;
    }

    method Connect(s: Session, w: World, id: nat) returns (err: Option<Failure>)
      requires Usable(cfg) && w.cfg == cfg && w.Coherent() && s.Valid(w) && s.phase == Disconnected
      requires w.user == UserOf(cfg, id)
      modifies s, s.view, w
      ensures w.Coherent() && s.Valid(w)
      ensures s.phase == if err.None? then Authenticated else Disconnected
      ensures s.user == UserOf(cfg, id)
      ensures err.None? || err == Some(Transport)
      ensures var dialled := old(w.trace) + [Dial(Head(old(w.script)).ok)];
              w.trace == if Head(old(w.script)).ok then dialled + LoginActs(s.user, err.None?) else dialled
      ensures err.Some? ==> EndsInFailure(w.trace)
      ensures w.free == old(w.free)
      ensures |w.script| <= |old(w.script)| && (old(w.ended) ==> w.ended)
    {
      hide StageAfter, HistoryOf, AlarmFree, Alarms, EndsInAlarm, Contradicted, EventsOf, Tolds, Fold, Replay;
      s.user := UserOf(cfg, id);
      var ok := w.TryDial();
      if !ok {
        return Some(Transport);
      }
      s.online := true;
      err := LogIn(s, w);
    }

    method LogIn(s: Session, w: World) returns (err: Option<Failure>)
      requires w.Coherent() && w.stage == Greeted && s.online && s.phase == Disconnected && s.user == w.user
      modifies s, s.view, w
      ensures w.Coherent() && s.Valid(w)
      ensures s.phase == if err.None? then Authenticated else Disconnected
      ensures s.user == old(s.user) && (err.None? || err == Some(Transport))
      ensures w.trace == old(w.trace) + LoginActs(s.user, err.None?)
      ensures err.Some? ==> EndsInFailure(w.trace)
      ensures w.free == old(w.free)
      ensures |w.script| <= |old(w.script)| && (old(w.ended) ==> w.ended)
    {
      hide StageAfter, HistoryOf, AlarmFree, Alarms, EndsInAlarm, Contradicted, EventsOf, Tolds,
           Fold, Replay, AfterLastReport;
      var a := w.Next();
      w.Record(Login(s.user, a.ok), []);
      if !a.ok {
        EndsWith(old(w.trace), Login(s.user, false));
        s.Hangup(w);
        assert w.trace == old(w.trace) + LoginActs(s.user, false);
        return Some(Transport);
      }
      s.phase := Authenticated;
      s.view.Reset([]);
      return None;
    }

    /** Opens the mailbox the rotation names. The floor starts afresh: the selection's
        history is this command's own responses. */
    method DoSelect(s: Session, w: World, n: nat) returns (err: Option<Failure>)
      requires Usable(cfg) && w.cfg == cfg && w.Coherent() && s.Valid(w) && s.phase != Disconnected
      modifies s, s.view, w
      ensures w.Coherent() && s.online
      ensures (|w.script| < |old(w.script)| || w.ended) && |w.script| <= |old(w.script)| && (old(w.ended) ==> w.ended)
      ensures w.trace == old(w.trace) + [Send(Named(Select, Rotation(cfg, n)), Head(old(w.script)).ok)]
      ensures !Head(old(w.script)).ok ==> err == Some(Transport) && w.stage == Failing
      ensures Head(old(w.script)).ok ==>
                && s.Valid(w) && s.phase == Selected && s.view.mailbox == Rotation(cfg, n)
                && s.history == Tolds(EventsOf(Head(old(w.script)).lines))
                && (err.Some? <==> Contradicted([], EventsOf(Head(old(w.script)).lines)))
                && (err.Some? ==> Says(err, Rotation(cfg, n), [], Head(old(w.script)).lines))
      ensures IsAlarm(err) <==> Alarms(w.trace, w.lines)
      ensures IsAlarm(err) <==> EndsInAlarm(w.trace, w.lines)
      ensures w.ticket == old(w.ticket) + Head(old(w.script)).others
      ensures w.free == (old(w.free) && !IsAlarm(err))
    {
      hide StageAfter, HistoryOf, AlarmFree, Alarms, EndsInAlarm, Contradicted, EventsOf, Tolds,
           Fold, Replay, AfterLastReport, Head, Names;
      var mbox := Rotation(cfg, n);
      var a := w.Next();
      w.Record(Send(Named(Select, mbox), a.ok), a.lines);
      if !a.ok {
        return Some(Transport);
      }
      s.phase := Selected;
      s.view.Reset(mbox);
      s.history := [];
      NewSelection(mbox);
      err := s.Absorb(a.lines);
    }

    /** Issues one command and folds its responses into the view. A completed command
        raises the alarm exactly when one of its reports is below the floor of the
        selection's history; what an APPEND is told meanwhile is not looked at. */
    method Run(s: Session, w: World, cmd: Command) returns (err: Option<Failure>)
      requires Usable(cfg) && w.cfg == cfg && w.Coherent() && s.Valid(w) && s.phase == Selected
      requires cmd != Select && Enabled(cfg, cmd)
      modifies s, s.view, w
      ensures w.Coherent()
      ensures (|w.script| < |old(w.script)| || w.ended) && |w.script| <= |old(w.script)| && (old(w.ended) ==> w.ended)
      ensures w.trace == old(w.trace) + [Send(RequestFor(cmd, old(s.view.State())), Head(old(w.script)).ok)]
                         + (if Head(old(w.script)).ok && cmd == Logout then [Close] else [])
      ensures !Head(old(w.script)).ok ==> err == Some(Transport) && w.stage == Failing && s.online
      ensures Head(old(w.script)).ok && cmd == Logout ==> s.Valid(w) && s.phase == Disconnected
      ensures Head(old(w.script)).ok && cmd != Logout ==>
                && s.Valid(w) && s.phase == Selected && s.view.mailbox == old(s.view.mailbox)
                && s.history == old(s.history) + Adds(cmd, Head(old(w.script)))
                && (err.Some? <==> cmd != Append && Contradicted(old(s.history), EventsOf(Head(old(w.script)).lines)))
      ensures Head(old(w.script)).ok && err.Some? ==>
                Says(err, old(s.view.mailbox), old(s.history), Head(old(w.script)).lines)
      ensures IsAlarm(err) <==> EndsInAlarm(w.trace, w.lines)
      ensures s.online ==> (IsAlarm(err) <==> Alarms(w.trace, w.lines))
      ensures w.ticket == old(w.ticket) + Head(old(w.script)).others
      ensures w.free == (old(w.free) && !IsAlarm(err))
    {
      hide StageAfter, HistoryOf, AlarmFree, Alarms, EndsInAlarm, Contradicted, EventsOf, Tolds,
           Fold, Replay, AfterLastReport, Head, Names;
      var req := RequestFor(cmd, V(s.view.mailbox, s.view.count, s.view.baseline, s.view.appended, s.view.mismatch));
      var a := w.Next();
      w.Record(Send(req, a.ok), a.lines);
      if !a.ok {
        return Some(Transport);
      }
      err := Complete(s, w, cmd, a.lines);
    }

    /** What a completed command brings. */
    method Complete(s: Session, w: World, cmd: Command, responses: seq<bytes>) returns (err: Option<Failure>)
      requires w.Coherent() && s.online && s.phase == Selected && s.view.State() == Settled(s.view.mailbox, s.history)
      requires w.stage == if cmd == Logout then Leaving else Within(s.view.mailbox)
      requires w.told == s.history + (if cmd == Append then [Acked] else Tolds(EventsOf(responses)))
      modifies s, s.view, w`trace, w`stage, w`lines, w`told, w`free
      ensures w.Coherent() && s.Valid(w) && s.view.mailbox == old(s.view.mailbox)
      ensures w.trace == old(w.trace) + (if cmd == Logout then [Close] else [])
      ensures s.phase == if cmd == Logout then Disconnected else Selected
      ensures cmd != Logout ==>
                s.history == old(s.history) + (if cmd == Append then [Acked] else Tolds(EventsOf(responses)))
      ensures s.commands == old(s.commands) + 1
      ensures cmd == Append ==> err.None?
      ensures cmd != Append ==> (err.Some? <==> Contradicted(old(s.history), EventsOf(responses)))
      ensures err.Some? ==> Says(err, s.view.mailbox, old(s.history), responses)
      ensures w.free == old(w.free)
      ensures EndsInAlarm(w.trace, w.lines)
              == if cmd == Logout then old(Alarms(w.trace, w.lines)) else old(EndsInAlarm(w.trace, w.lines))
      ensures cmd != Logout ==> w.trace == old(w.trace) && w.lines == old(w.lines)
    {
      hide StageAfter, HistoryOf, AlarmFree, Alarms, EndsInAlarm, Contradicted, EventsOf, Tolds,
           Fold, Replay, AfterLastReport;
      s.commands := s.commands + 1;
      if cmd == Append {
        // Only what this client did: the count itself comes from the server alone.
        s.Acknowledge();
        NothingTold(s.history);
        err := s.Absorb([]);
        return;
      }
      if cmd == Logout {
        s.Hangup(w);
      }
      err := s.Absorb(responses);
    }

    /** The profile's choice for counter `n`, passing over commands `phase` forbids. */
    method PickLegal(phase: Phase, n: nat) returns (cmd: Command)
      requires Usable(cfg)
      ensures cmd == FirstLegal(cfg.weights, phase, n, |cfg.weights|)
      ensures phase == Selected ==> cmd == Picked(cfg.weights, n) && Listed(cfg.weights, cmd)
    {
      cmd := Pick(cfg.weights, n);
      var i := 0;
      while !Legal(phase, cmd) && i < |cfg.weights|
        invariant 0 <= i <= |cfg.weights|
        invariant i == 0 ==> Listed(cfg.weights, cmd)
        invariant cmd == Picked(cfg.weights, n + i)
        invariant FirstLegal(cfg.weights, phase, n, |cfg.weights|)
               == FirstLegal(cfg.weights, phase, n + i, |cfg.weights| - i)
      {
        cmd := Pick(cfg.weights, n + i + 1);
        i := i + 1;
      }
      if !Legal(phase, cmd) {
        cmd := Noop;
      }
    }

    /** The steady state before the profile. */
    method Choose(s: Session, n: nat) returns (cmd: Command)
      requires Usable(cfg) && s.phase == Selected
      ensures cmd == Choice(cfg, s.view.State(), n) && Enabled(cfg, cmd)
    {
      var held := s.view.count + s.view.appended;
      if cfg.target > 0 && held < cfg.target {
        return Append;
      }
      if cfg.target > 0 && held > 2 * cfg.target {
        return Expunge;
      }
      cmd := PickLegal(s.phase, n);
    }

    /** A SELECT that was chosen takes a counter of its own. */
    method Issue(s: Session, w: World, cmd: Command) returns (err: Option<Failure>)
      requires Usable(cfg) && w.cfg == cfg && w.Coherent() && s.Valid(w) && s.phase == Selected
      requires Enabled(cfg, cmd)
      modifies s, s.view, w
      ensures w.Coherent()
      ensures (|w.script| < |old(w.script)| || w.ended) && |w.script| <= |old(w.script)| && (old(w.ended) ==> w.ended)
      ensures (s.Valid(w) && s.phase != Authenticated) || (err.Some? && s.online && w.stage == Failing)
      ensures IsAlarm(err) <==> EndsInAlarm(w.trace, w.lines)
      ensures s.online ==> (IsAlarm(err) <==> Alarms(w.trace, w.lines))
      ensures w.ticket == old(w.ticket) + (if cmd == Select then 1 else 0) + Head(old(w.script)).others
      ensures w.free == (old(w.free) && !IsAlarm(err))
      ensures |w.trace| > |old(w.trace)|
      ensures err == Some(Transport) <==> Failed(w.trace[|w.trace| - 1])
      ensures var req := if cmd == Select then Named(Select, Rotation(cfg, old(w.ticket)))
                         else RequestFor(cmd, old(s.view.State()));
              w.trace[|old(w.trace)|] == Send(req, Head(old(w.script)).ok)
    {
      hide StageAfter, HistoryOf, AlarmFree, Alarms, EndsInAlarm, Contradicted, EventsOf, Tolds,
           Fold, Replay, AfterLastReport;
      if cmd == Select {
        var m := w.Ticket();
        err := DoSelect(s, w, m);
      } else {
        err := Run(s, w, cmd);
      }
    }

    /** Chooses the next command and issues it. */
    method Step(s: Session, w: World) returns (err: Option<Failure>)
      requires Usable(cfg) && w.cfg == cfg && w.Coherent() && s.Valid(w) && s.phase != Disconnected
      modifies s, s.view, w
      ensures w.Coherent()
      ensures (|w.script| < |old(w.script)| || w.ended) && |w.script| <= |old(w.script)| && (old(w.ended) ==> w.ended)
      ensures (s.Valid(w) && s.phase != Authenticated) || (err.Some? && s.online && w.stage == Failing)
      ensures IsAlarm(err) <==> EndsInAlarm(w.trace, w.lines)
      ensures s.online ==> (IsAlarm(err) <==> Alarms(w.trace, w.lines))
      ensures w.free == (old(w.free) && !IsAlarm(err))
      ensures |w.trace| > |old(w.trace)|
      ensures err == Some(Transport) <==> Failed(w.trace[|w.trace| - 1])
      ensures var req := NextRequest(cfg, old(s.phase), old(s.view.State()), old(w.ticket));
              && w.trace[|old(w.trace)|] == Send(req, Head(old(w.script)).ok)
              && w.ticket == old(w.ticket) + Tickets(old(s.phase), req.cmd) + Head(old(w.script)).others
    {
      hide StageAfter, HistoryOf, AlarmFree, Alarms, EndsInAlarm, Contradicted, EventsOf, Tolds,
           Fold, Replay, AfterLastReport, Choice, RequestFor, Rotation, Head;
      var n := w.Ticket();
      if s.phase != Selected {
        err := DoSelect(s, w, n);
        return;
      }
      var cmd := Choose(s, n);
      RequestsName(s.view.State(), cmd, 0);
      err := Issue(s, w, cmd);
    }

    /** One step, and the session dropped if it fails. */
    method StepOrDrop(s: Session, w: World) returns (err: Option<Failure>)
      requires Usable(cfg) && w.cfg == cfg && w.Coherent() && s.Valid(w) && s.phase != Disconnected
      modifies s, s.view, w
      ensures w.Coherent() && s.Valid(w) && s.phase != Authenticated && w.trace != []
      ensures (|w.script| < |old(w.script)| || w.ended) && |w.script| <= |old(w.script)| && (old(w.ended) ==> w.ended)
      ensures err.Some? ==> s.phase == Disconnected
      ensures IsAlarm(err) ==> EndsInAlarm(w.trace, w.lines)
      ensures w.free == (old(w.free) && !IsAlarm(err))
      ensures err == Some(Transport) ==> EndsInFailure(w.trace)
    {
      hide StageAfter, HistoryOf, AlarmFree, Alarms, EndsInAlarm, Contradicted, EventsOf, Tolds,
           Fold, Replay, AfterLastReport, Choice, RequestFor, Rotation, NextRequest, Head, Tickets;
      err := Step(s, w);
      if err.Some? {
        if err == Some(Transport) { EndsWithLast(w.trace); }
        s.Hangup(w);
      }
    }

    /** The whole life of a client. However the outside behaves, what it puts on the
        wire is legal throughout, keeps to its configuration, and every connection it
        opened has been closed once by the time it returns. */
    method RunClient(w: World, id: nat) returns (err: Option<Failure>)
      requires Usable(cfg) && w.cfg == cfg && w.user == UserOf(cfg, id) && w.Coherent() && w.trace == []
      modifies w
      ensures w.Coherent() && StageAfter(w.trace) == NoConn
      ensures Opened(w.trace) == Closed(w.trace)
      ensures err.None? ==> w.ended
      ensures !old(w.ended) ==> w.trace != []
      ensures err == Some(Transport) ==> EndsInFailure(w.trace)
      ensures IsAlarm(err) ==> EndsInAlarm(w.trace, w.lines)
      ensures if AlarmFree(w.trace, w.lines) then !IsAlarm(err)
              else EndsInAlarm(w.trace, w.lines) && (IsAlarm(err) || w.ended)
    {
      hide HistoryOf, Alarms, EndsInAlarm, Contradicted, EventsOf, Tolds, Fold, Replay, Opened, Closed;
      var s := new Session();
      while !w.ended
        invariant fresh(s) && fresh(s.view)
        invariant w.Coherent() && s.Valid(w) && s.phase != Authenticated
        invariant old(w.ended) || !w.ended || w.trace != []
        invariant w.free
        decreases |w.script|, !w.ended
      {
        if s.phase == Disconnected {
          err := Connect(s, w, id);
          if err.Some? {
            ClosedOnce(w.trace);
            return;
          }
        }
        err := StepOrDrop(s, w);
        if err.Some? {
          ClosedOnce(w.trace);
          if w.ended {
            return None;
          }
          return;
        }
      }
      s.Hangup(w);
      ClosedOnce(w.trace);
      return None;
    }
  }
}
