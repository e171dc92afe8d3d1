/** internal/imapdrv/commands.go: the weighted command profile and the deterministic
    choice of a command from a counter. */
module ImapCommands {
  import opened Counting
  import Sorting

  datatype Command =
    | List | Status | Select | Fetch | Fetch2 | Store
    | Delete | Expunge | Search | Noop | Append | Logout

  function Name(c: Command): string {
    match c
    case List => "LIST"
    case Status => "STATUS"
    case Select => "SELECT"
    case Fetch => "FETCH"
    case Fetch2 => "FETCH2"
    case Store => "STORE"
    case Delete => "DELETE"
    case Expunge => "EXPUNGE"
    case Search => "SEARCH"
    case Noop => "NOOP"
    case Append => "APPEND"
    case Logout => "LOGOUT"
  }

  datatype Profile = Profile(
    list: int, status: int, select: int, fetch: int, fetch2: int, store: int,
    delete: int, expunge: int, search: int, noop: int, append: int, logout: int)
  {
    function WeightOf(c: Command): int {
      match c
      case List => list
      case Status => status
      case Select => select
      case Fetch => fetch
      case Fetch2 => fetch2
      case Store => store
      case Delete => delete
      case Expunge => expunge
      case Search => search
      case Noop => noop
      case Append => append
      case Logout => logout
    }
  }

  datatype Weighted = Weighted(cmd: Command, weight: int)

  const Declared: seq<Command> :=
    [List, Status, Select, Fetch, Fetch2, Store, Delete, Expunge, Search, Noop, Append, Logout]

  function Table(p: Profile): seq<Weighted> {
    seq(|Declared|, i requires 0 <= i < |Declared| => Weighted(Declared[i], p.WeightOf(Declared[i])))
  }

  predicate AllPositive(ws: seq<Weighted>) {
    forall w :: w in ws ==> w.weight > 0
  }

  /** The entries that can ever be chosen, in their order. */
  function Positive(ws: seq<Weighted>): (r: seq<Weighted>)
    ensures AllPositive(r)
    ensures forall w :: w in r <==> w in ws && w.weight > 0
  {
    if ws == [] then []
    else
      var last := ws[|ws| - 1];
      assert ws == ws[..|ws| - 1] + [last];
      Positive(ws[..|ws| - 1]) + (if last.weight > 0 then [last] else [])
  }

  predicate ByName(a: Weighted, b: Weighted) {
    Sorting.LexLeq(Name(a.cmd), Name(b.cmd))
  }

  lemma ByNameIsTotal()
    ensures Sorting.Total(ByName)
  {
    forall x: Weighted, y: Weighted ensures ByName(x, y) || ByName(y, x) {
      Sorting.LexLeqTotal(Name(x.cmd), Name(y.cmd));
    }
    forall x: Weighted, y: Weighted, z: Weighted | ByName(x, y) && ByName(y, z) ensures ByName(x, z) {
      Sorting.LexLeqTransitive(Name(x.cmd), Name(y.cmd), Name(z.cmd));
    }
  }

  /** A list is a rendering of profile `p` when it holds exactly the enabled commands,
      ordered by name. */
  ghost predicate Renders(ws: seq<Weighted>, p: Profile) {
    && multiset(ws) == multiset(Positive(Table(p)))
    && Sorting.Ordered(ByName, ws)
  }

  method Keep(all: seq<Weighted>) returns (out: seq<Weighted>)
    ensures out == Positive(all)
  {
    out := [];
    for i := 0 to |all|
      invariant out == Positive(all[..i])
    {
      assert all[..i + 1][..i] == all[..i];
      if all[i].weight > 0 {
        out := out + [all[i]];
      }
    }
    assert all[..|all|] == all;
  }

  method Weights(p: Profile) returns (out: seq<Weighted>)
    ensures Renders(out, p)
    ensures AllPositive(out)
  {
    out := Keep(Table(p));
    ByNameIsTotal();
    Sorting.SortOrders(ByName, out);
    out := Sorting.Sort(ByName, out);
    RenderedIsPositive(out, p);
  }

  lemma RenderedIsPositive(ws: seq<Weighted>, p: Profile)
    requires multiset(ws) == multiset(Positive(Table(p)))
    ensures forall w :: w in ws ==> w in Positive(Table(p))
    ensures AllPositive(ws)
  {
    forall w | w in ws ensures w in Positive(Table(p)) { assert w in multiset(ws); }
  }

  /** The sum of the weights. */
  function Sum(ws: seq<Weighted>): int {
    if ws == [] then 0 else ws[0].weight + Sum(ws[1..])
  }

  lemma {:induction false} SumAppend(ws: seq<Weighted>, w: Weighted)
    ensures Sum(ws + [w]) == Sum(ws) + w.weight
  {
    if ws == [] {
      assert ws + [w] == [w];
    } else {
      assert (ws + [w])[1..] == ws[1..] + [w];
      SumAppend(ws[1..], w);
    }
  }

  lemma {:induction false} SumPositive(ws: seq<Weighted>)
    requires AllPositive(ws)
    ensures Sum(ws) >= |ws|
  {
    if ws != [] {
      assert ws[0] in ws;
      SumPositive(ws[1..]);
    }
  }

  method TotalWeight(ws: seq<Weighted>) returns (n: int)
    ensures n == Sum(ws)
  {
    n := 0;
    for i := 0 to |ws|
      invariant n == Sum(ws[..i])
    {
      SumAppend(ws[..i], ws[i]);
      assert ws[..i + 1] == ws[..i] + [ws[i]];
      n := n + ws[i].weight;
    }
    assert ws[..|ws|] == ws;
  }

  /** The command whose span of slots contains `slot`, the spans laid end to end. */
  function AtSlot(ws: seq<Weighted>, slot: nat): Command
    requires AllPositive(ws) && slot < Sum(ws)
  {
    if slot < ws[0].weight then ws[0].cmd
    else assert ws[0] in ws; AtSlot(ws[1..], slot - ws[0].weight)
  }

  /** Its span starts where the weights before it end. */
  lemma {:induction false} SpansInOrder(ws: seq<Weighted>, i: nat, slot: nat)
    requires AllPositive(ws) && i < |ws| && Sum(ws[..i]) <= slot < Sum(ws[..i]) + ws[i].weight
    ensures slot < Sum(ws) && AtSlot(ws, slot) == ws[i].cmd
  {
    SumPositive(ws[1..]);
    assert ws[0] in ws;
    if i > 0 {
      assert ws[..i][1..] == ws[1..][..i - 1];
      SumPositive(ws[..i][1..]);
      SpansInOrder(ws[1..], i - 1, slot - ws[0].weight);
    }
  }

  function Picked(ws: seq<Weighted>, n: nat): Command
    requires AllPositive(ws)
  {
    SumPositive(ws);
    if Sum(ws) == 0 then Noop else AtSlot(ws, n % Sum(ws))
  }

  method Pick(ws: seq<Weighted>, n: nat) returns (cmd: Command)
    requires AllPositive(ws)
    ensures cmd == Picked(ws, n)
    ensures ws == [] ==> cmd == Noop
    ensures ws != [] ==> exists i :: 0 <= i < |ws| && cmd == ws[i].cmd
  {
    SumPositive(ws);
    var sum := TotalWeight(ws);
    if sum == 0 {
      return Noop;
    }
    var slot := n % sum;
    var i := 0;
    while slot >= ws[i].weight
      invariant 0 <= i < |ws|
      invariant 0 <= slot < Sum(ws[i..])
      invariant AllPositive(ws[i..]) && AtSlot(ws[i..], slot) == Picked(ws, n)
      decreases |ws| - i
    {
      assert ws[i..][1..] == ws[i + 1..];
      assert ws[i] in ws;
      slot := slot - ws[i].weight;
      i := i + 1;
    }
    cmd := ws[i].cmd;
  }

  // ------------------------------------------------------- proportions

  /** The total weight `ws` gives to command `c`. */
  function WeightIn(ws: seq<Weighted>, c: Command): int {
    if ws == [] then 0
    else (if ws[0].cmd == c then ws[0].weight else 0) + WeightIn(ws[1..], c)
  }

  function Chooses(ws: seq<Weighted>, c: Command): nat -> bool
    requires AllPositive(ws)
  {
    (n: nat) => Picked(ws, n) == c
  }

  function SlotHolds(ws: seq<Weighted>, c: Command): nat -> bool
    requires AllPositive(ws)
  {
    (n: nat) => n < Sum(ws) && AtSlot(ws, n) == c
  }

  lemma {:induction false} AllOrNothing(p: nat -> bool, hit: bool, start: nat, len: nat)
    requires forall n: nat :: start <= n < start + len ==> p(n) == hit
    ensures Count(p, start, len) == if hit then len else 0
  {
    if len > 0 { AllOrNothing(p, hit, start, len - 1); }
  }

  /** The first span of a round belongs to the first entry. */
  lemma RoundHead(ws: seq<Weighted>, c: Command)
    requires AllPositive(ws) && ws != []
    ensures ws[0].weight > 0
    ensures Count(SlotHolds(ws, c), 0, ws[0].weight) == if ws[0].cmd == c then ws[0].weight else 0
  {
    var w, rest := ws[0], ws[1..];
    assert w in ws;
    SumPositive(rest);
    var p := SlotHolds(ws, c);
    forall n: nat | 0 <= n < 0 + w.weight ensures p(n) == (w.cmd == c) {
      assert n < Sum(ws) && AtSlot(ws, n) == w.cmd;
    }
    AllOrNothing(p, w.cmd == c, 0, w.weight);
  }

  /** What follows the first span is the round of the remaining entries. */
  lemma RoundTail(ws: seq<Weighted>, c: Command)
    requires AllPositive(ws) && ws != []
    ensures ws[0].weight > 0 && Sum(ws[1..]) >= 0
    ensures Count(SlotHolds(ws, c), ws[0].weight, Sum(ws[1..])) == Count(SlotHolds(ws[1..], c), 0, Sum(ws[1..]))
  {
    var w, rest := ws[0], ws[1..];
    assert w in ws;
    SumPositive(rest);
    var p, q := SlotHolds(ws, c), SlotHolds(rest, c);
    forall n: nat | w.weight <= n < w.weight + Sum(rest) ensures p(n) == q(n - w.weight + 0) {
      assert AtSlot(ws, n) == AtSlot(rest, n - w.weight);
    }
    CountAgrees(p, q, w.weight, 0, Sum(rest));
  }

  lemma NothingCounted(p: nat -> bool, start: nat)
    ensures Count(p, start, 0) == 0
  {
  }

  /** One full round of slots gives every command as many of them as it weighs. */
  lemma {:induction false} RoundShares(ws: seq<Weighted>, c: Command)
    requires AllPositive(ws)
    ensures Sum(ws) >= 0 && Count(SlotHolds(ws, c), 0, Sum(ws)) == WeightIn(ws, c)
  {
    hide Count, SlotHolds;
    SumPositive(ws);
    if ws == [] {
      NothingCounted(SlotHolds(ws, c), 0);
    } else {
      RoundShares(ws[1..], c);
      RoundHead(ws, c);
      RoundTail(ws, c);
      CountSplit(SlotHolds(ws, c), 0, ws[0].weight, Sum(ws[1..]));
    }
  }

  /** Any `k` whole rounds of consecutive counters, wherever they start, choose every
      command exactly `k` times its weight. */
  lemma PickSpreads(ws: seq<Weighted>, c: Command, start: nat, k: nat)
    requires AllPositive(ws) && ws != []
    ensures Sum(ws) > 0 && Count(Chooses(ws, c), start, k * Sum(ws)) == k * WeightIn(ws, c)
  {
    SumPositive(ws);
    var s := Sum(ws);
    var p := Chooses(ws, c);
    forall n: nat ensures p(n + s) == p(n) {
      ResidueIsPeriodic(s, n % s);
      assert IsResidue(s, n % s)(n + s) == IsResidue(s, n % s)(n);
    }
    ManyPeriods(p, start, s, k);
    forall n: nat | 0 <= n < s ensures p(n) == SlotHolds(ws, c)(n - 0 + 0) {
      ModOfShift(s, 0, n);
    }
    CountAgrees(p, SlotHolds(ws, c), 0, 0, s);
    RoundShares(ws, c);
  }

  lemma {:induction false} WeightInSplit(a: seq<Weighted>, b: seq<Weighted>, c: Command)
    ensures WeightIn(a + b, c) == WeightIn(a, c) + WeightIn(b, c)
  {
    if a == [] {
      assert a + b == b;
    } else {
      assert (a + b)[1..] == a[1..] + b;
      WeightInSplit(a[1..], b, c);
    }
  }

  lemma TakeOut(b: seq<Weighted>, j: nat, c: Command)
    requires j < |b|
    ensures multiset(b) == multiset{b[j]} + multiset(b[..j] + b[j + 1..])
    ensures WeightIn(b, c) == (if b[j].cmd == c then b[j].weight else 0) + WeightIn(b[..j] + b[j + 1..], c)
  {
    var tail := [b[j]] + b[j + 1..];
    assert b == b[..j] + tail;
    WeightInSplit(b[..j], tail, c);
    WeightInSplit(b[..j], b[j + 1..], c);
    assert tail[1..] == b[j + 1..];
  }

  lemma TakenFromBoth(a: multiset<Weighted>, b: multiset<Weighted>, x: Weighted)
    requires multiset{x} + a == multiset{x} + b
    ensures a == b
  {
    assert a == (multiset{x} + a) - multiset{x} && b == (multiset{x} + b) - multiset{x};
  }

  lemma {:induction false} WeightInPermutes(a: seq<Weighted>, b: seq<Weighted>, c: Command)
    requires multiset(a) == multiset(b)
    ensures WeightIn(a, c) == WeightIn(b, c)
  {
    if a == [] {
      assert |multiset(b)| == 0;
    } else {
      assert a[0] in multiset(b);
      var j :| 0 <= j < |b| && b[j] == a[0];
      var rest := b[..j] + b[j + 1..];
      TakeOut(b, j, c);
      assert a == [a[0]] + a[1..];
      TakenFromBoth(multiset(a[1..]), multiset(rest), a[0]);
      WeightInPermutes(a[1..], rest, c);
    }
  }

  /** A command listed once keeps its weight when the list is filtered. */
  lemma {:induction false} WeightInPositive(ws: seq<Weighted>, c: Command, i: nat)
    requires forall j :: 0 <= j < |ws| && ws[j].cmd == c ==> j == i
    requires i < |ws| ==> ws[i].cmd == c
    ensures WeightIn(Positive(ws), c) == if i < |ws| && ws[i].weight > 0 then ws[i].weight else 0
  {
    if ws != [] {
      var init, last := ws[..|ws| - 1], ws[|ws| - 1];
      WeightInPositive(init, c, i);
      WeightInSplit(Positive(init), if last.weight > 0 then [last] else [], c);
      assert WeightIn([last], c) == if last.cmd == c then last.weight else 0;
    }
  }

  function Index(c: Command): (i: nat)
    ensures i < |Declared| && Declared[i] == c
  {
    match c
    case List => 0
    case Status => 1
    case Select => 2
    case Fetch => 3
    case Fetch2 => 4
    case Store => 5
    case Delete => 6
    case Expunge => 7
    case Search => 8
    case Noop => 9
    case Append => 10
    case Logout => 11
  }

  lemma ListedOnce(p: Profile, c: Command)
    ensures Index(c) < |Table(p)| && Table(p)[Index(c)] == Weighted(c, p.WeightOf(c))
    ensures forall j :: 0 <= j < |Table(p)| && Table(p)[j].cmd == c ==> j == Index(c)
  {
  }

  /** The run's command mix is its profile: over any window of `k` rounds a command is
      chosen `k` times its configured weight, and never when that weight is zero. */
  lemma ProfileIsHonoured(p: Profile, ws: seq<Weighted>, c: Command, start: nat, k: nat)
    requires Renders(ws, p) && ws != []
    ensures AllPositive(ws) && Sum(ws) > 0
    ensures Count(Chooses(ws, c), start, k * Sum(ws)) == k * (if p.WeightOf(c) > 0 then p.WeightOf(c) else 0)
  {
    var kept := Positive(Table(p));
    RenderedIsPositive(ws, p);
    PickSpreads(ws, c, start, k);
    WeightInPermutes(ws, kept, c);
    ListedOnce(p, c);
    WeightInPositive(Table(p), c, Index(c));
  }

  /** Only commands with a positive weight are ever picked. */
  lemma PickedIsEnabled(p: Profile, ws: seq<Weighted>, n: nat)
    requires Renders(ws, p) && ws != []
    ensures AllPositive(ws) && p.WeightOf(Picked(ws, n)) > 0
  {
    RenderedIsPositive(ws, p);
    SumPositive(ws);
    SlotIsListed(ws, n % Sum(ws));
  }

  lemma {:induction false} SlotIsListed(ws: seq<Weighted>, slot: nat)
    requires AllPositive(ws) && slot < Sum(ws)
    ensures exists w :: w in ws && w.cmd == AtSlot(ws, slot)
  {
    assert ws[0] in ws;
    if slot >= ws[0].weight {
      SlotIsListed(ws[1..], slot - ws[0].weight);
      var w :| w in ws[1..] && w.cmd == AtSlot(ws[1..], slot - ws[0].weight);
      assert w in ws;
    }
  }

  lemma NamesDiffer(c: Command, d: Command)
    requires Name(c) == Name(d)
    ensures c == d
  {
    assert |Name(c)| == |Name(d)| && Name(c)[0] == Name(d)[0] && Name(c)[1] == Name(d)[1] && Name(c)[2] == Name(d)[2];
  }

  lemma ByNameTellsApart(ws: seq<Weighted>, p: Profile, x: Weighted, y: Weighted)
    requires Renders(ws, p) && x in ws && y in ws && ByName(x, y) && ByName(y, x)
    ensures x == y
  {
    RenderedIsPositive(ws, p);
    Sorting.LexLeqTotal(Name(x.cmd), Name(y.cmd));
    NamesDiffer(x.cmd, y.cmd);
    ListedOnce(p, x.cmd);
  }

  /** Determinism: there is one list that renders a profile, so two runs with one profile
      make the same choices for the same counters. */
  lemma RenderingIsUnique(ws: seq<Weighted>, vs: seq<Weighted>, p: Profile)
    requires Renders(ws, p) && Renders(vs, p)
    ensures ws == vs
  {
    forall x, y | x in ws && y in ws && ByName(x, y) && ByName(y, x) ensures x == y { ByNameTellsApart(ws, p, x, y); }
    Sorting.OrderIsUnique(ByName, ws, vs);
  }

  function DefaultProfile(): Profile { Profile(5, 5, 10, 30, 10, 15, 5, 5, 5, 5, 30, 2) }

  function DefaultTurns(): seq<Weighted> {
    [Weighted(Append, 30), Weighted(Delete, 5), Weighted(Expunge, 5), Weighted(Fetch, 30), Weighted(Fetch2, 10),
     Weighted(List, 5), Weighted(Logout, 2), Weighted(Noop, 5), Weighted(Search, 5), Weighted(Select, 10),
     Weighted(Status, 5), Weighted(Store, 15)]
  }

  lemma {:induction false} PositiveKeepsAll(ws: seq<Weighted>)
    requires AllPositive(ws)
    ensures Positive(ws) == ws
  {
    if ws != [] {
      assert ws == ws[..|ws| - 1] + [ws[|ws| - 1]];
      PositiveKeepsAll(ws[..|ws| - 1]);
    }
  }

  lemma NamesInOrder()
    ensures && Sorting.LexLeq(Name(Append), Name(Delete)) && Sorting.LexLeq(Name(Delete), Name(Expunge))
            && Sorting.LexLeq(Name(Expunge), Name(Fetch)) && Sorting.LexLeq(Name(Fetch), Name(Fetch2))
            && Sorting.LexLeq(Name(Fetch2), Name(List)) && Sorting.LexLeq(Name(List), Name(Logout))
            && Sorting.LexLeq(Name(Logout), Name(Noop)) && Sorting.LexLeq(Name(Noop), Name(Search))
            && Sorting.LexLeq(Name(Search), Name(Select)) && Sorting.LexLeq(Name(Select), Name(Status))
            && Sorting.LexLeq(Name(Status), Name(Store))
  {
    hide Sorting.LexLeq;
    Smaller("APPEND", "DELETE", 0);
    Smaller("DELETE", "EXPUNGE", 0);
    Smaller("EXPUNGE", "FETCH", 0);
    Sorting.LexLeqMeans("FETCH", "FETCH2");
    Smaller("FETCH2", "LIST", 0);
    Smaller("LIST", "LOGOUT", 1);
    Smaller("LOGOUT", "NOOP", 0);
    Smaller("NOOP", "SEARCH", 0);
    Smaller("SEARCH", "SELECT", 2);
    Smaller("SELECT", "STATUS", 1);
    Smaller("STATUS", "STORE", 2);
  }

  lemma Smaller(a: string, b: string, i: nat)
    requires Sorting.SmallerAt(a, b, i)
    ensures Sorting.LexLeq(a, b)
  {
    Sorting.LexLeqMeans(a, b);
  }

  /** A command's turn among them. */
  function TurnOf(c: Command): (i: nat)
    ensures i < |DefaultTurns()| && DefaultTurns()[i] == Weighted(c, DefaultProfile().WeightOf(c))
    ensures forall j :: 0 <= j < |DefaultTurns()| && DefaultTurns()[j].cmd == c ==> j == i
  {
    match c
    case Append => 0
    case Delete => 1
    case Expunge => 2
    case Fetch => 3
    case Fetch2 => 4
    case List => 5
    case Logout => 6
    case Noop => 7
    case Search => 8
    case Select => 9
    case Status => 10
    case Store => 11
  }

  predicate EachOnce(ws: seq<Weighted>) {
    forall i, j :: 0 <= i < j < |ws| ==> ws[i] != ws[j]
  }

  lemma {:induction false} CountsEachOnce(ws: seq<Weighted>, x: Weighted)
    requires EachOnce(ws)
    ensures multiset(ws)[x] == if x in ws then 1 else 0
  {
    if ws != [] {
      var init, last := ws[..|ws| - 1], ws[|ws| - 1];
      assert ws == init + [last];
      CountsEachOnce(init, x);
      assert last !in init;
    }
  }

  lemma DefaultIsListed()
    ensures multiset(DefaultTurns()) == multiset(Table(DefaultProfile()))
  {
    hide DefaultTurns, Table, DefaultProfile;
    var p, turns := DefaultProfile(), DefaultTurns();
    TurnsDiffer();
    forall x: Weighted ensures multiset(turns)[x] == multiset(Table(p))[x] {
      ListedOnce(p, x.cmd);
      var i := TurnOf(x.cmd);
      CountsEachOnce(turns, x);
      CountsEachOnce(Table(p), x);
    }
  }

  lemma TurnsDiffer()
    ensures EachOnce(DefaultTurns()) && EachOnce(Table(DefaultProfile()))
  {
    hide DefaultTurns, Table;
    forall i, j | 0 <= i < j < |DefaultTurns()| ensures DefaultTurns()[i] != DefaultTurns()[j] {
      var k := TurnOf(DefaultTurns()[j].cmd);
    }
    forall i, j | 0 <= i < j < |Table(DefaultProfile())|
      ensures Table(DefaultProfile())[i] != Table(DefaultProfile())[j]
    {
      ListedOnce(DefaultProfile(), Table(DefaultProfile())[j].cmd);
    }
  }

  lemma TurnsAreInOrder()
    ensures Sorting.Ordered(ByName, DefaultTurns()) && AllPositive(DefaultTurns())
  {
    hide Name;
    NamesInOrder();
    ByNameIsTotal();
    Sorting.NextIsEnough(ByName, DefaultTurns());
  }

  lemma SumFrom(ws: seq<Weighted>, i: nat)
    requires i < |ws|
    ensures Sum(ws[i..]) == ws[i].weight + Sum(ws[i + 1..])
  {
    assert ws[i..][1..] == ws[i + 1..];
  }

  lemma TurnsAddUp()
    ensures Sum(DefaultTurns()) == 127
  {
    hide Sum;
    var t := DefaultTurns();
    SumOfNothing();
    assert t[0..] == t && t[12..] == [];
    SumFrom(t, 11);
    SumFrom(t, 10);
    SumFrom(t, 9);
    SumFrom(t, 8);
    SumFrom(t, 7);
    SumFrom(t, 6);
    assert Sum(t[6..]) == 42;
    SumFrom(t, 5);
    SumFrom(t, 4);
    SumFrom(t, 3);
    SumFrom(t, 2);
    SumFrom(t, 1);
    SumFrom(t, 0);
  }

  lemma SumOfNothing()
    ensures Sum([]) == 0
  {
  }

  /** The default profile's turns: thirty appends, five deletions and so on, 127 in all. */
  lemma DefaultRenders(ws: seq<Weighted>)
    requires Renders(ws, DefaultProfile())
    ensures ws == DefaultTurns() && Sum(ws) == 127
  {
    hide Name, DefaultTurns, Table, Positive, Sorting.Ordered;
    var p, turns := DefaultProfile(), DefaultTurns();
    TurnsAreInOrder();
    DefaultIsListed();
    TurnsAddUp();
    DefaultIsPositive();
    RenderingIsUnique(ws, turns, p);
  }

  lemma DefaultIsPositive()
    ensures Positive(Table(DefaultProfile())) == Table(DefaultProfile())
  {
    PositiveKeepsAll(Table(DefaultProfile()));
  }
}
