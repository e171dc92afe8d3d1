/** internal/stats/live.go: a table that prints, every interval, what happened in it. */
module LiveTable {
  import opened Sorting
  import opened Stats

  /** What is written out: the column names, or one interval's line. */
  datatype Row = Header(columns: seq<string>) | Line(columns: seq<string>, deltas: seq<int>, errs: int)

  /** The number printed under `name`, 0 when there is no such column. */
  function Cell(columns: seq<string>, deltas: seq<int>, name: string): int {
    if columns == [] || deltas == [] then 0
    else if columns[0] == name then deltas[0]
    else Cell(columns[1..], deltas[1..], name)
  }

  function ColumnSum(printed: seq<Row>, name: string): int {
    if printed == [] then 0
    else
      var r := printed[|printed| - 1];
      ColumnSum(printed[..|printed| - 1], name) + (if r.Line? then Cell(r.columns, r.deltas, name) else 0)
  }

  function ErrorSum(printed: seq<Row>): int {
    if printed == [] then 0
    else
      var r := printed[|printed| - 1];
      ErrorSum(printed[..|printed| - 1]) + (if r.Line? then r.errs else 0)
  }

  predicate Distinct(s: seq<string>) {
    forall i, j :: 0 <= i < j < |s| ==> s[i] != s[j]
  }

  lemma {:induction false} CellAt(columns: seq<string>, deltas: seq<int>, i: nat)
    requires Distinct(columns) && |deltas| == |columns| && i < |columns|
    ensures Cell(columns, deltas, columns[i]) == deltas[i]
  {
    if i > 0 {
      assert columns[0] != columns[i];
      CellAt(columns[1..], deltas[1..], i - 1);
    }
  }

  lemma {:induction false} NoCell(columns: seq<string>, deltas: seq<int>, name: string)
    requires name !in columns
    ensures Cell(columns, deltas, name) == 0
  {
    if columns != [] && deltas != [] {
      assert columns[0] in columns;
      NoCell(columns[1..], deltas[1..], name);
    }
  }

  lemma PrintedOne(printed: seq<Row>, r: Row)
    ensures forall name :: ColumnSum(printed + [r], name)
              == ColumnSum(printed, name) + (if r.Line? then Cell(r.columns, r.deltas, name) else 0)
    ensures ErrorSum(printed + [r]) == ErrorSum(printed) + (if r.Line? then r.errs else 0)
  {
  }

  function Get(m: map<string, nat>, name: string): nat {
    if name in m then m[name] else 0
  }

  function ErrorsOf(s: Summary): map<string, nat> {
    map name | name in s.commands :: s.commands[name].errors
  }

  /** A summary's total is the sum of its commands' errors. */
  ghost predicate AddsUp(s: Summary) {
    s.errors == SumOver(ErrorsOf(s), s.commands.Keys)
  }

  /** Every summary a collector makes adds up. */
  lemma SummariesAddUp(s: Summary, log: seq<Obs>)
    requires Summarises(s, log)
    ensures AddsUp(s)
  {
    CountsSum(log, Bad);
    SumAgrees(ErrorsOf(s), Counts(log, Bad), NamesIn(log));
  }

  /** Setting one entry moves the sum by what that entry moves. */
  lemma SumSet(m: map<string, nat>, k: string, x: nat)
    ensures var n := m[k := x]; SumOver(n, n.Keys) == SumOver(m, m.Keys) - Get(m, k) + x
  {
    var n := m[k := x];
    var rest := m.Keys - {k};
    SumTake(n, n.Keys, k);
    assert n.Keys - {k} == rest;
    SumAgrees(n, m, rest);
    if k in m {
      SumTake(m, m.Keys, k);
    } else {
      assert rest == m.Keys;
    }
  }

  /** The columns are the known names, each once, in order. */
  ghost predicate InOrder(columns: seq<string>, known: set<string>) {
    Ascending(columns) && forall name :: name in columns <==> name in known
  }

  /** Each name strictly after the one before it. */
  predicate Ascending(s: seq<string>) {
    |s| < 2 || (s[0] != s[1] && LexLeq(s[0], s[1]) && Ascending(s[1..]))
  }

  lemma {:induction false} AscendingIff(s: seq<string>)
    ensures Ascending(s) <==> Ordered(LexLeq, s) && Distinct(s)
  {
    hide LexLeq;
    if |s| >= 2 {
      var t := s[1..];
      AscendingIff(t);
      if Ascending(s) {
        forall j | 0 < j < |s| ensures LexLeq(s[0], s[j]) && s[0] != s[j] { FirstIsLeast(s, j); }
        forall i, j | 0 <= i < j < |s| ensures LexLeq(s[i], s[j]) && s[i] != s[j] {
          if i > 0 { assert t[i - 1] == s[i] && t[j - 1] == s[j]; }
        }
      }
      if Ordered(LexLeq, s) && Distinct(s) {
        forall i, j | 0 <= i < j < |t| ensures LexLeq(t[i], t[j]) && t[i] != t[j] {
          assert t[i] == s[i + 1] && t[j] == s[j + 1];
        }
      }
    }
  }

  lemma FirstIsLeast(s: seq<string>, j: nat)
    requires |s| >= 2 && s[0] != s[1] && LexLeq(s[0], s[1]) && 0 < j < |s|
    requires Ordered(LexLeq, s[1..]) && Distinct(s[1..])
    ensures LexLeq(s[0], s[j]) && s[0] != s[j]
  {
    hide LexLeq;
    if j > 1 {
      assert s[1..][0] == s[1] && s[1..][j - 1] == s[j];
      assert LexLeq(s[1], s[j]) && s[1] != s[j];
      LexLeqTransitive(s[0], s[1], s[j]);
      LexLeqTotal(s[0], s[1]);
    }
  }

  ghost predicate Totals(printed: seq<Row>, prev: map<string, nat>) {
    forall name :: ColumnSum(printed, name) == Get(prev, name)
  }

  /** A header changes no total. */
  lemma HeaderAddsNothing(printed: seq<Row>, columns: seq<string>, prev: map<string, nat>)
    ensures Totals(printed, prev) ==> Totals(printed + [Header(columns)], prev)
    ensures ErrorSum(printed + [Header(columns)]) == ErrorSum(printed)
  {
  }

  /** A line of differences moves every column's total from the old count to the new. */
  lemma LineAdds(printed: seq<Row>, columns: seq<string>, deltas: seq<int>, errs: int,
                 before: map<string, nat>, now: map<string, nat>)
    requires Totals(printed, before) && Distinct(columns) && |deltas| == |columns|
    requires forall name :: name in now <==> name in columns
    requires before.Keys <= now.Keys
    requires forall k :: 0 <= k < |columns| ==> deltas[k] == Get(now, columns[k]) - Get(before, columns[k])
    ensures Totals(printed + [Line(columns, deltas, errs)], now)
    ensures ErrorSum(printed + [Line(columns, deltas, errs)]) == ErrorSum(printed) + errs
  {
    var line := Line(columns, deltas, errs);
    PrintedOne(printed, line);
    forall name ensures ColumnSum(printed + [line], name) == Get(now, name) {
      if name in columns {
        var k :| 0 <= k < |columns| && columns[k] == name;
        CellAt(columns, deltas, k);
      } else {
        NoCell(columns, deltas, name);
      }
    }
  }

  function CountsOf(s: Summary): map<string, nat> {
    map name | name in s.commands :: s.commands[name].count
  }

  /** Under each column, what its count grew by. */
  function Differences(columns: seq<string>, now: map<string, nat>, before: map<string, nat>): (r: seq<int>)
    ensures |r| == |columns| && forall k :: 0 <= k < |r| ==> r[k] == Get(now, columns[k]) - Get(before, columns[k])
  {
    seq(|columns|, i requires 0 <= i < |columns| => Get(now, columns[i]) - Get(before, columns[i]))
  }

  /** What follows a line: nothing, or the header again after every twentieth. */
  function After(columns: seq<string>, rows: nat): seq<Row> {
    if rows % 20 == 0 then [Header(columns)] else []
  }

  /** What precedes a line: the header, when there are new columns. */
  function Before(columns: seq<string>, added: bool): seq<Row> {
    if added then [Header(columns)] else []
  }

  lemma AfterAddsNothing(printed: seq<Row>, columns: seq<string>, rows: nat, prev: map<string, nat>)
    ensures Totals(printed, prev) ==> Totals(printed + After(columns, rows), prev)
    ensures ErrorSum(printed + After(columns, rows)) == ErrorSum(printed)
  {
    HeaderAddsNothing(printed, columns, prev);
    assert printed + [] == printed;
  }

  /** The first `i` columns. */
  function First(columns: seq<string>, i: nat): set<string>
    requires i <= |columns|
  {
    if i == 0 then {} else First(columns, i - 1) + {columns[i - 1]}
  }

  lemma {:induction false} FirstAre(columns: seq<string>, i: nat, name: string)
    requires i <= |columns|
    ensures name in First(columns, i) <==> exists k :: 0 <= k < i && columns[k] == name
  {
    if i > 0 { FirstAre(columns, i - 1, name); }
  }

  lemma NotYet(columns: seq<string>, i: nat)
    requires Distinct(columns) && i < |columns|
    ensures columns[i] !in First(columns, i)
  {
    FirstAre(columns, i, columns[i]);
  }

  lemma AllNames(columns: seq<string>, names: set<string>)
    requires forall name :: name in columns <==> name in names
    ensures First(columns, |columns|) == names
  {
    forall name ensures name in First(columns, |columns|) <==> name in names {
      FirstAre(columns, |columns|, name);
    }
  }

  /** `before` with the first `i` columns' counts brought up to date. */
  function BroughtUp(before: map<string, nat>, now: map<string, nat>, columns: seq<string>, i: nat): map<string, nat>
    requires i <= |columns|
  {
    if i == 0 then before
    else BroughtUp(before, now, columns, i - 1)[columns[i - 1] := Get(now, columns[i - 1])]
  }

  lemma {:induction false} BroughtUpAt(before: map<string, nat>, now: map<string, nat>, columns: seq<string>, i: nat,
                                            name: string)
    requires i <= |columns|
    ensures var u := BroughtUp(before, now, columns, i);
            if name in First(columns, i) then name in u && u[name] == Get(now, name)
            else (name in u <==> name in before) && Get(u, name) == Get(before, name)
  {
    if i > 0 { BroughtUpAt(before, now, columns, i - 1, name); }
  }

  lemma NoneBroughtUp(before: map<string, nat>, now: map<string, nat>, columns: seq<string>)
    ensures BroughtUp(before, now, columns, 0) == before
  {
  }

  lemma OneBroughtUp(before: map<string, nat>, now: map<string, nat>, columns: seq<string>, i: nat)
    requires i < |columns|
    ensures BroughtUp(before, now, columns, i + 1)
         == BroughtUp(before, now, columns, i)[columns[i] := Get(now, columns[i])]
  {
  }

  lemma AllBroughtUp(before: map<string, nat>, now: map<string, nat>, columns: seq<string>)
    requires First(columns, |columns|) == now.Keys && before.Keys <= now.Keys
    ensures BroughtUp(before, now, columns, |columns|) == now
  {
    hide BroughtUp, First;
    var u := BroughtUp(before, now, columns, |columns|);
    forall name ensures (name in u <==> name in now) && (name in u ==> u[name] == Get(now, name)) {
      BroughtUpAt(before, now, columns, |columns|, name);
    }
  }

  /** The next column's number, taken while its own count is still the old one. */
  lemma NextDelta(columns: seq<string>, now: map<string, nat>, before: map<string, nat>, i: nat)
    requires Distinct(columns) && i < |columns|
    ensures var d, name := Differences(columns, now, before), columns[i];
            d[..i + 1] == d[..i] + [Get(now, name) - Get(BroughtUp(before, now, columns, i), name)]
  {
    NotYet(columns, i);
    BroughtUpAt(before, now, columns, i, columns[i]);
  }

  lemma AllReported(printed: seq<Row>, s: Summary)
    requires Totals(printed, CountsOf(s))
    ensures forall name :: name in s.commands ==> ColumnSum(printed, name) == s.commands[name].count
  {
  }

  class Live {
    var prev: map<string, nat>
    var prevE: map<string, nat>
    var columns: seq<string>
    var known: set<string>
    var rows: nat
    /** Everything written so far. */
    var printed: seq<Row>

    constructor ()
      ensures Valid() && printed == [] && known == {}
    {
      prev, prevE, columns, known, rows, printed := map[], map[], [], {}, 0, [];
    }

    /** What has been printed under each name adds up to its last count, and the error
        column to the last error counts. */
    ghost predicate Valid()
      reads this
    {
      && InOrder(columns, known)
      && prev.Keys == known && prevE.Keys == known
      && Totals(printed, prev)
      && ErrorSum(printed) == SumOver(prevE, known)
    }

    /** New errors since the last interval, over every command there is: `now` holds each
        command's errors so far. */
    method CountErrors(now: map<string, nat>) returns (errs: int)
      requires prevE.Keys <= now.Keys
      modifies `prevE
      ensures prevE == now
      ensures errs == SumOver(now, now.Keys) - SumOver(old(prevE), old(prevE).Keys)
    {
      errs := 0;
      ghost var start := prevE;
      var todo := now.Keys;
      while todo != {}
        invariant todo <= now.Keys && prevE.Keys <= now.Keys && now.Keys - todo <= prevE.Keys
        invariant forall name :: name in now && name !in todo ==> prevE[name] == now[name]
        invariant errs == SumOver(prevE, prevE.Keys) - SumOver(start, start.Keys)
        decreases |todo|
      {
        var name :| name in todo;
        SumSet(prevE, name, now[name]);
        errs := errs + now[name] - Get(prevE, name);
        prevE := prevE[name := now[name]];
        todo := todo - {name};
      }
      assert prevE == now;
    }

    method AddNames(names: set<string>) returns (added: bool)
      requires Distinct(columns) && (forall name :: name in columns <==> name in known) && known <= names
      modifies `columns, `known
      ensures Distinct(columns) && (forall name :: name in columns <==> name in known) && known == names
      ensures if added then known != old(known) else known == old(known) && columns == old(columns)
    {
      added := false;
      var todo := names;
      while todo != {}
        invariant todo <= names && old(known) <= known <= names && names - todo <= known
        invariant Distinct(columns) && (forall name :: name in columns <==> name in known)
        invariant if added then known != old(known) else known == old(known) && columns == old(columns)
        decreases |todo|
      {
        var name :| name in todo;
        if name !in known {
          known := known + {name};
          columns := columns + [name];
          added := true;
        }
        todo := todo - {name};
      }
    }

    /** Every name seen is a column; the columns stay in order. */
    method AddColumns(s: Summary)
      requires InOrder(columns, known) && known <= s.commands.Keys && Totals(printed, prev)
      modifies `columns, `known, `printed
      ensures InOrder(columns, known) && known == s.commands.Keys
      ensures known == old(known) ==> printed == old(printed)
      ensures known != old(known) ==> printed == old(printed) + [Header(columns)]
      ensures Totals(printed, prev) && ErrorSum(printed) == ErrorSum(old(printed))
    {
      AscendingIff(columns);
      var added := AddNames(s.commands.Keys);
      if added {
        SortNames(columns);
        columns := Sort(LexLeq, columns);
        HeaderAddsNothing(printed, columns, prev);
        printed := printed + [Header(columns)];
      }
    }

    /** One number for every column: what its count grew by. */
    method Deltas(now: map<string, nat>) returns (deltas: seq<int>)
      requires Distinct(columns) && First(columns, |columns|) == now.Keys && prev.Keys <= now.Keys
      modifies `prev
      ensures prev == now && deltas == Differences(columns, now, old(prev))
    {
      hide BroughtUp, Differences, First, Get;
      deltas := [];
      var cols := columns;
      NoneBroughtUp(prev, now, cols);
      ghost var start, diffs := prev, Differences(cols, now, prev);
      for i := 0 to |cols|
        invariant cols == columns
        invariant deltas == diffs[..i]
        invariant prev == BroughtUp(start, now, cols, i)
      {
        NextDelta(cols, now, start, i);
        var delta := Get(now, cols[i]) - Get(prev, cols[i]);
        assert diffs[..i + 1] == deltas + [delta];
        deltas := deltas + [delta];
        OneBroughtUp(start, now, cols, i);
        prev := prev[cols[i] := Get(now, cols[i])];
      }
      assert diffs[..|cols|] == diffs;
      AllBroughtUp(start, now, cols);
    }

    method PrintLine(now: map<string, nat>, errs: int)
      requires InOrder(columns, now.Keys) && prev.Keys <= now.Keys && Totals(printed, prev)
      modifies `prev, `printed, `rows
      ensures prev == now && rows == old(rows) + 1
      ensures Totals(printed, prev) && ErrorSum(printed) == ErrorSum(old(printed)) + errs
      ensures var line := Line(columns, Differences(columns, now, old(prev)), errs);
              printed == (old(printed) + [line]) + if rows % 20 == 0 then [Header(columns)] else []
    {
      ghost var before, start := prev, printed;
      AscendingIff(columns);
      AllNames(columns, now.Keys);
      var deltas := Deltas(now);
      LineAdds(printed, columns, deltas, errs, before, now);
      printed := printed + [Line(columns, deltas, errs)];
      rows := rows + 1;
      AfterAddsNothing(printed, columns, rows, prev);
      if rows % 20 == 0 {
        printed := printed + [Header(columns)];
      }
    }

    method Interval(s: Summary)
      requires Valid() && known <= s.commands.Keys && AddsUp(s)
      modifies this
      ensures Valid() && known == s.commands.Keys && rows == old(rows) + 1
      ensures prev == CountsOf(s) && prevE == ErrorsOf(s)
      ensures var errs := s.errors - ErrorSum(old(printed));
              printed == ((old(printed) + Before(columns, known != old(known)))
                          + [Line(columns, Differences(columns, prev, old(prev)), errs)]) + After(columns, rows)
    {
      hide Totals, ErrorSum, SumOver, InOrder, Differences, Before;
      var errs := Refresh(s);
      assert CountsOf(s).Keys == s.commands.Keys && errs == s.errors - ErrorSum(old(printed));
      PrintLine(CountsOf(s), errs);
    }

    /** Everything an interval needs before its line: the new errors, and a column for
        every command. */
    method Refresh(s: Summary) returns (errs: int)
      requires InOrder(columns, known) && known <= s.commands.Keys && prevE.Keys == known && Totals(printed, prev)
      modifies `prevE, `columns, `known, `printed
      ensures InOrder(columns, known) && known == s.commands.Keys && Totals(printed, prev)
      ensures prevE == ErrorsOf(s)
      ensures errs + SumOver(old(prevE), old(known)) == SumOver(prevE, known)
      ensures ErrorSum(printed) == ErrorSum(old(printed))
      ensures printed == old(printed) + Before(columns, known != old(known))
    {
      assert ErrorsOf(s).Keys == s.commands.Keys;
      errs := CountErrors(ErrorsOf(s));
      AddColumns(s);
    }

    /** The table agrees with the summary: after any number of intervals over which names
        only appear, every column's numbers add up to that command's count, the error
        column to the summary's errors, and the columns are all names, once and in order. */
    method Tick(s: Summary)
      requires Valid() && known <= s.commands.Keys && AddsUp(s)
      modifies this
      ensures Valid() && known == s.commands.Keys
      ensures s.commands == map[] ==> printed == old(printed)
      ensures s.commands != map[] ==>
                && rows == old(rows) + 1 && prev == CountsOf(s)
                && var errs := s.errors - ErrorSum(old(printed));
                   printed == ((old(printed) + if known != old(known) then [Header(columns)] else [])
                               + [Line(columns, Differences(columns, prev, old(prev)), errs)])
                              + if rows % 20 == 0 then [Header(columns)] else []
      ensures forall name :: name in s.commands ==> ColumnSum(printed, name) == s.commands[name].count
      ensures ErrorSum(printed) == s.errors
    {
      if |s.commands| == 0 {
        assert s.commands.Keys == {} && known == {};
        return;
      }
      Interval(s);
      AllReported(printed, s);
    }
  }

  /** Sorting distinct names puts them in strict order and loses none. */
  lemma SortNames(names: seq<string>)
    requires Distinct(names)
    ensures var s := Sort(LexLeq, names);
            Ascending(s) && forall name :: name in s <==> name in names
  {
    var s := Sort(LexLeq, names);
    LexLeqIsTotal();
    SortOrders(LexLeq, names);
    forall name ensures name in s <==> name in names {
      assert name in s <==> name in multiset(s);
      assert name in names <==> name in multiset(names);
    }
    DistinctOnce(names);
    OnceDistinct(s);
    AscendingIff(s);
  }

  lemma {:induction false} DistinctOnce(names: seq<string>)
    requires Distinct(names)
    ensures forall name :: multiset(names)[name] <= 1
  {
    if names != [] {
      var n := |names| - 1;
      DistinctOnce(names[..n]);
      assert names == names[..n] + [names[n]];
      assert names[n] !in names[..n];
    }
  }

  lemma {:induction false} OnceDistinct(names: seq<string>)
    requires forall name :: multiset(names)[name] <= 1
    ensures Distinct(names)
  {
    if names != [] {
      var n := |names| - 1;
      assert names == names[..n] + [names[n]];
      assert multiset(names) == multiset(names[..n]) + multiset{names[n]};
      forall name ensures multiset(names[..n])[name] <= 1 {
        assert multiset(names)[name] >= multiset(names[..n])[name];
      }
      OnceDistinct(names[..n]);
      assert multiset(names)[names[n]] == multiset(names[..n])[names[n]] + 1;
      forall i | 0 <= i < n ensures names[i] != names[n] {
        assert names[..n][i] in multiset(names[..n]);
      }
    }
  }
}
