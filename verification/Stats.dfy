/** internal/stats/stats.go: what a run records per command, and its summary. */
module Stats {
  import opened Octets
  import opened Sorting

  /** One operation as it was observed: under which name, how long it took, how it ended.
      A failure is a fault of the server while the run is live and merely cut off after. */
  datatype Ending = Ok | Fault(text: string) | Cut
  datatype Kind = Good | Bad | CutOff
  datatype Obs = Obs(name: string, d: int, ending: Ending)

  function KindOf(e: Ending): Kind {
    match e
    case Ok => Good
    case Fault(_) => Bad
    case Cut => CutOff
  }

  /** What is kept of one command. */
  datatype Cmd = Cmd(samples: seq<int>, errors: nat, cancelled: nat, firstErr: string)

  const NoCmd := Cmd([], 0, 0, "")

  // ------------------------------------------------------ read off the log

  function SamplesIn(log: seq<Obs>, name: string): seq<int> {
    if log == [] then []
    else
      var o := log[|log| - 1];
      SamplesIn(log[..|log| - 1], name) + (if o.name == name then [o.d] else [])
  }

  /** How many of one command's operations ended in one way. */
  function CountIn(log: seq<Obs>, name: string, k: Kind): nat {
    if log == [] then 0
    else
      var o := log[|log| - 1];
      CountIn(log[..|log| - 1], name, k) + (if o.name == name && KindOf(o.ending) == k then 1 else 0)
  }

  function CountAll(log: seq<Obs>, k: Kind): nat {
    if log == [] then 0
    else CountAll(log[..|log| - 1], k) + (if KindOf(log[|log| - 1].ending) == k then 1 else 0)
  }

  /** The text of the first fault that has one. */
  function FirstFaultIn(log: seq<Obs>, name: string): string {
    if log == [] then ""
    else
      var o := log[|log| - 1];
      var before := FirstFaultIn(log[..|log| - 1], name);
      if before == "" && o.name == name && o.ending.Fault? then o.ending.text else before
  }

  function NamesIn(log: seq<Obs>): set<string> {
    set i | 0 <= i < |log| :: log[i].name
  }

  function Recomputed(log: seq<Obs>, name: string): Cmd {
    Cmd(SamplesIn(log, name), CountIn(log, name, Bad), CountIn(log, name, CutOff), FirstFaultIn(log, name))
  }

  /** Every operation is counted once: it succeeded, failed, or was cut off. */
  lemma {:induction false} CountsAddUp(log: seq<Obs>, name: string)
    ensures |SamplesIn(log, name)| == CountIn(log, name, Good) + CountIn(log, name, Bad) + CountIn(log, name, CutOff)
  {
    if log != [] { CountsAddUp(log[..|log| - 1], name); }
  }

  /** The first error kept is the first fault there was, and none is kept without one. */
  lemma {:induction false} FirstFaultIsFirst(log: seq<Obs>, name: string)
    requires FirstFaultIn(log, name) != ""
    ensures exists i :: 0 <= i < |log| && log[i] == Obs(name, log[i].d, Fault(FirstFaultIn(log, name)))
                        && forall k :: 0 <= k < i && log[k].name == name && log[k].ending.Fault? ==>
                              log[k].ending.text == ""
  {
    var n := |log| - 1;
    if FirstFaultIn(log[..n], name) != "" {
      FirstFaultIsFirst(log[..n], name);
      var i :| 0 <= i < n && log[..n][i] == Obs(name, log[..n][i].d, Fault(FirstFaultIn(log[..n], name)))
               && forall k :: 0 <= k < i && log[..n][k].name == name && log[..n][k].ending.Fault? ==>
                     log[..n][k].ending.text == "";
      assert forall k :: 0 <= k < n ==> log[..n][k] == log[k];
      assert log[i] == Obs(name, log[i].d, Fault(FirstFaultIn(log, name)));
    } else {
      NoFaultText(log[..n], name);
      assert forall k :: 0 <= k < n ==> log[..n][k] == log[k];
      assert log[n] == Obs(name, log[n].d, Fault(FirstFaultIn(log, name)));
    }
  }

  lemma {:induction false} NoFaultText(log: seq<Obs>, name: string)
    requires FirstFaultIn(log, name) == ""
    ensures forall k :: 0 <= k < |log| && log[k].name == name && log[k].ending.Fault? ==> log[k].ending.text == ""
  {
    if log != [] {
      var n := |log| - 1;
      NoFaultText(log[..n], name);
      assert forall k :: 0 <= k < n ==> log[..n][k] == log[k];
    }
  }

  // ----------------------------------------------------- sums over commands

  ghost function SumOver(m: map<string, nat>, keys: set<string>): nat
    requires keys <= m.Keys
  {
    if keys == {} then 0
    else var k :| k in keys; m[k] + SumOver(m, keys - {k})
  }

  /** A sum does not depend on the order its terms are taken in. */
  lemma {:induction false} SumTake(m: map<string, nat>, keys: set<string>, k: string)
    requires keys <= m.Keys && k in keys
    ensures SumOver(m, keys) == m[k] + SumOver(m, keys - {k})
    decreases |keys|
  {
    var l :| l in keys && SumOver(m, keys) == m[l] + SumOver(m, keys - {l});
    if k != l {
      SumTake(m, keys - {l}, k);
      SumTake(m, keys - {k}, l);
      assert keys - {l} - {k} == keys - {k} - {l};
    }
  }

  lemma {:induction false} SumAgrees(m: map<string, nat>, n: map<string, nat>, keys: set<string>)
    requires keys <= m.Keys && keys <= n.Keys && forall k :: k in keys ==> m[k] == n[k]
    ensures SumOver(m, keys) == SumOver(n, keys)
    decreases |keys|
  {
    if keys != {} {
      var k :| k in keys;
      SumTake(m, keys, k);
      SumTake(n, keys, k);
      SumAgrees(m, n, keys - {k});
    }
  }

  // ------------------------------------------------------------ the collector

  /** A percentile as a fraction, so that the index is exact. */
  datatype Fraction = Fraction(num: nat, den: nat)

  predicate Proper(p: Fraction) { 0 < p.den && p.num <= p.den }

  function PercentileIndex(n: nat, p: Fraction): nat
    requires n > 0 && Proper(p)
  {
    p.num * (n - 1) / p.den
  }

  /** A quotient, by the two bounds it is the only one to keep. */
  lemma Quotient(x: nat, d: nat, q: nat)
    requires d > 0
    ensures q <= x / d <==> q * d <= x
  {
    assert x == (x / d) * d + x % d;
    if q <= x / d {
      MulMonotone(q, x / d, d);
    } else {
      MulMonotone(x / d + 1, q, d);
    }
  }

  lemma {:induction false} MulMonotone(a: nat, b: nat, c: nat)
    requires a <= b
    ensures a * c <= b * c && c * a <= c * b
  {
  }

  lemma Reorder(a: nat, b: nat, c: nat)
    ensures (a * b) * c == (a * c) * b
  {
  }

  lemma IndexInRange(n: nat, p: Fraction)
    requires n > 0 && Proper(p)
    ensures 0 <= PercentileIndex(n, p) < n
  {
    var x := p.num * (n - 1);
    MulMonotone(p.num, p.den, n - 1);
    Quotient(x, p.den, n);
    assert n * p.den == p.den * (n - 1) + p.den;
  }

  /** A higher percentile never names an earlier sample. */
  lemma IndexMonotone(n: nat, p: Fraction, q: Fraction)
    requires n > 0 && Proper(p) && Proper(q) && p.num * q.den <= q.num * p.den
    ensures PercentileIndex(n, p) <= PercentileIndex(n, q)
  {
    var m, i := n - 1, PercentileIndex(n, p);
    Quotient(p.num * m, p.den, i);
    Quotient(q.num * m, q.den, i);
    Scaled(p, q, m, i);
  }

  lemma Scaled(p: Fraction, q: Fraction, m: nat, i: nat)
    requires Proper(p) && Proper(q) && p.num * q.den <= q.num * p.den && i * p.den <= p.num * m
    ensures i * q.den <= q.num * m
  {
    MulMonotone(i * p.den, p.num * m, q.den);
    Reorder(i, p.den, q.den);
    Reorder(p.num, m, q.den);
    MulMonotone(p.num * q.den, q.num * p.den, m);
    Reorder(q.num, p.den, m);
    Cancel(i * q.den, q.num * m, p.den);
  }

  lemma Cancel(a: nat, b: nat, c: nat)
    requires a * c <= b * c && c > 0
    ensures a <= b
  {
    if b < a { MulMonotone(b + 1, a, c); }
  }

  lemma {:induction false} UnseenCounts(log: seq<Obs>, name: string, k: Kind)
    requires name !in NamesIn(log)
    ensures CountIn(log, name, k) == 0 && Recomputed(log, name) == NoCmd
  {
    if log != [] {
      var n := |log| - 1;
      assert log[n].name in NamesIn(log);
      NamesGrow(log[..n], log[n]);
      assert log == log[..n] + [log[n]];
      UnseenCounts(log[..n], name, k);
      UnseenCounts(log[..n], name, Bad);
      UnseenCounts(log[..n], name, CutOff);
    }
  }

  lemma NamesGrow(log: seq<Obs>, o: Obs)
    ensures NamesIn(log + [o]) == NamesIn(log) + {o.name}
  {
    var l := log + [o];
    forall x | x in NamesIn(log) + {o.name} ensures x in NamesIn(l) {
      if x == o.name {
        assert l[|log|].name == x;
      } else {
        var i :| 0 <= i < |log| && log[i].name == x;
        assert l[i].name == x;
      }
    }
  }

  function Counts(log: seq<Obs>, k: Kind): map<string, nat> {
    map name | name in NamesIn(log) :: CountIn(log, name, k)
  }

  lemma CountsStep(log: seq<Obs>, o: Obs, name: string, k: Kind)
    ensures CountIn(log + [o], name, k)
         == CountIn(log, name, k) + (if name == o.name && KindOf(o.ending) == k then 1 else 0)
    ensures CountAll(log + [o], k) == CountAll(log, k) + (if KindOf(o.ending) == k then 1 else 0)
  {
  }

  lemma OthersKeepCounts(log: seq<Obs>, o: Obs, k: Kind)
    ensures var others := NamesIn(log) - {o.name};
            && others <= NamesIn(log + [o])
            && SumOver(Counts(log + [o], k), others) == SumOver(Counts(log, k), others)
  {
    NamesGrow(log, o);
    forall x | x in NamesIn(log) - {o.name} ensures Counts(log + [o], k)[x] == Counts(log, k)[x] {
      CountsStep(log, o, x, k);
    }
    SumAgrees(Counts(log + [o], k), Counts(log, k), NamesIn(log) - {o.name});
  }

  lemma SumStep(log: seq<Obs>, o: Obs, k: Kind)
    ensures SumOver(Counts(log + [o], k), NamesIn(log + [o]))
         == SumOver(Counts(log, k), NamesIn(log)) + (if KindOf(o.ending) == k then 1 else 0)
  {
    var others := NamesIn(log) - {o.name};
    NamesGrow(log, o);
    OthersKeepCounts(log, o, k);
    CountsStep(log, o, o.name, k);
    SumTake(Counts(log + [o], k), NamesIn(log + [o]), o.name);
    assert NamesIn(log + [o]) - {o.name} == others;
    if o.name in NamesIn(log) {
      SumTake(Counts(log, k), NamesIn(log), o.name);
    } else {
      UnseenCounts(log, o.name, k);
      assert others == NamesIn(log);
    }
  }

  /** Counting per command and adding up is counting over the whole log. */
  lemma {:induction false} CountsSum(log: seq<Obs>, k: Kind)
    ensures SumOver(Counts(log, k), NamesIn(log)) == CountAll(log, k)
  {
    if log != [] {
      var n := |log| - 1;
      CountsSum(log[..n], k);
      SumStep(log[..n], log[n], k);
      CountsStep(log[..n], log[n], log[n].name, k);
      assert log == log[..n] + [log[n]];
    }
  }

  // -------------------------------------------------------------- summaries

  datatype CmdStat = CmdStat(
    count: nat, errors: nat, cancelled: nat, firstError: string,
    min: int, median: int, p95: int, p99: int, max: int)

  datatype Summary = Summary(commands: map<string, CmdStat>, errors: nat, cancelled: nat)

  predicate AtMost(a: int, b: int) { a <= b }

  function Percentile(sorted: seq<int>, p: Fraction): int
    requires Proper(p)
  {
    if |sorted| == 0 then 0
    else IndexInRange(|sorted|, p); sorted[PercentileIndex(|sorted|, p)]
  }

  function StatOf(c: Cmd): CmdStat {
    var sorted := Sort(AtMost, c.samples);
    CmdStat(|sorted|, c.errors, c.cancelled, c.firstErr,
            Percentile(sorted, Fraction(0, 1)), Percentile(sorted, Fraction(50, 100)),
            Percentile(sorted, Fraction(95, 100)), Percentile(sorted, Fraction(99, 100)),
            Percentile(sorted, Fraction(1, 1)))
  }

  lemma PercentilesOrdered(sorted: seq<int>, p: Fraction, q: Fraction)
    requires Ordered(AtMost, sorted) && Proper(p) && Proper(q) && p.num * q.den <= q.num * p.den
    ensures Percentile(sorted, p) <= Percentile(sorted, q)
  {
    if sorted != [] {
      IndexInRange(|sorted|, p);
      IndexInRange(|sorted|, q);
      IndexMonotone(|sorted|, p, q);
      var i, j := PercentileIndex(|sorted|, p), PercentileIndex(|sorted|, q);
      if i < j { assert AtMost(sorted[i], sorted[j]); }
    }
  }

  // ------------------------------------------------------------------- ranks

  function HowMany(s: seq<int>, p: int -> bool): nat {
    if s == [] then 0 else (if p(s[0]) then 1 else 0) + HowMany(s[1..], p)
  }

  function AtMostThat(v: int): int -> bool { d => d <= v }
  function Below(v: int): int -> bool { d => d < v }

  lemma {:induction false} HowManyInserted(x: int, s: seq<int>, p: int -> bool)
    ensures HowMany(Insert(AtMost, x, s), p) == (if p(x) then 1 else 0) + HowMany(s, p)
  {
    if s == [] || x <= s[0] {
      assert Insert(AtMost, x, s)[1..] == s;
    } else {
      assert Insert(AtMost, x, s)[1..] == Insert(AtMost, x, s[1..]);
      HowManyInserted(x, s[1..], p);
    }
  }

  /** Sorting does not change how many there are of anything. */
  lemma {:induction false} HowManySorted(s: seq<int>, p: int -> bool)
    ensures HowMany(Sort(AtMost, s), p) == HowMany(s, p)
  {
    if s != [] {
      HowManySorted(s[1..], p);
      HowManyInserted(s[0], Sort(AtMost, s[1..]), p);
    }
  }

  lemma {:induction false} AtLeastFirst(s: seq<int>, p: int -> bool, k: nat)
    requires k <= |s| && forall j :: 0 <= j < k ==> p(s[j])
    ensures HowMany(s, p) >= k
  {
    if k > 0 { AtLeastFirst(s[1..], p, k - 1); }
  }

  lemma {:induction false} AtMostFirst(s: seq<int>, p: int -> bool, k: nat)
    requires k <= |s| && forall j :: k <= j < |s| ==> !p(s[j])
    ensures HowMany(s, p) <= k
  {
    if s != [] { AtMostFirst(s[1..], p, if k > 0 then k - 1 else 0); }
  }

  /** A sample with no more than `i` samples below it, and more than `i` at or below it:
      the one that stands at index `i` when they are in order. */
  predicate RankIs(samples: seq<int>, v: int, i: nat) {
    v in samples && HowMany(samples, Below(v)) <= i < HowMany(samples, AtMostThat(v))
  }

  lemma SortedRank(samples: seq<int>, i: nat)
    requires i < |samples|
    ensures RankIs(samples, Sort(AtMost, samples)[i], i)
  {
    hide HowMany, Sort, Insert;
    var sorted := Sort(AtMost, samples);
    var v := sorted[i];
    SortOrders(AtMost, samples);
    HowManySorted(samples, Below(v));
    HowManySorted(samples, AtMostThat(v));
    forall j | 0 <= j < i ensures AtMost(sorted[j], v) {}
    AtLeastFirst(sorted, AtMostThat(v), i + 1);
    forall j | i <= j < |sorted| ensures v <= sorted[j] { assert i < j ==> AtMost(v, sorted[j]); }
    AtMostFirst(sorted, Below(v), i);
    assert v in multiset(sorted);
  }

  lemma PercentileRank(samples: seq<int>, p: Fraction)
    requires samples != [] && Proper(p)
    ensures RankIs(samples, Percentile(Sort(AtMost, samples), p), PercentileIndex(|samples|, p))
  {
    hide RankIs, Sort, PercentileIndex;
    IndexInRange(|samples|, p);
    SortedRank(samples, PercentileIndex(|samples|, p));
  }

  /** Each order statistic is a sample, of the rank its fraction of the way from the first
      to the last comes to, rounded down; they are in order, and no sample lies outside. */
  lemma StatsAreOrderStatistics(c: Cmd)
    requires c.samples != []
    ensures var s, last := StatOf(c), |c.samples| - 1;
            && s.count == |c.samples|
            && s.min <= s.median <= s.p95 <= s.p99 <= s.max
            && RankIs(c.samples, s.min, 0) && RankIs(c.samples, s.median, 50 * last / 100)
            && RankIs(c.samples, s.p95, 95 * last / 100) && RankIs(c.samples, s.p99, 99 * last / 100)
            && RankIs(c.samples, s.max, last)
  {
    hide RankIs, Sort, Percentile;
    PercentileRank(c.samples, Fraction(0, 1));
    PercentileRank(c.samples, Fraction(50, 100));
    PercentileRank(c.samples, Fraction(95, 100));
    PercentileRank(c.samples, Fraction(99, 100));
    PercentileRank(c.samples, Fraction(1, 1));
    StatsAreOrdered(c);
  }

  lemma StatsAreOrdered(c: Cmd)
    requires c.samples != []
    ensures var s := StatOf(c); s.min <= s.median <= s.p95 <= s.p99 <= s.max
  {
    hide Sort, Percentile, Ordered;
    var sorted := Sort(AtMost, c.samples);
    SortOrders(AtMost, c.samples);
    PercentilesOrdered(sorted, Fraction(0, 1), Fraction(50, 100));
    PercentilesOrdered(sorted, Fraction(50, 100), Fraction(95, 100));
    PercentilesOrdered(sorted, Fraction(95, 100), Fraction(99, 100));
    PercentilesOrdered(sorted, Fraction(99, 100), Fraction(1, 1));
  }

  lemma {:induction false} NoneBelow(samples: seq<int>, v: int, d: int)
    requires d in samples && d < v
    ensures HowMany(samples, Below(v)) > 0
  {
    if samples[0] != d { NoneBelow(samples[1..], v, d); }
  }

  lemma {:induction false} NotAll(samples: seq<int>, v: int, d: int)
    requires d in samples && v < d
    ensures HowMany(samples, AtMostThat(v)) < |samples|
  {
    if samples[0] == d {
      HowManyBounded(samples[1..], AtMostThat(v));
    } else {
      NotAll(samples[1..], v, d);
    }
  }

  lemma {:induction false} HowManyBounded(s: seq<int>, p: int -> bool)
    ensures HowMany(s, p) <= |s|
  {
    if s != [] { HowManyBounded(s[1..], p); }
  }

  /** The first and the last bound every sample. */
  lemma ExtremesBound(samples: seq<int>, lo: int, hi: int, d: int)
    requires RankIs(samples, lo, 0) && RankIs(samples, hi, |samples| - 1) && d in samples
    ensures lo <= d <= hi
  {
    hide HowMany;
    if d < lo { NoneBelow(samples, lo, d); }
    if hi < d { NotAll(samples, hi, d); }
  }

  /** A log's summary, computed from the whole log. */
  ghost predicate Summarises(s: Summary, log: seq<Obs>) {
    && s.commands.Keys == NamesIn(log)
    && (forall name :: name in s.commands ==> s.commands[name] == StatOf(Recomputed(log, name)))
    && s.errors == CountAll(log, Bad) && s.cancelled == CountAll(log, CutOff)
  }

  /** What one more operation makes of its command's record. */
  function Updated(c: Cmd, o: Obs): Cmd {
    Cmd(c.samples + [o.d],
        c.errors + (if o.ending.Fault? then 1 else 0),
        c.cancelled + (if o.ending.Cut? then 1 else 0),
        if c.firstErr == "" && o.ending.Fault? then o.ending.text else c.firstErr)
  }

  lemma RecomputedStep(log: seq<Obs>, o: Obs, name: string)
    ensures Recomputed(log + [o], name)
         == if name == o.name then Updated(Recomputed(log, name), o) else Recomputed(log, name)
  {
  }

  /** A collector's records after one more operation are those of the longer log. */
  lemma RecordsStep(cmds: map<string, Cmd>, log: seq<Obs>, o: Obs)
    requires cmds.Keys == NamesIn(log) && forall name :: name in cmds ==> cmds[name] == Recomputed(log, name)
    ensures var c := Updated(if o.name in cmds then cmds[o.name] else NoCmd, o);
            var t := cmds[o.name := c];
            && t.Keys == NamesIn(log + [o])
            && forall name :: name in t ==> t[name] == Recomputed(log + [o], name)
  {
    NamesGrow(log, o);
    if o.name !in cmds { UnseenCounts(log, o.name, Good); }
    var t := cmds[o.name := Updated(if o.name in cmds then cmds[o.name] else NoCmd, o)];
    forall name | name in t ensures t[name] == Recomputed(log + [o], name) {
      RecomputedStep(log, o, name);
    }
  }

  /** A summary under way: the rows of the commands done, and totals that lack exactly
      the commands still to do. */
  ghost predicate Underway(s: Summary, log: seq<Obs>, todo: set<string>) {
    && todo <= NamesIn(log) && s.commands.Keys == NamesIn(log) - todo
    && (forall name :: name in s.commands ==> s.commands[name] == StatOf(Recomputed(log, name)))
    && s.errors + SumOver(Counts(log, Bad), todo) == CountAll(log, Bad)
    && s.cancelled + SumOver(Counts(log, CutOff), todo) == CountAll(log, CutOff)
  }

  lemma UnderwayAtFirst(log: seq<Obs>)
    ensures Underway(Summary(map[], 0, 0), log, NamesIn(log))
  {
    CountsSum(log, Bad);
    CountsSum(log, CutOff);
  }

  function WithRow(s: Summary, name: string, c: Cmd): Summary {
    Summary(s.commands[name := StatOf(c)], s.errors + c.errors, s.cancelled + c.cancelled)
  }

  lemma ShareOfTotal(log: seq<Obs>, todo: set<string>, name: string, k: Kind)
    requires todo <= NamesIn(log) && name in todo
    ensures todo - {name} <= NamesIn(log)
    ensures SumOver(Counts(log, k), todo) == CountIn(log, name, k) + SumOver(Counts(log, k), todo - {name})
  {
    SumTake(Counts(log, k), todo, name);
  }

  lemma RowIsDone(s: Summary, log: seq<Obs>, todo: set<string>, name: string)
    requires Underway(s, log, todo) && name in todo
    ensures Underway(WithRow(s, name, Recomputed(log, name)), log, todo - {name})
  {
    hide SumOver, Counts, CountIn, CountAll, StatOf, SamplesIn, FirstFaultIn;
    ShareOfTotal(log, todo, name, Bad);
    ShareOfTotal(log, todo, name, CutOff);
  }

  lemma UnderwayAtLast(s: Summary, log: seq<Obs>)
    requires Underway(s, log, {})
    ensures Summarises(s, log)
  {
  }

  /** A row says what was kept: how many samples there are, how they ended, and the ranks. */
  ghost predicate Rows(s: CmdStat, c: Cmd) {
    && s.count == |c.samples| && s.errors == c.errors && s.cancelled == c.cancelled && s.firstError == c.firstErr
    && (c.samples != [] ==>
          var last := |c.samples| - 1;
          && RankIs(c.samples, s.min, 0) && RankIs(c.samples, s.median, 50 * last / 100)
          && RankIs(c.samples, s.p95, 95 * last / 100) && RankIs(c.samples, s.p99, 99 * last / 100)
          && RankIs(c.samples, s.max, last))
  }

  lemma RowOf(c: Cmd)
    ensures Rows(StatOf(c), c)
  {
    hide RankIs, Sort, Percentile;
    SortKeeps(c.samples);
    if c.samples != [] { StatsAreOrderStatistics(c); }
  }

  lemma SortKeeps(samples: seq<int>)
    ensures |Sort(AtMost, samples)| == |samples|
  {
    SortOrders(AtMost, samples);
  }

  /** How an operation is entered: a failure is the server's unless the run has ended. */
  function Entry(name: string, d: int, err: Option<string>, ended: bool): Obs {
    Obs(name, d, match err
                 case None => Ok
                 case Some(text) => if ended then Cut else Fault(text))
  }

  /** The context that bounds a run: it ends, and then has ended. */
  class Context {
    var ended: bool

    constructor ()
      ensures !ended
    {
      ended := false;
    }

    method End()
      modifies this
      ensures ended
    {
      ended := true;
    }
  }

  class Collector {
    var cmds: map<string, Cmd>
    var run: Context?
    ghost var log: seq<Obs>

    constructor ()
      ensures Valid() && log == [] && run == null
    {
      cmds, run, log := map[], null, [];
    }

    ghost predicate Valid()
      reads this
    {
      && cmds.Keys == NamesIn(log)
      && forall name :: name in cmds ==> cmds[name] == Recomputed(log, name)
    }

    /** Whether the run has ended: never, before one is bound. */
    predicate Cancelling()
      reads this, run
    {
      run != null && run.ended
    }

    /** From now on whose fault a failure is goes by this context, as it is by then. */
    method BindRun(ctx: Context)
      modifies `run
      ensures run == ctx && Cancelling() == ctx.ended
      ensures old(Valid()) ==> Valid()
    {
      run := ctx;
    }

    /** Records one operation, a failure as the server's unless the run has ended. */
    method Observe(name: string, d: int, err: Option<string>)
      requires Valid()
      modifies `cmds, `log
      ensures Valid()
      ensures |log| == |old(log)| + 1 && old(log) <= log
      ensures var o := log[|old(log)|];
              && o.name == name && o.d == d
              && o.ending == if err.None? then Ok else if Cancelling() then Cut else Fault(err.value)
      ensures cmds.Keys == old(cmds).Keys + {name}
      ensures forall n :: n in old(cmds) && n != name ==> cmds[n] == old(cmds)[n]
      ensures var had := if name in old(cmds) then old(cmds)[name] else NoCmd;
              && cmds[name].samples == had.samples + [d]
              && cmds[name].errors == had.errors + (if err.Some? && !Cancelling() then 1 else 0)
              && cmds[name].cancelled == had.cancelled + (if err.Some? && Cancelling() then 1 else 0)
              && cmds[name].firstErr
                 == if err.Some? && !Cancelling() && had.firstErr == "" then err.value else had.firstErr
    {
      hide Recomputed, NamesIn;
      ghost var o := Entry(name, d, err, Cancelling());
      RecordsStep(cmds, log, o);
      var cmd := if name in cmds then cmds[name] else NoCmd;
      cmd := cmd.(samples := cmd.samples + [d]);
      if err.None? {
      } else if Cancelling() {
        cmd := cmd.(cancelled := cmd.cancelled + 1);
      } else {
        cmd := cmd.(errors := cmd.errors + 1);
        if cmd.firstErr == "" {
          cmd := cmd.(firstErr := err.value);
        }
      }
      cmds := cmds[name := cmd];
      log := log + [o];
    }

    /** One row for every command seen, and the failures added up over all of them. */
    method Summarise() returns (s: Summary)
      requires Valid()
      ensures Summarises(s, log)
      ensures s.commands.Keys == cmds.Keys && forall name :: name in cmds ==> Rows(s.commands[name], cmds[name])
    {
      s := Summary(map[], 0, 0);
      var todo := cmds.Keys;
      UnderwayAtFirst(log);
      while todo != {}
        invariant Underway(s, log, todo)
        decreases |todo|
      {
        var name :| name in todo;
        RowIsDone(s, log, todo, name);
        s := WithRow(s, name, cmds[name]);
        todo := todo - {name};
      }
      UnderwayAtLast(s, log);
      forall name | name in cmds ensures Rows(s.commands[name], cmds[name]) { RowOf(cmds[name]); }
    }
  }
}
