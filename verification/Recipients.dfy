/** main.go:373-451: expanding "u51@domain:100" into the addresses it stands for. */
module Recipients {
  import opened Octets

  // ------------------------------------------------------------- text helpers

  /** The position of the first `c`, or the length when there is none. */
  function First(s: bytes, c: octet): (i: nat)
    ensures i <= |s|
  {
    if s == [] || s[0] == c then 0 else 1 + First(s[1..], c)
  }

  /** The position of the last `c`, or the length when there is none. */
  function Last(s: bytes, c: octet): (i: nat)
    ensures i <= |s|
  {
    if s == [] then 0
    else if s[|s| - 1] == c then |s| - 1
    else var i := Last(s[..|s| - 1], c); if i == |s| - 1 then |s| else i
  }

  lemma {:induction false} FirstAfter(a: bytes, c: octet, b: bytes)
    requires c !in a
    ensures First(a + ([c] + b), c) == |a|
  {
    if a == [] {
      assert a + ([c] + b) == [c] + b;
    } else {
      HeadOfSum(a, [c] + b);
      assert a[0] in a;
      FirstAfter(a[1..], c, b);
    }
  }

  /** `strings.Split(s, ",")`. */
  function SplitCommas(s: bytes): seq<bytes>
    decreases |s|
  {
    var i := First(s, ',');
    if i == |s| then [s] else [s[..i]] + SplitCommas(s[i + 1..])
  }

  // ---------------------------------------------------------------- the count

  /** "u@example.com:150" as ("u@example.com", 150); not everything ends that way. */
  function SplitCount(s: bytes): Option<(bytes, nat)> {
    var i := Last(s, ':');
    if i == |s| || !AllDigits(s[i + 1..]) || Value(s[i + 1..]) == 0 then None
    else Some((s[..i], Value(s[i + 1..])))
  }

  method ReadCount(s: bytes) returns (r: Option<(bytes, nat)>)
    ensures r == SplitCount(s)
  {
    var idx := Last(s, ':');
    if idx == |s| {
      return None;
    }
    var digits := s[idx + 1..];
    var n := 0;
    for i := 0 to |digits|
      invariant AllDigits(digits[..i]) && n == Value(digits[..i])
    {
      if !IsDigit(digits[i]) {
        return None;
      }
      assert digits[..i + 1][..i] == digits[..i];
      n := n * 10 + (digits[i] as int - '0' as int);
    }
    assert digits[..|digits|] == digits;
    if n == 0 {
      return None;
    }
    return Some((s[..idx], n));
  }

  // --------------------------------------------------------- where a run starts

  datatype Refusal = Unreadable | StartsAtZero | ZeroPadded
  datatype Result<T> = Accepted(value: T) | Refused(why: Refusal)

  /** Where the digits a text ends in begin. */
  function DigitsFrom(s: bytes): (i: nat)
    ensures i <= |s|
  {
    if s != [] && IsDigit(s[|s| - 1]) then DigitsFrom(s[..|s| - 1]) else |s|
  }

  lemma {:induction false} DigitsFromSplits(s: bytes)
    ensures var i := DigitsFrom(s); AllDigits(s[i..]) && (i > 0 ==> !IsDigit(s[i - 1]))
  {
    if s != [] && IsDigit(s[|s| - 1]) {
      var i := DigitsFrom(s);
      DigitsFromSplits(s[..|s| - 1]);
      assert s[i..] == s[..|s| - 1][i..] + [s[|s| - 1]];
    }
  }

  /** The prefix of a run's names and the number of the first. */
  function Start(local: bytes): Result<(bytes, nat)> {
    var i := DigitsFrom(local);
    DigitsFromSplits(local);
    if i == |local| then Accepted((local, 1))
    else FirstOf(local[..i], local[i..])
  }

  function FirstOf(prefix: bytes, digits: bytes): Result<(bytes, nat)>
    requires AllDigits(digits) && digits != []
  {
    if Atoi(digits).None? then Refused(Unreadable)
    else if Value(digits) == 0 then Refused(StartsAtZero)
    else if |digits| > 1 && digits[0] == '0' then Refused(ZeroPadded)
    else Accepted((prefix, Value(digits)))
  }

  method SplitTrailingNumber(local: bytes) returns (r: Result<(bytes, nat)>)
    ensures r == Start(local)
  {
    var i := |local|;
    assert local[..|local|] == local;
    while i > 0 && IsDigit(local[i - 1])
      invariant 0 <= i <= |local| && DigitsFrom(local) == DigitsFrom(local[..i])
    {
      assert local[..i][..i - 1] == local[..i - 1];
      i := i - 1;
    }
    if i == |local| {
      return Accepted((local, 1));
    }
    DigitsFromSplits(local);
    var digits := local[i..];
    assert IsDigit(digits[0]);
    var n := Atoi(digits);
    if n.None? {
      return Refused(Unreadable);
    }
    if n.value == 0 {
      return Refused(StartsAtZero);
    }
    if |digits| > 1 && digits[0] == '0' {
      return Refused(ZeroPadded);
    }
    return Accepted((local[..i], n.value));
  }

  // ------------------------------------------------------------------ expansion

  function Address(prefix: bytes, n: nat, domain: bytes): bytes {
    (prefix + Dec(n)) + (['@'] + domain)
  }

  function RunOf(prefix: bytes, first: nat, count: nat, domain: bytes): (r: seq<bytes>)
    ensures |r| == count && forall i :: 0 <= i < count ==> r[i] == Address(prefix, first + i, domain)
  {
    seq(count, i requires 0 <= i < count => Address(prefix, first + i, domain))
  }

  /** What one part of the list stands for: itself, unless it ends in a count and names an
      address. */
  function Expansion(part: bytes): Result<seq<bytes>> {
    var c := SplitCount(part);
    if c.None? then Accepted([part])
    else
      var (addr, count) := c.value;
      var at := First(addr, '@');
      if at == |addr| then Accepted([part])
      else
        var s := Start(addr[..at]);
        if s.Refused? then Refused(s.why)
        else Accepted(RunOf(s.value.0, s.value.1, count, addr[at + 1..]))
  }

  /** The parts of a list in order, blank ones left out; the first refusal refuses it. */
  function Expanded(parts: seq<bytes>): Result<seq<bytes>> {
    if parts == [] then Accepted([])
    else
      var before := Expanded(parts[..|parts| - 1]);
      var part := TrimSpace(parts[|parts| - 1]);
      if before.Refused? || part == [] then before
      else
        var more := Expansion(part);
        if more.Refused? then more else Accepted(before.value + more.value)
  }

  lemma {:induction false} RefusalStands(parts: seq<bytes>, k: nat)
    requires k <= |parts| && Expanded(parts[..k]).Refused?
    ensures Expanded(parts) == Expanded(parts[..k])
  {
    if k == |parts| {
      assert parts[..k] == parts;
    } else {
      assert parts[..|parts| - 1][..k] == parts[..k];
      RefusalStands(parts[..|parts| - 1], k);
    }
  }

  method ExpandPart(part: bytes) returns (r: Result<seq<bytes>>)
    ensures r == Expansion(part)
  {
    var c := ReadCount(part);
    if c.None? {
      return Accepted([part]);
    }
    var (addr, count) := c.value;
    var at := First(addr, '@');
    if at == |addr| {
      return Accepted([part]);
    }
    var local, domain := addr[..at], addr[at + 1..];
    var start := SplitTrailingNumber(local);
    if start.Refused? {
      return Refused(start.why);
    }
    var out: seq<bytes> := [];
    for i := 0 to count
      invariant out == RunOf(start.value.0, start.value.1, count, domain)[..i]
    {
      out := out + [Address(start.value.0, start.value.1 + i, domain)];
    }
    assert out == RunOf(start.value.0, start.value.1, count, domain);
    return Accepted(out);
  }

  /** One part more. */
  lemma OnePartMore(parts: seq<bytes>, i: nat)
    requires i < |parts|
    ensures var before := Expanded(parts[..i]); var part := TrimSpace(parts[i]);
            Expanded(parts[..i + 1]) ==
              if before.Refused? || part == [] then before
              else if Expansion(part).Refused? then Expansion(part)
              else Accepted(before.value + Expansion(part).value)
  {
    assert parts[..i + 1][..i] == parts[..i];
  }

  method ExpandRecipients(spec: bytes) returns (r: Result<seq<bytes>>)
    ensures r == if TrimSpace(spec) == [] then Accepted([]) else Expanded(SplitCommas(TrimSpace(spec)))
  {
    var trimmed := TrimSpace(spec);
    if trimmed == [] {
      return Accepted([]);
    }
    var parts := SplitCommas(trimmed);
    var out: seq<bytes> := [];
    for i := 0 to |parts|
      invariant Expanded(parts[..i]) == Accepted(out)
    {
      OnePartMore(parts, i);
      var part := TrimSpace(parts[i]);
      if part == [] {
        continue;
      }
      var more := ExpandPart(part);
      if more.Refused? {
        RefusalStands(parts, i + 1);
        return more;
      }
      out := out + more.value;
    }
    assert parts[..|parts|] == parts;
    return Accepted(out);
  }

  // ------------------------------------------------------------- its promises

  /** A prefix as `Start` leaves it within the part of an address before the "@". */
  predicate IsPrefix(p: bytes) {
    '@' !in p && (p != [] ==> !IsDigit(p[|p| - 1]))
  }

  lemma BeginningKeeps(s: bytes, i: nat)
    requires i <= |s| && '@' !in s && (i > 0 ==> !IsDigit(s[i - 1]))
    ensures IsPrefix(s[..i])
  {
  }

  lemma StartGivesPrefix(local: bytes)
    requires '@' !in local && Start(local).Accepted?
    ensures IsPrefix(Start(local).value.0) && Start(local).value.1 > 0
    ensures DigitsFrom(local) == |local| ==> Start(local).value == (local, 1)
  {
    DigitsFromSplits(local);
    BeginningKeeps(local, DigitsFrom(local));
    Halves(local, |local|);
  }

  lemma FirstOfIsAsWritten(prefix: bytes, digits: bytes)
    requires AllDigits(digits) && digits != [] && FirstOf(prefix, digits).Accepted?
    ensures FirstOf(prefix, digits).value.0 == prefix && Dec(FirstOf(prefix, digits).value.1) == digits
  {
    DecOfValue(digits);
  }

  lemma Halves(s: bytes, i: nat)
    requires i <= |s|
    ensures s[..i] + s[i..] == s && s[..|s|] == s
  {
  }

  lemma StartIsAsWritten(local: bytes)
    requires DigitsFrom(local) < |local| && Start(local).Accepted?
    ensures Start(local).value.0 + Dec(Start(local).value.1) == local
  {
    DigitsFromSplits(local);
    var i := DigitsFrom(local);
    FirstOfIsAsWritten(local[..i], local[i..]);
    Halves(local, i);
  }

  lemma {:induction false} DigitsFromEnd(p: bytes, d: bytes)
    requires AllDigits(d) && (p != [] ==> !IsDigit(p[|p| - 1]))
    ensures DigitsFrom(p + d) == |p|
  {
    if d == [] {
      assert p + d == p;
    } else {
      assert (p + d)[..|p + d| - 1] == p + d[..|d| - 1];
      DigitsFromEnd(p, d[..|d| - 1]);
    }
  }

  /** An expanded address gives away its prefix, its number and its domain. */
  lemma AddressTells(p: bytes, m: nat, d: bytes, q: bytes, n: nat, e: bytes)
    requires IsPrefix(p) && IsPrefix(q)
    ensures Address(p, m, d) == Address(q, n, e) <==> p == q && m == n && d == e
  {
    var a, b := p + Dec(m), q + Dec(n);
    if Address(p, m, d) == Address(q, n, e) {
      var s := Address(p, m, d);
      NoAt(p, m);
      NoAt(q, n);
      FirstAfter(a, '@', d);
      FirstAfter(b, '@', e);
      assert a == s[..|a|] && b == s[..|b|];
      assert d == s[|a| + 1..] && e == s[|b| + 1..];
      DigitsFromEnd(p, Dec(m));
      DigitsFromEnd(q, Dec(n));
      assert p == a[..|p|] && q == b[..|q|];
      assert Dec(m) == a[|p|..] && Dec(n) == b[|q|..];
      DecInjective(m, n);
    }
  }

  lemma NoAt(p: bytes, m: nat)
    requires '@' !in p
    ensures '@' !in p + Dec(m)
  {
  }

  lemma RunIsDistinct(p: bytes, first: nat, count: nat, domain: bytes, i: nat, j: nat)
    requires IsPrefix(p) && i < j < count
    ensures RunOf(p, first, count, domain)[i] != RunOf(p, first, count, domain)[j]
  {
    AddressTells(p, first + i, domain, p, first + j, domain);
  }

  /** An accepted run holds exactly that many different addresses, of which the first is
      the one that was written. */
  lemma RunIsAsWritten(local: bytes, domain: bytes, count: nat)
    requires '@' !in local && Start(local).Accepted? && count > 0
    ensures var r := RunOf(Start(local).value.0, Start(local).value.1, count, domain);
            && |r| == count
            && r[0] == (if DigitsFrom(local) < |local| then local else local + Dec(1)) + (['@'] + domain)
            && forall i, j :: 0 <= i < j < count ==> r[i] != r[j]
  {
    StartGivesPrefix(local);
    if DigitsFrom(local) < |local| { StartIsAsWritten(local); }
    var p, first := Start(local).value.0, Start(local).value.1;
    forall i, j | 0 <= i < j < count
      ensures RunOf(p, first, count, domain)[i] != RunOf(p, first, count, domain)[j]
    {
      RunIsDistinct(p, first, count, domain, i, j);
    }
  }

  lemma {:induction false} LastAt(a: bytes, c: octet, b: bytes)
    requires c !in b
    ensures Last(a + ([c] + b), c) == |a|
  {
    var s := a + ([c] + b);
    if b == [] {
      assert s[|s| - 1] == c;
    } else {
      assert s[|s| - 1] == b[|b| - 1] && s[..|s| - 1] == a + ([c] + b[..|b| - 1]);
      LastAt(a, c, b[..|b| - 1]);
    }
  }

  lemma AfterAt(a: bytes, c: octet, b: bytes)
    ensures var s := a + ([c] + b); s[..|a|] == a && s[|a| + 1..] == b
  {
  }

  lemma CountIsSplit(addr: bytes, count: nat)
    requires count > 0
    ensures SplitCount(addr + ([':'] + Dec(count))) == Some((addr, count))
  {
    assert forall i :: 0 <= i < |Dec(count)| ==> IsDigit(Dec(count)[i]);
    LastAt(addr, ':', Dec(count));
    AfterAt(addr, ':', Dec(count));
    ValueOfDec(count);
  }

  /** The shorthand in full: "local@domain:count" is refused for the number `local` ends
      in, or stands for exactly `count` different addresses; the first of them is the one
      that was written when `local` ends in a number, and has a 1 added when it does not. */
  lemma ShorthandExpands(local: bytes, domain: bytes, count: nat)
    requires '@' !in local && count > 0
    ensures var e := Expansion((local + (['@'] + domain)) + ([':'] + Dec(count)));
            if Start(local).Refused? then e == Refused(Start(local).why)
            else
              && e.Accepted? && |e.value| == count
              && e.value[0] == (if DigitsFrom(local) < |local| then local else local + Dec(1)) + (['@'] + domain)
              && forall i, j :: 0 <= i < j < count ==> e.value[i] != e.value[j]
  {
    AddressExpands(local, domain, count);
    if Start(local).Accepted? {
      RunIsAsWritten(local, domain, count);
    }
  }

  lemma AddressExpands(local: bytes, domain: bytes, count: nat)
    requires '@' !in local && count > 0
    ensures Expansion((local + (['@'] + domain)) + ([':'] + Dec(count))) ==
              if Start(local).Refused? then Refused(Start(local).why)
              else Accepted(RunOf(Start(local).value.0, Start(local).value.1, count, domain))
  {
    CountIsSplit(local + (['@'] + domain), count);
    FirstAfter(local, '@', domain);
    AfterAt(local, '@', domain);
  }

  lemma InRun(p: bytes, m: nat, j: nat, d: bytes, c: nat)
    requires m <= c < m + j
    ensures Address(p, c, d) in RunOf(p, m, j, d)
  {
    assert RunOf(p, m, j, d)[c - m] == Address(p, c, d);
  }

  lemma SharedAddress(p: bytes, m: nat, j: nat, d: bytes, q: bytes, n: nat, k: nat, e: bytes, a: bytes)
    requires IsPrefix(p) && IsPrefix(q) && a in RunOf(p, m, j, d) && a in RunOf(q, n, k, e)
    ensures p == q && d == e && m < n + k && n < m + j
  {
    var x :| 0 <= x < j && RunOf(p, m, j, d)[x] == a;
    var y :| 0 <= y < k && RunOf(q, n, k, e)[y] == a;
    AddressTells(p, m + x, d, q, n + y, e);
  }

  /** Two expanded parts share an address if and only if they agree on prefix and domain
      and their numbers overlap. */
  lemma RunsOverlapIff(p: bytes, m: nat, j: nat, d: bytes, q: bytes, n: nat, k: nat, e: bytes)
    requires IsPrefix(p) && IsPrefix(q) && j > 0 && k > 0
    ensures (exists a :: a in RunOf(p, m, j, d) && a in RunOf(q, n, k, e))
            <==> p == q && d == e && m < n + k && n < m + j
  {
    if a :| a in RunOf(p, m, j, d) && a in RunOf(q, n, k, e) {
      SharedAddress(p, m, j, d, q, n, k, e, a);
    }
    if p == q && d == e && m < n + k && n < m + j {
      var c := if m < n then n else m;
      InRun(p, m, j, d, c);
      InRun(q, n, k, e, c);
    }
  }

  // -------------------------------------------------------------- explicit lists

  /** A part that ends in a colon and a count, with an "@" before. */
  predicate IsShorthand(part: bytes) {
    exists i :: 0 <= i < |part| && CountedAt(part, i)
  }

  predicate CountedAt(part: bytes, i: nat)
    requires i < |part|
  {
    part[i] == ':' && '@' in part[..i] && AllDigits(part[i + 1..]) && Value(part[i + 1..]) > 0
  }

  lemma {:induction false} LastIs(s: bytes, c: octet)
    ensures var i := Last(s, c); if i < |s| then s[i] == c && c !in s[i + 1..] else c !in s
  {
    if s != [] && s[|s| - 1] != c {
      var t := s[..|s| - 1];
      LastIs(t, c);
      assert s == t + [s[|s| - 1]];
      if Last(t, c) < |t| { assert s[Last(t, c) + 1..] == t[Last(t, c) + 1..] + [s[|s| - 1]]; }
    }
  }

  lemma {:induction false} FirstIs(s: bytes, c: octet)
    ensures var i := First(s, c); (if i < |s| then s[i] == c else c !in s) && c !in s[..i]
  {
    if s != [] && s[0] != c {
      FirstIs(s[1..], c);
      HeadAndTail(s);
      assert s[..First(s, c)] == [s[0]] + s[1..][..First(s[1..], c)];
    }
  }

  lemma ShorthandIsLast(part: bytes, i: nat)
    requires i < |part| && CountedAt(part, i)
    ensures Last(part, ':') == i
  {
    assert part == part[..i] + ([':'] + part[i + 1..]);
    LastAt(part[..i], ':', part[i + 1..]);
  }

  lemma IsShorthandIff(part: bytes)
    ensures IsShorthand(part)
            <==> SplitCount(part).Some? && First(SplitCount(part).value.0, '@') < |SplitCount(part).value.0|
  {
    var k := Last(part, ':');
    LastIs(part, ':');
    if i :| 0 <= i < |part| && CountedAt(part, i) { ShorthandIsLast(part, i); }
    if k < |part| {
      FirstIs(part[..k], '@');
      assert CountedAt(part, k) <==> '@' in part[..k] && AllDigits(part[k + 1..]) && Value(part[k + 1..]) > 0;
    }
  }

  /** A part stands for itself if and only if it is no shorthand: without a count, or
      without an "@" before it, nothing of it is lost. */
  lemma StandsForItselfIff(part: bytes)
    ensures Expansion(part) == Accepted([part]) <==> !IsShorthand(part)
  {
    hide IsShorthand;
    IsShorthandIff(part);
    if IsShorthand(part) {
      var (addr, count) := SplitCount(part).value;
      var at := First(addr, '@');
      if Start(addr[..at]).Accepted? { TooShort(part, addr, at, count); }
    }
  }

  /** What a shorthand stands for is shorter than it. */
  lemma TooShort(part: bytes, addr: bytes, at: nat, count: nat)
    requires SplitCount(part) == Some((addr, count)) && at < |addr| && Start(addr[..at]).Accepted?
    ensures var s := Start(addr[..at]).value; RunOf(s.0, s.1, count, addr[at + 1..]) != [part]
  {
    var local := addr[..at];
    var s := Start(local).value;
    var k := Last(part, ':');
    assert |part| >= |addr| + 2;
    DigitsFromSplits(local);
    if DigitsFrom(local) < |local| { StartIsAsWritten(local); } else { OneIsADigit(); }
    assert |s.0 + Dec(s.1)| <= |local| + 1;
    var r := RunOf(s.0, s.1, count, addr[at + 1..]);
    assert count > 0 && |r[0]| < |part|;
  }

  lemma OneIsADigit()
    ensures |Dec(1)| == 1
  {
  }

  /** A list, as it is written. */
  function Commas(parts: seq<bytes>): bytes
    requires parts != []
  {
    if |parts| == 1 then parts[0] else parts[0] + ([','] + Commas(parts[1..]))
  }

  lemma {:induction false} CommasSplit(parts: seq<bytes>)
    requires parts != [] && forall i :: 0 <= i < |parts| ==> ',' !in parts[i]
    ensures SplitCommas(Commas(parts)) == parts
  {
    if |parts| == 1 {
      FirstIs(parts[0], ',');
      assert parts == [parts[0]];
    } else {
      FirstAfter(parts[0], ',', Commas(parts[1..]));
      AfterAt(parts[0], ',', Commas(parts[1..]));
      CommasSplit(parts[1..]);
      assert parts == [parts[0]] + parts[1..];
    }
  }

  /** Part `p` with blanks around it. */
  predicate Padded(s: bytes, p: bytes) {
    && (p != [] ==> !Blank([p[0]]) && !Blank([p[|p| - 1]]))
    && exists i :: 0 <= i <= |s| - |p| && PaddedAt(s, p, i)
  }

  predicate PaddedAt(s: bytes, p: bytes, i: nat)
    requires i + |p| <= |s|
  {
    Blank(s[..i]) && s[i..i + |p|] == p && Blank(s[i + |p|..])
  }

  lemma PaddingIsTrimmed(s: bytes, p: bytes)
    requires Padded(s, p)
    ensures TrimSpace(s) == p
  {
    var i :| 0 <= i <= |s| - |p| && PaddedAt(s, p, i);
    assert s == s[..i] + p + s[i + |p|..];
    TrimsTo(s[..i], p, s[i + |p|..]);
  }

  /** The parts of a list that are not blank. */
  function Written(ps: seq<bytes>): seq<bytes> {
    if ps == [] then []
    else Written(ps[..|ps| - 1]) + if ps[|ps| - 1] == [] then [] else [ps[|ps| - 1]]
  }

  lemma {:induction false} PlainPartsExpand(parts: seq<bytes>, ps: seq<bytes>)
    requires |parts| == |ps|
    requires forall i :: 0 <= i < |ps| ==> Padded(parts[i], ps[i]) && !IsShorthand(ps[i])
    ensures Expanded(parts) == Accepted(Written(ps))
  {
    hide Padded, IsShorthand, Expansion;
    if ps != [] {
      var n := |ps| - 1;
      PlainPartsExpand(parts[..n], ps[..n]);
      PaddingIsTrimmed(parts[n], ps[n]);
      StandsForItselfIff(ps[n]);
      assert Written(ps[..n]) + [] == Written(ps[..n]);
    }
  }

  lemma {:induction false} CommasEnds(parts: seq<bytes>)
    requires parts != [] && parts[0] != [] && parts[|parts| - 1] != []
    ensures var s := Commas(parts); var last := parts[|parts| - 1];
            s != [] && s[0] == parts[0][0] && s[|s| - 1] == last[|last| - 1]
  {
    if |parts| > 2 {
      CommasEndsInLast(parts[1..]);
    }
  }

  lemma {:induction false} CommasEndsInLast(parts: seq<bytes>)
    requires parts != [] && parts[|parts| - 1] != []
    ensures var s := Commas(parts); var last := parts[|parts| - 1];
            s != [] && s[|s| - 1] == last[|last| - 1]
  {
    if |parts| > 1 { CommasEndsInLast(parts[1..]); }
  }

  /** An explicit list is taken as it is written: every part that is no shorthand comes out
      once, in its place, without the blanks around it, and parts of nothing but blanks do
      not come out. (The list as a whole starts and ends with no blank: those are trimmed
      off it first.) */
  lemma PlainListExpands(parts: seq<bytes>, ps: seq<bytes>)
    requires |parts| == |ps| > 0
    requires forall i :: 0 <= i < |ps| ==> ',' !in parts[i] && Padded(parts[i], ps[i]) && !IsShorthand(ps[i])
    requires ps[0] != [] && ps[0] <= parts[0]
    requires ps[|ps| - 1] != [] && HasSuffix(parts[|ps| - 1], ps[|ps| - 1])
    ensures var spec := Commas(parts);
            TrimSpace(spec) == spec != [] && Expanded(SplitCommas(TrimSpace(spec))) == Accepted(Written(ps))
  {
    hide IsShorthand, Expanded, SplitCommas, Commas, Blank;
    var spec := Commas(parts);
    CommasEnds(parts);
    BlankEnds();
    TrimsTo([], spec, []);
    assert [] + spec + [] == spec;
    CommasSplit(parts);
    PlainPartsExpand(parts, ps);
  }

  lemma BlankEnds()
    ensures Blank([])
  {
  }

  // ------------------------------------------------------------------- refusals

  function Zeros(z: nat): bytes { seq(z, i => '0') }

  lemma {:induction false} ZerosAddNothing(z: nat, d: bytes)
    requires AllDigits(d)
    ensures AllDigits(Zeros(z) + d) && Value(Zeros(z) + d) == Value(d)
    decreases |d|, z
  {
    var s := Zeros(z) + d;
    if d != [] {
      assert s[..|s| - 1] == Zeros(z) + d[..|d| - 1];
      ZerosAddNothing(z, d[..|d| - 1]);
    } else if z > 0 {
      assert s[..|s| - 1] == Zeros(z - 1) + d;
      ZerosAddNothing(z - 1, d);
    }
  }

  /** Where a run starts, for every text there is before the "@": at the number it ends
      in, at one if it ends in none. Refused are numbers of more than 63 bits, zero, and
      zeros before a number. */
  lemma StartMeans(p: bytes, z: nat, n: nat)
    requires p != [] ==> !IsDigit(p[|p| - 1])
    ensures Start(p) == Accepted((p, 1))
    ensures Start(p + (Zeros(z) + Dec(n)))
         == if n > MaxInt then Refused(Unreadable)
            else if n == 0 then Refused(StartsAtZero)
            else if z > 0 then Refused(ZeroPadded)
            else Accepted((p, n))
  {
    hide Dec, FirstOf, DigitsFrom;
    var d := Zeros(z) + Dec(n);
    ZerosAddNothing(z, Dec(n));
    DigitsFromEnd(p, []);
    DigitsFromEnd(p, d);
    assert p + [] == p;
    SplitAgain(p, d);
    FirstOfMeans(p, z, n);
  }

  lemma SplitAgain(p: bytes, d: bytes)
    ensures (p + d)[..|p|] == p && (p + d)[|p|..] == d
  {
  }

  lemma FirstOfMeans(p: bytes, z: nat, n: nat)
    ensures var d := Zeros(z) + Dec(n);
            && AllDigits(d) && d != []
            && FirstOf(p, d) == if n > MaxInt then Refused(Unreadable)
                                else if n == 0 then Refused(StartsAtZero)
                                else if z > 0 then Refused(ZeroPadded)
                                else Accepted((p, n))
  {
    hide Dec, Value;
    var d := Zeros(z) + Dec(n);
    ValueOfDec(n);
    ZerosAddNothing(z, Dec(n));
    assert IsDigit(d[0]);
    if n > 0 { LeadingZero(z, n); }
  }

  lemma LeadingZero(z: nat, n: nat)
    requires n > 0
    ensures var d := Zeros(z) + Dec(n); |d| > 1 && d[0] == '0' <==> z > 0
  {
    ValueOfDec(n);
  }
}
