/** Octet strings as the Go sources see them: `string` and `[]byte` are both octet
    sequences, a network stream is the octet sequence not yet read. */
module Octets {
  type octet = c: char | c as int < 256 witness ' '
  type bytes = seq<octet>

  const CR: octet := '\r'
  const LF: octet := '\n'
  const CRLF: bytes := "\r\n"

  datatype Option<+T> = None | Some(value: T)

  predicate HasSuffix(s: bytes, t: bytes) {
    |t| <= |s| && s[|s| - |t|..] == t
  }

  lemma Assoc(a: bytes, b: bytes, c: bytes)
    ensures (a + b) + c == a + (b + c)
  {
  }

  lemma HeadOfSum(a: bytes, b: bytes)
    requires a != []
    ensures a + b != [] && (a + b)[0] == a[0] && (a + b)[1..] == a[1..] + b
  {
  }

  lemma HeadAndTail(a: bytes)
    requires a != []
    ensures a == [a[0]] + a[1..]
  {
  }

  lemma Cons(x: octet, a: bytes)
    ensures ([x] + a)[0] == x && ([x] + a)[1..] == a
  {
  }

  lemma InitAndLast(a: bytes)
    requires a != []
    ensures a == a[..|a| - 1] + [a[|a| - 1]]
  {
  }

  // ---------------------------------------------------------------- lines

  /** What one `ReadString('\n')` yields: the octets up to and including the first
      LF, or everything there is together with end-of-file. */
  datatype Read = Read(line: bytes, rest: bytes, eof: bool)

  function ReadLine(s: bytes): (r: Read)
    ensures |r.line| + |r.rest| == |s|
    ensures !r.eof ==> |r.line| > 0
  {
    if s == [] then Read([], [], true)
    else if s[0] == LF then Read([LF], s[1..], false)
    else var r := ReadLine(s[1..]); Read([s[0]] + r.line, r.rest, r.eof)
  }

  /** Whole lines: one LF, at the end. */
  predicate IsLine(l: bytes) {
    l != [] && if l[0] == LF then l == [LF] else IsLine(l[1..])
  }

  lemma {:induction false} IsLineIff(l: bytes)
    ensures IsLine(l) <==> l != [] && l[|l| - 1] == LF && LF !in l[..|l| - 1]
  {
    if l != [] && l[0] != LF {
      var t := l[1..];
      IsLineIff(t);
      HeadAndTail(l);
      if t != [] { assert l[..|l| - 1] == [l[0]] + t[..|t| - 1]; }
    } else if l != [] {
      assert l == [LF] || l[0] in l[..|l| - 1];
    }
  }

  /** Reading splits the stream into a line and what follows it, or finds no LF. */
  lemma {:induction false} ReadLineSplits(s: bytes)
    ensures var r := ReadLine(s);
            r.line + r.rest == s && (if r.eof then r.rest == [] && LF !in s else IsLine(r.line))
  {
    if s != [] {
      HeadAndTail(s);
      if s[0] != LF {
        var t := ReadLine(s[1..]);
        ReadLineSplits(s[1..]);
        Assoc([s[0]], t.line, t.rest);
        Cons(s[0], t.line);
      }
    }
  }

  /** A line ends at its first LF, whatever follows it. */
  lemma {:induction false} ReadWholeLine(l: bytes, rest: bytes)
    requires IsLine(l)
    ensures ReadLine(l + rest) == Read(l, rest, false)
  {
    HeadOfSum(l, rest);
    HeadAndTail(l);
    if l[0] == LF {
      assert l[1..] + rest == rest;
    } else {
      ReadWholeLine(l[1..], rest);
    }
  }

  /** A line that has arrived is read the same whatever arrives after it. */
  lemma LineIsFinal(s: bytes, t: bytes)
    requires !ReadLine(s).eof
    ensures ReadLine(s + t) == Read(ReadLine(s).line, ReadLine(s).rest + t, false)
  {
    var r := ReadLine(s);
    ReadLineSplits(s);
    Assoc(r.line, r.rest, t);
    ReadWholeLine(r.line, r.rest + t);
  }

  /** `strings.TrimRight(s, "\r\n")`. */
  function TrimEol(s: bytes): (r: bytes)
    ensures |r| <= |s|
  {
    if s != [] && (s[|s| - 1] == CR || s[|s| - 1] == LF) then TrimEol(s[..|s| - 1]) else s
  }

  lemma {:induction false} TrimEolIsPrefix(s: bytes)
    ensures TrimEol(s) == s[..|TrimEol(s)|]
  {
    if s != [] && (s[|s| - 1] == CR || s[|s| - 1] == LF) {
      var t := s[..|s| - 1];
      TrimEolIsPrefix(t);
      assert t[..|TrimEol(t)|] == s[..|TrimEol(t)|];
    }
  }

  /** Up to its last octet that is not CR or LF nothing is trimmed. */
  lemma {:induction false} TrimKeeps(s: bytes, k: nat)
    requires 0 < k <= |s| && s[k - 1] != CR && s[k - 1] != LF
    ensures |TrimEol(s)| >= k
  {
    if |s| > k {
      TrimKeeps(s[..|s| - 1], k);
    }
  }

  /** Trimming stops at the first octet from the right that is neither CR nor LF. */
  lemma {:induction false} TrimEolKeeps(a: bytes, b: bytes)
    requires a == [] || (a[|a| - 1] != CR && a[|a| - 1] != LF)
    requires forall k :: 0 <= k < |b| ==> b[k] == CR || b[k] == LF
    ensures TrimEol(a + b) == a
  {
    if b == [] {
      assert a + b == a;
    } else {
      assert (a + b)[..|a + b| - 1] == a + b[..|b| - 1];
      TrimEolKeeps(a, b[..|b| - 1]);
    }
  }

  /** A buffered reader over a connection: the octets that have arrived and have not
      been consumed. */
  class Reader {
    var unread: bytes

    constructor (s: bytes)
      ensures unread == s
    {
      unread := s;
    }

    method ReadString() returns (line: bytes, eof: bool)
      modifies this
      ensures var r := ReadLine(old(unread)); line == r.line && unread == r.rest && eof == r.eof
    {
      var r := ReadLine(unread);
      line, eof, unread := r.line, r.eof, r.rest;
    }
  }

  // ---------------------------------------------------------------- blanks

  /** ASCII white space, as `strings.TrimSpace` and `strings.Fields` take it. */
  predicate IsSpace(c: octet) { c == ' ' || c == '\t' || c == '\n' || c == '\r' || c as int == 11 || c as int == 12 }

  function TrimLeft(s: bytes): bytes {
    if s != [] && IsSpace(s[0]) then TrimLeft(s[1..]) else s
  }

  function TrimRight(s: bytes): bytes {
    if s != [] && IsSpace(s[|s| - 1]) then TrimRight(s[..|s| - 1]) else s
  }

  function TrimSpace(s: bytes): bytes { TrimLeft(TrimRight(s)) }

  /** Nothing but blanks, listed. */
  predicate Blank(s: bytes) { forall i :: 0 <= i < |s| ==> s[i] in [' ', '\t', '\n', '\r', 11 as char, 12 as char] }

  lemma BlankIsSpace(c: octet)
    ensures Blank([c]) <==> IsSpace(c)
  {
    assert [c][0] == c;
  }

  lemma {:induction false} TrimRightKeeps(s: bytes, k: nat)
    requires k <= |s| && (k > 0 ==> !IsSpace(s[k - 1]))
    ensures k <= |TrimRight(s)| <= |s| && TrimRight(s) == s[..|TrimRight(s)|]
  {
    if |s| > k && IsSpace(s[|s| - 1]) {
      var t := s[..|s| - 1];
      TrimRightKeeps(t, k);
      assert t[..|TrimRight(t)|] == s[..|TrimRight(t)|];
    }
  }

  lemma {:induction false} NothingLeft(s: bytes)
    requires forall i :: 0 <= i < |s| ==> IsSpace(s[i])
    ensures TrimRight(s) == []
  {
    if s != [] { NothingLeft(s[..|s| - 1]); }
  }

  lemma {:induction false} TrimLeftDrops(lead: bytes, s: bytes)
    requires forall i :: 0 <= i < |lead| ==> IsSpace(lead[i])
    requires s != [] && !IsSpace(s[0])
    ensures TrimLeft(lead + s) == s
  {
    if lead == [] {
      assert lead + s == s;
    } else {
      HeadOfSum(lead, s);
      TrimLeftDrops(lead[1..], s);
    }
  }

  /** Blanks around a text are what is trimmed off it. */
  lemma TrimsTo(lead: bytes, s: bytes, tail: bytes)
    requires Blank(lead) && Blank(tail) && (s != [] ==> !Blank([s[0]]) && !Blank([s[|s| - 1]]))
    ensures TrimSpace(lead + s + tail) == s
  {
    var all := lead + s + tail;
    forall c: octet ensures Blank([c]) <==> IsSpace(c) { BlankIsSpace(c); }
    forall i | 0 <= i < |lead| ensures IsSpace(lead[i]) { assert Blank([lead[i]]); }
    forall i | 0 <= i < |tail| ensures IsSpace(tail[i]) { assert Blank([tail[i]]); }
    if s == [] {
      NothingLeft(all);
    } else {
      TrimRightStops(lead + s, tail);
      TrimLeftDrops(lead, s);
    }
  }

  lemma {:induction false} TrimRightStops(a: bytes, tail: bytes)
    requires a != [] && !IsSpace(a[|a| - 1]) && forall i :: 0 <= i < |tail| ==> IsSpace(tail[i])
    ensures TrimRight(a + tail) == a
  {
    if tail == [] {
      assert a + tail == a;
    } else {
      assert (a + tail)[..|a + tail| - 1] == a + tail[..|tail| - 1];
      TrimRightStops(a, tail[..|tail| - 1]);
    }
  }

  // ---------------------------------------------------------------- decimals

  predicate IsDigit(c: octet) { '0' <= c <= '9' }

  predicate AllDigits(s: bytes) { forall k :: 0 <= k < |s| ==> IsDigit(s[k]) }

  function Digit(d: nat): (c: octet)
    requires d < 10
    ensures IsDigit(c)
  {
    ('0' as int + d) as char
  }

  /** The decimal text of a natural number, as `%d` prints it. */
  function Dec(n: nat): (s: bytes)
    ensures |s| > 0 && AllDigits(s)
  {
    if n < 10 then [Digit(n)] else Dec(n / 10) + [Digit(n % 10)]
  }

  /** The number a digit string denotes. */
  function Value(s: bytes): nat
    requires AllDigits(s)
  {
    if s == [] then 0 else Value(s[..|s| - 1]) * 10 + (s[|s| - 1] as int - '0' as int)
  }

  lemma {:induction false} ValueOfDec(n: nat)
    ensures Value(Dec(n)) == n
    ensures n > 0 ==> Dec(n)[0] != '0'
  {
    if n >= 10 {
      ValueOfDec(n / 10);
      assert Dec(n)[..|Dec(n)| - 1] == Dec(n / 10);
    } else {
      assert Dec(n)[..0] == [];
    }
  }

  lemma DecInjective(m: nat, n: nat)
    requires Dec(m) == Dec(n)
    ensures m == n
  {
    hide Dec, Value;
    ValueOfDec(m);
    ValueOfDec(n);
  }

  /** Printing inverts reading for digit strings without leading zeros. */
  lemma {:induction false} DecOfValue(s: bytes)
    requires |s| > 0 && AllDigits(s) && (|s| > 1 ==> s[0] != '0')
    ensures Dec(Value(s)) == s
    ensures s[0] != '0' ==> Value(s) > 0
  {
    var init, last := s[..|s| - 1], s[|s| - 1];
    if |s| == 1 {
      assert init == [] && s == [last];
    } else {
      DecOfValue(init);
      assert Value(s) / 10 == Value(init) && Value(s) % 10 == last as int - '0' as int;
      assert s == init + [last];
    }
  }

  const MaxInt: int := 0x7fff_ffff_ffff_ffff
  const MinInt: int := -0x8000_0000_0000_0000

  /** `strconv.Atoi`: an optional sign, at least one digit, nothing else, and a value
      that fits the platform's 64-bit int. */
  function Atoi(s: bytes): (r: Option<int>)
    ensures r.Some? ==> MinInt <= r.value <= MaxInt
  {
    var signed := s != [] && (s[0] == '-' || s[0] == '+');
    var digits := if signed then s[1..] else s;
    if digits == [] || !AllDigits(digits) then None
    else
      var v: int := if signed && s[0] == '-' then -(Value(digits) as int) else Value(digits);
      if MinInt <= v <= MaxInt then Some(v) else None
  }

  lemma AtoiOfDec(n: nat)
    requires n <= MaxInt
    ensures Atoi(Dec(n)) == Some(n)
  {
    ValueOfDec(n);
    assert IsDigit(Dec(n)[0]);
  }

  /** The digits, in their order; the value of a number read digit by digit. */
  lemma DigitsAre(d: nat, n: nat)
    requires d < 10
    ensures Dec(d) == ["0123456789"[d]]
    ensures n > 0 ==> Dec(10 * n + d) == Dec(n) + ["0123456789"[d]]
  {
  }

  /** With a sign, and not at all: no digits, or anything that is none. */
  lemma AtoiMeans(n: nat, s: bytes, k: nat)
    requires n <= MaxInt
    ensures Atoi(Dec(n)) == Some(n) && Atoi("+" + Dec(n)) == Some(n) && Atoi("-" + Dec(n)) == Some(0 - n as int)
    ensures Atoi([]) == None && Atoi("-") == None && Atoi("+") == None
    ensures k < |s| && s[k] !in "0123456789" && (k > 0 || s[k] !in "+-") ==> Atoi(s) == None
  {
    AtoiOfDec(n);
    ValueOfDec(n);
    assert ("+" + Dec(n))[1..] == Dec(n) && ("-" + Dec(n))[1..] == Dec(n);
    if k < |s| && s[k] !in "0123456789" && (k > 0 || s[k] !in "+-") {
      DigitsListed(s[k]);
      var signed := s[0] == '-' || s[0] == '+';
      if signed { assert s[1..][k - 1] == s[k]; }
    }
  }

  lemma DigitsListed(c: octet)
    ensures IsDigit(c) <==> c in "0123456789"
  {
    var digits: bytes := "0123456789";
    if IsDigit(c) {
      var d: int := c as int - '0' as int;
      assert c == digits[d];
    }
  }
}
