/** sfucvt: decimal conversion in chunks of four digits, written from right to left. */
module Decimals {

  function Digit(d: nat): char
    requires d < 10
  {
    '0' + d as char
  }

  /** Naive decimal printing: repeated division by ten. */
  function Decimal(v: nat): seq<char> {
    if v < 10 then [Digit(v)] else Decimal(v / 10) + [Digit(v % 10)]
  }

  /** Two consecutive entries of the table `_Sfdec`: the two digits of a number below 100. */
  function TableEntry(index: nat): char
    requires index < 200
  {
    if index % 2 == 0 then Digit(index / 2 / 10) else Digit(index / 2 % 10)
  }

  /** SFDIGIT: the leading digit by a tree of comparisons, subtracting it from `v`. */
  method LeadingDigit(v: nat, scale: nat) returns (digit: char, rest: nat)
    requires (scale == 100 || scale == 1000) && v < 10 * scale
    ensures digit == Digit(v / scale) && rest == v % scale
  {
    rest := v;
    if v < 5 * scale {
      if v < 2 * scale {
        if v < 1 * scale { digit := '0'; } else { digit := '1'; rest := v - 1 * scale; }
      } else if v < 3 * scale { digit := '2'; rest := v - 2 * scale; }
      else if v < 4 * scale { digit := '3'; rest := v - 3 * scale; }
      else { digit := '4'; rest := v - 4 * scale; }
    } else if v < 7 * scale {
      if v < 6 * scale { digit := '5'; rest := v - 5 * scale; } else { digit := '6'; rest := v - 6 * scale; }
    } else if v < 8 * scale { digit := '7'; rest := v - 7 * scale; }
    else if v < 9 * scale { digit := '8'; rest := v - 8 * scale; }
    else { digit := '9'; rest := v - 9 * scale; }
  }

  function Two(n: nat): seq<char>
    requires n < 100
  {
    [Digit(n / 10), Digit(n % 10)]
  }

  function Three(n: nat): seq<char>
    requires n < 1000
  {
    [Digit(n / 100)] + Two(n % 100)
  }

  function Four(n: nat): seq<char>
    requires n < 10000
  {
    [Digit(n / 1000)] + Three(n % 1000)
  }

  /** The digits of a chunk by repeated division. */
  lemma ChunkDigits(n: nat)
    requires n < 10000
    ensures Four(n) == [Digit(n / 10 / 10 / 10), Digit(n / 10 / 10 % 10), Digit(n / 10 % 10), Digit(n % 10)]
    ensures n < 1000 ==> Three(n) == [Digit(n / 10 / 10), Digit(n / 10 % 10), Digit(n % 10)]
  {
    Quotients(n);
    Remainders(n);
  }

  lemma Quotients(n: nat)
    ensures n / 100 == n / 10 / 10 && n / 1000 == n / 10 / 10 / 10
  {
  }

  lemma Remainders(n: nat)
    ensures n % 1000 / 100 == n / 100 % 10 && n % 1000 % 100 == n % 100
    ensures n % 100 / 10 == n / 10 % 10 && n % 100 % 10 == n % 10
  {
    Remainder1000(n);
    Remainder100(n);
  }

  lemma Remainder1000(n: nat)
    ensures n % 1000 / 100 == n / 100 % 10 && n % 1000 % 100 == n % 100
  {
    var q, r := n / 1000, n % 1000;
    assert n == 100 * (10 * q) + r;
    assert n / 100 == 10 * q + r / 100;
  }

  lemma Remainder100(n: nat)
    ensures n % 100 / 10 == n / 10 % 10 && n % 100 % 10 == n % 10
  {
    var q, r := n / 100, n % 100;
    assert n == 10 * (10 * q) + r;
    assert n / 10 == 10 * q + r / 10;
  }

  lemma Unfold(v: nat)
    requires v >= 10
    ensures Decimal(v) == Decimal(v / 10) + [Digit(v % 10)]
  {
  }

  lemma Single(v: nat)
    requires v < 10
    ensures Decimal(v) == [Digit(v)]
  {
  }

  /** Numbers of two, three and four digits. */
  lemma SmallDecimals(v: nat)
    ensures v < 10 ==> Decimal(v) == [Digit(v)]
    ensures 10 <= v < 100 ==> Decimal(v) == Two(v)
    ensures 100 <= v < 1000 ==> Decimal(v) == Three(v)
    ensures 1000 <= v < 10000 ==> Decimal(v) == Four(v)
  {
    hide Decimal, Three, Four;
    if v < 10 {
      Single(v);
    } else if v < 100 {
      Unfold(v);
      Single(v / 10);
    } else if v < 1000 {
      Unfold(v);
      Unfold(v / 10);
      Single(v / 10 / 10);
      ChunkDigits(v);
    } else if v < 10000 {
      Unfold(v);
      Unfold(v / 10);
      Unfold(v / 10 / 10);
      Single(v / 10 / 10 / 10);
      ChunkDigits(v);
    }
  }

  lemma DivideTen(m: nat, n: nat)
    ensures (10 * m + n) / 10 == m + n / 10 && (10 * m + n) % 10 == n % 10
  {
  }

  /** The four digits peeled off by one round of the loop. */
  lemma PeelFour(v: nat)
    requires v >= 10000
    ensures Decimal(v) == Decimal(v / 10000) + Four(v % 10000)
  {
    hide Decimal, Four;
    var q, n := v / 10000, v % 10000;
    DivideTen(1000 * q, n);
    DivideTen(100 * q, n / 10);
    DivideTen(10 * q, n / 10 / 10);
    DivideTen(q, n / 10 / 10 / 10);
    Unfold(v);
    Unfold(v / 10);
    Unfold(v / 10 / 10);
    Unfold(v / 10 / 10 / 10);
    ChunkDigits(n);
    assert v / 10 / 10 / 10 / 10 == q;
  }

  /** `buf` holds `text` from `at` on and is as before outside. */
  twostate predicate Wrote(buf: array<char>, at: nat, text: seq<char>)
    reads buf
  {
    && at + |text| <= buf.Length
    && buf[..] == old(buf[..at]) + text + old(buf[at + |text|..])
  }

  method WriteFour(n: nat, buf: array<char>, s: nat)
    requires n < 10000 && s + 4 <= buf.Length
    modifies buf
    ensures Wrote(buf, s, Four(n))
  {
    var rest;
    buf[s], rest := LeadingDigit(n, 1000);
    buf[s + 1], rest := LeadingDigit(rest, 100);
    rest := rest * 2;
    buf[s + 2] := TableEntry(rest);
    buf[s + 3] := TableEntry(rest + 1);
  }

  method WriteThree(n: nat, buf: array<char>, s: nat)
    requires n < 1000 && s + 3 <= buf.Length
    modifies buf
    ensures Wrote(buf, s, Three(n))
  {
    var rest;
    buf[s], rest := LeadingDigit(n, 100);
    buf[s + 1] := TableEntry(rest * 2);
    buf[s + 2] := TableEntry(rest * 2 + 1);
  }

  lemma FourLong(n: nat)
    requires n < 10000
    ensures |Four(n)| == 4
  {
  }

  /** Everything after the loop: at most four more digits. */
  method WriteHead(v: nat, buf: array<char>, end: nat) returns (s: nat)
    requires v < 10000 && |Decimal(v)| <= end <= buf.Length
    modifies buf
    ensures s == end - |Decimal(v)| && Wrote(buf, s, Decimal(v))
  {
    hide Decimal;
    SmallDecimals(v);
    if v < 100 {
      if v < 10 {
        s := end - 1;
        buf[s] := '0' + v as char;
      } else {
        s := end - 2;
        buf[s] := TableEntry(v * 2);
        buf[s + 1] := TableEntry(v * 2 + 1);
      }
    } else {
      if v < 1000 {
        s := end - 3;
        WriteThree(v, buf, s);
      } else {
        s := end - 4;
        WriteFour(v, buf, s);
      }
    }
  }

  /** sfucvt refines naive printing: the numeral of `value` ends right before `end`, and nothing else is
      touched. */
  method Convert(value: nat, buf: array<char>, end: nat) returns (s: nat)
    requires |Decimal(value)| <= end <= buf.Length
    modifies buf
    ensures s == end - |Decimal(value)| && Wrote(buf, s, Decimal(value))
  {
    hide Decimal, Four;
    var v := value;
    s := end;
    ghost var done: seq<char> := [];
    ghost var was := buf[..];
    while v >= 10000
      invariant Decimal(value) == Decimal(v) + done
      invariant |Decimal(v)| <= s && s + |done| == end
      invariant buf[..] == was[..s] + done + was[end..]
    {
      PeelFour(v);
      FourLong(v % 10000);
      var n := v;
      v := v / 10000;
      n := n - v * 10000;
      ghost var before := buf[..];
      s := s - 4;
      WriteFour(n, buf, s);
      Spliced(was, before, buf[..], s, Four(n), done, end);
      done := Four(n) + done;
    }
    ghost var before := buf[..];
    s := WriteHead(v, buf, s);
    Spliced(was, before, buf[..], s, Decimal(v), done, end);
  }

  /** Text written right in front of what is already there. */
  lemma Spliced(was: seq<char>, before: seq<char>, after: seq<char>, s: nat, text: seq<char>, done: seq<char>, end: nat)
    requires s + |text| + |done| == end <= |was|
    requires before == was[..s + |text|] + done + was[end..]
    requires after == before[..s] + text + before[s + |text|..]
    ensures after == was[..s] + (text + done) + was[end..]
  {
    assert before[..s] == was[..s];
    assert before[s + |text|..] == done + was[end..];
  }

  // ----- the numeral is the right one -----

  predicate IsDigit(c: char) {
    '0' <= c <= '9'
  }

  function DigitValue(c: char): int {
    c as int - '0' as int
  }

  function Value(s: seq<char>): int {
    if s == [] then 0 else 10 * Value(s[..|s| - 1]) + DigitValue(s[|s| - 1])
  }

  /** A numeral without leading zeros. */
  predicate Canonical(s: seq<char>) {
    |s| >= 1 && (forall i :: 0 <= i < |s| ==> IsDigit(s[i])) && (|s| > 1 ==> s[0] != '0')
  }

  /** The output is canonical and denotes the value. */
  lemma {:induction false} DecimalCanonical(v: nat)
    ensures Canonical(Decimal(v)) && Value(Decimal(v)) == v
    ensures v > 0 ==> Decimal(v)[0] != '0'
  {
    if v >= 10 {
      DecimalCanonical(v / 10);
      assert Decimal(v)[..|Decimal(v)| - 1] == Decimal(v / 10);
    } else {
      assert Decimal(v)[..0] == [];
    }
  }

  /** It is the only canonical numeral of that value. */
  lemma {:induction false} CanonicalUnique(s: seq<char>)
    requires Canonical(s)
    ensures Value(s) >= 0 && Decimal(Value(s)) == s
    ensures s[0] != '0' ==> Value(s) > 0
  {
    hide Decimal;
    var front := s[..|s| - 1];
    var last := s[|s| - 1];
    assert IsDigit(last) && IsDigit(s[0]);
    var d := DigitValue(last);
    assert Digit(d) == last;
    assert Value(s) == 10 * Value(front) + d;
    if |s| > 1 {
      assert front[0] == s[0];
      CanonicalUnique(front);
      DivideTen(Value(front), d);
      Unfold(Value(s));
      assert s == front + [last];
    } else {
      assert front == [];
      Single(d);
      assert s == [last];
    }
  }

}
