/** `itoa` and `atoi` of lib/string.c. */
module Numbers {
  import opened Arithmetic
  import opened Bytes

  const INT_MIN := -0x8000_0000
  const INT_MAX := 0x7FFF_FFFF
  const ZERO: uint8 := 0x30
  const NINE: uint8 := 0x39
  const MINUS: uint8 := 0x2D
  const PLUS: uint8 := 0x2B
  const BLANK: uint8 := 0x20
  const LETTER_A: uint8 := 0x61

  type int32 = x: int | INT_MIN <= x <= INT_MAX

  // ----- Printing

  /** Division and remainder as C has them: toward zero. */
  function Quot(v: int, base: nat): int
    requires base > 0
  {
    if v >= 0 then v / base else -(-v / base)
  }

  function Rem(v: int, base: nat): int
    requires base > 0
  {
    if v >= 0 then v % base else -(-v % base)
  }

  /** The character `itoa` prints for a remainder; a negative one gives a character below '0'. */
  function DigitChar(d: int): uint8
    requires -36 < d < 36
  {
    if d < 10 then d + ZERO else d - 10 + LETTER_A
  }

  function Magnitude(v: int): nat { if v < 0 then -v else v }

  lemma QuotRem(v: int, base: nat)
    requires 2 <= base <= 36
    ensures v == Quot(v, base) * base + Rem(v, base) && -36 < Rem(v, base) < 36
    ensures v > 0 ==> Quot(v, base) >= 0 && 0 <= Rem(v, base) < base
    ensures v != 0 ==> 2 * Magnitude(Quot(v, base)) <= Magnitude(v) && Magnitude(Quot(v, base)) < Magnitude(v)
  {
    var m := Magnitude(v);
    NatQuotRem(m, base);
    assert (-(m / base)) * base == -(m / base * base);
  }

  lemma NatQuotRem(m: nat, base: nat)
    requires 2 <= base
    ensures m == m / base * base + m % base && 0 <= m % base < base && 0 <= 2 * (m / base) <= m
  {
    MulMono(2, base, m / base);
  }

  /** The characters of `v`, last one first, as the loop produces them. */
  function LowDigits(v: int, base: nat): (s: seq<uint8>)
    requires 2 <= base <= 36
    ensures v != 0 ==> s != []
    decreases Magnitude(v)
  {
    if v == 0 then [] else
      QuotRem(v, base);
      [DigitChar(Rem(v, base))] + LowDigits(Quot(v, base), base)
  }

  function Reversed(s: seq<uint8>): (r: seq<uint8>)
    ensures |r| == |s| && forall i | 0 <= i < |s| :: r[i] == s[|s| - 1 - i]
  {
    seq(|s|, i requires 0 <= i < |s| => s[|s| - 1 - i])
  }

  /** The string `itoa` leaves. */
  function Text(v: int, base: int): seq<uint8> {
    if base < 2 || base > 36 then []
    else if v == 0 then [ZERO]
    else if v < 0 && base == 10 then [MINUS] + Reversed(LowDigits(-v, base))
    else Reversed(LowDigits(v, base))
  }

  function Pow2(k: nat): nat { if k == 0 then 1 else 2 * Pow2(k - 1) }

  lemma {:induction false} DigitsShort(v: int, base: nat, k: nat)
    requires 2 <= base <= 36 && Magnitude(v) < Pow2(k)
    ensures |LowDigits(v, base)| <= k
    decreases k
  {
    if v != 0 {
      QuotRem(v, base);
      DigitsShort(Quot(v, base), base, k - 1);
    }
  }

  // ----- Reading

  predicate IsDigit(c: uint8) { ZERO <= c <= NINE }

  /** A digit of some base up to 36: '0' to '9' or 'a' to 'z'. */
  predicate IsNumeral(c: uint8) { '0' as int <= c <= '9' as int || 'a' as int <= c <= 'z' as int }

  /** The value of a digit. No other character has one. */
  function DigitValue(c: uint8): (d: nat)
    requires IsNumeral(c)
  {
    if c <= '9' as int then c - '0' as int else c - 'a' as int + 10
  }

  /** A numeral of a base: digits only, all below the base. */
  predicate IsNumber(s: seq<uint8>, base: nat) {
    forall i | 0 <= i < |s| :: IsNumeral(s[i]) && DigitValue(s[i]) < base
  }

  /** What a string of digits stands for, most significant digit first. */
  function Eval(s: seq<uint8>, base: nat): nat
    requires IsNumber(s, base)
    decreases |s|
  {
    if s == [] then 0 else Eval(s[..|s| - 1], base) * base + DigitValue(s[|s| - 1])
  }

  function SkipBlanks(s: seq<uint8>): seq<uint8> {
    if s != [] && s[0] == BLANK then SkipBlanks(s[1..]) else s
  }

  /** The leading decimal digits. */
  function DigitPrefix(s: seq<uint8>): (r: seq<uint8>)
    ensures r <= s && IsNumber(r, 10) && forall i | 0 <= i < |r| :: IsDigit(r[i])
    ensures |r| < |s| ==> !IsDigit(s[|r|])
  {
    if s == [] || !IsDigit(s[0]) then [] else [s[0]] + DigitPrefix(s[1..])
  }

  /** Sign and digits of what `atoi` reads. */
  function Signed(s: seq<uint8>): (r: (int, seq<uint8>))
    ensures IsNumber(r.1, 10)
  {
    var t := SkipBlanks(s);
    if t != [] && t[0] == MINUS then (-1, DigitPrefix(t[1..]))
    else if t != [] && t[0] == PLUS then (1, DigitPrefix(t[1..]))
    else (1, DigitPrefix(t))
  }

  /** What `atoi` computes when nothing overflows. */
  function Parsed(s: seq<uint8>): int {
    Signed(s).0 * Eval(Signed(s).1, 10)
  }

  /** No step of `atoi` leaves the 32-bit range. */
  ghost predicate NoOverflow(s: seq<uint8>) {
    forall n | 0 <= n <= |Signed(s).1| :: Eval(Signed(s).1[..n], 10) <= INT_MAX
  }

  // ----- Printing and reading back

  lemma ReversedCons(c: uint8, s: seq<uint8>)
    ensures Reversed([c] + s) == Reversed(s) + [c]
  {}

  /** The printed digits evaluate to the number, and do not start with a zero. */
  lemma {:induction false} DigitsEvaluate(v: nat, base: nat)
    requires 2 <= base <= 36
    ensures IsNumber(Reversed(LowDigits(v, base)), base)
    ensures Eval(Reversed(LowDigits(v, base)), base) == v
    ensures v > 0 ==> |LowDigits(v, base)| > 0 && Reversed(LowDigits(v, base))[0] != ZERO
    ensures base == 10 ==> forall i | 0 <= i < |LowDigits(v, base)| :: IsDigit(Reversed(LowDigits(v, base))[i])
    decreases v
  {
    if v > 0 {
      QuotRem(v, base);
      var q, c := Quot(v, base), DigitChar(Rem(v, base));
      DigitsEvaluate(q, base);
      ReversedCons(c, LowDigits(q, base));
      var r := Reversed(LowDigits(v, base));
      assert r == Reversed(LowDigits(q, base)) + [c];
      assert r[..|r| - 1] == Reversed(LowDigits(q, base));
    }
  }

  /** In every base the string of a nonnegative number evaluates to it, without leading zeros. */
  lemma TextEvaluates(v: nat, base: nat)
    requires 2 <= base <= 36
    ensures var s := Text(v, base);
      s != [] && IsNumber(s, base) && Eval(s, base) == v && (s[0] == '0' as int <==> v == 0) && (v == 0 ==> |s| == 1)
  {
    hide Eval, LowDigits;
    if v == 0 {
      EvalZero(base);
    } else {
      DigitsEvaluate(v, base);
    }
  }

  /** What a string of characters up to '0' stands for when each counts as much as it lies below '0'. */
  function EvalBelow(s: seq<uint8>, base: nat): int
    decreases |s|
  {
    if s == [] then 0 else EvalBelow(s[..|s| - 1], base) * base - ('0' as int - s[|s| - 1])
  }

  /**
   * A negative number in another base than ten gets no sign: each character lies as far below '0' as
   * its digit says.
   */
  lemma NegativeText(v: int, base: nat)
    requires v < 0 && 2 <= base <= 36 && base != 10
    ensures var s := Text(v, base);
      EvalBelow(s, base) == v && forall i | 0 <= i < |s| :: '0' as int - base < s[i] <= '0' as int
  {
    BelowEvaluates(v, base);
  }

  lemma {:induction false} BelowEvaluates(v: int, base: nat)
    requires v <= 0 && 2 <= base <= 36
    ensures var s := Reversed(LowDigits(v, base));
      EvalBelow(s, base) == v && forall i | 0 <= i < |s| :: '0' as int - base < s[i] <= '0' as int
    decreases Magnitude(v)
  {
    if v < 0 {
      QuotRem(v, base);
      var q, c := Quot(v, base), DigitChar(Rem(v, base));
      BelowEvaluates(q, base);
      ReversedCons(c, LowDigits(q, base));
      var r := Reversed(LowDigits(v, base));
      assert r == Reversed(LowDigits(q, base)) + [c];
      assert r[..|r| - 1] == Reversed(LowDigits(q, base));
    }
  }

  lemma EvalZero(base: nat)
    requires base > 0
    ensures IsNumber([ZERO], base) && Eval([ZERO], base) == 0
  {
    assert [ZERO][..0] == [];
  }

  lemma {:induction false} AllDigits(s: seq<uint8>)
    requires forall i | 0 <= i < |s| :: IsDigit(s[i])
    ensures DigitPrefix(s) == s
    decreases |s|
  {
    if s != [] {
      AllDigits(s[1..]);
    }
  }

  /** The decimal string of a number reads as its sign and its digits. */
  lemma SignedText(v: int)
    ensures var (sign, digits) := Signed(Text(v, 10));
      sign == (if v < 0 then -1 else 1) && Eval(digits, 10) == Magnitude(v)
      && forall i | 0 <= i < |digits| :: IsDigit(digits[i])
  {
    hide Eval, LowDigits;
    var m: nat := Magnitude(v);
    DigitsEvaluate(m, 10);
    EvalZero(10);
    var d := if v == 0 then [ZERO] else Reversed(LowDigits(m, 10));
    AllDigits(d);
    assert d != [] && IsDigit(d[0]);
    if v < 0 {
      assert ([MINUS] + d)[1..] == d;
    }
  }

  /** Prefixes of a digit string stand for smaller numbers. */
  lemma {:induction false} PrefixSmaller(s: seq<uint8>, n: nat)
    requires n <= |s| && IsNumber(s, 10)
    ensures 0 <= Eval(s[..n], 10) <= Eval(s, 10)
    decreases |s|
  {
    if n == |s| {
      assert s[..n] == s;
      if n > 0 {
        PrefixSmaller(s[..n - 1], n - 1);
        assert s[..n - 1][..n - 1] == s[..n - 1];
      }
    } else {
      PrefixSmaller(s[..|s| - 1], n);
      assert s[..|s| - 1][..n] == s[..n];
    }
  }

  /**
   * The round trip: reading the decimal string of a 32-bit number gives the number back, and
   * overflows on the way exactly for the least one.
   */
  lemma DecimalRoundTrip(v: int32)
    ensures Parsed(Text(v, 10)) == v
    ensures NoOverflow(Text(v, 10)) <==> v != INT_MIN
  {
    hide Text, Eval, Signed;
    SignedText(v);
    var digits := Signed(Text(v, 10)).1;
    assert digits[..|digits|] == digits;
    forall n | 0 <= n <= |digits| ensures Eval(digits[..n], 10) <= Magnitude(v) {
      PrefixSmaller(digits, n);
    }
  }

  /**
   * Whatever the string: blanks are skipped, one sign is taken, and the digits up to the first other
   * character count.
   */
  lemma ReadsNumber(blanks: seq<uint8>, sign: seq<uint8>, digits: seq<uint8>, rest: seq<uint8>)
    requires forall i | 0 <= i < |blanks| :: blanks[i] == ' ' as int
    requires sign == [] || sign == ['+' as int] || sign == ['-' as int]
    requires forall i | 0 <= i < |digits| :: '0' as int <= digits[i] <= '9' as int
    requires rest != [] ==> !('0' as int <= rest[0] <= '9' as int)
    requires sign + digits == [] && rest != [] ==> rest[0] !in [' ' as int, '+' as int, '-' as int]
    ensures IsNumber(digits, 10)
    ensures Parsed(blanks + (sign + (digits + rest))) == (if sign == ['-' as int] then -1 else 1) * Eval(digits, 10)
  {
    hide Eval, SkipBlanks, DigitPrefix, IsNumber;
    var t := sign + (digits + rest);
    BlanksSkipped(blanks, t);
    DigitsThen(digits, rest);
    if sign == [] {
      assert t == digits + rest;
    } else {
      assert t[1..] == digits + rest;
    }
  }

  lemma {:induction false} BlanksSkipped(blanks: seq<uint8>, t: seq<uint8>)
    requires forall i | 0 <= i < |blanks| :: blanks[i] == BLANK
    requires t != [] ==> t[0] != BLANK
    ensures SkipBlanks(blanks + t) == t
    decreases |blanks|
  {
    if blanks != [] {
      assert (blanks + t)[1..] == blanks[1..] + t;
      BlanksSkipped(blanks[1..], t);
    } else {
      assert blanks + t == t;
    }
  }

  lemma {:induction false} DigitsThen(digits: seq<uint8>, rest: seq<uint8>)
    requires forall i | 0 <= i < |digits| :: IsDigit(digits[i])
    requires rest != [] ==> !IsDigit(rest[0])
    ensures DigitPrefix(digits + rest) == digits
    decreases |digits|
  {
    if digits != [] {
      assert (digits + rest)[1..] == digits[1..] + rest;
      DigitsThen(digits[1..], rest);
    } else {
      assert digits + rest == rest;
    }
  }

  // ----- The loops

  /** The digit loop of `itoa`: fills `str` from `from` on. */
  method FillDigits(value: int32, str: array<uint8>, from: nat, base: nat) returns (end: nat)
    requires 2 <= base <= 36 && from + 32 <= str.Length
    modifies str
    ensures from <= end <= from + 32
    ensures str[from..end] == LowDigits(value, base) && str[..from] == old(str[..from])
  {
    hide LowDigits, Pow2, DigitChar, Quot, Rem;
    var v := value;
    end := from;
    PowerBound();
    DigitsShort(value, base, 32);
    while v != 0
      invariant from <= end <= from + 32 && str[..from] == old(str[..from])
      invariant LowDigits(value, base) == str[from..end] + LowDigits(v, base)
      decreases Magnitude(v)
    {
      QuotRem(v, base);
      LowStep(v, base);
      ghost var done, rest := str[from..end], LowDigits(Quot(v, base), base);
      var c := DigitChar(Rem(v, base));
      Associative(done, [c], rest);
      str[end] := c;
      assert str[from..end + 1] == done + [c];
      end, v := end + 1, Quot(v, base);
    }
    LowStep(v, base);
    assert str[from..end] + [] == str[from..end];
  }

  lemma LowStep(v: int, base: nat)
    requires 2 <= base <= 36
    ensures v == 0 ==> LowDigits(v, base) == []
    ensures v != 0 ==> LowDigits(v, base) == [DigitChar(Rem(v, base))] + LowDigits(Quot(v, base), base)
  {}

  lemma PowerBound()
    ensures Pow2(32) == 0x1_0000_0000
  {
    assert Pow2(8) == 256;
    assert Pow2(16) == 0x1_0000;
    assert Pow2(24) == 0x100_0000;
  }

  /** The swapping loop of `itoa`. */
  method ReverseDigits(str: array<uint8>, from: nat, end: nat)
    requires from <= end <= str.Length
    modifies str
    ensures str[..][from..end] == Reversed(old(str[..])[from..end])
    ensures str[..][..from] == old(str[..])[..from] && str[..][end..] == old(str[..])[end..]
  {
    hide Reversed;
    ghost var was := str[..];
    var lo, hi := from, end - 1;
    while lo < hi
      invariant from <= lo && lo + hi == from + end - 1 && lo <= hi + 2
      invariant forall k | 0 <= k < str.Length && !(from <= k < lo || hi < k < end) :: str[k] == was[k]
      invariant forall k | from <= k < lo || hi < k < end :: str[k] == was[from + end - 1 - k]
    {
      str[lo], str[hi] := str[hi], str[lo];
      lo, hi := lo + 1, hi - 1;
    }
    SwappedIs(was, str[..], from, end);
  }

  lemma SwappedIs(was: seq<uint8>, now: seq<uint8>, from: nat, end: nat)
    requires from <= end <= |was| == |now|
    requires forall k | from <= k < end :: now[k] == was[from + end - 1 - k]
    requires forall k | 0 <= k < |was| && !(from <= k < end) :: now[k] == was[k]
    ensures now[from..end] == Reversed(was[from..end])
    ensures now[..from] == was[..from] && now[end..] == was[end..]
  {}

  /** The digits of a nonzero value behind `start`, in reading order and with the terminating NUL. */
  method PrintDigits(v: int32, str: array<uint8>, start: nat, base: nat) returns (end: nat)
    requires 2 <= base <= 36 && start + 32 < str.Length
    modifies str
    ensures end < str.Length && str[end] == 0
    ensures str[..end] == old(str[..start]) + Reversed(LowDigits(v, base))
  {
    hide LowDigits, Reversed;
    ghost var sign := str[..start];
    end := FillDigits(v, str, start, base);
    str[end] := 0;
    ghost var filled := str[..];
    assert filled[..start] == sign && filled[start..end] == LowDigits(v, base);
    ReverseDigits(str, start, end);
    ghost var now := str[..];
    assert now[end..][0] == filled[end..][0];
    assert now[..end] == now[..start] + now[start..end];
    assert str[..end] == now[..end];
  }

  /** `itoa`, for every value it can negate. */
  method Itoa(value: int32, str: array<uint8>, base: int) returns (ghost n: nat)
    requires str.Length >= 34 && (base == 10 ==> value != INT_MIN)
    modifies str
    ensures n < str.Length && str[n] == 0 && str[..n] == Text(value, base)
  {
    hide LowDigits, Reversed;
    if base < 2 || base > 36 {
      str[0] := 0;
      return 0;
    }
    var v, start := value, 0;
    if value < 0 && base == 10 {
      str[0] := MINUS;
      start, v := 1, -v;
    }
    if v == 0 {
      str[start], str[start + 1] := ZERO, 0;
      return start + 1;
    }
    n := PrintDigits(v, str, start, base);
  }

  /** The accumulator loop of `atoi`. */
  method AtoiDigits(s: seq<uint8>, from: nat) returns (r: int32)
    requires from <= |s|
    requires forall n | 0 <= n <= |DigitPrefix(s[from..])| :: Eval(DigitPrefix(s[from..])[..n], 10) <= INT_MAX
    ensures r == Eval(DigitPrefix(s[from..]), 10) >= 0
  {
    hide Eval, DigitPrefix;
    ghost var digits := DigitPrefix(s[from..]);
    r := 0;
    var i := from;
    PrefixAt(s[from..], 0);
    EvalNone(digits);
    while i < |s| && IsDigit(s[i])
      invariant from <= i <= from + |digits|
      invariant r == Eval(digits[..i - from], 10) >= 0
      decreases |s| - i
    {
      ghost var n := i - from;
      assert s[from..][n] == s[i];
      PrefixAt(s[from..], n);
      EvalStep(digits, n);
      assert Eval(digits[..n + 1], 10) <= INT_MAX;
      var product: int32 := r * 10;
      r := product + (s[i] - ZERO);
      i := i + 1;
    }
    assert i < |s| ==> s[from..][i - from] == s[i];
    PrefixAt(s[from..], i - from);
    assert digits[..|digits|] == digits;
  }

  /** The digits of a prefix are those of the string, and it ends before the first other byte. */
  lemma PrefixAt(t: seq<uint8>, n: nat)
    requires n <= |DigitPrefix(t)|
    ensures |DigitPrefix(t)| <= |t|
    ensures n < |DigitPrefix(t)| <==> n < |t| && IsDigit(t[n])
    ensures n < |DigitPrefix(t)| ==> DigitPrefix(t)[n] == t[n]
  {}

  lemma EvalNone(digits: seq<uint8>)
    requires IsNumber(digits, 10)
    ensures Eval(digits[..0], 10) == 0
  {}

  lemma EvalStep(digits: seq<uint8>, n: nat)
    requires n < |digits| && IsNumber(digits, 10)
    ensures Eval(digits[..n + 1], 10) == Eval(digits[..n], 10) * 10 + (digits[n] - ZERO)
  {
    assert digits[..n + 1][..n] == digits[..n];
  }

  method SkipSpaces(s: seq<uint8>) returns (i: nat)
    ensures i <= |s| && s[i..] == SkipBlanks(s) && (i < |s| ==> s[i] != BLANK)
  {
    i := 0;
    assert s[0..] == s;
    while i < |s| && s[i] == BLANK
      invariant 0 <= i <= |s|
      invariant SkipBlanks(s[i..]) == SkipBlanks(s)
      decreases |s| - i
    {
      assert s[i..][1..] == s[i + 1..];
      i := i + 1;
    }
  }

  /** `atoi`: every intermediate result is a 32-bit number. */
  method Atoi(s: seq<uint8>) returns (r: int32)
    requires NoOverflow(s)
    ensures r == Parsed(s)
  {
    hide Eval, DigitPrefix;
    var i := SkipSpaces(s);
    var sign := 1;
    ghost var t := s[i..];
    if i < |s| && s[i] == MINUS {
      sign, i := -1, i + 1;
    } else if i < |s| && s[i] == PLUS {
      i := i + 1;
    }
    assert s[i..] == if t != [] && (t[0] == MINUS || t[0] == PLUS) then t[1..] else t;
    assert Signed(s) == (sign, DigitPrefix(s[i..]));
    r := AtoiDigits(s, i);
    r := sign * r;
  }
}
