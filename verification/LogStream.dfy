/** Integer to text conversion in place, and the fixed buffer it writes into. */
module LogStream {
  import opened Common
  import opened FixedBuffers

  const MAX_NUMERIC_SIZE := 32
  const DIGITS := "9876543210123456789"
  const DIGITS_HEX := "0123456789ABCDEF"

  function Abs(a: int): nat { if a >= 0 then a else -a }

  // ----- What a numeral means ------------------------------------------------------------------

  /** The value of a digit character, or -1. */
  function DigitValue(c: char): int {
    if '0' <= c <= '9' then c as int - '0' as int
    else if 'A' <= c <= 'F' then c as int - 'A' as int + 10
    else -1
  }

  predicate IsRadix(radix: int) { radix == 10 || radix == 16 }

  predicate IsDigit(c: char, radix: int) { 0 <= DigitValue(c) < radix }

  /** The value of a string of digits, most significant first. */
  function Value(s: string, radix: int): int {
    if s == [] then 0 else Value(s[..|s| - 1], radix) * radix + DigitValue(s[|s| - 1])
  }

  /** A non-empty string of digits without a superfluous leading zero. */
  ghost predicate Canonical(s: string, radix: int) {
    && |s| > 0
    && (forall i :: 0 <= i < |s| ==> IsDigit(s[i], radix))
    && (s[0] == '0' ==> |s| == 1)
  }

  /** `s` is the decimal numeral of `v`. */
  ghost predicate Decimal(s: string, v: int) {
    if v >= 0 then Canonical(s, 10) && Value(s, 10) == v
    else |s| > 0 && s[0] == '-' && Canonical(s[1..], 10) && Value(s[1..], 10) == -v
  }

  function Pow(b: int, n: nat): int { if n == 0 then 1 else b * Pow(b, n - 1) }

  function Reverse(s: string): (r: string)
    ensures |r| == |s|
    ensures forall i :: 0 <= i < |s| ==> r[i] == s[|s| - 1 - i]
  {
    if s == [] then [] else Reverse(s[1..]) + [s[0]]
  }

  /** The digits of `n`, least significant first: the reference for both conversion loops. */
  function LowDigits(n: nat, radix: int): (s: string)
    requires IsRadix(radix)
    ensures |s| > 0
    decreases n
  {
    var d := DIGITS_HEX[n % radix];
    if n / radix == 0 then [d] else [d] + LowDigits(n / radix, radix)
  }

  lemma LowDigitsUnfold(n: nat, radix: int)
    requires IsRadix(radix)
    ensures LowDigits(n, radix) == [DIGITS_HEX[n % radix]] + if n / radix == 0 then [] else LowDigits(n / radix, radix)
  {
  }

  lemma HexDigit(i: int)
    requires 0 <= i < 16
    ensures DigitValue(DIGITS_HEX[i]) == i
  {
  }

  lemma AppendDigit(s: string, c: char, radix: int)
    requires IsRadix(radix) && Canonical(s, radix) && s[0] != '0' && IsDigit(c, radix)
    ensures Canonical(s + [c], radix) && Value(s + [c], radix) == Value(s, radix) * radix + DigitValue(c)
  {
    assert (s + [c])[..|s|] == s;
  }

  lemma SingleDigit(c: char, radix: int)
    requires IsRadix(radix) && IsDigit(c, radix)
    ensures Canonical([c], radix) && Value([c], radix) == DigitValue(c) && Reverse([c]) == [c]
    ensures DigitValue(c) > 0 ==> c != '0'
  {
    assert [c][..0] == [];
    assert Reverse([c]) == [c];
  }

  lemma LowDigitsStep(n: nat, radix: int)
    requires IsRadix(radix) && n / radix != 0
    ensures Reverse(LowDigits(n, radix)) == Reverse(LowDigits(n / radix, radix)) + [DIGITS_HEX[n % radix]]
    ensures n == (n / radix) * radix + n % radix
  {
    var d, rest := DIGITS_HEX[n % radix], LowDigits(n / radix, radix);
    assert ([d] + rest)[1..] == rest;
  }

  lemma {:induction false} LowDigitsValue(n: nat, radix: int)
    requires IsRadix(radix)
    ensures Canonical(Reverse(LowDigits(n, radix)), radix) && Value(Reverse(LowDigits(n, radix)), radix) == n
    ensures n > 0 ==> Reverse(LowDigits(n, radix))[0] != '0'
    decreases n
  {
    hide Value, Reverse;
    HexDigit(n % radix);
    if n / radix == 0 {
      SingleDigit(DIGITS_HEX[n % radix], radix);
    } else {
      LowDigitsValue(n / radix, radix);
      LowDigitsStep(n, radix);
      AppendDigit(Reverse(LowDigits(n / radix, radix)), DIGITS_HEX[n % radix], radix);
    }
  }

  /** A number below `radix^k` has at most `k` digits. */
  lemma {:induction false} LowDigitsLength(n: nat, radix: int, k: nat)
    requires IsRadix(radix) && k >= 1 && n < Pow(radix, k)
    ensures |LowDigits(n, radix)| <= k
    decreases k
  {
    if n / radix != 0 {
      assert Pow(radix, k) == radix * Pow(radix, k - 1);
      assert n / radix < Pow(radix, k - 1);
      LowDigitsLength(n / radix, radix, k - 1);
    }
  }

  /** The numeral of a number is unique. */
  lemma {:induction false} CanonicalUnique(s: string, t: string, radix: int)
    requires IsRadix(radix) && Canonical(s, radix) && Canonical(t, radix) && Value(s, radix) == Value(t, radix)
    ensures s == t
    decreases |s|
  {
    var m, n := |s| - 1, |t| - 1;
    var s', t' := s[..m], t[..n];
    ValueNonNegative(s', radix);
    ValueNonNegative(t', radix);
    DivMod(Value(s', radix), DigitValue(s[m]), Value(t', radix), DigitValue(t[n]), radix);
    SameDigit(s[m], t[n]);
    if m == 0 || n == 0 {
      if m > 0 { ValuePositive(s', radix); }
      if n > 0 { ValuePositive(t', radix); }
    } else {
      CanonicalUnique(s', t', radix);
    }
    assert s == s' + [s[m]] && t == t' + [t[n]];
  }

  lemma SameDigit(c: char, d: char)
    requires DigitValue(c) == DigitValue(d) >= 0
    ensures c == d
  {
  }

  lemma DivMod(a: int, x: int, b: int, y: int, radix: int)
    requires IsRadix(radix) && 0 <= x < radix && 0 <= y < radix && a * radix + x == b * radix + y
    ensures a == b && x == y
  {
    assert radix == 10 || radix == 16;
  }

  lemma {:induction false} ValueNonNegative(s: string, radix: int)
    requires IsRadix(radix) && forall i :: 0 <= i < |s| ==> IsDigit(s[i], radix)
    ensures Value(s, radix) >= 0
  {
    if s != [] { ValueNonNegative(s[..|s| - 1], radix); }
  }

  lemma {:induction false} ValuePositive(s: string, radix: int)
    requires IsRadix(radix) && |s| > 0 && (forall i :: 0 <= i < |s| ==> IsDigit(s[i], radix)) && s[0] != '0'
    ensures Value(s, radix) > 0
  {
    if |s| == 1 {
      assert s[..0] == [];
      SameDigitZero(s[0]);
    } else {
      ValuePositive(s[..|s| - 1], radix);
    }
  }

  lemma SameDigitZero(c: char)
    ensures DigitValue(c) == 0 ==> c == '0'
  {
  }

  // ----- The conversions -----------------------------------------------------------------------

  /** `std::reverse` on `buf[lo..hi)`. */
  method ReverseRange(buf: array<char>, lo: nat, hi: nat)
    requires lo <= hi <= buf.Length
    modifies buf
    ensures buf[lo..hi] == Reverse(old(buf[lo..hi]))
    ensures forall k :: 0 <= k < buf.Length && !(lo <= k < hi) ==> buf[k] == old(buf[k])
  {
    hide Reverse;
    var i, j := lo, hi;
    while i + 1 < j
      invariant lo <= i && j <= hi && i - lo == hi - j && i <= j + 1
      invariant forall k :: 0 <= k < buf.Length && !(lo <= k < hi) ==> buf[k] == old(buf[k])
      invariant forall k :: i <= k < j ==> buf[k] == old(buf[k])
      invariant forall k :: lo <= k < i ==> buf[k] == old(buf[lo + hi - 1 - k])
      invariant forall k :: j <= k < hi ==> buf[k] == old(buf[lo + hi - 1 - k])
    {
      j := j - 1;
      buf[i], buf[j] := buf[j], buf[i];
      i := i + 1;
    }
    ghost var was := old(buf[lo..hi]);
    forall k | 0 <= k < |was|
      ensures buf[lo..hi][k] == Reverse(was)[k]
    {
      assert lo + k < i || lo + k >= j || k == |was| - 1 - k;
      assert buf[lo + k] == was[|was| - 1 - k];
    }
  }

  /** The end of both conversions. */
  method TerminateAndReverse(buf: array<char>, at: nat, p: nat)
    requires at <= p < buf.Length
    modifies buf
    ensures buf[at..p] == Reverse(old(buf[at..p])) && buf[p] == '\0'
    ensures forall k :: 0 <= k < buf.Length && !(at <= k <= p) ==> buf[k] == old(buf[k])
  {
    hide Reverse;
    buf[p] := '\0';
    assert buf[at..p] == old(buf[at..p]);
    ReverseRange(buf, at, p);
  }

  /** `zero[lsd]`: the table is symmetric, so a negative remainder finds the same digit. */
  lemma DigitTable(lsd: int)
    requires -10 < lsd < 10
    ensures DIGITS[9 + lsd] == DIGITS_HEX[Abs(lsd)]
  {
  }

  lemma TruncatingSplit(i: int, radix: int)
    requires IsRadix(radix)
    ensures Abs(Quot(i, radix)) == Abs(i) / radix && Abs(Rem(i, radix)) == Abs(i) % radix
    ensures Quot(i, radix) != 0 ==> Abs(Quot(i, radix)) < Abs(i)
    ensures -radix < Rem(i, radix) < radix
  {
  }

  /** The digit loop of `convert`: digits of `value`, least significant first, without ever negating
      it, so the most negative integer needs no special case. */
  method WriteDigits(buf: array<char>, at: nat, value: int) returns (p: nat)
    requires at + |LowDigits(Abs(value), 10)| <= buf.Length
    modifies buf
    ensures p == at + |LowDigits(Abs(value), 10)| && buf[at..p] == LowDigits(Abs(value), 10)
    ensures forall k :: 0 <= k < buf.Length && !(at <= k < p) ==> buf[k] == old(buf[k])
  {
    hide LowDigits, Quot, Rem;
    var i := value;
    p := at;
    ghost var all := LowDigits(Abs(value), 10);
    ghost var done := "";
    while true
      invariant at <= p == at + |done| && all == done + LowDigits(Abs(i), 10)
      invariant buf[at..p] == done
      invariant forall k :: 0 <= k < buf.Length && !(at <= k < p) ==> buf[k] == old(buf[k])
      decreases Abs(i)
    {
      LowDigitsUnfold(Abs(i), 10);
      TruncatingSplit(i, 10);
      var lsd := Rem(i, 10);
      DigitTable(lsd);
      i := Quot(i, 10);
      buf[p] := DIGITS[9 + lsd];
      p := p + 1;
      done := done + [DIGITS[9 + lsd]];
      if i == 0 { break; }
    }
  }

  /** `convert`: the text left in the buffer is the decimal numeral of `value`. */
  method Convert(buf: array<char>, at: nat, value: int) returns (n: nat)
    requires at + |LowDigits(Abs(value), 10)| + (if value < 0 then 2 else 1) <= buf.Length
    modifies buf
    ensures n == |LowDigits(Abs(value), 10)| + if value < 0 then 1 else 0
    ensures Decimal(buf[at..at + n], value) && buf[at + n] == '\0'
    ensures forall k :: 0 <= k < buf.Length && !(at <= k <= at + n) ==> buf[k] == old(buf[k])
  {
    hide LowDigits, Decimal, Reverse;
    var p := WriteDigits(buf, at, value);
    ghost var all := LowDigits(Abs(value), 10);
    if value < 0 {
      buf[p] := '-';
      p := p + 1;
      assert buf[at..p] == all + ['-'];
    }
    TerminateAndReverse(buf, at, p);
    n := p - at;
    NumeralReversed(value);
  }

  lemma NumeralReversed(value: int)
    ensures var all := LowDigits(Abs(value), 10);
            Decimal(Reverse(if value < 0 then all + ['-'] else all), value)
  {
    var all := LowDigits(Abs(value), 10);
    LowDigitsValue(Abs(value), 10);
    if value < 0 {
      assert Reverse(all + ['-']) == ['-'] + Reverse(all);
      assert (['-'] + Reverse(all))[1..] == Reverse(all);
    }
  }

  method WriteHexDigits(buf: array<char>, at: nat, value: nat) returns (p: nat)
    requires at + |LowDigits(value, 16)| <= buf.Length
    modifies buf
    ensures p == at + |LowDigits(value, 16)| && buf[at..p] == LowDigits(value, 16)
    ensures forall k :: 0 <= k < buf.Length && !(at <= k < p) ==> buf[k] == old(buf[k])
  {
    hide LowDigits;
    var i := value;
    p := at;
    ghost var all := LowDigits(value, 16);
    ghost var done := "";
    while true
      invariant at <= p == at + |done| && all == done + LowDigits(i, 16)
      invariant buf[at..p] == done
      invariant forall k :: 0 <= k < buf.Length && !(at <= k < p) ==> buf[k] == old(buf[k])
      decreases i
    {
      LowDigitsUnfold(i, 16);
      var lsd := i % 16;
      i := i / 16;
      buf[p] := DIGITS_HEX[lsd];
      p := p + 1;
      done := done + [DIGITS_HEX[lsd]];
      if i == 0 { break; }
    }
  }

  /** `convertHex`: the text left in the buffer is the upper-case hexadecimal numeral of `value`. */
  method ConvertHex(buf: array<char>, at: nat, value: nat) returns (n: nat)
    requires at + |LowDigits(value, 16)| + 1 <= buf.Length
    modifies buf
    ensures n == |LowDigits(value, 16)|
    ensures Canonical(buf[at..at + n], 16) && Value(buf[at..at + n], 16) == value && buf[at + n] == '\0'
    ensures forall k :: 0 <= k < buf.Length && !(at <= k <= at + n) ==> buf[k] == old(buf[k])
  {
    hide LowDigits, Canonical, Value;
    var p := WriteHexDigits(buf, at, value);
    TerminateAndReverse(buf, at, p);
    n := p - at;
    LowDigitsValue(value, 16);
  }

  // ----- Enough room ---------------------------------------------------------------------------

  const UINT64_MAX := 0xFFFF_FFFF_FFFF_FFFF

  /** Any value of a signed or unsigned integer type of up to 64 bits. */
  predicate IsInteger(v: int) { -0x8000_0000_0000_0000 <= v <= UINT64_MAX }

  lemma DecimalFits(v: int)
    requires IsInteger(v)
    ensures |LowDigits(Abs(v), 10)| + (if v < 0 then 2 else 1) <= 21
  {
    assert Pow(10, 19) == 10_000_000_000_000_000_000 && Pow(10, 20) == 100_000_000_000_000_000_000 by {
      assert Pow(10, 5) == 100000;
      assert Pow(10, 10) == 100000 * Pow(10, 5);
      assert Pow(10, 15) == 100000 * Pow(10, 10);
      assert Pow(10, 20) == 100000 * Pow(10, 15);
    }
    LowDigitsLength(Abs(v), 10, if v < 0 then 19 else 20);
  }

  lemma HexFits(v: nat)
    requires v <= UINT64_MAX
    ensures |LowDigits(v, 16)| + 1 <= 17
  {
    assert Pow(16, 4) == 65536;
    assert Pow(16, 8) == 65536 * Pow(16, 4);
    assert Pow(16, 12) == 65536 * Pow(16, 8);
    assert Pow(16, 16) == 65536 * Pow(16, 12);
    LowDigitsLength(v, 16, 16);
  }

  /** `formatInteger`: appends the decimal numeral of `v`, or nothing when fewer than 32 characters
      are left; the check suffices for every integer type. */
  method FormatInteger(buffer: FixedBuffer, v: int)
    requires buffer.Valid() && IsInteger(v)
    modifies buffer, buffer.data
    ensures buffer.Valid()
    ensures old(buffer.Avail()) < 32 ==> buffer.Text() == old(buffer.Text())
    ensures old(buffer.Avail()) >= 32 ==>
      old(buffer.Text()) <= buffer.Text() && Decimal(buffer.Text()[old(buffer.cur)..], v)
  {
    if buffer.Avail() >= MAX_NUMERIC_SIZE {
      hide LowDigits, Decimal;
      DecimalFits(v);
      ghost var before, at := buffer.Text(), buffer.cur;
      var len := Convert(buffer.data, buffer.cur, v);
      assert buffer.Text() == before;
      buffer.Add(len);
      BehindPrefix(before, buffer.data[at..at + len]);
    }
  }

  lemma BehindPrefix(a: string, b: string)
    ensures (a + b)[|a|..] == b && a <= a + b
  {
  }

  /** `0x` and the hexadecimal numeral. */
  method ConvertPointer(buf: array<char>, at: nat, v: nat) returns (n: nat)
    requires at + |LowDigits(v, 16)| + 3 <= buf.Length
    modifies buf
    ensures n == |LowDigits(v, 16)| + 2 && buf[at..at + n] == "0x" + buf[at + 2..at + n]
    ensures Canonical(buf[at + 2..at + n], 16) && Value(buf[at + 2..at + n], 16) == v
    ensures forall k :: 0 <= k < at ==> buf[k] == old(buf[k])
  {
    hide LowDigits, Canonical, Value;
    buf[at] := '0';
    buf[at + 1] := 'x';
    var len := ConvertHex(buf, at + 2, v);
    n := len + 2;
  }

  lemma PointerText(before: string, text: string, hex: string)
    requires text == "0x" + hex
    ensures (before + text)[|before| + 2..] == hex && before + "0x" <= before + text
  {
    assert before + text == (before + "0x") + hex;
  }

  /** Pointer output. */
  method FormatPointer(buffer: FixedBuffer, v: nat)
    requires buffer.Valid() && v <= UINT64_MAX
    modifies buffer, buffer.data
    ensures buffer.Valid()
    ensures old(buffer.Avail()) < 32 ==> buffer.Text() == old(buffer.Text())
    ensures old(buffer.Avail()) >= 32 ==>
      && old(buffer.Text()) + "0x" <= buffer.Text()
      && Canonical(buffer.Text()[old(buffer.cur) + 2..], 16)
      && Value(buffer.Text()[old(buffer.cur) + 2..], 16) == v
  {
    if buffer.Avail() >= MAX_NUMERIC_SIZE {
      hide LowDigits, Canonical, Value;
      HexFits(v);
      ghost var before, at := buffer.Text(), buffer.cur;
      var len := ConvertPointer(buffer.data, buffer.cur, v);
      assert buffer.Text() == before;
      PointerText(before, buffer.data[at..at + len], buffer.data[at + 2..at + len]);
      buffer.Add(len);
    }
  }

  /** The numeral read back is the number, and no other text is its numeral. */
  lemma DecimalUnique(s: string, t: string, v: int)
    requires Decimal(s, v) && Decimal(t, v)
    ensures s == t
  {
    if v >= 0 {
      CanonicalUnique(s, t, 10);
    } else {
      CanonicalUnique(s[1..], t[1..], 10);
      assert s == ['-'] + s[1..] && t == ['-'] + t[1..];
    }
  }
}
