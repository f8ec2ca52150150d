/** Byte-level helpers of the codec: network-order integers and the Adler-32 checksum of
    section 2.2 of RFC 1950. */
module Wire {
  import opened Common

  type byte = x: int | 0 <= x < 256

  /** The conversion of a 32-bit unsigned value to `int32_t`. */
  function Signed(u: int): (x: int)
    requires 0 <= u < 0x1_0000_0000
    ensures Int32(x)
  {
    if u < 0x8000_0000 then u else u - 0x1_0000_0000
  }

  function Unsigned(x: int): (u: int)
    requires Int32(x)
    ensures 0 <= u < 0x1_0000_0000 && Signed(u) == x
  {
    if x >= 0 then x else x + 0x1_0000_0000
  }

  function Word(w: int, x: int, y: int, z: int): int {
    w * 0x100_0000 + x * 0x1_0000 + y * 256 + z
  }

  lemma WordSplits(u: int)
    requires 0 <= u < 0x1_0000_0000
    ensures Word(u / 0x100_0000, u / 0x1_0000 % 256, u / 256 % 256, u % 256) == u
  {
    var v := u / 256;
    var w := v / 256;
    assert u / 0x1_0000 == w && u / 0x100_0000 == w / 256;
  }

  lemma WordInjective(w: byte, x: byte, y: byte, z: byte, w': byte, x': byte, y': byte, z': byte)
    requires Word(w, x, y, z) == Word(w', x', y', z')
    ensures w == w' && x == x' && y == y' && z == z'
  {
  }

  /** `hostToNetwork32`: most significant byte first. */
  function EncodeInt32(x: int): (s: seq<byte>)
    requires Int32(x)
    ensures |s| == 4
  {
    var u := Unsigned(x);
    [u / 0x100_0000, u / 0x1_0000 % 256, u / 256 % 256, u % 256]
  }

  function DecodeInt32(s: seq<byte>): (x: int)
    requires |s| == 4
    ensures Int32(x)
  {
    Signed(Word(s[0], s[1], s[2], s[3]))
  }

  lemma Int32RoundTrip(x: int)
    requires Int32(x)
    ensures DecodeInt32(EncodeInt32(x)) == x
  {
    WordSplits(Unsigned(x));
  }

  /** Four bytes as an unsigned number, the most significant byte first. */
  function BigEndian(s: seq<byte>): int
    requires |s| == 4
  {
    (s[0] as int) * 16777216 + (s[1] as int) * 65536 + (s[2] as int) * 256 + s[3] as int
  }

  /** Integers travel in that order, negative ones in two's complement. */
  lemma NetworkOrder(x: int)
    requires Int32(x)
    ensures BigEndian(EncodeInt32(x)) == if x < 0 then x + 4294967296 else x
  {
    WordSplits(Unsigned(x));
  }

  lemma NetworkOrderBack(s: seq<byte>)
    requires |s| == 4
    ensures 0 <= BigEndian(s) < 4294967296
    ensures DecodeInt32(s) == if BigEndian(s) < 2147483648 then BigEndian(s) else BigEndian(s) - 4294967296
  {
  }

  lemma DecodeInjective(s: seq<byte>, t: seq<byte>)
    requires |s| == 4 && |t| == 4 && DecodeInt32(s) == DecodeInt32(t)
    ensures s == t
  {
    WordInjective(s[0], s[1], s[2], s[3], t[0], t[1], t[2], t[3]);
  }

  // ----- Adler-32 ------------------------------------------------------------------------------

  const BASE := 65521

  /** The two running sums. */
  type Sum = x: int | 0 <= x < BASE

  function AdlerFrom(s: seq<byte>, a: Sum, b: Sum): (Sum, Sum) {
    if s == [] then (a, b)
    else
      var a' := (a + s[0]) % BASE;
      AdlerFrom(s[1..], a', (b + a') % BASE)
  }

  function Adler32(s: seq<byte>): (u: int)
    ensures 0 <= u < 0x1_0000_0000
  {
    var (a, b) := AdlerFrom(s, 1, 0);
    b * 65536 + a
  }

  /** The sum of the bytes. */
  function Total(s: seq<byte>): nat { if s == [] then 0 else s[0] + Total(s[1..]) }

  /** The sum of the bytes, each counted as often as there are bytes from it on. */
  function Weighted(s: seq<byte>): nat { if s == [] then 0 else |s| * s[0] + Weighted(s[1..]) }

  lemma {:induction false} ModShift(x: int, k: int)
    ensures (x + k * 65521) % 65521 == x % 65521
    decreases if k < 0 then -k else k
  {
    if k > 0 {
      ModShift(x, k - 1);
      OneTurn(x + (k - 1) * 65521);
      assert x + (k - 1) * 65521 + 65521 == x + k * 65521;
    } else if k < 0 {
      ModShift(x, k + 1);
      OneTurn(x + k * 65521);
      assert x + k * 65521 + 65521 == x + (k + 1) * 65521;
    }
  }

  lemma OneTurn(x: int)
    ensures (x + 65521) % 65521 == x % 65521
  {
  }

  lemma {:induction false} RunningSums(s: seq<byte>, a: Sum, b: Sum)
    ensures AdlerFrom(s, a, b) == ((a + Total(s)) % 65521, (b + |s| * a + Weighted(s)) % 65521)
  {
    if s != [] {
      var a' := (a + s[0]) % BASE;
      RunningSums(s[1..], a', (b + a') % BASE);
      FirstSum(a, s[0], Total(s[1..]));
      SecondSum(|s|, a, b, s[0], Weighted(s[1..]));
    }
  }

  lemma FirstSum(a: int, x: int, t: int)
    ensures ((a + x) % 65521 + t) % 65521 == (a + (x + t)) % 65521
  {
    ModShift((a + x) % 65521 + t, (a + x) / 65521);
  }

  lemma SecondSum(n: int, a: int, b: int, x: int, w: int)
    ensures var a' := (a + x) % 65521; var b' := (b + a') % 65521;
            (b' + (n - 1) * a' + w) % 65521 == (b + n * a + (n * x + w)) % 65521
  {
    var k, a' := (a + x) / 65521, (a + x) % 65521;
    var j, b' := (b + a') / 65521, (b + a') % 65521;
    assert n * (a' + k * 65521) == n * a + n * x;
    assert n * (k * 65521) == (n * k) * 65521;
    assert b + n * a + (n * x + w) == (b' + (n - 1) * a' + w) + (j + n * k) * 65521;
    ModShift(b' + (n - 1) * a' + w, j + n * k);
  }

  /** Adler-32 as defined in section 2.2 of RFC 1950, with plain sums: the low half is one plus the
      sum of the bytes, the high half the sum of all the intermediate low sums. */
  lemma AdlerIsStandard(s: seq<byte>)
    ensures Adler32(s) % 65536 == (1 + Total(s)) % 65521
    ensures Adler32(s) / 65536 == (|s| + Weighted(s)) % 65521
  {
    RunningSums(s, 1, 0);
    hide AdlerFrom, Total, Weighted;
    var (a, b) := AdlerFrom(s, 1, 0);
    Halves(a, b);
  }

  lemma Halves(a: Sum, b: Sum)
    ensures (b * 65536 + a) % 65536 == a && (b * 65536 + a) / 65536 == b
  {
  }

  lemma {:induction false} AdlerConcat(s: seq<byte>, t: seq<byte>, a: Sum, b: Sum)
    ensures AdlerFrom(s + t, a, b) == (var (a', b') := AdlerFrom(s, a, b); AdlerFrom(t, a', b'))
  {
    if s == [] {
      assert s + t == t;
    } else {
      var a' := (a + s[0]) % BASE;
      AdlerConcat(s[1..], t, a', (b + a') % BASE);
      assert (s + t)[1..] == s[1..] + t;
    }
  }

  lemma AdlerCons(x: byte, t: seq<byte>, a: Sum, b: Sum)
    ensures var c := (a + x) % BASE; AdlerFrom([x] + t, a, b) == AdlerFrom(t, c, (b + c) % BASE)
  {
    assert ([x] + t)[1..] == t;
  }

  /** Adding the same amount keeps distinct sums distinct. */
  lemma AddKeepsApart(a: Sum, a': Sum, x: int)
    requires 0 <= x < BASE && a != a'
    ensures (a + x) % BASE != (a' + x) % BASE
  {
  }

  lemma {:induction false} FirstSumsStayApart(s: seq<byte>, a: Sum, b: Sum, a': Sum, b': Sum)
    requires a != a'
    ensures AdlerFrom(s, a, b).0 != AdlerFrom(s, a', b').0
  {
    if s != [] {
      AddKeepsApart(a, a', s[0]);
      var c, c' := (a + s[0]) % BASE, (a' + s[0]) % BASE;
      FirstSumsStayApart(s[1..], c, (b + c) % BASE, c', (b' + c') % BASE);
    }
  }

  lemma {:induction false} SecondSumsStayApart(s: seq<byte>, a: Sum, b: Sum, b': Sum)
    requires b != b'
    ensures AdlerFrom(s, a, b).1 != AdlerFrom(s, a, b').1
  {
    if s != [] {
      var c := (a + s[0]) % BASE;
      AddKeepsApart(b, b', c);
      SecondSumsStayApart(s[1..], c, (b + c) % BASE, (b' + c) % BASE);
    }
  }

  lemma AdlerDiffers(s: seq<byte>, t: seq<byte>)
    requires AdlerFrom(s, 1, 0) != AdlerFrom(t, 1, 0)
    ensures Adler32(s) != Adler32(t)
  {
    hide AdlerFrom;
    Halves(AdlerFrom(s, 1, 0).0, AdlerFrom(s, 1, 0).1);
    Halves(AdlerFrom(t, 1, 0).0, AdlerFrom(t, 1, 0).1);
  }

  /** Replacing any one byte changes the checksum. */
  lemma AdlerDetectsChange(s: seq<byte>, i: nat, x: byte)
    requires i < |s| && x != s[i]
    ensures Adler32(s[i := x]) != Adler32(s)
  {
    hide AdlerFrom, Adler32;
    var p, t := s[..i], s[i + 1..];
    assert s == p + ([s[i]] + t) && s[i := x] == p + ([x] + t);
    AdlerConcat(p, [s[i]] + t, 1, 0);
    AdlerConcat(p, [x] + t, 1, 0);
    var (a, b) := AdlerFrom(p, 1, 0);
    var c, d := (a + s[i]) % BASE, (a + x) % BASE;
    SmallShift(a, s[i], x);
    FirstSumsStayApart(t, c, (b + c) % BASE, d, (b + d) % BASE);
    AdlerCons(s[i], t, a, b);
    AdlerCons(x, t, a, b);
    AdlerDiffers(s, s[i := x]);
  }

  lemma SmallShift(a: Sum, x: byte, y: byte)
    requires x != y
    ensures (a + x) % BASE != (a + y) % BASE
  {
  }

  /** Exchanging two adjacent unequal bytes changes the checksum. */
  lemma AdlerDetectsSwap(s: seq<byte>, i: nat)
    requires i + 1 < |s| && s[i] != s[i + 1]
    ensures Adler32(s[i := s[i + 1]][i + 1 := s[i]]) != Adler32(s)
  {
    hide AdlerFrom, Adler32;
    var p, t, x, y := s[..i], s[i + 2..], s[i], s[i + 1];
    var s' := s[i := y][i + 1 := x];
    assert s == p + ([x, y] + t) && s' == p + ([y, x] + t);
    AdlerConcat(p, [x, y] + t, 1, 0);
    AdlerConcat(p, [y, x] + t, 1, 0);
    var (a, b) := AdlerFrom(p, 1, 0);
    AdlerTwo(x, y, t, a, b);
    AdlerTwo(y, x, t, a, b);
    var c, d := (a + x) % BASE, (a + y) % BASE;
    SmallShift(a, x, y);
    AddKeepsApart(c, d, b);
    var e := (a + x + y) % BASE;
    AddKeepsApart((b + c) % BASE, (b + d) % BASE, e);
    SecondSumsStayApart(t, e, ((b + c) % BASE + e) % BASE, ((b + d) % BASE + e) % BASE);
    AdlerDiffers(s, s');
  }

  lemma AdlerTwo(x: byte, y: byte, t: seq<byte>, a: Sum, b: Sum)
    ensures var c, e := (a + x) % BASE, (a + x + y) % BASE;
            AdlerFrom([x, y] + t, a, b) == AdlerFrom(t, e, ((b + c) % BASE + e) % BASE)
  {
    hide AdlerFrom;
    var c := (a + x) % BASE;
    assert [x, y] + t == [x] + ([y] + t);
    AdlerCons(x, [y] + t, a, b);
    AdlerCons(y, t, c, (b + c) % BASE);
    ModTwice(a, x, y);
  }

  lemma ModTwice(a: Sum, x: byte, y: byte)
    ensures ((a + x) % BASE + y) % BASE == (a + x + y) % BASE
  {
    assert (a + x) % BASE == if a + x < BASE then a + x else a + x - BASE;
  }
}
