/** Bytes, byte strings and the fixed-width integer encodings both wire protocols use. */
module ByteStrings {

  type byte = b: int | 0 <= b < 256

  /** A Go `[]byte` value or a Go `string`: both are finite sequences of bytes. */
  type bytes = seq<byte>

  datatype Option<+T> = None | Some(value: T) {
    predicate IsFailure() {
      None?
    }

    function PropagateFailure<U>(): Option<U>
      requires None?
    {
      None
    }

    function Extract(): T
      requires Some?
    {
      value
    }
  }

  const TWO_16: nat := 0x1_0000
  const TWO_24: nat := 0x100_0000
  const TWO_31: nat := 0x8000_0000
  const TWO_32: nat := 0x1_0000_0000
  const TWO_63: nat := 0x8000_0000_0000_0000
  const TWO_64: nat := 0x1_0000_0000_0000_0000

  type uint16 = v: int | 0 <= v < 0x1_0000
  type uint32 = v: int | 0 <= v < 0x1_0000_0000
  type uint64 = v: int | 0 <= v < 0x1_0000_0000_0000_0000
  type int64 = v: int | -0x8000_0000_0000_0000 <= v < 0x8000_0000_0000_0000

  /** Go's conversion of a 64-bit unsigned value to `int`. */
  function ToInt64(v: uint64): int64 {
    if v < TWO_63 then v else v - TWO_64
  }

  /** Go's conversion of an `int64` to `uint64`. */
  function ToUint64(v: int64): uint64 {
    if v >= 0 then v else v + TWO_64
  }

  /** Go's `seq++` on a byte. */
  function Next(s: byte): byte {
    (s + 1) % 256
  }

  lemma AppendTwo<T>(a: seq<T>, b: seq<T>, c: seq<T>)
    ensures a + b + c == a + (b + c)
  {
  }

  predicate NoNull(b: bytes) {
    forall i :: 0 <= i < |b| ==> b[i] != 0
  }

  predicate IsPrefix<T(==)>(a: seq<T>, b: seq<T>) {
    |a| <= |b| && b[..|a|] == a
  }

  // ---------- fixed-width little-endian and big-endian integers ----------

  function Pow256(n: nat): (r: nat)
    ensures r > 0
  {
    if n == 0 then 1 else 256 * Pow256(n - 1)
  }

  /** The low `n` bytes of `v`, least significant first. */
  function LE(v: nat, n: nat): (r: bytes)
    ensures |r| == n
  {
    if n == 0 then [] else [v % 256] + LE(v / 256, n - 1)
  }

  function FromLE(b: bytes): nat {
    if b == [] then 0 else b[0] + 256 * FromLE(b[1..])
  }

  function FromBE(b: bytes): nat {
    if b == [] then 0 else 256 * FromBE(b[..|b| - 1]) + b[|b| - 1]
  }

  /** The low `n` bytes of `v`, most significant first. */
  function BE(v: nat, n: nat): (r: bytes)
    ensures |r| == n
  {
    if n == 0 then [] else BE(v / 256, n - 1) + [v % 256]
  }

  lemma {:induction false} FromLEBound(b: bytes)
    ensures FromLE(b) < Pow256(|b|)
  {
    if b != [] {
      FromLEBound(b[1..]);
    }
  }

  lemma {:induction false} FromLEOfLE(v: nat, n: nat)
    requires v < Pow256(n)
    ensures FromLE(LE(v, n)) == v
  {
    if n > 0 {
      FromLEOfLE(v / 256, n - 1);
      assert LE(v, n)[1..] == LE(v / 256, n - 1);
    }
  }

  lemma {:induction false} FromBEOfBE(v: nat, n: nat)
    requires v < Pow256(n)
    ensures FromBE(BE(v, n)) == v
  {
    if n > 0 {
      FromBEOfBE(v / 256, n - 1);
      assert BE(v, n)[..n - 1] == BE(v / 256, n - 1);
    }
  }

  lemma {:induction false} LEOfFromLE(b: bytes)
    ensures LE(FromLE(b), |b|) == b
  {
    if b != [] {
      LEOfFromLE(b[1..]);
      assert FromLE(b) % 256 == b[0] && FromLE(b) / 256 == FromLE(b[1..]);
    }
  }

  lemma Pow256Values()
    ensures Pow256(1) == 256 && Pow256(2) == TWO_16 && Pow256(3) == TWO_24 && Pow256(4) == TWO_32
    ensures Pow256(8) == TWO_64
  {
    assert Pow256(5) == 256 * Pow256(4);
    assert Pow256(6) == 256 * Pow256(5);
    assert Pow256(7) == 256 * Pow256(6);
  }

  /** Go writes the three bytes of a length one by one. */
  lemma LE3(v: nat)
    ensures LE(v, 3) == [v % 256, (v / 256) % 256, (v / 65536) % 256]
  {
    assert v / 256 / 256 == v / 65536;
    assert LE(v / 65536, 1) == [(v / 65536) % 256] + LE(v / 65536 / 256, 0);
    assert LE(v / 256, 2) == [(v / 256) % 256] + LE(v / 256 / 256, 1);
    assert LE(v, 3) == [v % 256] + LE(v / 256, 2);
  }

  lemma FromLE3(b: bytes)
    requires |b| == 3
    ensures FromLE(b) == b[0] as int + 256 * b[1] as int + 65536 * b[2] as int
  {
    assert b[1..][1..] == b[2..];
    assert FromLE(b[2..]) == b[2] + 256 * FromLE(b[2..][1..]);
    assert FromLE(b[1..]) == b[1] + 256 * FromLE(b[1..][1..]);
  }

  /** The or of three disjoint byte fields is their sum, which is how the model writes it. */
  lemma OrOfShiftedBytes(b0: bv32, b1: bv32, b2: bv32)
    requires b0 < 256 && b1 < 256 && b2 < 256
    ensures b0 | (b1 << 8) | (b2 << 16) == b0 + b1 * 256 + b2 * 65536
  {
  }

  /** encoding/binary: LittleEndian.PutUintN into `buf` at `off`. */
  method PutLE(buf: array<byte>, off: nat, v: nat, n: nat)
    requires off + n <= buf.Length
    modifies buf
    ensures buf[..] == old(buf[..off]) + LE(v, n) + old(buf[off + n..])
  {
    ghost var was, all := buf[..], LE(v, n);
    var i, x := 0, v;
    while i < n
      invariant 0 <= i <= n
      invariant buf[..] == was[..off] + all[..i] + was[off + i..]
      invariant LE(x, n - i) == all[i..]
    {
      LEHead(x, n - i);
      ghost var before := buf[..];
      buf[off + i] := x % 256;
      NextByte(before, was, off, all, i);
      i, x := i + 1, x / 256;
    }
  }

  lemma NextByte(b: bytes, was: bytes, off: nat, all: bytes, i: nat)
    requires i < |all| && off + |all| <= |was| && b == was[..off] + all[..i] + was[off + i..]
    ensures b[off + i := all[i]] == was[..off] + all[..i + 1] + was[off + i + 1..]
  {
    assert all[..i + 1] == all[..i] + [all[i]];
  }

  lemma LEHead(x: nat, n: nat)
    requires n > 0
    ensures LE(x, n)[0] == x % 256 && LE(x, n)[1..] == LE(x / 256, n - 1)
  {
  }

  // ---------- text ----------

  /** The bytes of an ASCII literal. */
  function Ascii(s: string): (r: bytes)
    requires forall c <- s :: c < 128 as char
    ensures |r| == |s|
  {
    seq<byte>(|s|, i requires 0 <= i < |s| => assert s[i] in s; s[i] as int as byte)
  }

  function Digits(n: nat): (r: bytes)
    ensures |r| > 0 && forall d <- r :: 0x30 <= d <= 0x39
  {
    if n < 10 then [0x30 + n] else Digits(n / 10) + [0x30 + n % 10]
  }

  /** fmt's `%d`. */
  function Decimal(n: int): (r: bytes)
    ensures |r| > 0
  {
    if n < 0 then [0x2D] + Digits(-n) else Digits(n)
  }

  /** The number a string of decimal digits stands for; None if there is another byte in it. */
  function ReadDigits(b: bytes): Option<nat> {
    if b == [] then None
    else
      var d := b[|b| - 1];
      if !(0x30 <= d <= 0x39) then None
      else if |b| == 1 then Some(d - 0x30)
      else match ReadDigits(b[..|b| - 1])
        case None => None
        case Some(v) => Some(10 * v + d - 0x30)
  }

  lemma {:induction false} ReadDigitsOfDigits(n: nat)
    ensures ReadDigits(Digits(n)) == Some(n)
  {
    if n >= 10 {
      ReadDigitsOfDigits(n / 10);
      assert Digits(n)[..|Digits(n)| - 1] == Digits(n / 10);
    }
  }

  lemma {:induction false} DigitsArePlain(n: nat)
    ensures Digits(n)[0] == 0x30 <==> n == 0
    ensures Digits(0) == [0x30]
  {
    if n >= 10 {
      DigitsArePlain(n / 10);
      assert Digits(n)[0] == Digits(n / 10)[0];
    }
  }

  /** A number is printed in decimal, without leading zeros, a negative one after a minus sign. */
  lemma DecimalReads(n: int)
    ensures n >= 0 ==> ReadDigits(Decimal(n)) == Some(n) && (Decimal(n)[0] == 0x30 ==> Decimal(n) == [0x30])
    ensures n < 0 ==> Decimal(n)[0] == 0x2D && Decimal(n)[1] != 0x30 && ReadDigits(Decimal(n)[1..]) == Some(-n)
  {
    hide ReadDigits;
    var m := if n >= 0 then n else -n;
    ReadDigitsOfDigits(m);
    DigitsArePlain(m);
    assert n < 0 ==> Decimal(n)[1..] == Digits(m);
  }

  function Pow10(k: nat): (r: nat)
    ensures r > 0
  {
    if k == 0 then 1 else 10 * Pow10(k - 1)
  }

  lemma {:induction false} DigitsLength(n: nat, k: nat)
    requires n < Pow10(k) && k > 0
    ensures |Digits(n)| <= k
  {
    if n >= 10 {
      assert k > 1 by {
        assert Pow10(1) == 10 * Pow10(0);
      }
      DigitsLength(n / 10, k - 1);
    }
  }

  /** Every 64-bit number prints in at most twenty bytes. */
  lemma DecimalLength(n: int64)
    ensures |Decimal(n)| <= 20
  {
    assert Pow10(4) == 10_000;
    assert Pow10(8) == 100_000_000;
    assert Pow10(12) == 1_000_000_000_000;
    assert Pow10(16) == 10_000_000_000_000_000;
    assert Pow10(19) == 10_000_000_000_000_000_000;
    var m: int := n;
    DigitsLength(if m < 0 then -m else m, 19);
  }
}
