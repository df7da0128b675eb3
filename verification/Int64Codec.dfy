/** `encoding/binary` little-endian int64 words, as the index file stores them. */
module Int64Codec {
  import opened Lines

  const TWO_63 := 0x8000_0000_0000_0000
  const TWO_64 := 0x1_0000_0000_0000_0000

  predicate FitsInt64(x: int) {
    -TWO_63 <= x < TWO_63
  }

  /** The n low bytes of x, least significant first. */
  function LowBytes(x: nat, n: nat): (r: Bytes)
    ensures |r| == n
  {
    if n == 0 then [] else [(x % 256) as byte] + LowBytes(x / 256, n - 1)
  }

  /** The unsigned number whose bytes are b, least significant first. */
  function Unsigned(b: Bytes): (r: nat) {
    if b == [] then 0 else b[0] as nat + 256 * Unsigned(b[1..])
  }

  function Pow256(n: nat): (r: nat)
    ensures r >= 1
  {
    if n == 0 then 1 else 256 * Pow256(n - 1)
  }

  /** `binary.Write` of an int64: two's complement, eight bytes. */
  function Encode(x: int): (r: Bytes)
    ensures |r| == 8
  {
    LowBytes(x % TWO_64, 8)
  }

  lemma LowByteAt(x: nat, n: nat, k: nat)
    requires k < n
    ensures k == 0 ==> LowBytes(x, n)[k] as nat == x % 256
    ensures k > 0 ==> LowBytes(x, n)[k] == LowBytes(x / 256, n - 1)[k - 1]
  {
  }

  /** Dividing by 256 k times. */
  function Shifted(x: nat, k: nat): nat {
    if k == 0 then x else Shifted(x, k - 1) / 256
  }

  lemma {:induction false} ShiftedFirst(x: nat, k: nat)
    requires k > 0
    ensures Shifted(x, k) == Shifted(x / 256, k - 1)
  {
    if k > 1 {
      ShiftedFirst(x, k - 1);
    }
  }

  lemma SevenShifts(u: nat)
    ensures Shifted(u, 0) == u && Shifted(u, 1) == u / 0x100 && Shifted(u, 2) == u / 0x1_0000
    ensures Shifted(u, 3) == u / 0x100_0000 && Shifted(u, 4) == u / 0x1_0000_0000
    ensures Shifted(u, 5) == u / 0x100_0000_0000 && Shifted(u, 6) == u / 0x1_0000_0000_0000
    ensures Shifted(u, 7) == u / 0x100_0000_0000_0000
  {
    assert Shifted(u, 1) == u / 0x100;
    assert Shifted(u, 2) == u / 0x1_0000;
    assert Shifted(u, 3) == u / 0x100_0000;
    assert Shifted(u, 4) == u / 0x1_0000_0000;
    assert Shifted(u, 5) == u / 0x100_0000_0000;
    assert Shifted(u, 6) == u / 0x1_0000_0000_0000;
  }

  lemma {:induction false} ByteOf(x: nat, n: nat, k: nat)
    requires k < n
    ensures LowBytes(x, n)[k] as nat == Shifted(x, k) % 256
  {
    LowByteAt(x, n, k);
    if k > 0 {
      ByteOf(x / 256, n - 1, k - 1);
      ShiftedFirst(x, k);
    }
  }

  /** The byte order: the least significant of the eight bytes of the two's complement first. */
  lemma EncodeBytes(x: int)
    ensures var u, b := x % 0x1_0000_0000_0000_0000, Encode(x);
      && b[0] as int == u % 0x100
      && b[1] as int == u / 0x100 % 0x100
      && b[2] as int == u / 0x1_0000 % 0x100
      && b[3] as int == u / 0x100_0000 % 0x100
      && b[4] as int == u / 0x1_0000_0000 % 0x100
      && b[5] as int == u / 0x100_0000_0000 % 0x100
      && b[6] as int == u / 0x1_0000_0000_0000 % 0x100
      && b[7] as int == u / 0x100_0000_0000_0000 % 0x100
  {
    var u: nat := x % TWO_64;
    SevenShifts(u);
    forall k: nat | k < 8
      ensures Encode(x)[k] as nat == Shifted(u, k) % 256
    {
      ByteOf(u, 8, k);
    }
  }

  /** `binary.Read` of an int64. */
  function Decode(b: Bytes): int
    requires |b| == 8
  {
    var u := Unsigned(b);
    if u < TWO_63 then u else u - TWO_64
  }

  lemma {:induction false} UnsignedLowBytes(x: nat, n: nat)
    requires x < Pow256(n)
    ensures Unsigned(LowBytes(x, n)) == x
  {
    if n > 0 {
      UnsignedLowBytes(x / 256, n - 1);
    }
  }

  lemma Pow256Of8()
    ensures Pow256(8) == TWO_64
  {
    assert Pow256(4) == 0x1_0000_0000;
  }

  /** Every int64 is read back as it was written. */
  lemma DecodeEncode(x: int)
    requires FitsInt64(x)
    ensures Decode(Encode(x)) == x
  {
    Pow256Of8();
    UnsignedLowBytes(x % TWO_64, 8);
  }

  /** The words of a list of numbers, one after the other. */
  function EncodeAll(xs: seq<int>): (r: Bytes)
    ensures |r| == 8 * |xs|
  {
    if xs == [] then [] else EncodeAll(xs[..|xs| - 1]) + Encode(xs[|xs| - 1])
  }

  /** The first n words of b. */
  function DecodeAll(b: Bytes, n: nat): (r: seq<int>)
    requires 8 * n <= |b|
    ensures |r| == n
  {
    if n == 0 then [] else DecodeAll(b, n - 1) + [Decode(b[8 * (n - 1)..8 * n])]
  }

  lemma {:induction false} DecodeAllPrefix(b: Bytes, rest: Bytes, n: nat)
    requires 8 * n <= |b|
    ensures DecodeAll(b + rest, n) == DecodeAll(b, n)
  {
    if n > 0 {
      DecodeAllPrefix(b, rest, n - 1);
      assert (b + rest)[8 * (n - 1)..8 * n] == b[8 * (n - 1)..8 * n];
    }
  }

  lemma WordsUnfold(xs: seq<int>, rest: Bytes)
    requires xs != []
    ensures var n := |xs|;
      && EncodeAll(xs) == EncodeAll(xs[..n - 1]) + Encode(xs[n - 1])
      && DecodeAll(EncodeAll(xs) + rest, n)
        == DecodeAll(EncodeAll(xs) + rest, n - 1) + [Decode((EncodeAll(xs) + rest)[8 * (n - 1)..8 * n])]
      && xs == xs[..n - 1] + [xs[n - 1]]
  {
  }

  /** Every list of int64 numbers is read back as it was written, whatever follows it. */
  lemma {:induction false} DecodeEncodeAll(xs: seq<int>, rest: Bytes)
    requires forall i :: 0 <= i < |xs| ==> FitsInt64(xs[i])
    ensures DecodeAll(EncodeAll(xs) + rest, |xs|) == xs
  {
    if xs != [] {
      var n := |xs|;
      var init, last := xs[..n - 1], xs[n - 1];
      var a, b := EncodeAll(init), Encode(last);
      DecodeEncodeAll(init, []);
      assert a + [] == a;
      hide EncodeAll, DecodeAll, Encode, Decode;
      DecodeAllPrefix(a, b + rest, n - 1);
      Middle(a, b, rest);
      DecodeEncode(last);
      WordsUnfold(xs, rest);
    }
  }
}
