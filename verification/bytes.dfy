/** Byte strings, big-endian integers and the 256-bit word type used throughout
    the contract: every point, scalar and calldata buffer is a sequence of bytes
    whose integer reading is big-endian, as the EVM precompiles expect. */
module Bytes {

  /** An unsigned 8-bit value (Rust `u8`). */
  type Byte = x: int | 0 <= x < 256

  /** 2^256, the modulus of the EVM word. */
  const TWO_256: nat := 0x1_0000_0000_0000_0000_0000_0000_0000_0000_0000_0000_0000_0000_0000_0000_0000_0000

  /** An unsigned 256-bit word (alloy `U256`). */
  type U256 = x: int | 0 <= x < TWO_256

  /** 256^n: the number of distinct n-byte strings. */
  function Pow256(n: nat): (r: nat)
    ensures r > 0
  {
    if n == 0 then 1 else 256 * Pow256(n - 1)
  }

  /** Big-endian reading of a byte string: the last byte is the least significant. */
  function BeValue(s: seq<Byte>): nat
  {
    if s == [] then 0 else BeValue(s[..|s| - 1]) * 256 + s[|s| - 1]
  }

  /** The n-byte big-endian encoding of x, keeping its n low-order bytes
      (`to_be_bytes` when x fits in n bytes). */
  function BeBytes(x: nat, n: nat): (r: seq<Byte>)
    ensures |r| == n
  {
    if n == 0 then [] else BeBytes(x / 256, n - 1) + [x % 256]
  }

  /** True when every byte is zero (`iter().all(|&b| b == 0)`). */
  predicate AllZero(s: seq<Byte>)
  {
    forall i :: 0 <= i < |s| ==> s[i] == 0
  }

  /** The literal TWO_256 is indeed 256^32. */
  lemma Pow256Of32()
    ensures Pow256(32) == TWO_256
  {
    assert Pow256(1) == 0x100;
    assert Pow256(2) == 0x10000;
    assert Pow256(3) == 0x1000000;
    assert Pow256(4) == 0x100000000;
    assert Pow256(5) == 0x10000000000;
    assert Pow256(6) == 0x1000000000000;
    assert Pow256(7) == 0x100000000000000;
    assert Pow256(8) == 0x10000000000000000;
    assert Pow256(9) == 0x1000000000000000000;
    assert Pow256(10) == 0x100000000000000000000;
    assert Pow256(11) == 0x10000000000000000000000;
    assert Pow256(12) == 0x1000000000000000000000000;
    assert Pow256(13) == 0x100000000000000000000000000;
    assert Pow256(14) == 0x10000000000000000000000000000;
    assert Pow256(15) == 0x1000000000000000000000000000000;
    assert Pow256(16) == 0x100000000000000000000000000000000;
    assert Pow256(17) == 0x10000000000000000000000000000000000;
    assert Pow256(18) == 0x1000000000000000000000000000000000000;
    assert Pow256(19) == 0x100000000000000000000000000000000000000;
    assert Pow256(20) == 0x10000000000000000000000000000000000000000;
    assert Pow256(21) == 0x1000000000000000000000000000000000000000000;
    assert Pow256(22) == 0x100000000000000000000000000000000000000000000;
    assert Pow256(23) == 0x10000000000000000000000000000000000000000000000;
    assert Pow256(24) == 0x1000000000000000000000000000000000000000000000000;
    assert Pow256(25) == 0x100000000000000000000000000000000000000000000000000;
    assert Pow256(26) == 0x10000000000000000000000000000000000000000000000000000;
    assert Pow256(27) == 0x1000000000000000000000000000000000000000000000000000000;
    assert Pow256(28) == 0x100000000000000000000000000000000000000000000000000000000;
    assert Pow256(29) == 0x10000000000000000000000000000000000000000000000000000000000;
    assert Pow256(30) == 0x1000000000000000000000000000000000000000000000000000000000000;
    assert Pow256(31) == 0x100000000000000000000000000000000000000000000000000000000000000;
    assert Pow256(32) == 0x10000000000000000000000000000000000000000000000000000000000000000;
  }

  /** An n-byte string reads as a number below 256^n. */
  lemma {:induction false} BeValueBound(s: seq<Byte>)
    ensures BeValue(s) < Pow256(|s|)
  {
    if s != [] {
      BeValueBound(s[..|s| - 1]);
    }
  }

  /** Prepending a byte adds it at weight 256^|s|: how the carry loops, which
      walk from the low end, extend the part already processed. */
  lemma {:induction false} BeValuePrepend(b: Byte, s: seq<Byte>)
    ensures BeValue([b] + s) == b * Pow256(|s|) + BeValue(s)
  {
    if s == [] {
      assert [b] + s == [b];
      assert [b][..0] == [];
    } else {
      var init := s[..|s| - 1];
      assert ([b] + s)[..|s|] == [b] + init;
      BeValuePrepend(b, init);
      calc {
        BeValue([b] + s);
        BeValue([b] + init) * 256 + s[|s| - 1];
        (b * Pow256(|init|) + BeValue(init)) * 256 + s[|s| - 1];
        b * (Pow256(|init|) * 256) + (BeValue(init) * 256 + s[|s| - 1]);
        b * Pow256(|s|) + BeValue(s);
      }
    }
  }

  /** Encoding a number that fits in n bytes and reading it back gives the
      number itself. */
  lemma {:induction false} BeBytesValue(x: nat, n: nat)
    requires x < Pow256(n)
    ensures BeValue(BeBytes(x, n)) == x
  {
    if n > 0 {
      var q, m := x / 256, Pow256(n - 1);
      assert 256 * q <= x < Pow256(n) == 256 * m;
      var r := BeBytes(x, n);
      assert r[..n - 1] == BeBytes(q, n - 1);
      BeBytesValue(q, n - 1);
    }
  }

  /** Reading then encoding gives back the bytes: the encoding is a bijection
      between n-byte strings and the numbers below 256^n. */
  lemma {:induction false} BeBytesOfValue(s: seq<Byte>)
    ensures BeBytes(BeValue(s), |s|) == s
  {
    if s != [] {
      var init, last := s[..|s| - 1], s[|s| - 1];
      BeBytesOfValue(init);
      assert s == init + [last];
    }
  }

  /** Every suffix of an all-zero string is all zeros. */
  lemma AllZeroSuffix(s: seq<Byte>, k: nat)
    requires k <= |s|
    ensures AllZero(s) ==> AllZero(s[k..])
  {
    if AllZero(s) {
      forall i | 0 <= i < |s| - k ensures s[k..][i] == 0 {
        assert s[k..][i] == s[k + i];
      }
    }
  }

  /** A byte string is all zeros exactly when it reads as the number 0. */
  lemma {:induction false} AllZeroIffValueZero(s: seq<Byte>)
    ensures AllZero(s) <==> BeValue(s) == 0
  {
    if s != [] {
      var init := s[..|s| - 1];
      AllZeroIffValueZero(init);
      if AllZero(s) {
        assert AllZero(init) by {
          forall i | 0 <= i < |init| ensures init[i] == 0 {
            assert init[i] == s[i];
          }
        }
      }
      if BeValue(s) == 0 {
        forall i | 0 <= i < |s| ensures s[i] == 0 {
          if i < |s| - 1 {
            assert s[i] == init[i];
          }
        }
      }
    }
  }
}
