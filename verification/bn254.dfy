/** The BN254 backend (`PrecompileBackend`): the zero-point short cuts of
    point addition and scalar multiplication, and the negation of a G1 point,
    which subtracts the y coordinate from the base-field modulus byte by byte.
    Points use the EIP-196/EIP-197 encodings: a G1 point is x || y, two 32-byte
    big-endian field elements; a G2 point is 128 bytes; the point at infinity
    is all zeros. The precompiles themselves are the `Host` parameter. */
module Bn254 {
  import opened Bytes
  import opened Outcomes

  type G1Point = s: seq<Byte> | |s| == 64 witness ZERO_G1
  type G2Point = s: seq<Byte> | |s| == 128 witness seq(128, i => 0)
  type Scalar = s: seq<Byte> | |s| == 32 witness seq(32, i => 0)

  /** The all-zero encoding of the point at infinity. */
  const ZERO_G1: seq<Byte> := seq(64, i => 0)

  /** Last byte of the precompile addresses. */
  const EC_ADD_PRECOMPILE: nat := 0x06
  const EC_MUL_PRECOMPILE: nat := 0x07
  const EC_PAIRING_PRECOMPILE: nat := 0x08

  /** A static call to the precompile at the given address with the given
      calldata: the returned bytes, or None when the call fails. */
  type Host = (nat, seq<Byte>) -> Option<seq<Byte>>

  /** The BN254 base-field modulus p. */
  const P: nat := 21888242871839275222246405745257275088696311157297823662689037894645226208583

  /** The big-endian bytes the backend subtracts from. */
  const P_BYTES: seq<Byte> := [
    0x30, 0x64, 0x4e, 0x72, 0xe1, 0x31, 0xa0, 0x29, 0xb8, 0x50, 0x45, 0xb6, 0x81, 0x81, 0x58, 0x5d,
    0x97, 0x81, 0x6a, 0x91, 0x68, 0x71, 0xca, 0x8d, 0x3c, 0x20, 0x8c, 0x16, 0xd8, 0x7c, 0xfd, 0x47
  ]

  /** None of the bytes of p is zero. */
  lemma PBytesNonZero()
    ensures |P_BYTES| == 32 && forall k :: 0 <= k < 32 ==> P_BYTES[k] > 0
  {
  }

  /** P_BYTES is the 32-byte big-endian encoding of p. */
  lemma PBytesEncodeP()
    ensures |P_BYTES| == 32 && BeValue(P_BYTES) == P
  {
    assert BeValue(P_BYTES[..1]) == 0x30;
    assert P_BYTES[..2][..1] == P_BYTES[..1];
    assert BeValue(P_BYTES[..2]) == 0x3064;
    assert P_BYTES[..3][..2] == P_BYTES[..2];
    assert BeValue(P_BYTES[..3]) == 0x30644e;
    assert P_BYTES[..4][..3] == P_BYTES[..3];
    assert BeValue(P_BYTES[..4]) == 0x30644e72;
    assert P_BYTES[..5][..4] == P_BYTES[..4];
    assert BeValue(P_BYTES[..5]) == 0x30644e72e1;
    assert P_BYTES[..6][..5] == P_BYTES[..5];
    assert BeValue(P_BYTES[..6]) == 0x30644e72e131;
    assert P_BYTES[..7][..6] == P_BYTES[..6];
    assert BeValue(P_BYTES[..7]) == 0x30644e72e131a0;
    assert P_BYTES[..8][..7] == P_BYTES[..7];
    assert BeValue(P_BYTES[..8]) == 0x30644e72e131a029;
    assert P_BYTES[..9][..8] == P_BYTES[..8];
    assert BeValue(P_BYTES[..9]) == 0x30644e72e131a029b8;
    assert P_BYTES[..10][..9] == P_BYTES[..9];
    assert BeValue(P_BYTES[..10]) == 0x30644e72e131a029b850;
    assert P_BYTES[..11][..10] == P_BYTES[..10];
    assert BeValue(P_BYTES[..11]) == 0x30644e72e131a029b85045;
    assert P_BYTES[..12][..11] == P_BYTES[..11];
    assert BeValue(P_BYTES[..12]) == 0x30644e72e131a029b85045b6;
    assert P_BYTES[..13][..12] == P_BYTES[..12];
    assert BeValue(P_BYTES[..13]) == 0x30644e72e131a029b85045b681;
    assert P_BYTES[..14][..13] == P_BYTES[..13];
    assert BeValue(P_BYTES[..14]) == 0x30644e72e131a029b85045b68181;
    assert P_BYTES[..15][..14] == P_BYTES[..14];
    assert BeValue(P_BYTES[..15]) == 0x30644e72e131a029b85045b6818158;
    assert P_BYTES[..16][..15] == P_BYTES[..15];
    assert BeValue(P_BYTES[..16]) == 0x30644e72e131a029b85045b68181585d;
    assert P_BYTES[..17][..16] == P_BYTES[..16];
    assert BeValue(P_BYTES[..17]) == 0x30644e72e131a029b85045b68181585d97;
    assert P_BYTES[..18][..17] == P_BYTES[..17];
    assert BeValue(P_BYTES[..18]) == 0x30644e72e131a029b85045b68181585d9781;
    assert P_BYTES[..19][..18] == P_BYTES[..18];
    assert BeValue(P_BYTES[..19]) == 0x30644e72e131a029b85045b68181585d97816a;
    assert P_BYTES[..20][..19] == P_BYTES[..19];
    assert BeValue(P_BYTES[..20]) == 0x30644e72e131a029b85045b68181585d97816a91;
    assert P_BYTES[..21][..20] == P_BYTES[..20];
    assert BeValue(P_BYTES[..21]) == 0x30644e72e131a029b85045b68181585d97816a9168;
    assert P_BYTES[..22][..21] == P_BYTES[..21];
    assert BeValue(P_BYTES[..22]) == 0x30644e72e131a029b85045b68181585d97816a916871;
    assert P_BYTES[..23][..22] == P_BYTES[..22];
    assert BeValue(P_BYTES[..23]) == 0x30644e72e131a029b85045b68181585d97816a916871ca;
    assert P_BYTES[..24][..23] == P_BYTES[..23];
    assert BeValue(P_BYTES[..24]) == 0x30644e72e131a029b85045b68181585d97816a916871ca8d;
    assert P_BYTES[..25][..24] == P_BYTES[..24];
    assert BeValue(P_BYTES[..25]) == 0x30644e72e131a029b85045b68181585d97816a916871ca8d3c;
    assert P_BYTES[..26][..25] == P_BYTES[..25];
    assert BeValue(P_BYTES[..26]) == 0x30644e72e131a029b85045b68181585d97816a916871ca8d3c20;
    assert P_BYTES[..27][..26] == P_BYTES[..26];
    assert BeValue(P_BYTES[..27]) == 0x30644e72e131a029b85045b68181585d97816a916871ca8d3c208c;
    assert P_BYTES[..28][..27] == P_BYTES[..27];
    assert BeValue(P_BYTES[..28]) == 0x30644e72e131a029b85045b68181585d97816a916871ca8d3c208c16;
    assert P_BYTES[..29][..28] == P_BYTES[..28];
    assert BeValue(P_BYTES[..29]) == 0x30644e72e131a029b85045b68181585d97816a916871ca8d3c208c16d8;
    assert P_BYTES[..30][..29] == P_BYTES[..29];
    assert BeValue(P_BYTES[..30]) == 0x30644e72e131a029b85045b68181585d97816a916871ca8d3c208c16d87c;
    assert P_BYTES[..31][..30] == P_BYTES[..30];
    assert BeValue(P_BYTES[..31]) == 0x30644e72e131a029b85045b68181585d97816a916871ca8d3c208c16d87cfd;
    assert P_BYTES[..32][..31] == P_BYTES[..31];
    assert BeValue(P_BYTES[..32]) == 0x30644e72e131a029b85045b68181585d97816a916871ca8d3c208c16d87cfd47;
    assert P_BYTES[..32] == P_BYTES;
  }

  /** The y coordinate of a G1 point, read as a number. */
  function Y(p: G1Point): nat
  {
    BeValue(p[32..])
  }

  /** Negation of a G1 point as the backend defines it: the point at infinity
      is its own negation; otherwise x is kept and y becomes (p - y) mod 2^256. */
  function Negate(p: G1Point): (r: G1Point)
  {
    if AllZero(p) then p else p[..32] + BeBytes((P - Y(p)) % TWO_256, 32)
  }

  /** For a non-zero point whose y is a field element, Negate keeps x and
      replaces y by its additive inverse modulo p. */
  lemma NegateIsFieldNegation(p: G1Point)
    requires !AllZero(p) && Y(p) <= P
    ensures Negate(p)[..32] == p[..32]
    ensures Y(Negate(p)) == P - Y(p)
    ensures (Y(Negate(p)) + Y(p)) % P == 0
  {
    Pow256Of32();
    var r := Negate(p);
    assert r[32..] == BeBytes(P - Y(p), 32);
    BeBytesValue(P - Y(p), 32);
  }

  /** A point is determined by its x bytes and the value of its y. */
  lemma PointFromXY(a: G1Point, b: G1Point)
    requires a[..32] == b[..32] && Y(a) == Y(b)
    ensures a == b
  {
    BeBytesOfValue(a[32..]);
    BeBytesOfValue(b[32..]);
    assert a == a[..32] + a[32..];
    assert b == b[..32] + b[32..];
  }

  /** Negating twice gives the point back, for every point whose y is a
      canonical field element (below p). */
  lemma NegateInvolutive(p: G1Point)
    requires Y(p) < P
    ensures Negate(Negate(p)) == p
  {
    if !AllZero(p) {
      var r := Negate(p);
      NegateIsFieldNegation(p);
      AllZeroIffValueZero(r[32..]);
      AllZeroSuffix(r, 32);
      NegateIsFieldNegation(r);
      PointFromXY(Negate(r), p);
    }
  }

  /** One step of the borrow chain, in numbers: writing digit d with outgoing
      borrow b1 for p-digit pb, y-digit yb and incoming borrow b0 extends the
      identity pv - yv == rv - borrow * w by one digit of weight w. */
  lemma BorrowStep(pb: int, yb: int, d: int, b0: int, b1: int, pv: int, yv: int, rv: int, w: int)
    requires d - 256 * b1 == pb - b0 - yb
    requires pv - yv == rv - b0 * w
    ensures (pb * w + pv) - (yb * w + yv) == (d * w + rv) - b1 * (256 * w)
  {
    assert d * w - b1 * (256 * w) == (d - 256 * b1) * w;
    assert (pb - b0 - yb) * w == pb * w - b0 * w - yb * w;
  }

  /** The same step on the byte strings the loop works on. */
  lemma BorrowStepBytes(pb: Byte, yb: Byte, d: Byte, b0: int, b1: int, ps: seq<Byte>, ys: seq<Byte>, rs: seq<Byte>)
    requires |ps| == |ys| == |rs|
    requires d - 256 * b1 == pb - b0 - yb
    requires BeValue(ps) - BeValue(ys) == BeValue(rs) - b0 * Pow256(|rs|)
    ensures BeValue([pb] + ps) - BeValue([yb] + ys) == BeValue([d] + rs) - b1 * Pow256(|rs| + 1)
  {
    BeValuePrepend(pb, ps);
    BeValuePrepend(yb, ys);
    BeValuePrepend(d, rs);
    BorrowStep(pb, yb, d, b0, b1, BeValue(ps), BeValue(ys), BeValue(rs), Pow256(|rs|));
  }

  /** The loop's step: processing byte i extends the identity from the
      suffixes starting at i + 1 to those starting at i. */
  lemma BorrowStepAt(ps: seq<Byte>, ys: seq<Byte>, d: Byte, rest: seq<Byte>, i: nat, b0: int, b1: int)
    requires i < |ps| == |ys| && |rest| == |ps| - i - 1
    requires d - 256 * b1 == ps[i] - b0 - ys[i]
    requires BeValue(ps[i + 1..]) - BeValue(ys[i + 1..]) == BeValue(rest) - b0 * Pow256(|rest|)
    ensures BeValue(ps[i..]) - BeValue(ys[i..]) == BeValue([d] + rest) - b1 * Pow256(|ps| - i)
  {
    assert ps[i..] == [ps[i]] + ps[i + 1..];
    assert ys[i..] == [ys[i]] + ys[i + 1..];
    BorrowStepBytes(ps[i], ys[i], d, b0, b1, ps[i + 1..], ys[i + 1..], rest);
  }

  /** When the chain has run over all 32 bytes, the bytes written are the y
      coordinate of Negate(point). */
  lemma BorrowChainNegates(point: G1Point, r: seq<Byte>, borrow: int)
    requires !AllZero(point) && |r| == 32 && (borrow == 0 || borrow == 1)
    requires P - Y(point) == BeValue(r) - borrow * Pow256(32)
    ensures point[..32] + r == Negate(point)
  {
    var v := BeValue(r);
    Pow256Of32();
    BeValueBound(r);
    assert 0 <= v < TWO_256;
    BorrowResult(P, Y(point), v, borrow);
    BeBytesOfValue(r);
    assert BeBytes((P - Y(point)) % TWO_256, 32) == r;
  }

  /** After the last byte, the borrow chain has computed (a - b) mod 2^256. */
  lemma BorrowResult(a: int, b: int, r: int, borrow: int)
    requires 0 <= r < TWO_256 && (borrow == 0 || borrow == 1)
    requires a - b == r - borrow * TWO_256
    ensures r == (a - b) % TWO_256
  {
  }

  /** `negate_g1_point`: the point at infinity is returned as it is; any
      other point is copied and its y overwritten with p - y. */
  method NegateG1Point(point: G1Point) returns (negated: G1Point)
    ensures negated == Negate(point)
  {
    if AllZero(point) {
      return point;
    }
    PBytesEncodeP();
    PBytesNonZero();
    var borrow;
    negated, borrow := SubtractYFrom(point, P_BYTES);
    BorrowChainNegates(point, negated[32..], borrow);
    assert negated == point[..32] + negated[32..];
  }

  /** The borrow loop of `negate_g1_point`: copies the point and, walking the
      32 bytes of y from least to most significant, overwrites each with the
      difference of the modulus byte, the incoming borrow and the y byte. The
      result is y's replacement with modulus - y, plus the final borrow. Every
      modulus byte is non-zero, which is what keeps `p_bytes[i] - borrow` from
      underflowing. */
  method SubtractYFrom(point: G1Point, pBytes: seq<Byte>) returns (negated: G1Point, borrow: int)
    requires |pBytes| == 32 && forall k :: 0 <= k < 32 ==> pBytes[k] > 0
    ensures negated[..32] == point[..32]
    ensures borrow == 0 || borrow == 1
    ensures BeValue(pBytes) - Y(point) == BeValue(negated[32..]) - borrow * Pow256(32)
  {
    negated := point;
    var y := point[32..64];
    borrow := 0;
    var i := 32;
    while i > 0
      invariant 0 <= i <= 32
      invariant borrow == 0 || borrow == 1
      invariant negated[..32] == point[..32]
      invariant BeValue(pBytes[i..]) - BeValue(y[i..]) == BeValue(negated[32 + i..]) - borrow * Pow256(32 - i)
    {
      ghost var oldRest := negated[32 + i..];
      ghost var oldBorrow := borrow;
      i := i - 1;
      assert pBytes[i] >= borrow;
      var pVal := pBytes[i] - borrow;
      var yVal := y[i];
      // both branches store a value in 0..255: the `as u8` cast never truncates
      var d: Byte;
      if pVal >= yVal {
        d := pVal - yVal;
        borrow := 0;
      } else {
        d := 256 + pVal - yVal;
        borrow := 1;
      }
      negated := negated[32 + i := d];
      assert negated[32 + i..] == [d] + oldRest;
      BorrowStepAt(pBytes, y, d, oldRest, i, oldBorrow, borrow);
    }
    assert y[0..] == y == point[32..] && pBytes[0..] == pBytes;
  }

  /** `ec_add`: the point at infinity is the identity and short-cuts the
      precompile; otherwise the precompile at 0x06 gets a || b and must return
      64 bytes. */
  function EcAdd(host: Host, a: G1Point, b: G1Point): (r: Result<G1Point>)
    ensures AllZero(a) ==> r == Success(b)
    ensures !AllZero(a) && AllZero(b) ==> r == Success(a)
    ensures r.Failure? ==> !AllZero(a) && !AllZero(b)
    ensures r.Success? && !AllZero(a) && !AllZero(b) ==> host(EC_ADD_PRECOMPILE, a + b) == Some(r.value)
  {
    if AllZero(a) then Success(b)
    else if AllZero(b) then Success(a)
    else
      match host(EC_ADD_PRECOMPILE, a + b)
      case None => Failure(EcAddPrecompileFailed)
      case Some(res) => if |res| != 64 then Failure(InvalidEcAddResultLength) else Success(res)
  }

  /** `ec_mul`: a zero scalar or the point at infinity gives the point at
      infinity without the precompile; otherwise the precompile at 0x07 gets
      point || scalar and must return 64 bytes. */
  function EcMul(host: Host, scalar: Scalar, point: G1Point): (r: Result<G1Point>)
    ensures r.Failure? ==> !AllZero(scalar) && !AllZero(point)
    ensures r.Success? && !AllZero(scalar) && !AllZero(point) ==> host(EC_MUL_PRECOMPILE, point + scalar) == Some(r.value)
  {
    if AllZero(scalar) || AllZero(point) then Success(ZERO_G1)
    else
      match host(EC_MUL_PRECOMPILE, point + scalar)
      case None => Failure(EcMulPrecompileFailed)
      case Some(res) => if |res| != 64 then Failure(InvalidEcMulResultLength) else Success(res)
  }

  /** Either operand at infinity: the sum is the other operand, whatever the
      precompile would have answered. */
  lemma EcAddZeroIsIdentity(host: Host, a: G1Point, b: G1Point)
    ensures AllZero(a) ==> EcAdd(host, a, b) == Success(b)
    ensures AllZero(b) ==> EcAdd(host, a, b) == Success(a)
  {
    if AllZero(a) && AllZero(b) {
      assert a == b by {
        assert forall k :: 0 <= k < 64 ==> a[k] == b[k];
      }
    }
  }

  /** A zero scalar or the point at infinity: the product is the point at
      infinity, whatever the precompile would have answered. */
  lemma EcMulByZero(host: Host, scalar: Scalar, point: G1Point)
    requires AllZero(scalar) || AllZero(point)
    ensures EcMul(host, scalar, point) == Success(ZERO_G1)
  {
  }

  /** The all-zero point is the point at infinity. */
  lemma ZeroG1IsAtInfinity()
    ensures AllZero(ZERO_G1)
  {
  }
}
