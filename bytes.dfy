/**
 * Big-endian byte windows of unbounded integers.
 *
 * The telemetry codec turns a scaled integer into a group of 2, 3 or 4 bytes,
 * most significant first, by shifting it right and narrowing each result to
 * eight bits, and turns a group back into an integer by shifting an
 * accumulator left and adding the next byte. This module defines both
 * directions on mathematical integers and proves that they are inverse on the
 * window of `w` bytes: splitting keeps exactly `aux mod 256^w`, and joining
 * reads a byte group as an unsigned number.
 */
module Bytes {

  /** An unsigned 8-bit value, the C type `uint8_t`. */
  type Byte = b: int | 0 <= b < 256

  /** 256 to the power `n`, that is 2 to the power `8 * n`. */
  function Pow256(n: nat): (p: int)
    ensures p >= 1
  {
    if n == 0 then 1 else 256 * Pow256(n - 1)
  }

  /**
   * The C expression `(uint8_t)(aux >> (8 * n))` on a two's-complement
   * integer: an arithmetic right shift is a division rounding down, which is
   * what Dafny's `/` does for a positive divisor, and narrowing to `uint8_t`
   * keeps the remainder modulo 256, which Dafny's `%` gives non-negative.
   */
  function ByteAt(aux: int, n: nat): (b: Byte)
    ensures aux % Pow256(n + 1) == b * Pow256(n) + aux % Pow256(n)
  {
    ModSplit(aux, Pow256(n));
    (aux / Pow256(n)) % 256
  }

  /**
   * The `w` low-order bytes of `aux`, most significant first: the last byte
   * is `aux mod 256` and the others are the split of `aux` shifted right by
   * eight bits.
   */
  function SplitBE(aux: int, w: nat): (bs: seq<Byte>)
    ensures |bs| == w
    decreases w
  {
    if w == 0 then [] else SplitBE(aux / 256, w - 1) + [aux % 256]
  }

  /**
   * Big-endian concatenation of a byte group into a non-negative integer:
   * the accumulator is shifted left by eight bits before each byte is added.
   */
  function JoinBE(bs: seq<Byte>): (n: int)
    ensures 0 <= n < Pow256(|bs|)
  {
    if |bs| == 0 then 0 else JoinBE(bs[..|bs| - 1]) * 256 + bs[|bs| - 1]
  }

  /** Distinct multiples of `b` lie at least `b` apart. */
  lemma MultiplesApart(q: int, q0: int, b: int)
    requires q > q0 && b > 0
    ensures q * b - q0 * b >= b
  {
    var d := q - q0;
    assert q * b - q0 * b == (d - 1) * b + b;
  }

  /** Euclidean division is determined by any quotient and in-range remainder. */
  lemma DivModUnique(a: int, b: int, q: int, r: int)
    requires b > 0 && 0 <= r < b && a == q * b + r
    ensures a / b == q && a % b == r
  {
    var q0, r0 := a / b, a % b;
    assert q * b + r == q0 * b + r0;
    if q > q0 {
      MultiplesApart(q, q0, b);
    } else if q < q0 {
      MultiplesApart(q0, q, b);
    }
  }

  /** The low bits below `256 * p` are the byte just above `p` followed by the bits below `p`. */
  lemma ModSplit(a: int, p: int)
    requires p > 0
    ensures a % (256 * p) == ((a / p) % 256) * p + a % p
  {
    var q, r := a / p, a % p;
    var t, b := q / 256, q % 256;
    assert a == t * (256 * p) + (b * p + r) by {
      assert a == q * p + r;
      assert q == t * 256 + b;
      assert (t * 256 + b) * p == t * (256 * p) + b * p;
    }
    DigitRemainder(a, p, t, b, r);
  }

  /** A digit `b` in base `p` below a multiple of `256 * p` is part of the remainder modulo `256 * p`. */
  lemma DigitRemainder(a: int, p: int, t: int, b: int, r: int)
    requires p > 0 && 0 <= b < 256 && 0 <= r < p
    requires a == t * (256 * p) + (b * p + r)
    ensures a % (256 * p) == b * p + r
  {
    assert 0 <= b * p <= 255 * p by {
      assert (255 - b) * p >= 0;
    }
    DivModUnique(a, 256 * p, t, b * p + r);
  }

  /** Shifting right twice is shifting right by the sum. */
  lemma DivDiv(a: int, b: int, c: int)
    requires b > 0 && c > 0
    ensures (a / b) / c == a / (b * c)
  {
    var q, r := a / (b * c), a % (b * c);
    var r1, r0 := r / b, r % b;
    assert a == (q * c + r1) * b + r0 by {
      assert a == q * (b * c) + r;
      assert r == r1 * b + r0;
    }
    DivModUnique(a, b, q * c + r1, r0);
    assert r1 < c by {
      assert r1 * b <= r < c * b;
    }
    DivModUnique(q * c + r1, c, q, r1);
  }

  /** The low `8 * (n + 1)` bits are the low `8 * n` bits of `a >> 8` followed by the low eight bits of `a`. */
  lemma ModShift(a: int, m: int)
    requires m > 0
    ensures ((a / 256) % m) * 256 + a % 256 == a % (256 * m)
  {
    var q, r0 := a / 256, a % 256;
    var t, s := q / m, q % m;
    assert a == t * (256 * m) + (s * 256 + r0) by {
      assert a == q * 256 + r0;
      assert q == t * m + s;
    }
    assert s * 256 + r0 < 256 * m by {
      assert s <= m - 1;
    }
    DivModUnique(a, 256 * m, t, s * 256 + r0);
  }

  /** Byte `i` of the split is the value shifted right past the bytes after it: what the encoders store. */
  lemma {:induction false} SplitBEAt(aux: int, w: nat, i: nat)
    requires i < w
    ensures SplitBE(aux, w)[i] == ByteAt(aux, w - 1 - i)
    decreases w
  {
    if i < w - 1 {
      SplitBEAt(aux / 256, w - 1, i);
      DivDiv(aux, 256, Pow256(w - 2 - i));
    }
  }

  /** The bytes of a split of width 2 to 4, each as the shifted value the encoders store. */
  lemma SplitBEBytes(aux: int, w: nat)
    requires 2 <= w <= 4
    ensures var s := SplitBE(aux, w);
      s[0] == ByteAt(aux, w - 1) && s[1] == ByteAt(aux, w - 2) &&
      (w >= 3 ==> s[2] == ByteAt(aux, w - 3)) && (w == 4 ==> s[3] == ByteAt(aux, 0))
  {
    SplitBEAt(aux, w, 0);
    SplitBEAt(aux, w, 1);
    if w >= 3 {
      SplitBEAt(aux, w, 2);
    }
    if w == 4 {
      SplitBEAt(aux, w, 3);
    }
  }

  /** Joining a split recovers the integer modulo `256^w`: the window keeps exactly the low bits. */
  lemma {:induction false} JoinSplit(aux: int, w: nat)
    ensures JoinBE(SplitBE(aux, w)) == aux % Pow256(w)
    decreases w
  {
    if w > 0 {
      var s := SplitBE(aux, w);
      assert s[..w - 1] == SplitBE(aux / 256, w - 1);
      JoinSplit(aux / 256, w - 1);
      ModShift(aux, Pow256(w - 1));
    }
  }

  /** Splitting a joined group at its own width gives the group back. */
  lemma {:induction false} SplitJoin(bs: seq<Byte>)
    ensures SplitBE(JoinBE(bs), |bs|) == bs
  {
    if |bs| > 0 {
      var n := |bs|;
      var init := bs[..n - 1];
      DivModUnique(JoinBE(bs), 256, JoinBE(init), bs[n - 1]);
      SplitJoin(init);
      assert bs == init + [bs[n - 1]];
    }
  }

  /** Every integer in `[0, 256^w)` survives a split and a join unchanged. */
  lemma InWindowRoundTrip(aux: int, w: nat)
    requires 0 <= aux < Pow256(w)
    ensures JoinBE(SplitBE(aux, w)) == aux
  {
    JoinSplit(aux, w);
    DivModUnique(aux, Pow256(w), 0, aux);
  }

  /** Two integers have the same `w`-byte split exactly when they agree modulo `256^w`. */
  lemma SplitBEInjective(a: int, b: int, w: nat)
    ensures SplitBE(a, w) == SplitBE(b, w) <==> a % Pow256(w) == b % Pow256(w)
  {
    JoinSplit(a, w);
    JoinSplit(b, w);
    if a % Pow256(w) == b % Pow256(w) {
      SplitJoin(SplitBE(a, w));
      SplitJoin(SplitBE(b, w));
    }
  }
}
