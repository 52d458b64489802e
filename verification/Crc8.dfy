/** Bit-serial shift registers over any state type: a state, a step taking one message bit, and
    what holds of a whole message when it holds of every step. */
module ShiftRegister {

  type bits = seq<bool>

  function Zeros(n: nat): (r: bits)
    ensures |r| == n && forall i :: 0 <= i < n ==> !r[i]
  {
    seq(n, _ => false)
  }

  /** Sum of two polynomials over GF(2) of equal width. */
  function Sum(a: bits, b: bits): (r: bits)
    requires |a| == |b|
    ensures |r| == |a|
  {
    seq(|a|, i requires 0 <= i < |a| => a[i] != b[i])
  }

  predicate OddNumberSet(m: bits) {
    m != [] && OddNumberSet(m[..|m| - 1]) != m[|m| - 1]
  }

  /** Some bit is set, and every set bit lies in the eight positions from `s` on. */
  predicate Burst(m: bits, s: nat) {
    && s + 8 <= |m|
    && (exists i :: 0 <= i < |m| && m[i])
    && (forall i :: 0 <= i < |m| && m[i] ==> s <= i < s + 8)
  }

  /** The register after the message bits `m`. */
  function Fold<R>(step: (R, bool) -> R, r: R, m: bits): R {
    if m == [] then r else step(Fold(step, r, m[..|m| - 1]), m[|m| - 1])
  }

  lemma {:induction false} FoldAppend<R>(step: (R, bool) -> R, r: R, a: bits, b: bits)
    ensures Fold(step, r, a + b) == Fold(step, Fold(step, r, a), b)
  {
    if b == [] {
      assert a + b == a;
    } else {
      var n := |b| - 1;
      assert (a + b)[..|a + b| - 1] == a + b[..n];
      FoldAppend(step, r, a, b[..n]);
    }
  }

  lemma {:induction false} FoldLinear<R(!new)>(step: (R, bool) -> R, plus: (R, R) -> R, a: R, b: R, m: bits, e: bits)
    requires |m| == |e|
    requires forall p, q, x, y :: step(plus(p, q), x != y) == plus(step(p, x), step(q, y))
    ensures Fold(step, plus(a, b), Sum(m, e)) == plus(Fold(step, a, m), Fold(step, b, e))
  {
    if m != [] {
      var n := |m| - 1;
      FoldLinear(step, plus, a, b, m[..n], e[..n]);
      assert Sum(m, e)[..n] == Sum(m[..n], e[..n]);
    }
  }

  lemma {:induction false} FoldParity<R(!new)>(step: (R, bool) -> R, odd: R -> bool, r: R, m: bits)
    requires forall p, x :: odd(step(p, x)) == (odd(p) != x)
    ensures odd(Fold(step, r, m)) == (odd(r) != OddNumberSet(m))
  {
    if m != [] {
      FoldParity(step, odd, r, m[..|m| - 1]);
    }
  }

  /** Clear bits neither leave nor reach the zero state. */
  lemma {:induction false} FoldQuiet<R(!new)>(step: (R, bool) -> R, zero: R, r: R, m: bits)
    requires forall p :: step(p, false) == zero <==> p == zero
    requires forall i :: 0 <= i < |m| ==> !m[i]
    ensures Fold(step, r, m) == zero <==> r == zero
  {
    if m != [] {
      FoldQuiet(step, zero, r, m[..|m| - 1]);
    }
  }

  /** If eight bits, not all clear, always leave a non-zero register, then so does any longer
      message whose set bits span at most eight positions. */
  lemma {:induction false} FoldBurst<R(!new)>(step: (R, bool) -> R, zero: R, m: bits, s: nat)
    requires forall p :: step(p, false) == zero <==> p == zero
    requires Burst(m, s)
    requires Fold(step, zero, m[s..s + 8]) != zero
    ensures Fold(step, zero, m) != zero
  {
    var w := m[s..s + 8];
    assert m == m[..s] + w + m[s + 8..];
    FoldAppend(step, zero, m[..s] + w, m[s + 8..]);
    FoldAppend(step, zero, m[..s], w);
    FoldQuiet(step, zero, zero, m[..s]);
    FoldQuiet(step, zero, Fold(step, zero, w), m[s + 8..]);
  }

  function Ups<R>(up: R -> R, v: R, k: nat): R {
    if k == 0 then v else up(Ups(up, v, k - 1))
  }

  /** The top bits a state shows when shifted up `k` times, and the state left over. */
  function Tops<R>(top: R -> bool, up: R -> R, v: R, k: nat): (r: bits)
    ensures |r| == k
  {
    if k == 0 then [] else Tops(top, up, v, k - 1) + [top(Ups(up, v, k - 1))]
  }

  lemma {:induction false} FoldMore<R>(step: (R, bool) -> R, r: R, m: bits, x: bool)
    ensures Fold(step, r, m + [x]) == step(Fold(step, r, m), x)
  {
    assert (m + [x])[..|m|] == m;
  }

  /** Adding a whole state in first and then clocking zeros equals feeding its bits one by one. */
  lemma {:induction false} FoldAhead<R(!new)>(step: (R, bool) -> R, plus: (R, R) -> R, top: R -> bool, up: R -> R,
          r: R, v: R, k: nat)
    requires forall p, q :: step(plus(p, q), false) == plus(step(p, top(q)), up(q))
    ensures Fold(step, plus(r, v), Zeros(k)) == plus(Fold(step, r, Tops(top, up, v, k)), Ups(up, v, k))
  {
    if k > 0 {
      FoldAhead(step, plus, top, up, r, v, k - 1);
      FoldMore(step, plus(r, v), Zeros(k - 1), false);
      assert Zeros(k) == Zeros(k - 1) + [false];
      FoldMore(step, r, Tops(top, up, v, k - 1), top(Ups(up, v, k - 1)));
    }
  }
}

/** The SHT35's CRC-8 (polynomial x^8 + x^5 + x^4 + 1, initial value 0xFF): what the nested
    loops of `_crc8` compute, and which corruptions of a protected word the check catches.

    A byte is an `octet`, that is a `bv8`.  The source keeps the register in an unbounded int and masks it with
    0xFF after every shift; a `bv8` shift drops the same bits. */
module Crc8 {
  import opened ShiftRegister

  type octet = bv8

  const POLYNOMIAL: octet := 0x31
  const INITIAL: octet := 0xFF

  /** Bit `i` of a byte, counting from the most significant. */
  function Bit(v: octet, i: nat): bool
    requires i < 8
  {
    if i == 0 then v & 0x80 != 0 else if i == 1 then v & 0x40 != 0
    else if i == 2 then v & 0x20 != 0 else if i == 3 then v & 0x10 != 0
    else if i == 4 then v & 0x08 != 0 else if i == 5 then v & 0x04 != 0
    else if i == 6 then v & 0x02 != 0 else v & 0x01 != 0
  }

  function BitsOf(v: octet): (r: bits)
    ensures |r| == 8 && forall i :: 0 <= i < 8 ==> r[i] == Bit(v, i)
  {
    seq(8, i requires 0 <= i < 8 => Bit(v, i))
  }

  /** All message bits in transmission order. */
  function MessageBits(data: seq<octet>): (r: bits)
    ensures |r| == 8 * |data|
  {
    if data == [] then [] else MessageBits(data[..|data| - 1]) + BitsOf(data[|data| - 1])
  }

  // ---------------------------------------------------------------------------------------
  // The bit-serial register
  // ---------------------------------------------------------------------------------------

  function Shifted(r: octet, reduce: bool): octet {
    if reduce then (r << 1) ^ POLYNOMIAL else r << 1
  }

  /** One clock with message bit `b`: shift up, and add the polynomial when the bit that leaves,
      plus `b`, is set. */
  function Clock(r: octet, b: bool): octet {
    Shifted(r, (r & 0x80 != 0) != b)
  }

  function Register(init: octet, m: bits): octet {
    Fold(Clock, init, m)
  }

  /** The checksum `_crc8` is for: the register after all message bits. */
  function Checksum(data: seq<octet>): octet {
    Register(INITIAL, MessageBits(data))
  }

  /** What `_verify_word_crc` accepts, for a word of any length: the last byte is the checksum of
      the bytes before it. */
  predicate Passes(word: seq<octet>)
    requires |word| >= 1
  {
    Checksum(word[..|word| - 1]) == word[|word| - 1]
  }

  // ---------------------------------------------------------------------------------------
  // Single steps, bit by bit
  // ---------------------------------------------------------------------------------------

  function Xor(a: octet, b: octet): octet { a ^ b }

  function Top(v: octet): bool { v & 0x80 != 0 }

  function Up(v: octet): octet { v << 1 }

  function OddByte(v: octet): bool {
    ((Bit(v, 0) != Bit(v, 1)) != (Bit(v, 2) != Bit(v, 3))) != ((Bit(v, 4) != Bit(v, 5)) != (Bit(v, 6) != Bit(v, 7)))
  }

  lemma {:induction false} ClockMasks(r: octet, b: bool)
    ensures var (c, top) := (Clock(r, b), (r & 0x80 != 0) != b);
            && (c & 0x80 != 0) == (r & 0x40 != 0) && (c & 0x40 != 0) == (r & 0x20 != 0)
            && (c & 0x20 != 0) == ((r & 0x10 != 0) != top) && (c & 0x10 != 0) == ((r & 0x08 != 0) != top)
            && (c & 0x08 != 0) == (r & 0x04 != 0) && (c & 0x04 != 0) == (r & 0x02 != 0)
            && (c & 0x02 != 0) == (r & 0x01 != 0) && (c & 0x01 != 0) == top
  {
  }

  /** x^8 + x^5 + x^4 + 1, highest power first. */
  const GENERATOR: bits := [true, false, false, true, true, false, false, false, true]

  lemma {:induction false} ClockBits(r: octet, b: bool, i: nat)
    requires i < 8
    ensures Bit(Clock(r, b), i) == ((i < 7 && Bit(r, i + 1)) != ((Bit(r, 0) != b) && GENERATOR[i + 1]))
  {
    ClockMasks(r, b);
    assert GENERATOR[1] == GENERATOR[2] == GENERATOR[5] == GENERATOR[6] == GENERATOR[7] == false;
    assert GENERATOR[3] && GENERATOR[4] && GENERATOR[8];
  }

  lemma {:induction false} ShiftedLinear(a: octet, b: octet, s: bool, t: bool)
    ensures Shifted(a ^ b, s != t) == Shifted(a, s) ^ Shifted(b, t)
  {
    if s {
      if t {} else {}
    } else {
      if t {} else {}
    }
  }

  lemma {:induction false} TopXor(a: octet, b: octet)
    ensures ((a ^ b) & 0x80 != 0) == ((a & 0x80 != 0) != (b & 0x80 != 0))
  {
  }

  lemma {:induction false} ClockLinear(a: octet, b: octet, x: bool, y: bool)
    ensures Clock(a ^ b, x != y) == Clock(a, x) ^ Clock(b, y)
  {
    TopXor(a, b);
    ShiftedLinear(a, b, (a & 0x80 != 0) != x, (b & 0x80 != 0) != y);
  }

  lemma {:induction false} ClockAhead(r: octet, v: octet)
    ensures Clock(r ^ v, false) == Clock(r, Top(v)) ^ Up(v)
  {
    TopXor(r, v);
    if r & 0x80 != 0 {
      if v & 0x80 != 0 {} else {}
    } else {
      if v & 0x80 != 0 {} else {}
    }
  }

  lemma {:induction false} ClockParity(r: octet, b: bool)
    ensures OddByte(Clock(r, b)) == (OddByte(r) != b)
  {
  }

  lemma {:induction false} ClockZero(r: octet)
    ensures Clock(r, false) == 0 <==> r == 0
  {
  }

  lemma {:induction false} XorIsZero(a: octet, b: octet)
    ensures a ^ b == 0 <==> a == b
    ensures 0 ^ b == b && a ^ 0 == a
  {
  }

  // ---------------------------------------------------------------------------------------
  // The register is the remainder of the division by the generator
  // ---------------------------------------------------------------------------------------

  /** q(x) times the generator: schoolbook, one shifted copy of the generator per set bit. */
  function TimesGenerator(q: bits): (r: bits)
    ensures |r| == |q| + 8
  {
    if q == [] then Zeros(8)
    else
      var n := |q| - 1;
      Sum(TimesGenerator(q[..n]) + [false],
          if q[n] then Zeros(n) + GENERATOR else Zeros(n + 9))
  }

  /** The message with the initial value added in front: m(x) * x^8 + init(x) * x^|m|. */
  function Dividend(init: octet, m: bits): (r: bits)
    ensures |r| == |m| + 8
  {
    Sum(m + Zeros(8), BitsOf(init) + Zeros(|m|))
  }

  /** Coefficient `i` of q * generator + r, with r in the eight lowest places. */
  function QuotientAndRemainder(q: bits, r: octet, i: nat): bool
    requires i < |q| + 8
  {
    TimesGenerator(q)[i] != (i >= |q| && Bit(r, i - |q|))
  }

  /** One more message bit multiplies the dividend by x and adds the bit times x^8. */
  lemma {:induction false} DividendStep(init: octet, m: bits, i: nat)
    requires m != [] && i < |m| + 8
    ensures var n := |m| - 1;
            Dividend(init, m)[i] == ((i < n + 8 && Dividend(init, m[..n])[i]) != (i == n && m[n]))
  {
  }

  lemma {:induction false} TimesGeneratorStep(q0: bits, top: bool, i: nat)
    requires i < |q0| + 9
    ensures TimesGenerator(q0 + [top])[i] ==
            ((i < |q0| + 8 && TimesGenerator(q0)[i]) != (i >= |q0| && top && GENERATOR[i - |q0|]))
  {
    assert (q0 + [top])[..|q0|] == q0;
  }

  /** The nine lowest coefficients: x * r + b * x^8 equals the clocked register plus `top` times
      the generator. */
  lemma {:induction false} RemainderTail(r: octet, b: bool, j: nat)
    requires j < 9
    ensures ((j < 8 && Bit(r, j)) != (j == 0 && b)) ==
            ((j > 0 && Bit(Clock(r, b), j - 1)) != ((Bit(r, 0) != b) && GENERATOR[j]))
  {
    if j > 0 {
      ClockBits(r, b, j - 1);
    }
  }

  lemma {:induction false} RemainderStep(init: octet, m: bits, q0: bits, r0: octet, i: nat)
    requires m != [] && i < |m| + 8 && |q0| == |m| - 1
    requires i < |m| + 7 ==> Dividend(init, m[..|m| - 1])[i] == QuotientAndRemainder(q0, r0, i)
    ensures Dividend(init, m)[i] ==
            QuotientAndRemainder(q0 + [Bit(r0, 0) != m[|m| - 1]], Clock(r0, m[|m| - 1]), i)
  {
    var n := |m| - 1;
    DividendStep(init, m, i);
    TimesGeneratorStep(q0, Bit(r0, 0) != m[n], i);
    if i >= n {
      RemainderTail(r0, m[n], i - n);
    }
  }

  lemma {:induction false} Quotient(init: octet, m: bits) returns (q: bits)
    ensures |q| == |m|
    ensures forall i :: 0 <= i < |m| + 8 ==> Dividend(init, m)[i] == QuotientAndRemainder(q, Register(init, m), i)
  {
    if m == [] {
      q := [];
    } else {
      var n := |m| - 1;
      var q0 := Quotient(init, m[..n]);
      q := q0 + [Bit(Register(init, m[..n]), 0) != m[n]];
      forall i | 0 <= i < |m| + 8
        ensures Dividend(init, m)[i] == QuotientAndRemainder(q, Register(init, m), i)
      {
        RemainderStep(init, m, q0, Register(init, m[..n]), i);
      }
    }
  }

  /** The message, shifted up eight places and started with `init`, is a multiple of the generator
      plus the register: the register is the remainder. */
  lemma {:induction false} RegisterIsRemainder(init: octet, m: bits)
    ensures exists q: bits :: |q| == |m| &&
              Dividend(init, m) == Sum(TimesGenerator(q), Zeros(|m|) + BitsOf(Register(init, m)))
  {
    var q := Quotient(init, m);
    var r := Register(init, m);
    forall i | 0 <= i < |m| + 8
      ensures Dividend(init, m)[i] == Sum(TimesGenerator(q), Zeros(|m|) + BitsOf(r))[i]
    {
      assert Dividend(init, m)[i] == QuotientAndRemainder(q, r, i);
    }
    assert Dividend(init, m) == Sum(TimesGenerator(q), Zeros(|m|) + BitsOf(r));
  }

  // ---------------------------------------------------------------------------------------
  // The byte-wise loop of the source computes the same register
  // ---------------------------------------------------------------------------------------

  lemma {:induction false} UpBit(v: octet, i: nat)
    requires i < 8
    ensures Bit(Up(v), i) == (i < 7 && Bit(v, i + 1))
  {
  }

  /** `k` shifts bring bit `k + i` to place `i`. */
  lemma {:induction false} UpsBit(v: octet, k: nat, i: nat)
    requires i < 8
    ensures Bit(Ups(Up, v, k), i) == (k + i < 8 && Bit(v, k + i))
  {
    if k > 0 {
      UpBit(Ups(Up, v, k - 1), i);
      if i < 7 {
        UpsBit(v, k - 1, i + 1);
      }
    }
  }

  lemma {:induction false} TakeOneMore(w: bits, k: nat)
    requires k < |w|
    ensures w[..k + 1] == w[..k] + [w[k]]
  {
  }

  lemma {:induction false} TopsBits(v: octet, k: nat)
    requires k <= 8
    ensures Tops(Top, Up, v, k) == BitsOf(v)[..k]
  {
    if k > 0 {
      TopsBits(v, k - 1);
      UpsBit(v, k - 1, 0);
      assert Top(Ups(Up, v, k - 1)) == Bit(Ups(Up, v, k - 1), 0) == Bit(v, k - 1);
      TakeOneMore(BitsOf(v), k - 1);
    }
  }

  lemma {:induction false} NoBitsIsZero(v: octet)
    requires forall i: nat | i < 8 :: !Bit(v, i)
    ensures v == 0
  {
    assert !Bit(v, 0) && !Bit(v, 1) && !Bit(v, 2) && !Bit(v, 3) && !Bit(v, 4) && !Bit(v, 5) && !Bit(v, 6) && !Bit(v, 7);
  }

  /** XORing a whole byte in first and clocking eight zeros equals feeding the byte's bits. */
  lemma {:induction false} ByteStep(r: octet, v: octet)
    ensures Register(r, BitsOf(v)) == Register(r ^ v, Zeros(8))
  {
    forall p: octet, q: octet ensures Clock(Xor(p, q), false) == Xor(Clock(p, Top(q)), Up(q)) {
      ClockAhead(p, q);
    }
    FoldAhead(Clock, Xor, Top, Up, r, v, 8);
    TopsBits(v, 8);
    assert BitsOf(v)[..8] == BitsOf(v);
    forall i: nat | i < 8 ensures !Bit(Ups(Up, v, 8), i) {
      UpsBit(v, 8, i);
    }
    NoBitsIsZero(Ups(Up, v, 8));
    XorIsZero(Register(r, BitsOf(v)), 0);
  }

  lemma {:induction false} ChecksumStep(data: seq<octet>)
    requires data != []
    ensures Checksum(data) == Register(Checksum(data[..|data| - 1]) ^ data[|data| - 1], Zeros(8))
  {
    var n := |data| - 1;
    FoldAppend(Clock, INITIAL, MessageBits(data[..n]), BitsOf(data[n]));
    ByteStep(Checksum(data[..n]), data[n]);
  }

  lemma {:induction false} ZerosStep(r: octet, k: nat)
    ensures Register(r, Zeros(k + 1)) == Clock(Register(r, Zeros(k)), false)
  {
    assert Zeros(k + 1)[..k] == Zeros(k);
  }

  /** The inner loop of `_crc8`. */
  method ClockEight(start: octet) returns (crc: octet)
    ensures crc == Register(start, Zeros(8))
  {
    crc := start;
    for k := 0 to 8
      invariant crc == Register(start, Zeros(k))
    {
      ZerosStep(start, k);
      if crc & 0x80 != 0 {
        crc := (crc << 1) ^ POLYNOMIAL;
      } else {
        crc := crc << 1;
      }
    }
  }

  /** `_crc8(data, offset, length)`. */
  method Crc8(data: array<octet>, offset: nat, length: nat) returns (crc: octet)
    requires offset + length <= data.Length
    ensures crc == Checksum(data[offset..offset + length])
  {
    crc := INITIAL;
    for index := offset to offset + length
      invariant crc == Checksum(data[offset..index])
    {
      crc := ClockEight(crc ^ data[index]);
      assert data[offset..index + 1][..index - offset] == data[offset..index];
      ChecksumStep(data[offset..index + 1]);
    }
  }

  /** `_verify_word_crc`: two data bytes at `offset`, their CRC right behind them.  The result is
      false where the source raises. */
  method VerifyWordCrc(data: array<octet>, offset: nat) returns (ok: bool)
    requires offset + 2 < data.Length
    ensures ok == Passes(data[offset..offset + 3])
  {
    var expected := data[offset + 2];
    var calculated := Crc8(data, offset, 2);
    ok := calculated == expected;
    assert data[offset..offset + 3][..2] == data[offset..offset + 2];
  }

  // ---------------------------------------------------------------------------------------
  // Which corruptions the check catches, for words of any length
  // ---------------------------------------------------------------------------------------

  /** The word as received when the bits set in `e` were flipped on the wire. */
  function Corrupted(word: seq<octet>, e: seq<octet>): (r: seq<octet>)
    requires |word| == |e|
    ensures |r| == |word|
  {
    seq(|word|, i requires 0 <= i < |word| => word[i] ^ e[i])
  }

  lemma {:induction false} XorMasks(a: octet, b: octet)
    ensures ((a ^ b) & 0x80 != 0) == ((a & 0x80 != 0) != (b & 0x80 != 0))
    ensures ((a ^ b) & 0x40 != 0) == ((a & 0x40 != 0) != (b & 0x40 != 0))
    ensures ((a ^ b) & 0x20 != 0) == ((a & 0x20 != 0) != (b & 0x20 != 0))
    ensures ((a ^ b) & 0x10 != 0) == ((a & 0x10 != 0) != (b & 0x10 != 0))
    ensures ((a ^ b) & 0x08 != 0) == ((a & 0x08 != 0) != (b & 0x08 != 0))
    ensures ((a ^ b) & 0x04 != 0) == ((a & 0x04 != 0) != (b & 0x04 != 0))
    ensures ((a ^ b) & 0x02 != 0) == ((a & 0x02 != 0) != (b & 0x02 != 0))
    ensures ((a ^ b) & 0x01 != 0) == ((a & 0x01 != 0) != (b & 0x01 != 0))
  {
  }

  lemma {:induction false} BitXor(a: octet, b: octet, i: nat)
    requires i < 8
    ensures Bit(a ^ b, i) == (Bit(a, i) != Bit(b, i))
  {
    XorMasks(a, b);
    if i == 0 {} else if i == 1 {} else if i == 2 {} else if i == 3 {} else if i == 4 {} else if i == 5 {} else if i == 6 {} else {}
  }

  lemma {:induction false} CorruptedByte(v: octet, e: octet)
    ensures BitsOf(v ^ e) == Sum(BitsOf(v), BitsOf(e))
  {
    forall i: nat | i < 8 ensures Bit(v ^ e, i) == (Bit(v, i) != Bit(e, i)) {
      BitXor(v, e, i);
    }
  }

  lemma {:induction false} SumAppend(a: bits, b: bits, c: bits, d: bits)
    requires |a| == |b| && |c| == |d|
    ensures Sum(a + c, b + d) == Sum(a, b) + Sum(c, d)
  {
  }

  lemma {:induction false} CorruptedBits(word: seq<octet>, e: seq<octet>)
    requires |word| == |e|
    ensures MessageBits(Corrupted(word, e)) == Sum(MessageBits(word), MessageBits(e))
  {
    if word != [] {
      var n := |word| - 1;
      CorruptedBits(word[..n], e[..n]);
      assert Corrupted(word, e)[..n] == Corrupted(word[..n], e[..n]);
      CorruptedByte(word[n], e[n]);
      SumAppend(MessageBits(word[..n]), MessageBits(e[..n]), BitsOf(word[n]), BitsOf(e[n]));
    }
  }

  lemma {:induction false} ZeroesKeepZero(r: octet, m: bits)
    requires forall i :: 0 <= i < |m| ==> !m[i]
    ensures Register(r, m) == 0 <==> r == 0
  {
    forall p: octet ensures Clock(p, false) == 0 <==> p == 0 {
      ClockZero(p);
    }
    FoldQuiet(Clock, 0, r, m);
  }

  /** A word passes exactly when the register, run over all of it, ends at zero. */
  lemma {:induction false} PassesIffRegisterZero(word: seq<octet>)
    requires |word| >= 1
    ensures Passes(word) <==> Register(INITIAL, MessageBits(word)) == 0
  {
    var n := |word| - 1;
    var c := Checksum(word[..n]);
    assert Register(INITIAL, MessageBits(word)) == Register(c ^ word[n], Zeros(8)) by {
      FoldAppend(Clock, INITIAL, MessageBits(word[..n]), BitsOf(word[n]));
      ByteStep(c, word[n]);
    }
    XorIsZero(c, word[n]);
    ZeroesKeepZero(c ^ word[n], Zeros(8));
  }

  /** Whether a corruption of a good word goes unnoticed depends on the error pattern alone. */
  lemma {:induction false} Undetected(word: seq<octet>, e: seq<octet>)
    requires |word| == |e| >= 1 && Passes(word)
    ensures Passes(Corrupted(word, e)) <==> Register(0, MessageBits(e)) == 0
  {
    PassesIffRegisterZero(word);
    PassesIffRegisterZero(Corrupted(word, e));
    CorruptedBits(word, e);
    forall p: octet, q: octet, x, y ensures Clock(Xor(p, q), x != y) == Xor(Clock(p, x), Clock(q, y)) {
      ClockLinear(p, q, x, y);
    }
    FoldLinear(Clock, Xor, INITIAL, 0, MessageBits(word), MessageBits(e));
    XorIsZero(INITIAL, Register(0, MessageBits(e)));
  }

  /** Any odd number of flipped bits, in a word of any length, is detected: the generator has an
      even number of terms, so the register carries the parity of its input. */
  lemma {:induction false} OddErrorsDetected(word: seq<octet>, e: seq<octet>)
    requires |word| == |e| >= 1 && Passes(word)
    requires OddNumberSet(MessageBits(e))
    ensures !Passes(Corrupted(word, e))
  {
    Undetected(word, e);
    forall p: octet, x ensures OddByte(Clock(p, x)) == (OddByte(p) != x) {
      ClockParity(p, x);
    }
    FoldParity(Clock, OddByte, 0, MessageBits(e));
  }

  function ByteOf(w: bits): octet
    requires |w| == 8
  {
    (if w[0] then 0x80 else 0) | (if w[1] then 0x40 else 0) | (if w[2] then 0x20 else 0) | (if w[3] then 0x10 else 0) |
    (if w[4] then 0x08 else 0) | (if w[5] then 0x04 else 0) | (if w[6] then 0x02 else 0) | (if w[7] then 0x01 else 0)
  }

  lemma {:induction false} ByteOfBits(w: bits)
    requires |w| == 8
    ensures BitsOf(ByteOf(w)) == w
  {
  }

  /** Eight input bits, not all clear, leave a non-zero register. */
  lemma {:induction false} EightBitsLeaveNonzero(w: bits)
    requires |w| == 8 && exists i :: 0 <= i < 8 && w[i]
    ensures Register(0, w) != 0
  {
    ByteOfBits(w);
    var v := ByteOf(w);
    var i :| 0 <= i < 8 && w[i];
    assert Bit(v, i);
    ByteStep(0, v);
    XorIsZero(0, v);
    ZeroesKeepZero(v, Zeros(8));
  }

  /** Any error burst of at most eight bits, at any bit position of a word of any length (the CRC
      byte included), is detected. */
  lemma {:induction false} BurstDetected(word: seq<octet>, e: seq<octet>, s: nat)
    requires |word| == |e| >= 1 && Passes(word)
    requires Burst(MessageBits(e), s)
    ensures !Passes(Corrupted(word, e))
  {
    Undetected(word, e);
    var m := MessageBits(e);
    var i :| 0 <= i < |m| && m[i];
    assert m[s..s + 8][i - s];
    EightBitsLeaveNonzero(m[s..s + 8]);
    forall p: octet ensures Clock(p, false) == 0 <==> p == 0 {
      ClockZero(p);
    }
    FoldBurst(Clock, 0, m, s);
  }

  // ---------------------------------------------------------------------------------------
  // What pins the constants
  // ---------------------------------------------------------------------------------------

  lemma {:induction false} QuietBits(data: seq<octet>)
    requires forall i :: 0 <= i < |data| ==> data[i] == 0
    ensures forall i :: 0 <= i < |MessageBits(data)| ==> !MessageBits(data)[i]
  {
    if data != [] {
      QuietBits(data[..|data| - 1]);
    }
  }

  /** The initial value is not zero, so a dead bus, read as zeros, never passes, at any length. */
  lemma {:induction false} ZeroWordFails(word: seq<octet>)
    requires |word| >= 1 && forall i :: 0 <= i < |word| ==> word[i] == 0
    ensures !Passes(word)
  {
    QuietBits(word);
    PassesIffRegisterZero(word);
    ZeroesKeepZero(INITIAL, MessageBits(word));
  }

  /** Eight clocks with clear bits. */
  function ClockedEight(r: octet): octet {
    Clock(Clock(Clock(Clock(Clock(Clock(Clock(Clock(r, false), false), false), false), false), false), false), false)
  }

  lemma {:induction false} EightZeros(r: octet)
    ensures Register(r, Zeros(8)) == ClockedEight(r)
  {
    ZerosStep(r, 0);
    ZerosStep(r, 1);
    ZerosStep(r, 2);
    ZerosStep(r, 3);
    ZerosStep(r, 4);
    ZerosStep(r, 5);
    ZerosStep(r, 6);
    ZerosStep(r, 7);
    assert Zeros(0) == [];
  }

  lemma {:induction false} ChecksumMore(data: seq<octet>, x: octet)
    ensures Checksum(data + [x]) == ClockedEight(Checksum(data) ^ x)
  {
    assert (data + [x])[..|data|] == data;
    ChecksumStep(data + [x]);
    EightZeros(Checksum(data) ^ x);
  }

  /** The validation vector of the datasheet: CRC(0xBE 0xEF) = 0x92. */
  lemma {:induction false} ValidationVector()
    ensures Checksum([0xBE, 0xEF]) == 0x92
  {
    ChecksumMore([], 0xBE);
    ChecksumMore([0xBE], 0xEF);
    assert [] + [0xBE] == [0xBE] && [0xBE] + [0xEF] == [0xBE, 0xEF];
    assert Checksum([]) == INITIAL;
    assert ClockedEight(0x41) == 0x0C;
    assert ClockedEight(0xE3) == 0x92;
  }

  /** The register of one initial value from that of another. */
  lemma {:induction false} RegisterSplit(init: octet, m: bits)
    ensures Register(init, m) == Register(INITIAL, m) ^ Register(init ^ INITIAL, Zeros(|m|))
  {
    forall p: octet, q: octet, x, y ensures Clock(Xor(p, q), x != y) == Xor(Clock(p, x), Clock(q, y)) {
      ClockLinear(p, q, x, y);
    }
    FoldLinear(Clock, Xor, INITIAL, init ^ INITIAL, m, Zeros(|m|));
    assert Sum(m, Zeros(|m|)) == m;
    assert Xor(INITIAL, init ^ INITIAL) == init;
  }

  lemma {:induction false} XorKeeps(a: octet, d: octet)
    ensures a ^ d == a <==> d == 0
  {
  }

  /** And no other initial value gives it. */
  lemma {:induction false} VectorPinsInitial(init: octet)
    ensures Register(init, MessageBits([0xBE, 0xEF])) == 0x92 <==> init == 0xFF
  {
    var m := MessageBits([0xBE, 0xEF]);
    var d := Register(init ^ INITIAL, Zeros(|m|));
    ValidationVector();
    RegisterSplit(init, m);
    ZeroesKeepZero(init ^ INITIAL, Zeros(|m|));
    XorIsZero(init, INITIAL);
    XorKeeps(0x92, d);
  }
}
