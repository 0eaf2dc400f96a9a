/**
 * Variable-length quantities (`readVariableLengthValue`): big-endian groups of
 * seven bits, the high bit of each byte saying that another byte follows.
 * The accumulator is the decoder's `(value << 7) | (byte & 0x7F)`, a signed
 * 32-bit operation, so quantities longer than four bytes wrap around.
 */
module VariableLength {
  import opened Wrappers
  import opened MidiBytes

  /** Does this byte read ask for another byte (`byte & 0x80`)? `undefined` does not. */
  predicate Continues(b: Option<Byte>)
  {
    b.Some? && b.value >= 0x80
  }

  /**
   * `(value << 7) | (byte & 0x7F)`: the low seven bits of the shifted value
   * are zero, so the OR adds; the result is reduced by ToInt32, which leaves
   * it unchanged while `value` is below 2^24.
   */
  function ShiftIn(value: int, b: Option<Byte>): (r: int)
    ensures 0 <= value < 0x100_0000 ==> r == value * 128 + Low7(b)
    ensures r == Int32(value * 128 + Low7(b))
  {
    var x := value * 128 + Low7(b);
    if 0 <= value < 0x100_0000 then x else Int32(x)
  }

  /**
   * The rest of a quantity whose reading has reached `pos` with accumulator
   * `acc`; the result is the value and the position after the last byte read.
   */
  function VlqFrom(buf: seq<Byte>, pos: int, acc: int): (r: (int, int))
    ensures pos < r.1
    decreases |buf| - pos
  {
    var b := At(buf, pos);
    var value := ShiftIn(acc, b);
    if Continues(b) then VlqFrom(buf, pos + 1, value) else (value, pos + 1)
  }

  /** The quantity at `p`: its value and the position after it. */
  function Vlq(buf: seq<Byte>, p: int): (r: (int, int))
    ensures p < r.1
  {
    VlqFrom(buf, p, 0)
  }

  /** A byte below 0x80 is a whole quantity by itself. */
  lemma VlqOneByte(buf: seq<Byte>, p: nat)
    requires p < |buf| && buf[p] < 0x80
    ensures Vlq(buf, p) == (buf[p], p + 1)
  {
  }

  lemma {:induction false} VlqFromShape(buf: seq<Byte>, pos: int, acc: int)
    ensures forall i :: pos <= i < VlqFrom(buf, pos, acc).1 - 1 ==> Continues(At(buf, i))
    ensures !Continues(At(buf, VlqFrom(buf, pos, acc).1 - 1))
    decreases |buf| - pos
  {
    var value := ShiftIn(acc, At(buf, pos));
    if Continues(At(buf, pos)) {
      VlqFromShape(buf, pos + 1, value);
    }
  }

  /**
   * A quantity consumes every byte up to and including the first whose high
   * bit is clear, or one position past the end of the buffer.
   */
  lemma VlqShape(buf: seq<Byte>, p: int)
    ensures forall i :: p <= i < Vlq(buf, p).1 - 1 ==> Continues(At(buf, i))
    ensures !Continues(At(buf, Vlq(buf, p).1 - 1))
  {
    VlqFromShape(buf, p, 0);
  }

  /** The decoder's do-while loop over the bytes of one quantity. */
  method ReadVariableLengthValue(buf: seq<Byte>, pointer: int) returns (value: int, newPointer: int)
    ensures (value, newPointer) == Vlq(buf, pointer)
  {
    value, newPointer := 0, pointer;
    while true
      invariant VlqFrom(buf, newPointer, value) == Vlq(buf, pointer)
      decreases |buf| - newPointer
    {
      var b := At(buf, newPointer);
      newPointer := newPointer + 1;
      value := ShiftIn(value, b);
      if !Continues(b) {
        return;
      }
    }
  }

  /** A quantity read where two buffers agree has the same value and the same length. */
  lemma {:induction false} VlqFromAgree(b1: seq<Byte>, pos1: int, b2: seq<Byte>, pos2: int, acc: int)
    requires Agree(b1, pos1, b2, pos2)
    ensures VlqFrom(b2, pos2, acc) == (VlqFrom(b1, pos1, acc).0, VlqFrom(b1, pos1, acc).1 + (pos2 - pos1))
    decreases |b1| - pos1
  {
    AgreeAt(b1, pos1, b2, pos2, pos1);
    var value := ShiftIn(acc, At(b1, pos1));
    if Continues(At(b1, pos1)) {
      AgreeLater(b1, pos1, b2, pos2, pos1 + 1, pos2 + 1);
      VlqFromAgree(b1, pos1 + 1, b2, pos2 + 1, value);
    }
  }

  /** A quantity that ends inside `a` reads the same whatever follows `a`. */
  lemma {:induction false} VlqFromPrefix(a: seq<Byte>, x: seq<Byte>, pos: int, acc: int)
    requires 0 <= pos && VlqFrom(a, pos, acc).1 <= |a|
    ensures VlqFrom(a + x, pos, acc) == VlqFrom(a, pos, acc)
    decreases |a| - pos
  {
    assert At(a + x, pos) == At(a, pos);
    var value := ShiftIn(acc, At(a, pos));
    if Continues(At(a, pos)) {
      VlqFromPrefix(a, x, pos + 1, value);
    }
  }

  /** Reading past the end of the buffer yields 0 and consumes one position. */
  lemma VlqPastEnd(buf: seq<Byte>, p: int)
    requires p >= |buf| || p < 0
    ensures Vlq(buf, p) == (0, p + 1)
  {
  }

  function Pow128(k: nat): (r: nat)
    ensures r >= 1
  {
    if k == 0 then 1 else 128 * Pow128(k - 1)
  }

  /** The big-endian base-128 number formed by the low seven bits of `ds`. */
  function Base128(ds: seq<Byte>): (r: nat)
    ensures r < Pow128(|ds|)
    decreases |ds|
  {
    if ds == [] then 0 else Base128(ds[..|ds| - 1]) * 128 + ds[|ds| - 1] % 128
  }

  /** A well-formed quantity of one to four bytes. */
  predicate WellFormedAt(buf: seq<Byte>, p: int, k: nat)
  {
    && 1 <= k <= 4 && 0 <= p && p + k <= |buf|
    && (forall i :: p <= i < p + k - 1 ==> buf[i] >= 0x80)
    && buf[p + k - 1] < 0x80
  }

  lemma {:induction false} VlqGroupsFrom(buf: seq<Byte>, p: int, k: nat, i: nat)
    requires WellFormedAt(buf, p, k) && i < k
    ensures VlqFrom(buf, p + i, Base128(buf[p..p + i])) == (Base128(buf[p..p + k]), p + k)
    decreases k - i
  {
    var acc := Base128(buf[p..p + i]);
    assert Pow128(i) <= Pow128(3) == 0x20_0000 by { PowMonotone(i, 3); }
    assert buf[p..p + i + 1][..i] == buf[p..p + i];
    assert ShiftIn(acc, At(buf, p + i)) == Base128(buf[p..p + i + 1]);
    if i + 1 < k {
      VlqGroupsFrom(buf, p, k, i + 1);
    }
  }

  lemma {:induction false} PowMonotone(i: nat, j: nat)
    requires i <= j
    ensures Pow128(i) <= Pow128(j)
    decreases j
  {
    if i < j {
      PowMonotone(i, j - 1);
    }
  }

  /**
   * A well-formed quantity of one to four bytes decodes to the base-128
   * number of its seven-bit groups, below 2^28, and is consumed exactly.
   */
  lemma VlqWellFormed(buf: seq<Byte>, p: int, k: nat)
    requires WellFormedAt(buf, p, k)
    ensures Vlq(buf, p) == (Base128(buf[p..p + k]), p + k)
    ensures Vlq(buf, p).0 < 0x1000_0000
  {
    assert buf[p..p + 0] == [];
    VlqGroupsFrom(buf, p, k, 0);
    PowMonotone(k, 4);
  }

  lemma {:induction false} VlqShortFrom(buf: seq<Byte>, p: int, i: nat, acc: int)
    requires 0 <= acc < Pow128(i)
    requires VlqFrom(buf, p + i, acc).1 <= p + 4
    ensures 0 <= VlqFrom(buf, p + i, acc).0 < 0x1000_0000
    decreases 4 - i
  {
    var b := At(buf, p + i);
    assert i < 4;
    PowMonotone(i, 3);
    PowMonotone(i + 1, 4);
    var value := ShiftIn(acc, b);
    if Continues(b) {
      VlqShortFrom(buf, p, i + 1, value);
    }
  }

  /**
   * Any quantity that ends within four positions (well-formed, or cut short by
   * the end of the buffer) is a non-negative value below 2^28: no wrap-around.
   */
  lemma VlqShortIsNonNegative(buf: seq<Byte>, p: int)
    requires Vlq(buf, p).1 <= p + 4
    ensures 0 <= Vlq(buf, p).0 < 0x1000_0000
  {
    VlqShortFrom(buf, p, 0, 0);
  }

  /** Bytes with the continuation bit set carrying the base-128 digits of `m` (none for 0). */
  function LeadingGroups(m: nat): (gs: seq<Byte>)
    decreases m
  {
    if m == 0 then [] else LeadingGroups(m / 128) + [m % 128 + 128]
  }

  lemma {:induction false} LeadingGroupsDigits(m: nat)
    ensures forall i :: 0 <= i < |LeadingGroups(m)| ==> LeadingGroups(m)[i] >= 0x80
    ensures Base128(LeadingGroups(m)) == m
    decreases m
  {
    if m != 0 {
      var lg := LeadingGroups(m / 128);
      LeadingGroupsDigits(m / 128);
      var gs := lg + [m % 128 + 128];
      assert LeadingGroups(m) == gs;
      assert gs[..|gs| - 1] == lg;
      assert (m % 128 + 128) % 128 == m % 128;
      assert Base128(gs) == Base128(lg) * 128 + m % 128;
      forall i | 0 <= i < |gs| ensures gs[i] >= 0x80 {
        if i < |lg| {
          assert gs[i] == lg[i];
        }
      }
    }
  }

  lemma LeadingGroupsLength(m: nat)
    ensures m < 0x20_0000 ==> |LeadingGroups(m)| <= 3
  {
    if m < 0x20_0000 {
      assert m / 128 < 0x4000;
      assert m / 128 / 128 < 0x80;
      assert m / 128 / 128 / 128 == 0;
      assert |LeadingGroups(m / 128 / 128 / 128)| == 0;
      assert |LeadingGroups(m / 128 / 128)| <= 1;
      assert |LeadingGroups(m / 128)| <= 2;
    }
  }

  /** The quantity encoding of `n`, the inverse of Vlq for values below 2^28. */
  function EncodeVlq(n: nat): (e: seq<Byte>)
    requires n < 0x1000_0000
    ensures 1 <= |e| <= 4
    ensures WellFormedAt(e, 0, |e|)
    ensures Base128(e) == n
  {
    LeadingGroupsDigits(n / 128);
    LeadingGroupsLength(n / 128);
    var e := LeadingGroups(n / 128) + [n % 128];
    assert e[..|e| - 1] == LeadingGroups(n / 128);
    e
  }

  /** Decoding an encoded quantity gives back the value and consumes exactly its bytes. */
  lemma VlqRoundTrip(pre: seq<Byte>, n: nat, post: seq<Byte>)
    requires n < 0x1000_0000
    ensures Vlq(pre + EncodeVlq(n) + post, |pre|) == (n, |pre| + |EncodeVlq(n)|)
  {
    var e := EncodeVlq(n);
    var buf := pre + e + post;
    var p, k := |pre|, |e|;
    assert buf[p..p + k] == e;
    assert WellFormedAt(buf, p, k) by {
      forall i | p <= i < p + k - 1 ensures buf[i] >= 0x80 {
        assert buf[i] == e[i - p];
      }
      assert buf[p + k - 1] == e[k - 1];
    }
    VlqWellFormed(buf, p, k);
  }

  /** The boundary values of the Standard MIDI Files specification encode to their well-known bytes. */
  lemma VlqBoundaryEncodings()
    ensures EncodeVlq(0) == [0x00]
    ensures EncodeVlq(127) == [0x7F]
    ensures EncodeVlq(128) == [0x81, 0x00]
    ensures EncodeVlq(16383) == [0xFF, 0x7F]
    ensures EncodeVlq(16384) == [0x81, 0x80, 0x00]
    ensures EncodeVlq(0x0FFF_FFFF) == [0xFF, 0xFF, 0xFF, 0x7F]
  {
    assert EncodeVlq(0) == [0x00] by {}
    assert EncodeVlq(127) == [0x7F] by {}
    assert EncodeVlq(128) == [0x81, 0x00] by {}
    assert EncodeVlq(16383) == [0xFF, 0x7F] by {}
    assert EncodeVlq(16384) == [0x81, 0x80, 0x00] by {}
    assert EncodeVlq(0x0FFF_FFFF) == [0xFF, 0xFF, 0xFF, 0x7F] by {}
  }

  /** ... and those bytes decode back to the boundary values. */
  lemma VlqBoundaryDecodings()
    ensures Vlq([0x00], 0) == (0, 1)
    ensures Vlq([0x7F], 0) == (127, 1)
    ensures Vlq([0x81, 0x00], 0) == (128, 2)
    ensures Vlq([0xFF, 0x7F], 0) == (16383, 2)
    ensures Vlq([0x81, 0x80, 0x00], 0) == (16384, 3)
    ensures Vlq([0xFF, 0xFF, 0xFF, 0x7F], 0) == (0x0FFF_FFFF, 4)
  {
    assert Vlq([0x00], 0) == (0, 1) by {}
    assert Vlq([0x7F], 0) == (127, 1) by {}
    assert Vlq([0x81, 0x00], 0) == (128, 2) by {}
    assert Vlq([0xFF, 0x7F], 0) == (16383, 2) by {}
    assert Vlq([0x81, 0x80, 0x00], 0) == (16384, 3) by {}
    assert Vlq([0xFF, 0xFF, 0xFF, 0x7F], 0) == (0x0FFF_FFFF, 4) by {}
  }
}
