/**
 * Byte-level reads over the decoder's input buffer (a JavaScript
 * `Uint8Array`), and the 32-bit integer conversions that the decoder's
 * bitwise operators perform.
 */
module MidiBytes {
  import opened Wrappers

  type Byte = b: int | 0 <= b < 256

  const TWO_POW_31: int := 0x8000_0000
  const TWO_POW_32: int := 0x1_0000_0000

  /** Indexing a `Uint8Array`: out of range (either side) yields `undefined`. */
  function At(buf: seq<Byte>, i: int): (r: Option<Byte>)
    ensures r.Some? <==> 0 <= i < |buf|
    ensures r.Some? ==> r.value == buf[i]
  {
    if 0 <= i < |buf| then Some(buf[i]) else None
  }

  /** A byte read used as an operand of a bitwise operator: `undefined` becomes 0. */
  function ByteOr0(buf: seq<Byte>, i: int): (r: Byte)
    ensures 0 <= i < |buf| ==> r == buf[i]
    ensures !(0 <= i < |buf|) ==> r == 0
  {
    match At(buf, i)
    case Some(b) => b
    case None => 0
  }

  /** `b & 0x7F` for a byte read that may be `undefined`. */
  function Low7(b: Option<Byte>): (r: int)
    ensures 0 <= r < 128
    ensures b.Some? && b.value < 0x80 ==> r == b.value
    ensures b.None? ==> r == 0
  {
    match b
    case Some(v) => v % 128
    case None => 0
  }

  /**
   * ECMAScript ToInt32: the signed 32-bit integer congruent to `x` modulo
   * 2^32, found by stepping `x` by 2^32 into the signed range.
   */
  function Int32(x: int): (r: int)
    ensures -TWO_POW_31 <= r < TWO_POW_31
    ensures -TWO_POW_31 <= x < TWO_POW_31 ==> r == x
    decreases if x < 0 then -x else x + 1
  {
    if x < -TWO_POW_31 then Int32(x + TWO_POW_32)
    else if x < TWO_POW_31 then x
    else Int32(x - TWO_POW_32)
  }

  /** ToInt32 keeps the value modulo 2^32. */
  lemma {:induction false} Int32Congruent(x: int)
    ensures (x - Int32(x)) % TWO_POW_32 == 0
    decreases if x < 0 then -x else x + 1
  {
    if x < -TWO_POW_31 {
      Int32Congruent(x + TWO_POW_32);
    } else if x >= TWO_POW_31 {
      Int32Congruent(x - TWO_POW_32);
    }
  }

  /** `String.fromCharCode(...bytes)`: one character per byte. */
  function Latin1(bytes: seq<Byte>): (s: string)
    ensures |s| == |bytes|
    ensures forall i :: 0 <= i < |bytes| ==> s[i] as int == bytes[i]
  {
    seq(|bytes|, i requires 0 <= i < |bytes| => bytes[i] as char)
  }

  /** `Uint8Array.prototype.slice(from, to)` for non-negative bounds: clamped to the buffer. */
  function Slice(buf: seq<Byte>, from: nat, to: nat): (r: seq<Byte>)
    ensures from <= to <= |buf| ==> r == buf[from..to]
    ensures |r| < to - from ==> to > |buf|
  {
    var lo := if from < |buf| then from else |buf|;
    var hi := if to < |buf| then to else |buf|;
    if lo < hi then buf[lo..hi] else []
  }

  /** True when the four bytes at `p` are present and spell `tag`. */
  predicate TagAt(buf: seq<Byte>, p: int, tag: string)
    requires |tag| == 4
  {
    forall k :: 0 <= k < 4 ==> At(buf, p + k) == Some(tag[k] as int)
  }

  /** Does the four-byte slice at `p` read as the ASCII string `tag`? */
  function SliceSpells(buf: seq<Byte>, p: nat, tag: string): (ok: bool)
    requires |tag| == 4
    requires forall k :: 0 <= k < 4 ==> tag[k] as int < 256
    ensures ok <==> TagAt(buf, p, tag)
  {
    var s := Slice(buf, p, p + 4);
    var ok := Latin1(s) == tag;
    assert ok ==> |s| == 4 && p + 4 <= |buf| && s == buf[p..p + 4];
    assert ok ==> forall k :: 0 <= k < 4 ==> buf[p + k] == s[k] == tag[k] as int;
    assert TagAt(buf, p, tag) ==> ok by {
      if TagAt(buf, p, tag) {
        assert At(buf, p + 3) == Some(tag[3] as int);
        forall k | 0 <= k < 4 ensures Latin1(s)[k] == tag[k] {
          assert At(buf, p + k) == Some(tag[k] as int);
        }
      }
    }
    ok
  }

  /** `validateHeader`: the first four bytes read as `"MThd"`. */
  function ValidateHeader(buf: seq<Byte>): (ok: bool)
    ensures ok <==> |buf| >= 4 && buf[0] == 0x4D && buf[1] == 0x54 && buf[2] == 0x68 && buf[3] == 0x64
  {
    var ok := SliceSpells(buf, 0, "MThd");
    assert ok ==> At(buf, 3) == Some("MThd"[3] as int);
    ok
  }

  /** `validateTrackHeader`: the four bytes at `p` read as `"MTrk"`. */
  function ValidateTrackHeader(buf: seq<Byte>, p: nat): (ok: bool)
    ensures ok <==> p + 4 <= |buf| && buf[p] == 0x4D && buf[p + 1] == 0x54 && buf[p + 2] == 0x72 && buf[p + 3] == 0x6B
  {
    var ok := SliceSpells(buf, p, "MTrk");
    var tag := "MTrk";
    assert ok ==> At(buf, p) == Some(tag[0] as int) && At(buf, p + 1) == Some(tag[1] as int)
                  && At(buf, p + 2) == Some(tag[2] as int) && At(buf, p + 3) == Some(tag[3] as int);
    ok
  }

  /**
   * `read32BitValue`: `(b0 << 24 | b1 << 16 | b2 << 8 | b3) >>> 0`. The shift
   * of `b0` is a signed 32-bit result (ToInt32); the other shifted bytes occupy
   * disjoint bit ranges, so the ORs add; `>>> 0` reduces modulo 2^32.
   */
  function Read32BitValue(buf: seq<Byte>, p: int): (r: nat)
    ensures r < TWO_POW_32
    ensures r == ByteOr0(buf, p) * 0x100_0000 + ByteOr0(buf, p + 1) * 0x1_0000
                 + ByteOr0(buf, p + 2) * 0x100 + ByteOr0(buf, p + 3)
  {
    var b0, b1, b2, b3 := ByteOr0(buf, p), ByteOr0(buf, p + 1), ByteOr0(buf, p + 2), ByteOr0(buf, p + 3);
    var high := Int32(b0 * 0x100_0000);
    assert high == if b0 < 128 then b0 * 0x100_0000 else b0 * 0x100_0000 - TWO_POW_32;
    (high + b1 * 0x1_0000 + b2 * 0x100 + b3) % TWO_POW_32
  }

  /** The four big-endian bytes of an unsigned 32-bit value (the inverse of Read32BitValue). */
  function BigEndian32(n: nat): (bytes: seq<Byte>)
    requires n < TWO_POW_32
    ensures |bytes| == 4
  {
    var q1 := n / 0x100;
    var q2 := q1 / 0x100;
    [q2 / 0x100, q2 % 0x100, q1 % 0x100, n % 0x100]
  }

  lemma Read32RoundTrip(pre: seq<Byte>, n: nat, post: seq<Byte>)
    requires n < TWO_POW_32
    ensures Read32BitValue(pre + BigEndian32(n) + post, |pre|) == n
  {
    var buf := pre + BigEndian32(n) + post;
    var p := |pre|;
    var q1 := n / 0x100;
    var q2 := q1 / 0x100;
    assert buf[p] == q2 / 0x100 && buf[p + 1] == q2 % 0x100;
    assert buf[p + 2] == q1 % 0x100 && buf[p + 3] == n % 0x100;
    assert n == ((q2 / 0x100 * 0x100 + q2 % 0x100) * 0x100 + q1 % 0x100) * 0x100 + n % 0x100;
  }

  /** The read at `j` in `b1` sees what the read at `j + d` in `b2` sees. */
  predicate SameRead(b1: seq<Byte>, b2: seq<Byte>, d: int, j: int)
  {
    At(b1, j) == At(b2, j + d)
  }

  /**
   * Two buffers agree from `n1` and `n2` on: every read at or after `n1` in
   * `b1` sees what the read at the same distance after `n2` sees in `b2`.
   */
  ghost predicate Agree(b1: seq<Byte>, n1: int, b2: seq<Byte>, n2: int)
  {
    ReadsShifted(b1, n1, b2, n2 - n1)
  }

  /** Every read at or after `n1` in `b1` sees what the read `d` positions later in `b2` sees. */
  ghost predicate ReadsShifted(b1: seq<Byte>, n1: int, b2: seq<Byte>, d: int)
  {
    forall j :: n1 <= j ==> SameRead(b1, b2, d, j)
  }

  lemma AgreeAt(b1: seq<Byte>, n1: int, b2: seq<Byte>, n2: int, j: int)
    requires Agree(b1, n1, b2, n2) && n1 <= j
    ensures At(b1, j) == At(b2, j + (n2 - n1))
  {
    assert SameRead(b1, b2, n2 - n1, j);
  }

  lemma AgreeLater(b1: seq<Byte>, n1: int, b2: seq<Byte>, n2: int, m1: int, m2: int)
    requires Agree(b1, n1, b2, n2) && n1 <= m1 && m2 - m1 == n2 - n1
    ensures Agree(b1, m1, b2, m2)
  {
  }
}
