/**
  KMAC256 as the payload layer frames it: the encodings of NIST SP 800-185, sections 2.3.1 to 2.3.3,
  and section 4. The sponge is a function value; only what is fed to it is modelled.
 */
module Kmac {
  import opened Wrappers
  import opened OmemoTypes

  const U64: nat := 0x1_0000_0000_0000_0000
  /** Keccak rate of cSHAKE256, the width the encoded key is padded to. */
  const KMAC256_RATE: nat := 136

  type u64 = n: nat | n < 0x1_0000_0000_0000_0000

  // ---- integers as bytes ------------------------------------------------

  /** `value` in exactly `n` bytes, most significant first (`to_be_bytes`). */
  function BigEndian(value: nat, n: nat): (r: Bytes)
    ensures |r| == n
  {
    if n == 0 then [] else BigEndian(value / 256, n - 1) + [value % 256]
  }

  function ValueOf(bytes: Bytes): nat {
    if bytes == [] then 0 else ValueOf(bytes[..|bytes| - 1]) * 256 + bytes[|bytes| - 1]
  }

  /** The shortest big-endian form; zero takes one byte. */
  function Shortest(value: nat): (r: Bytes)
    ensures |r| >= 1
  {
    if value < 256 then [value] else Shortest(value / 256) + [value % 256]
  }

  function Power256(n: nat): nat {
    if n == 0 then 1 else 256 * Power256(n - 1)
  }

  lemma {:induction false} ShortestDecodes(value: nat)
    ensures ValueOf(Shortest(value)) == value
  {
    if value < 256 {
      assert [value][..0] == [];
    } else {
      ShortestDecodes(value / 256);
      var r := Shortest(value);
      assert r[..|r| - 1] == Shortest(value / 256);
    }
  }

  lemma {:induction false} ShortestSize(value: nat, n: nat)
    requires n >= 1 && value < Power256(n)
    ensures |Shortest(value)| <= n
  {
    if value >= 256 {
      assert Power256(1) == 256 * Power256(0);
      ShortestSize(value / 256, n - 1);
    }
  }

  /** Dropping the leading zero bytes of the fixed-size form, but not the last byte, leaves the
      shortest form. */
  lemma {:induction false} SuffixIsShortest(value: nat, n: nat, first: nat)
    requires n >= 1 && value < Power256(n) && first < n
    requires forall i :: 0 <= i < first ==> BigEndian(value, n)[i] == 0
    requires first == n - 1 || BigEndian(value, n)[first] != 0
    ensures BigEndian(value, n)[first..] == Shortest(value)
  {
    var r := BigEndian(value, n);
    var front := BigEndian(value / 256, n - 1);
    assert r == front + [value % 256];
    if first == n - 1 {
      ZeroPrefix(value / 256, n - 1);
      assert r[first..] == [value % 256];
    } else {
      assert forall i :: 0 <= i <= first ==> r[i] == front[i];
      if n - 1 == 1 {
        assert Power256(1) == 256 * Power256(0);
      }
      NonZeroByte(value / 256, n - 1, first);
      SuffixIsShortest(value / 256, n - 1, first);
      assert r[first..] == front[first..] + [value % 256];
    }
  }

  lemma {:induction false} ZeroPrefix(value: nat, n: nat)
    requires value < Power256(n)
    requires forall i :: 0 <= i < n ==> BigEndian(value, n)[i] == 0
    ensures value == 0
  {
    if n > 0 {
      var r, front := BigEndian(value, n), BigEndian(value / 256, n - 1);
      assert r == front + [value % 256];
      assert forall i :: 0 <= i < n - 1 ==> front[i] == r[i];
      assert r[n - 1] == value % 256;
      ZeroPrefix(value / 256, n - 1);
    }
  }

  lemma {:induction false} NonZeroByte(value: nat, n: nat, i: nat)
    requires i < n && BigEndian(value, n)[i] != 0
    ensures value != 0
  {
    if value == 0 {
      var front := BigEndian(0, n - 1);
      assert BigEndian(0, n) == front + [0];
      if i < n - 1 { NonZeroByte(0, n - 1, i); }
    }
  }

  lemma U64IsEightBytes()
    ensures Power256(8) == U64
  {
    assert Power256(2) == 0x1_0000;
    assert Power256(4) == 0x1_0000_0000;
    assert Power256(6) == 0x1_0000_0000_0000;
  }

  // ---- the SP 800-185 encodings ----------------------------------------

  lemma ShortestOfU64(value: u64)
    ensures |Shortest(value)| <= 8
  {
    U64IsEightBytes();
    ShortestSize(value, 8);
  }

  function LeftEncoding(value: u64): (r: Bytes)
    ensures |r| <= 9
  {
    ShortestOfU64(value);
    [|Shortest(value)|] + Shortest(value)
  }

  function RightEncoding(value: u64): (r: Bytes)
    ensures |r| <= 9
  {
    ShortestOfU64(value);
    Shortest(value) + [|Shortest(value)|]
  }

  /** The bit length of `s` fits the 64-bit counter the code computes it in. */
  predicate BitLengthFits(n: nat) {
    n * 8 < U64
  }

  function StringEncoding(s: Bytes): Bytes
    requires BitLengthFits(|s|)
  {
    LeftEncoding(|s| * 8) + s
  }

  function Zeros(n: nat): (r: Bytes)
    ensures |r| == n
  {
    seq(n, _ => 0)
  }

  /** The smallest multiple of `w` that is at least `n`. */
  function RoundUp(n: nat, w: nat): nat
    requires w > 0
  {
    (n + w - 1) / w * w
  }

  ghost predicate MultipleOf(m: nat, w: nat) {
    exists q: nat :: m == q * w
  }

  lemma RoundUpIsLeast(n: nat, w: nat)
    requires w > 0
    ensures MultipleOf(RoundUp(n, w), w) && n <= RoundUp(n, w) < n + w
  {
    var m := n + w - 1;
    assert m == m / w * w + m % w;
  }

  function Padded(x: Bytes, w: u64): (r: Bytes)
    requires w > 0
  {
    var z := LeftEncoding(w) + x;
    RoundUpIsLeast(|z|, w);
    z + Zeros(RoundUp(|z|, w) - |z|)
  }

  lemma PaddedParts(x: Bytes, w: u64)
    requires w > 0
    ensures var z, n := Padded(x, w), |LeftEncoding(w)| + |x|;
            && n <= |z| < n + w && MultipleOf(|z|, w)
            && z[..n] == LeftEncoding(w) + x
            && forall i :: n <= i < |z| ==> z[i] == 0
  {
    RoundUpIsLeast(|LeftEncoding(w)| + |x|, w);
  }

  /** What KMAC256 feeds to cSHAKE256, for an output of `outLen` bytes. */
  function KmacInput(key: Bytes, data: Bytes, outLen: nat): Bytes
    requires BitLengthFits(|key|) && BitLengthFits(outLen)
  {
    Padded(StringEncoding(key), KMAC256_RATE) + data + RightEncoding(outLen * 8)
  }

  // ---- the encoders, appending to a buffer ------------------------------

  class Buffer {
    var data: Bytes

    constructor ()
      ensures data == []
    {
      data := [];
    }

    method Push(b: byte)
      modifies this
      ensures data == old(data) + [b]
    {
      data := data + [b];
    }

    method Extend(more: Bytes)
      modifies this
      ensures data == old(data) + more
    {
      data := data + more;
    }
  }

  /** Index of the first significant byte of the 8-byte form; 7 if there is none. */
  method FirstSignificant(value: u64) returns (first: nat)
    ensures first <= 7 && BigEndian(value, 8)[first..] == Shortest(value)
  {
    var bytes := BigEndian(value, 8);
    first := 0;
    while first < 7 && bytes[first] == 0
      invariant first <= 7
      invariant forall i :: 0 <= i < first ==> bytes[i] == 0
    {
      first := first + 1;
    }
    U64IsEightBytes();
    SuffixIsShortest(value, 8, first);
  }

  method LeftEncode(value: u64, out: Buffer)
    modifies out
    ensures out.data == old(out.data) + LeftEncoding(value)
  {
    var bytes := BigEndian(value, 8);
    var first := FirstSignificant(value);
    assert |Shortest(value)| == 8 - first;
    out.Push(8 - first);
    out.Extend(bytes[first..]);
    assert [8 - first] + bytes[first..] == LeftEncoding(value);
  }

  method RightEncode(value: u64, out: Buffer)
    modifies out
    ensures out.data == old(out.data) + RightEncoding(value)
  {
    var bytes := BigEndian(value, 8);
    var first := FirstSignificant(value);
    assert |Shortest(value)| == 8 - first;
    out.Extend(bytes[first..]);
    out.Push(8 - first);
    assert bytes[first..] + [8 - first] == RightEncoding(value);
  }

  method EncodeString(s: Bytes, out: Buffer)
    requires BitLengthFits(|s|)
    modifies out
    ensures out.data == old(out.data) + StringEncoding(s)
  {
    LeftEncode(|s| * 8, out);
    out.Extend(s);
  }

  method Bytepad(x: Bytes, w: u64) returns (z: Bytes)
    requires w > 0
    ensures z == Padded(x, w)
    ensures var n := |LeftEncoding(w)| + |x|;
            && n <= |z| < n + w && MultipleOf(|z|, w)
            && z[..n] == LeftEncoding(w) + x
            && forall i :: n <= i < |z| ==> z[i] == 0
  {
    var prefix := new Buffer();
    LeftEncode(w, prefix);
    var paddedLen := RoundUp(|prefix.data| + |x|, w);
    RoundUpIsLeast(|prefix.data| + |x|, w);
    z := prefix.data + x;
    z := z + Zeros(paddedLen - |z|);
    PaddedParts(x, w);
  }

  /** `cshake(input, length, customization)` is cSHAKE256 with the function name "KMAC". */
  method Kmac256(cshake: (Bytes, nat, string) -> Bytes, key: Bytes, data: Bytes, customization: string, outLen: nat)
    returns (out: Bytes)
    requires BitLengthFits(|key|) && BitLengthFits(outLen)
    ensures out == cshake(KmacInput(key, data, outLen), outLen, customization)
  {
    var encoded := new Buffer();
    EncodeString(key, encoded);
    var padded := Bytepad(encoded.data, KMAC256_RATE);
    assert encoded.data == StringEncoding(key);
    var absorbed := padded + data;
    var tail := new Buffer();
    RightEncode(outLen * 8, tail);
    assert tail.data == RightEncoding(outLen * 8);
    absorbed := absorbed + tail.data;
    out := cshake(absorbed, outLen, customization);
  }

  // ---- unambiguity ------------------------------------------------------

  lemma ShortestIsInjective(a: nat, b: nat)
    requires Shortest(a) == Shortest(b)
    ensures a == b
  {
    ShortestDecodes(a);
    ShortestDecodes(b);
  }

  /** No left encoding is a proper prefix of another: a reader knows where it ends. */
  lemma LeftEncodingIsPrefixFree(a: u64, b: u64, x: Bytes, y: Bytes)
    requires LeftEncoding(a) + x == LeftEncoding(b) + y
    ensures a == b && x == y
  {
    var l, r := LeftEncoding(a) + x, LeftEncoding(b) + y;
    assert l[0] == |Shortest(a)| && r[0] == |Shortest(b)|;
    assert l[1..1 + l[0]] == Shortest(a) && r[1..1 + r[0]] == Shortest(b);
    ShortestIsInjective(a, b);
    assert x == l[1 + l[0]..] && y == r[1 + r[0]..];
  }

  /** No right encoding is a proper suffix of another: a reader going backwards knows where it starts. */
  lemma RightEncodingIsSuffixFree(a: u64, b: u64, x: Bytes, y: Bytes)
    requires x + RightEncoding(a) == y + RightEncoding(b)
    ensures a == b && x == y
  {
    var l, r := x + RightEncoding(a), y + RightEncoding(b);
    var n := |l| - 1;
    assert l[n] == |Shortest(a)| && r[n] == |Shortest(b)|;
    assert l[n - l[n]..n] == Shortest(a) && r[n - r[n]..n] == Shortest(b);
    ShortestIsInjective(a, b);
    assert x == l[..n - l[n]] && y == r[..n - r[n]];
  }

  /** The padded key cannot run into what follows it. */
  lemma PaddedKeyIsPrefixFree(k1: Bytes, k2: Bytes, x: Bytes, y: Bytes)
    requires BitLengthFits(|k1|) && BitLengthFits(|k2|)
    requires Padded(StringEncoding(k1), KMAC256_RATE) + x == Padded(StringEncoding(k2), KMAC256_RATE) + y
    ensures k1 == k2 && x == y
  {
    var p1, p2 := Padded(StringEncoding(k1), KMAC256_RATE), Padded(StringEncoding(k2), KMAC256_RATE);
    var w := LeftEncoding(KMAC256_RATE);
    var n1 := |w| + |StringEncoding(k1)|;
    var n2 := |w| + |StringEncoding(k2)|;
    var z1, z2 := p1[n1..], p2[n2..];
    assert p1 + x == w + (LeftEncoding(|k1| * 8) + (k1 + z1 + x));
    assert p2 + y == w + (LeftEncoding(|k2| * 8) + (k2 + z2 + y));
    LeftEncodingIsPrefixFree(KMAC256_RATE, KMAC256_RATE,
      LeftEncoding(|k1| * 8) + (k1 + z1 + x), LeftEncoding(|k2| * 8) + (k2 + z2 + y));
    LeftEncodingIsPrefixFree(|k1| * 8, |k2| * 8, k1 + z1 + x, k2 + z2 + y);
    assert |k1| == |k2|;
    assert k1 == (k1 + z1 + x)[..|k1|] && k2 == (k2 + z2 + y)[..|k2|];
    assert |p1| == |p2|;
    assert x == (p1 + x)[|p1|..] && y == (p2 + y)[|p2|..];
  }

  /** Main result: key, data and output length can be read back from the framed input. */
  lemma KmacInputIsInjective(k1: Bytes, d1: Bytes, n1: nat, k2: Bytes, d2: Bytes, n2: nat)
    requires BitLengthFits(|k1|) && BitLengthFits(n1) && BitLengthFits(|k2|) && BitLengthFits(n2)
    requires KmacInput(k1, d1, n1) == KmacInput(k2, d2, n2)
    ensures k1 == k2 && d1 == d2 && n1 == n2
  {
    var p1, p2 := Padded(StringEncoding(k1), KMAC256_RATE), Padded(StringEncoding(k2), KMAC256_RATE);
    RightEncodingIsSuffixFree(n1 * 8, n2 * 8, p1 + d1, p2 + d2);
    PaddedKeyIsPrefixFree(k1, k2, d1, d2);
  }

  // ---- reading the frame back --------------------------------------------

  /** A length byte, then a number in so many bytes; and what follows. */
  function ReadLeft(x: Bytes): Option<(nat, Bytes)> {
    if x == [] || |x| <= x[0] then None
    else
      var n: nat := x[0];
      Some((ValueOf(x[1..1 + n]), x[1 + n..]))
  }

  /** What comes before, and a number in as many bytes as the last byte says. */
  function ReadRight(x: Bytes): Option<(Bytes, nat)> {
    if x == [] || |x| <= x[|x| - 1] then None
    else
      var n := |x| - 1 - x[|x| - 1];
      Some((x[..n], ValueOf(x[n..|x| - 1])))
  }

  predicate AllZero(x: Bytes) {
    forall i :: 0 <= i < |x| ==> x[i] == 0
  }

  /** A frame as the standard describes it: a width, a string with its length in bits, zero bytes up to
      the next multiple of the width, data, and a length in bits. */
  function Unframed(x: Bytes): Option<(nat, Bytes, Bytes, nat)> {
    match ReadLeft(x)
    case None => None
    case Some((w, rest)) =>
      match ReadLeft(rest)
      case None => None
      case Some((bits, more)) =>
        var end := |x| - |more| + bits / 8;
        if w == 0 || bits % 8 != 0 || |more| < bits / 8 then None
        else
          var filled := (end + w - 1) / w * w;
          if |x| < filled || filled < end || !AllZero(x[end..filled]) then None
          else
            match ReadRight(x[filled..])
            case None => None
            case Some((data, outBits)) => if outBits % 8 != 0 then None else Some((w, more[..bits / 8], data, outBits / 8))
  }

  lemma LeftIsRead(value: u64, rest: Bytes)
    ensures ReadLeft(LeftEncoding(value) + rest) == Some((value, rest))
  {
    var x := LeftEncoding(value) + rest;
    ShortestDecodes(value);
    assert x[0] == |Shortest(value)|;
    assert x[1..1 + x[0]] == Shortest(value) && x[1 + x[0]..] == rest;
  }

  lemma RightIsRead(before: Bytes, value: u64)
    ensures ReadRight(before + RightEncoding(value)) == Some((before, value))
  {
    var x := before + RightEncoding(value);
    ShortestDecodes(value);
    assert x[|x| - 1] == |Shortest(value)|;
    assert x[..|before|] == before && x[|before|..|x| - 1] == Shortest(value);
  }

  lemma KmacInputParts(key: Bytes, data: Bytes, outLen: nat) returns (n: nat, end: nat)
    requires BitLengthFits(|key|) && BitLengthFits(outLen)
    ensures var x := KmacInput(key, data, outLen);
            && n == |LeftEncoding(KMAC256_RATE)| + |LeftEncoding(|key| * 8)| + |key| <= end <= |x|
            && x == LeftEncoding(KMAC256_RATE) + (LeftEncoding(|key| * 8) + (key + x[n..]))
            && MultipleOf(end, KMAC256_RATE) && end < n + KMAC256_RATE
            && AllZero(x[n..end]) && x[end..] == data + RightEncoding(outLen * 8)
  {
    hide LeftEncoding, RightEncoding, Padded;
    var w, l := LeftEncoding(KMAC256_RATE), LeftEncoding(|key| * 8);
    var padded, tail := Padded(StringEncoding(key), KMAC256_RATE), data + RightEncoding(outLen * 8);
    PaddedParts(StringEncoding(key), KMAC256_RATE);
    n, end := |w| + |l| + |key|, |padded|;
    var x := KmacInput(key, data, outLen);
    assert x == padded + tail;
    assert x[..n] == w + (l + key) && x == x[..n] + x[n..];
  }

  /** Main result: what the sponge gets is a frame of the standard that reads back as the rate, the key,
      the data and the output length, each byte of it accounted for. */
  lemma KmacInputIsAFrame(key: Bytes, data: Bytes, outLen: nat)
    requires BitLengthFits(|key|) && BitLengthFits(outLen)
    ensures Unframed(KmacInput(key, data, outLen)) == Some((KMAC256_RATE, key, data, outLen))
  {
    hide LeftEncoding, RightEncoding, ReadLeft, ReadRight, KmacInput, AllZero;
    var x := KmacInput(key, data, outLen);
    var n, end := KmacInputParts(key, data, outLen);
    var more := key + x[n..];
    LeftIsRead(KMAC256_RATE, LeftEncoding(|key| * 8) + more);
    LeftIsRead(|key| * 8, more);
    RoundUpIsUnique(end, n, KMAC256_RATE);
    RightIsRead(data, outLen * 8);
    assert more[..|key|] == key;
  }

  lemma RoundUpIsUnique(m: nat, n: nat, w: nat)
    requires w > 0 && MultipleOf(m, w) && n <= m < n + w
    ensures (n + w - 1) / w * w == m
  {
    RoundUpIsLeast(n, w);
    SameMultiple(m, RoundUp(n, w), n, w);
  }

  lemma SameMultiple(a: nat, b: nat, n: nat, w: nat)
    requires w > 0 && MultipleOf(a, w) && MultipleOf(b, w) && n <= a < n + w && n <= b < n + w
    ensures a == b
  {
    var q: nat :| a == q * w;
    var r: nat :| b == r * w;
    NextMultiple(q, r, w);
    NextMultiple(r, q, w);
  }

  lemma NextMultiple(q: nat, r: nat, w: nat)
    ensures q < r ==> q * w + w <= r * w
  {
    if q < r {
      assert r * w == (q + 1) * w + (r - q - 1) * w;
    }
  }

  /** The frame around a 32-byte key for a 64-byte output, byte by byte: the rate 136 and the key's 256
      bits in front, zero bytes up to 136, and the 512 bits of the output at the end. */
  lemma FrameOfA32ByteKey(key: Bytes, data: Bytes)
    requires |key| == 32
    ensures KmacInput(key, data, 64) == [1, 0x88, 2, 1, 0] + key + seq(99, _ => 0) + data + [2, 0, 2]
  {
    TwoByteNumber(256, 1, 0);
    TwoByteNumber(512, 2, 0);
    assert LeftEncoding(136) == [1, 0x88];
    assert LeftEncoding(256) == [2, 1, 0] && RightEncoding(512) == [2, 0, 2];
    hide LeftEncoding, RightEncoding;
    var z := Padded(StringEncoding(key), KMAC256_RATE);
    PaddedParts(StringEncoding(key), KMAC256_RATE);
    RoundUpIsUnique(136, 37, 136);
    RoundUpIsUnique(|z|, 37, 136);
    assert z == z[..37] + z[37..] && z[37..] == seq(99, _ => 0);
    assert [1, 0x88] + ([2, 1, 0] + key) == [1, 0x88, 2, 1, 0] + key;
  }

  lemma TwoByteNumber(value: nat, high: byte, low: byte)
    requires high > 0 && value == high * 256 + low
    ensures Shortest(value) == [high, low]
  {
    assert value / 256 == high && value % 256 == low;
  }
}
