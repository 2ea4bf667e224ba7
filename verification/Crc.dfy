/** The checksums of the link: CRC-16/CCITT of the RS485 frames and the CRC-32
    of the firmware update packets.

    A register is the sequence of its bits, listed from the end where a step
    shifts in a zero to the end where it shifts a bit out. For the CRC-16 that
    is bit 0 to bit 15; the CRC-32 is computed reflected, so its list runs from
    bit 31 to bit 0. Both are then one shift register with different taps, and
    one proof serves both: an alteration confined to as many adjacent bytes as
    the register is wide always changes the checksum. */
module Crc {

  type Byte = x: int | 0 <= x < 256

  /** `taps` are the positions of the polynomial's bits in register order. */
  datatype Kind = Kind(width: nat, taps: set<nat>, reflected: bool)

  // 0x1021
  const CRC16: Kind := Kind(16, {0, 5, 12}, false)
  // 0xEDB88320: bit 31 - i is set exactly for the taps i
  const CRC32: Kind := Kind(32, {0, 1, 2, 4, 5, 7, 8, 10, 11, 12, 16, 22, 23, 26}, true)

  ghost predicate Proper(k: Kind) {
    0 in k.taps && 8 <= k.width && k.width % 8 == 0
  }

  // ----- bits and bytes -----

  /** The n low bits of x, least significant first. */
  function Bits(n: nat, x: int): (s: seq<bool>)
    ensures |s| == n
  {
    if n == 0 then [] else [x % 2 == 1] + Bits(n - 1, x / 2)
  }

  function Value(s: seq<bool>): (v: nat) {
    if s == [] then 0 else (if s[0] then 1 else 0) + 2 * Value(s[1..])
  }

  lemma {:induction false} ValueOfBits(s: seq<bool>)
    ensures Bits(|s|, Value(s)) == s
  {
    if s != [] {
      ValueOfBits(s[1..]);
      assert Value(s) / 2 == Value(s[1..]);
    }
  }

  lemma BitsOfByte(b: Byte)
    ensures Value(Bits(8, b)) == b
  {
    var b1 := b / 2; var b2 := b1 / 2; var b3 := b2 / 2; var b4 := b3 / 2;
    var b5 := b4 / 2; var b6 := b5 / 2; var b7 := b6 / 2;
    assert b7 / 2 == 0;
    ValueStep(1, b7); ValueStep(2, b6); ValueStep(3, b5); ValueStep(4, b4);
    ValueStep(5, b3); ValueStep(6, b2); ValueStep(7, b1); ValueStep(8, b);
  }

  lemma ValueStep(n: nat, x: int)
    requires n > 0
    ensures Value(Bits(n, x)) == x % 2 + 2 * Value(Bits(n - 1, x / 2))
  {
    assert Bits(n, x)[1..] == Bits(n - 1, x / 2);
  }

  lemma {:induction false} ValueBound(s: seq<bool>, limit: int)
    requires limit == Pow2(|s|)
    ensures Value(s) < limit
  {
    if s != [] {
      ValueBound(s[1..], Pow2(|s| - 1));
    }
  }

  function Pow2(n: nat): nat {
    if n == 0 then 1 else 2 * Pow2(n - 1)
  }

  function ByteOf(s: seq<bool>): Byte
    requires |s| == 8
  {
    ValueBound(s, 256);
    Value(s)
  }

  // ----- the register -----

  function Step(k: Kind, c: seq<bool>): (r: seq<bool>)
    requires |c| == k.width > 0
    ensures |r| == k.width
  {
    seq(k.width, i requires 0 <= i < k.width =>
      (if i == 0 then false else c[i - 1]) != (c[k.width - 1] && i in k.taps))
  }

  function Steps(k: Kind, c: seq<bool>, n: nat): (r: seq<bool>)
    requires |c| == k.width > 0
    ensures |r| == k.width
    decreases n
  {
    if n == 0 then c else Steps(k, Step(k, c), n - 1)
  }

  /** A byte enters at the outgoing end, in the bit order of the register. */
  function Enter(k: Kind, c: seq<bool>, b: Byte): (r: seq<bool>)
    requires |c| == k.width >= 8
    ensures |r| == k.width
  {
    var bits := Bits(8, b);
    seq(k.width, i requires 0 <= i < k.width =>
      var p := i - (k.width - 8);
      if p < 0 then c[i] else c[i] != (if k.reflected then bits[7 - p] else bits[p]))
  }

  function Feed(k: Kind, c: seq<bool>, b: Byte): (r: seq<bool>)
    requires |c| == k.width >= 8
    ensures |r| == k.width
  {
    Steps(k, Enter(k, c, b), 8)
  }

  function Run(k: Kind, c: seq<bool>, data: seq<Byte>): (r: seq<bool>)
    requires |c| == k.width >= 8
    ensures |r| == k.width
    decreases |data|
  {
    if data == [] then c else Run(k, Feed(k, c, data[0]), data[1..])
  }

  function Ones(k: Kind): (r: seq<bool>)
    ensures |r| == k.width
  {
    seq(k.width, _ => true)
  }

  /** The final register read as a number: the reflected kind is complemented. */
  function NumericBits(k: Kind, c: seq<bool>): (s: seq<bool>)
    requires |c| == k.width
    ensures |s| == k.width
  {
    if k.reflected then seq(k.width, i requires 0 <= i < k.width => !c[k.width - 1 - i]) else c
  }

  function PackBits(s: seq<bool>): (bytes: seq<Byte>)
    requires |s| % 8 == 0
    ensures |bytes| == |s| / 8
  {
    if s == [] then [] else [ByteOf(s[..8])] + PackBits(s[8..])
  }

  /** The checksum as it stands at the end of a frame, low byte first. */
  function Checksum(k: Kind, data: seq<Byte>): (bytes: seq<Byte>)
    requires Proper(k)
    ensures |bytes| == k.width / 8
  {
    PackBits(NumericBits(k, Run(k, Ones(k), data)))
  }

  // ----- what a step and a byte remember -----

  ghost predicate AgreeBelow(a: seq<bool>, b: seq<bool>, n: int)
    requires |a| == |b|
  {
    forall i :: 0 <= i < n && i < |a| ==> a[i] == b[i]
  }

  ghost predicate AgreeFrom(a: seq<bool>, b: seq<bool>, n: int)
    requires |a| == |b|
  {
    forall i :: 0 <= i < |a| && n <= i ==> a[i] == b[i]
  }

  /** The bit shifted out is always visible at position 0 of the next register;
      once it is known, everything else can be read back one place further on. */
  lemma StepBack(k: Kind, a: seq<bool>, b: seq<bool>, n: nat)
    requires Proper(k) && |a| == |b| == k.width
    requires 1 <= n <= k.width
    requires AgreeBelow(Step(k, a), Step(k, b), n)
    ensures AgreeBelow(a, b, n - 1)
    ensures a[k.width - 1] == b[k.width - 1]
    ensures forall i :: 0 <= i < k.width - 1 && Step(k, a)[i + 1] == Step(k, b)[i + 1] ==> a[i] == b[i]
  {
    assert Step(k, a)[0] == a[k.width - 1] && Step(k, b)[0] == b[k.width - 1];
    forall i | 0 <= i < k.width - 1 && Step(k, a)[i + 1] == Step(k, b)[i + 1]
      ensures a[i] == b[i]
    {}
    forall i | 0 <= i < n - 1
      ensures a[i] == b[i]
    {
      assert Step(k, a)[i + 1] == Step(k, b)[i + 1];
    }
  }

  lemma {:induction false} StepsBack(k: Kind, a: seq<bool>, b: seq<bool>, steps: nat, n: nat)
    requires Proper(k) && |a| == |b| == k.width
    requires steps <= n <= k.width
    requires AgreeBelow(Steps(k, a, steps), Steps(k, b, steps), n)
    ensures AgreeBelow(a, b, n - steps)
    ensures AgreeFrom(a, b, k.width - steps)
    decreases steps
  {
    if steps > 0 {
      var a', b' := Step(k, a), Step(k, b);
      StepsBack(k, a', b', steps - 1, n);
      StepBack(k, a, b, n - steps + 1);
      forall i | k.width - steps <= i < k.width
        ensures a[i] == b[i]
      {
        if i < k.width - 1 {
          assert a'[i + 1] == b'[i + 1];
        }
      }
    }
  }

  lemma FeedBack(k: Kind, c: seq<bool>, d: seq<bool>, x: Byte, y: Byte, n: nat)
    requires Proper(k) && |c| == |d| == k.width
    requires 8 <= n <= k.width
    requires AgreeBelow(Feed(k, c, x), Feed(k, d, y), n)
    ensures AgreeBelow(c, d, n - 8)
    ensures c == d ==> x == y
    ensures x == y && n == k.width ==> c == d
  {
    var p, q := Enter(k, c, x), Enter(k, d, y);
    StepsBack(k, p, q, 8, n);
    forall i | 0 <= i < n - 8
      ensures c[i] == d[i]
    {
      assert p[i] == q[i];
    }
    if c == d {
      var xs, ys := Bits(8, x), Bits(8, y);
      forall j | 0 <= j < 8
        ensures xs[j] == ys[j]
      {
        var i := k.width - 8 + (if k.reflected then 7 - j else j);
        assert p[i] == q[i];
      }
      assert xs == ys;
      BitsOfByte(x);
      BitsOfByte(y);
    }
    if x == y && n == k.width {
      forall i | 0 <= i < k.width
        ensures c[i] == d[i]
      {
        assert p[i] == q[i];
      }
    }
  }

  lemma {:induction false} RunConcat(k: Kind, c: seq<bool>, a: seq<Byte>, b: seq<Byte>)
    requires |c| == k.width >= 8
    ensures Run(k, c, a + b) == Run(k, Run(k, c, a), b)
    decreases |a|
  {
    if a == [] {
      assert a + b == b;
    } else {
      assert (a + b)[1..] == a[1..] + b;
      RunConcat(k, Feed(k, c, a[0]), a[1..], b);
    }
  }

  lemma {:induction false} RunKeepsApart(k: Kind, c: seq<bool>, d: seq<bool>, s: seq<Byte>)
    requires Proper(k) && |c| == |d| == k.width
    ensures Run(k, c, s) == Run(k, d, s) ==> c == d
    decreases |s|
  {
    if s != [] && Run(k, c, s) == Run(k, d, s) {
      RunKeepsApart(k, Feed(k, c, s[0]), Feed(k, d, s[0]), s[1..]);
      FeedBack(k, c, d, s[0], s[0], k.width);
    }
  }

  /** Equal registers after w and w' must have agreed on all but the last
      8 * |w| positions before. */
  lemma {:induction false} RunBack(k: Kind, c: seq<bool>, d: seq<bool>, w: seq<Byte>, w': seq<Byte>)
    requires Proper(k) && |c| == |d| == k.width
    requires |w| == |w'| && 8 * |w| <= k.width
    ensures Run(k, c, w) == Run(k, d, w') ==> AgreeBelow(c, d, k.width - 8 * |w|)
    decreases |w|
  {
    if w != [] && Run(k, c, w) == Run(k, d, w') {
      RunBack(k, Feed(k, c, w[0]), Feed(k, d, w'[0]), w[1..], w'[1..]);
      FeedBack(k, c, d, w[0], w'[0], k.width - 8 * (|w| - 1));
    }
  }

  lemma {:induction false} RunTellsApart(k: Kind, c: seq<bool>, w: seq<Byte>, w': seq<Byte>)
    requires Proper(k) && |c| == k.width
    requires |w| == |w'| && 8 * |w| <= k.width
    ensures Run(k, c, w) == Run(k, c, w') ==> w == w'
    decreases |w|
  {
    if w != [] && Run(k, c, w) == Run(k, c, w') {
      RunBack(k, Feed(k, c, w[0]), Feed(k, c, w'[0]), w[1..], w'[1..]);
      FeedBack(k, c, c, w[0], w'[0], k.width - 8 * (|w| - 1));
      RunTellsApart(k, Feed(k, c, w[0]), w[1..], w'[1..]);
      assert w == [w[0]] + w[1..] && w' == [w'[0]] + w'[1..];
    }
  }

  lemma {:induction false} PackBitsInjective(s: seq<bool>, t: seq<bool>)
    requires |s| == |t| && |s| % 8 == 0
    requires PackBits(s) == PackBits(t)
    ensures s == t
  {
    if s != [] {
      assert ByteOf(s[..8]) == PackBits(s)[0] == PackBits(t)[0] == ByteOf(t[..8]);
      assert PackBits(s[8..]) == PackBits(s)[1..] == PackBits(t)[1..] == PackBits(t[8..]);
      ValueOfBits(s[..8]);
      ValueOfBits(t[..8]);
      PackBitsInjective(s[8..], t[8..]);
      assert s == s[..8] + s[8..] && t == t[..8] + t[8..];
    }
  }

  /** Equal checksums: equal final registers. */
  lemma ChecksumDeterminesRegister(k: Kind, a: seq<Byte>, b: seq<Byte>)
    requires Proper(k)
    requires Checksum(k, a) == Checksum(k, b)
    ensures Run(k, Ones(k), a) == Run(k, Ones(k), b)
  {
    var c, d := Run(k, Ones(k), a), Run(k, Ones(k), b);
    PackBitsInjective(NumericBits(k, c), NumericBits(k, d));
    forall i | 0 <= i < k.width
      ensures c[i] == d[i]
    {
      var j := if k.reflected then k.width - 1 - i else i;
      assert NumericBits(k, c)[j] == NumericBits(k, d)[j];
    }
  }

  /** Messages of any length that differ, but only within a window of as many
      adjacent bytes as the checksum has, never share their checksum. */
  lemma ChecksumDetectsWindow(k: Kind, prefix: seq<Byte>, w: seq<Byte>, w': seq<Byte>, suffix: seq<Byte>)
    requires Proper(k)
    requires |w| == |w'| && 8 * |w| <= k.width && w != w'
    ensures Checksum(k, prefix + w + suffix) != Checksum(k, prefix + w' + suffix)
  {
    if Checksum(k, prefix + w + suffix) == Checksum(k, prefix + w' + suffix) {
      var start := Ones(k);
      ChecksumDeterminesRegister(k, prefix + w + suffix, prefix + w' + suffix);
      RunConcat(k, start, prefix + w, suffix);
      RunConcat(k, start, prefix + w', suffix);
      RunKeepsApart(k, Run(k, start, prefix + w), Run(k, start, prefix + w'), suffix);
      RunConcat(k, start, prefix, w);
      RunConcat(k, start, prefix, w');
      RunTellsApart(k, Run(k, start, prefix), w, w');
    }
  }
}
