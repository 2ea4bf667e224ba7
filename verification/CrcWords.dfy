/** The checksums as the program computes them, with a number for the register,
    proved to be those of the bit register of module Crc. */
module CrcWords {
  import opened Crc

  // ----- numbers and their bits -----

  /** (a ^ b) & (2 ** n - 1). */
  function MaskedXor(n: nat, a: nat, b: nat): (x: nat)
    ensures Bits(n, x) == XorBits(Bits(n, a), Bits(n, b))
  {
    ValueOfBits(XorBits(Bits(n, a), Bits(n, b)));
    Value(XorBits(Bits(n, a), Bits(n, b)))
  }

  function XorBits(s: seq<bool>, t: seq<bool>): (r: seq<bool>)
    requires |s| == |t|
    ensures |r| == |s| && forall i :: 0 <= i < |r| ==> r[i] == (s[i] != t[i])
  {
    seq(|s|, i requires 0 <= i < |s| => s[i] != t[i])
  }

  lemma XorBound(n: nat, a: nat, b: nat, limit: int)
    requires limit == Pow2(n)
    ensures MaskedXor(n, a, b) < limit
  {
    ValueBound(XorBits(Bits(n, a), Bits(n, b)), limit);
  }

  /** The top bit tells whether a number reaches the upper half. */
  lemma {:induction false} TopBit(n: nat, x: int, half: int)
    requires half == Pow2(n) && 0 <= x < 2 * half
    ensures Bits(n + 1, x)[n] <==> x >= half
  {
    if n > 0 {
      TopBit(n - 1, x / 2, Pow2(n - 1));
    }
  }

  lemma {:induction false} BitsPrefix(n: nat, m: nat, x: int)
    requires m <= n
    ensures Bits(n, x)[..m] == Bits(m, x)
  {
    if m > 0 {
      BitsPrefix(n - 1, m - 1, x / 2);
    }
  }

  lemma BitsDouble(n: nat, x: int)
    requires n > 0
    ensures Bits(n, 2 * x) == [false] + Bits(n - 1, x)
  {
    assert 2 * x / 2 == x;
  }

  /** Doubling a number moves its bits up one place. */
  lemma DoubledBit(n: nat, x: int, i: nat)
    requires i < n
    ensures Bits(n, 2 * x)[i] == if i == 0 then false else Bits(n, x)[i - 1]
  {
    BitsDouble(n, x);
    BitsPrefix(n, n - 1, x);
    assert i > 0 ==> Bits(n, x)[..n - 1][i - 1] == Bits(n, x)[i - 1];
  }

  /** Halving it moves them down one place. */
  lemma HalvedBit(n: nat, x: int, limit: int, i: nat)
    requires i < n && limit == Pow2(n) && 0 <= x < limit
    ensures Bits(n, x / 2)[i] == if i == n - 1 then false else Bits(n, x)[i + 1]
  {
    if i < n - 1 {
      LowestBit(n, x, i + 1);
      LowBit(n, n - 1, x / 2, i);
    } else {
      TopBit(n - 1, x / 2, Pow2(n - 1));
    }
  }

  lemma {:induction false} ZeroBit(n: nat, i: nat)
    requires i < n
    ensures !Bits(n, 0)[i]
  {
    if i > 0 {
      ZeroBit(n - 1, i - 1);
    }
  }

  /** A number below 2 ** m has no bits from m on. */
  lemma {:induction false} HighBit(n: nat, m: nat, x: int, limit: int, i: nat)
    requires m <= i < n && limit == Pow2(m) && 0 <= x < limit
    ensures !Bits(n, x)[i]
  {
    if m == 0 {
      ZeroBit(n, i);
    } else {
      HighBit(n - 1, m - 1, x / 2, Pow2(m - 1), i - 1);
    }
  }

  lemma LowBit(n: nat, m: nat, x: int, i: nat)
    requires i < m <= n
    ensures Bits(n, x)[i] == Bits(m, x)[i]
  {
    BitsPrefix(n, m, x);
    assert Bits(n, x)[..m][i] == Bits(n, x)[i];
  }

  lemma {:induction false} ShiftedBit(n: nat, k: nat, x: int, factor: int, i: nat)
    requires k <= n && i < n && factor == Pow2(k)
    ensures Bits(n, x * factor)[i] == if i < k then false else Bits(n - k, x)[i - k]
    decreases k
  {
    if k > 0 {
      var p := Pow2(k - 1);
      assert x * factor == 2 * (x * p);
      BitsDouble(n, x * p);
      if i > 0 {
        ShiftedBit(n - 1, k - 1, x, p, i - 1);
      }
    }
  }

  // ----- bytes -----

  function LeBytes(count: nat, x: nat): seq<int> {
    if count == 0 then [] else [x % 256] + LeBytes(count - 1, x / 256)
  }

  lemma Multiples(d: int, p: int)
    requires p > 0
    ensures d >= 1 ==> d * p >= p
    ensures d <= -1 ==> d * p <= -p
  {
  }

  lemma Division(x: int, p: int, q: int, r: int)
    requires p > 0 && x == q * p + r && 0 <= r < p
    ensures x / p == q && x % p == r
  {
    var d := x / p - q;
    assert x == x / p * p + x % p;
    assert d * p == x / p * p - q * p;
    Multiples(d, p);
  }

  lemma HalfOfRest(x: nat, p: nat)
    requires p > 0
    ensures x % (2 * p) == x % 2 + 2 * (x / 2 % p) && x / (2 * p) == x / 2 / p
  {
    var q, r := x / 2 / p, x / 2 % p;
    assert x / 2 == q * p + r;
    assert x == q * (2 * p) + (2 * r + x % 2);
    Division(x, 2 * p, q, 2 * r + x % 2);
  }

  lemma {:induction false} PowPositive(n: nat)
    ensures Pow2(n) > 0
  {
    if n > 0 {
      PowPositive(n - 1);
    }
  }

  lemma {:induction false} LowBits(n: nat, x: nat, limit: int)
    requires limit == Pow2(n) > 0
    ensures Value(Bits(n, x)) == x % limit
  {
    if n > 0 {
      ValueStep(n, x);
      PowPositive(n - 1);
      LowBits(n - 1, x / 2, Pow2(n - 1));
      HalfOfRest(x, Pow2(n - 1));
    }
  }

  lemma {:induction false} HighBits(n: nat, k: nat, x: nat, p: int)
    requires k <= n && p == Pow2(k) > 0
    ensures Bits(n, x)[k..] == Bits(n - k, x / p)
    decreases k
  {
    if k > 0 {
      PowPositive(k - 1);
      HighBits(n - 1, k - 1, x / 2, Pow2(k - 1));
      HalfOfRest(x, Pow2(k - 1));
    }
  }

  /** A register packed into bytes is its number, low byte first. */
  lemma {:induction false} PackIsLe(count: nat, n: nat, x: nat)
    requires n == 8 * count
    ensures PackBits(Bits(n, x)) == LeBytes(count, x)
    decreases count
  {
    if count > 0 {
      assert Pow2(8) == 256;
      BitsPrefix(n, 8, x);
      LowBits(8, x, 256);
      HighBits(n, 8, x, 256);
      PackIsLe(count - 1, n - 8, x / 256);
    }
  }

  // ----- the forward register -----

  /** The number of a register of this kind, and of its polynomial. */
  ghost predicate Forward(k: Kind, poly: nat, half: nat) {
    && Proper(k) && !k.reflected && half == Pow2(k.width - 1)
    && forall i :: 0 <= i < k.width ==> (Bits(k.width, poly)[i] <==> i in k.taps)
  }

  function StepForward(n: nat, poly: nat, half: nat, crc: nat): nat
    requires half > 0
  {
    if crc / half % 2 == 1 then MaskedXor(n, 2 * crc, poly) else 2 * crc % (2 * half)
  }

  lemma UpperHalf(crc: nat, half: nat)
    requires 0 < half && crc < 2 * half
    ensures crc / half % 2 == 1 <==> crc >= half
    ensures crc < half ==> 2 * crc % (2 * half) == 2 * crc
  {
    Division(crc, half, if crc >= half then 1 else 0, if crc >= half then crc - half else crc);
    if crc < half {
      Division(2 * crc, 2 * half, 0, 2 * crc);
    }
  }

  lemma StepForwardBound(n: nat, poly: nat, half: nat, crc: nat)
    requires n > 0 && half == Pow2(n - 1) && crc < 2 * half
    ensures half > 0 && StepForward(n, poly, half, crc) < 2 * half
    ensures StepForward(n, poly, half, crc) == if Bits(n, crc)[n - 1] then MaskedXor(n, 2 * crc, poly) else 2 * crc
  {
    PowPositive(n - 1);
    TopBit(n - 1, crc, half);
    XorBound(n, 2 * crc, poly, 2 * half);
    UpperHalf(crc, half);
  }

  lemma StepForwardBit(k: Kind, poly: nat, c: seq<bool>, crc: nat, next: nat, i: nat)
    requires k.width > 0 && i < k.width && c == Bits(k.width, crc)
    requires Bits(k.width, poly)[i] <==> i in k.taps
    requires next == if c[k.width - 1] then MaskedXor(k.width, 2 * crc, poly) else 2 * crc
    ensures Bits(k.width, next)[i] == Step(k, c)[i]
  {
    DoubledBit(k.width, crc, i);
  }

  /** One step on the number is one step of the register. */
  lemma StepForwardAgrees(k: Kind, poly: nat, half: nat, crc: nat)
    requires Forward(k, poly, half) && crc < 2 * half
    ensures half > 0 && StepForward(k.width, poly, half, crc) < 2 * half
    ensures Bits(k.width, StepForward(k.width, poly, half, crc)) == Step(k, Bits(k.width, crc))
  {
    StepForwardBound(k.width, poly, half, crc);
    StepForwardBits(k, poly, Bits(k.width, crc), crc, StepForward(k.width, poly, half, crc));
  }

  lemma StepForwardBits(k: Kind, poly: nat, c: seq<bool>, crc: nat, next: nat)
    requires k.width > 0 && c == Bits(k.width, crc)
    requires forall i :: 0 <= i < k.width ==> (Bits(k.width, poly)[i] <==> i in k.taps)
    requires next == if c[k.width - 1] then MaskedXor(k.width, 2 * crc, poly) else 2 * crc
    ensures Bits(k.width, next) == Step(k, c)
  {
    forall i | 0 <= i < k.width
      ensures Bits(k.width, next)[i] == Step(k, c)[i]
    {
      StepForwardBit(k, poly, c, crc, next, i);
    }
  }

  lemma EnterForwardBit(k: Kind, crc: nat, b: Byte, factor: nat, i: nat)
    requires Proper(k) && !k.reflected && factor == Pow2(k.width - 8) && i < k.width
    ensures Bits(k.width, MaskedXor(k.width, crc, b * factor))[i] == Enter(k, Bits(k.width, crc), b)[i]
  {
    ShiftedBit(k.width, k.width - 8, b, factor, i);
  }

  lemma EnterForwardAgrees(k: Kind, poly: nat, half: nat, crc: nat, b: Byte, factor: nat)
    requires Forward(k, poly, half) && factor == Pow2(k.width - 8)
    ensures MaskedXor(k.width, crc, b * factor) < 2 * half
    ensures Bits(k.width, MaskedXor(k.width, crc, b * factor)) == Enter(k, Bits(k.width, crc), b)
  {
    XorBound(k.width, crc, b * factor, 2 * half);
    forall i | 0 <= i < k.width
      ensures Bits(k.width, MaskedXor(k.width, crc, b * factor))[i] == Enter(k, Bits(k.width, crc), b)[i]
    {
      EnterForwardBit(k, crc, b, factor, i);
    }
  }

  method StepsForward(k: Kind, poly: nat, half: nat, crc: nat, count: nat) returns (next: nat)
    requires Forward(k, poly, half) && crc < 2 * half
    ensures next < 2 * half && Bits(k.width, next) == Steps(k, Bits(k.width, crc), count)
  {
    next := crc;
    for n := 0 to count
      invariant 0 <= next < 2 * half && Steps(k, Bits(k.width, next), count - n) == Steps(k, Bits(k.width, crc), count)
    {
      StepForwardAgrees(k, poly, half, next);
      next := StepForward(k.width, poly, half, next);
    }
  }

  method FeedForward(k: Kind, poly: nat, half: nat, factor: nat, crc: nat, b: Byte) returns (next: nat)
    requires Forward(k, poly, half) && factor == Pow2(k.width - 8) && crc < 2 * half
    ensures next < 2 * half && Bits(k.width, next) == Feed(k, Bits(k.width, crc), b)
  {
    EnterForwardAgrees(k, poly, half, crc, b, factor);
    next := MaskedXor(k.width, crc, b * factor);
    next := StepsForward(k, poly, half, next, 8);
  }

  lemma RunSnoc(k: Kind, data: seq<Byte>, i: nat)
    requires k.width >= 8 && i < |data|
    ensures Run(k, Ones(k), data[..i + 1]) == Feed(k, Run(k, Ones(k), data[..i]), data[i])
  {
    assert data[..i + 1] == data[..i] + [data[i]];
    RunConcat(k, Ones(k), data[..i], [data[i]]);
    assert [data[i]][1..] == [];
  }

  lemma BeginsWithOnes(k: Kind, limit: nat)
    requires Proper(k) && limit == Pow2(k.width)
    ensures limit > 0 && Bits(k.width, limit - 1) == Ones(k)
  {
    AllOnes(k.width, limit);
  }

  method ForwardCrc(k: Kind, poly: nat, half: nat, factor: nat, data: seq<Byte>) returns (crc: nat)
    requires Forward(k, poly, half) && factor == Pow2(k.width - 8)
    ensures crc < 2 * half && Bits(k.width, crc) == Run(k, Ones(k), data)
  {
    BeginsWithOnes(k, 2 * half);
    crc := 2 * half - 1;
    for i := 0 to |data|
      invariant 0 <= crc < 2 * half && Bits(k.width, crc) == Run(k, Ones(k), data[..i])
    {
      RunSnoc(k, data, i);
      crc := FeedForward(k, poly, half, factor, crc, data[i]);
    }
    assert data[..|data|] == data;
  }

  lemma {:induction false} AllOnes(n: nat, limit: int)
    requires limit == Pow2(n)
    ensures limit > 0 && Bits(n, limit - 1) == seq(n, _ => true)
  {
    PowPositive(n);
    if n > 0 {
      var p := Pow2(n - 1);
      AllOnes(n - 1, p);
      assert (limit - 1) / 2 == p - 1;
    }
  }

  // ----- the reflected register -----

  /** The register of a reflected kind lists the bits of its number backwards. */
  function Backwards(s: seq<bool>): (r: seq<bool>)
    ensures |r| == |s| && forall i :: 0 <= i < |r| ==> r[i] == s[|s| - 1 - i]
  {
    seq(|s|, i requires 0 <= i < |s| => s[|s| - 1 - i])
  }

  ghost predicate Reflected(k: Kind, poly: nat, limit: nat) {
    && Proper(k) && k.reflected && limit == Pow2(k.width)
    && forall i :: 0 <= i < k.width ==> TapBackwards(k, poly, i)
  }

  ghost predicate TapBackwards(k: Kind, poly: nat, i: nat)
    requires i < k.width
  {
    Bits(k.width, poly)[k.width - 1 - i] <==> i in k.taps
  }

  function StepReflected(n: nat, poly: nat, crc: nat): nat {
    if crc % 2 == 1 then MaskedXor(n, crc / 2, poly) else crc / 2
  }

  lemma StepAt(k: Kind, c: seq<bool>, i: nat)
    requires |c| == k.width && i < k.width
    ensures Step(k, c)[i] == ((if i == 0 then false else c[i - 1]) != (c[k.width - 1] && i in k.taps))
  {
  }

  /** Bit j after a step of the mirrored register. */
  ghost predicate StepsTo(bits: seq<bool>, poly: seq<bool>, next: seq<bool>, j: nat)
    requires j < |bits| == |poly| == |next|
  {
    next[j] == ((if j == |bits| - 1 then false else bits[j + 1]) != (bits[0] && poly[j]))
  }

  lemma StepReflectedNumber(n: nat, poly: nat, limit: nat, crc: nat, j: nat)
    requires j < n && limit == Pow2(n) && crc < limit
    ensures StepsTo(Bits(n, crc), Bits(n, poly), Bits(n, StepReflected(n, poly, crc)), j)
  {
    HalvedBit(n, crc, limit, j);
    assert Bits(n, crc)[0] == (crc % 2 == 1);
  }

  lemma MirrorStep(k: Kind, bits: seq<bool>, poly: seq<bool>, next: seq<bool>, i: nat)
    requires |bits| == |poly| == |next| == k.width && i < k.width
    requires poly[k.width - 1 - i] <==> i in k.taps
    requires StepsTo(bits, poly, next, k.width - 1 - i)
    ensures next[k.width - 1 - i] == Step(k, Backwards(bits))[i]
  {
    StepAt(k, Backwards(bits), i);
  }

  lemma BackwardsIs(bits: seq<bool>, c: seq<bool>)
    requires |bits| == |c| && forall i :: 0 <= i < |c| ==> c[i] == bits[|c| - 1 - i]
    ensures Backwards(bits) == c
  {
  }

  lemma StepReflectedAgrees(k: Kind, poly: nat, limit: nat, crc: nat)
    requires Reflected(k, poly, limit) && crc < limit
    ensures StepReflected(k.width, poly, crc) < limit
    ensures Backwards(Bits(k.width, StepReflected(k.width, poly, crc))) == Step(k, Backwards(Bits(k.width, crc)))
  {
    StepReflectedBound(k.width, poly, limit, crc);
    StepReflectedBits(k.width, poly, limit, crc);
    TapsMirrored(k, poly, limit);
    MirrorSteps(k, Bits(k.width, crc), Bits(k.width, poly), Bits(k.width, StepReflected(k.width, poly, crc)));
  }

  lemma StepReflectedBound(n: nat, poly: nat, limit: nat, crc: nat)
    requires limit == Pow2(n) && crc < limit
    ensures StepReflected(n, poly, crc) < limit
  {
    XorBound(n, crc / 2, poly, limit);
  }

  ghost predicate AllStepTo(bits: seq<bool>, poly: seq<bool>, next: seq<bool>) {
    |bits| == |poly| == |next| && forall j :: 0 <= j < |bits| ==> StepsTo(bits, poly, next, j)
  }

  ghost predicate Mirrored(k: Kind, poly: seq<bool>) {
    |poly| == k.width && forall i :: 0 <= i < k.width ==> (poly[k.width - 1 - i] <==> i in k.taps)
  }

  lemma StepReflectedBits(n: nat, poly: nat, limit: nat, crc: nat)
    requires limit == Pow2(n) && crc < limit
    ensures AllStepTo(Bits(n, crc), Bits(n, poly), Bits(n, StepReflected(n, poly, crc)))
  {
    forall j | 0 <= j < n
      ensures StepsTo(Bits(n, crc), Bits(n, poly), Bits(n, StepReflected(n, poly, crc)), j)
    {
      StepReflectedNumber(n, poly, limit, crc, j);
    }
  }

  lemma TapsMirrored(k: Kind, poly: nat, limit: nat)
    requires Reflected(k, poly, limit)
    ensures Mirrored(k, Bits(k.width, poly))
  {
    forall i | 0 <= i < k.width
      ensures Bits(k.width, poly)[k.width - 1 - i] <==> i in k.taps
    {
      assert TapBackwards(k, poly, i);
    }
  }

  lemma MirrorSteps(k: Kind, bits: seq<bool>, poly: seq<bool>, next: seq<bool>)
    requires |bits| == |next| == k.width > 0 && Mirrored(k, poly) && AllStepTo(bits, poly, next)
    ensures Backwards(next) == Step(k, Backwards(bits))
  {
    var c := Step(k, Backwards(bits));
    forall i | 0 <= i < |c|
      ensures Backwards(next)[i] == c[i]
    {
      MirrorStep(k, bits, poly, next, i);
    }
  }

  lemma ByteBit(n: nat, b: Byte, j: nat)
    requires j < n && 8 <= n
    ensures Bits(n, b)[j] == if j < 8 then Bits(8, b)[j] else false
  {
    if j < 8 {
      LowBit(n, 8, b, j);
    } else {
      assert Pow2(8) == 256;
      HighBit(n, 8, b, 256, j);
    }
  }

  lemma EnterReflectedBit(k: Kind, crc: nat, b: Byte, i: nat)
    requires Proper(k) && k.reflected && i < k.width
    ensures Bits(k.width, MaskedXor(k.width, crc, b))[k.width - 1 - i] == Enter(k, Backwards(Bits(k.width, crc)), b)[i]
  {
    ByteBit(k.width, b, k.width - 1 - i);
  }

  lemma EnterReflectedAgrees(k: Kind, poly: nat, limit: nat, crc: nat, b: Byte)
    requires Reflected(k, poly, limit)
    ensures MaskedXor(k.width, crc, b) < limit
    ensures Backwards(Bits(k.width, MaskedXor(k.width, crc, b))) == Enter(k, Backwards(Bits(k.width, crc)), b)
  {
    XorBound(k.width, crc, b, limit);
    var bits, c := Bits(k.width, MaskedXor(k.width, crc, b)), Enter(k, Backwards(Bits(k.width, crc)), b);
    forall i | 0 <= i < |c|
      ensures c[i] == bits[|c| - 1 - i]
    {
      EnterReflectedBit(k, crc, b, i);
    }
    BackwardsIs(bits, c);
  }

  method StepsReflected(k: Kind, poly: nat, limit: nat, crc: nat, count: nat) returns (next: nat)
    requires Reflected(k, poly, limit) && crc < limit
    ensures next < limit && Backwards(Bits(k.width, next)) == Steps(k, Backwards(Bits(k.width, crc)), count)
  {
    next := crc;
    for n := 0 to count
      invariant 0 <= next < limit
      invariant Steps(k, Backwards(Bits(k.width, next)), count - n) == Steps(k, Backwards(Bits(k.width, crc)), count)
    {
      StepReflectedAgrees(k, poly, limit, next);
      next := StepReflected(k.width, poly, next);
    }
  }

  method FeedReflected(k: Kind, poly: nat, limit: nat, crc: nat, b: Byte) returns (next: nat)
    requires Reflected(k, poly, limit) && crc < limit
    ensures next < limit && Backwards(Bits(k.width, next)) == Feed(k, Backwards(Bits(k.width, crc)), b)
  {
    EnterReflectedAgrees(k, poly, limit, crc, b);
    next := MaskedXor(k.width, crc, b);
    next := StepsReflected(k, poly, limit, next, 8);
  }

  method ReflectedCrc(k: Kind, poly: nat, limit: nat, data: seq<Byte>) returns (crc: nat)
    requires Reflected(k, poly, limit)
    ensures crc < limit && Backwards(Bits(k.width, crc)) == Run(k, Ones(k), data)
  {
    AllOnes(k.width, limit);
    crc := limit - 1;
    for i := 0 to |data|
      invariant 0 <= crc < limit && Backwards(Bits(k.width, crc)) == Run(k, Ones(k), data[..i])
    {
      RunSnoc(k, data, i);
      crc := FeedReflected(k, poly, limit, crc, data[i]);
    }
    assert data[..|data|] == data;
  }

  function Flipped(s: seq<bool>): (r: seq<bool>)
    ensures |r| == |s| && forall i :: 0 <= i < |r| ==> r[i] == !s[i]
  {
    seq(|s|, i requires 0 <= i < |s| => !s[i])
  }

  lemma FlippedCons(b: bool, s: seq<bool>)
    ensures Flipped([b] + s) == [!b] + Flipped(s)
  {
  }

  /** The complement of a number has the opposite bits. */
  lemma {:induction false} Complement(n: nat, x: nat, limit: int)
    requires limit == Pow2(n) && x < limit
    ensures Bits(n, limit - 1 - x) == Flipped(Bits(n, x))
  {
    if n > 0 {
      Complement(n - 1, x / 2, Pow2(n - 1));
      assert (limit - 1 - x) / 2 == Pow2(n - 1) - 1 - x / 2;
      assert (limit - 1 - x) % 2 == 1 - x % 2;
      FlippedCons(x % 2 == 1, Bits(n - 1, x / 2));
    }
  }

  // ----- the two checksums -----

  lemma LowestBit(n: nat, x: nat, i: nat)
    requires i < n
    ensures Bits(n, x)[i] <==> if i == 0 then x % 2 == 1 else Bits(n - 1, x / 2)[i - 1]
  {
  }

  lemma Doubled(p: nat, q: nat, x: nat)
    requires x == 2 * p * q || x == 2 * (p * q)
    ensures x == 2 * p * q == 2 * (p * q) && x % 2 == 0 && x / 2 == p * q
  {
  }

  /** A number is some zeros, then a one, then the rest. */
  predicate Peels(x: nat, zeros: nat, rest: nat) {
    if zeros == 0 then x == 2 * rest + 1 else x % 2 == 0 && Peels(x / 2, zeros - 1, rest)
  }

  /** The lowest set bit, and the others. */
  lemma {:induction false} PeelBit(n: nat, x: nat, zeros: nat, rest: nat, i: nat)
    requires i < n && Peels(x, zeros, rest)
    ensures Bits(n, x)[i] <==> i == zeros || (i > zeros && Bits(n - zeros - 1, rest)[i - zeros - 1])
    decreases zeros
  {
    LowestBit(n, x, i);
    if zeros > 0 && i > 0 {
      PeelBit(n - 1, x / 2, zeros - 1, rest, i - 1);
    }
  }

  lemma SmallPowers()
    ensures Pow2(0) == 1 && Pow2(1) == 2 && Pow2(2) == 4 && Pow2(3) == 8 && Pow2(4) == 16 && Pow2(5) == 32
    ensures Pow2(6) == 64 && Pow2(8) == 0x100
  {
  }

  lemma {:induction false} PowSum(m: nat, n: nat)
    ensures Pow2(m + n) == Pow2(m) * Pow2(n)
  {
    if m > 0 {
      PowSum(m - 1, n);
      Doubled(Pow2(m - 1), Pow2(n), Pow2(m + n));
    }
  }

  lemma WordPowers()
    ensures Pow2(15) == 0x8000 && Pow2(16) == 0x10000 && Pow2(32) == 0x1_0000_0000
  {
    SmallPowers();
    PowSum(8, 8);
    PowSum(16, 16);
    PowSum(1, 15);
  }

  lemma Poly16Bit(n: nat, i: nat)
    requires i < 16 <= n
    ensures Bits(n, 0x1021)[i] <==> i in {0, 5, 12}
  {
    PeelBit(n, 0x1021, 0, 0x810, i);
    if i > 0 {
      PeelBit(n - 1, 0x810, 4, 0x40, i - 1);
    }
    if i > 5 {
      PeelBit(n - 6, 0x40, 6, 0, i - 6);
    }
    if i > 12 {
      ZeroBit(n - 13, i - 13);
    }
  }

  lemma Poly32Low(n: nat, i: nat)
    requires i < 32 <= n
    ensures i <= 15 ==> (Bits(n, 0xEDB88320)[i] <==> i in {5, 8, 9, 15})
    ensures i > 15 ==> Bits(n, 0xEDB88320)[i] == Bits(n - 16, 0xedb8)[i - 16]
  {
    PeelBit(n, 0xedb88320, 5, 0x3b6e20c, i);
    if i > 5 {
      PeelBit(n - 6, 0x3b6e20c, 2, 0x76dc41, i - 6);
    }
    if i > 8 {
      PeelBit(n - 9, 0x76dc41, 0, 0x3b6e20, i - 9);
    }
    if i > 9 {
      PeelBit(n - 10, 0x3b6e20, 5, 0xedb8, i - 10);
    }
  }

  lemma Poly32Middle(n: nat, i: nat)
    requires i < 16 <= n
    ensures i <= 8 ==> (Bits(n, 0xedb8)[i] <==> i in {3, 4, 5, 7, 8})
    ensures i > 8 ==> Bits(n, 0xedb8)[i] == Bits(n - 9, 0x76)[i - 9]
  {
    PeelBit(n, 0xedb8, 3, 0xedb, i);
    if i > 3 {
      PeelBit(n - 4, 0xedb, 0, 0x76d, i - 4);
    }
    if i > 4 {
      PeelBit(n - 5, 0x76d, 0, 0x3b6, i - 5);
    }
    if i > 5 {
      PeelBit(n - 6, 0x3b6, 1, 0xed, i - 6);
    }
    if i > 7 {
      PeelBit(n - 8, 0xed, 0, 0x76, i - 8);
    }
  }

  lemma Poly32High(n: nat, i: nat)
    requires i < 7 <= n
    ensures Bits(n, 0x76)[i] <==> i in {1, 2, 4, 5, 6}
  {
    PeelBit(n, 0x76, 1, 0x1d, i);
    if i > 1 {
      PeelBit(n - 2, 0x1d, 0, 0xe, i - 2);
    }
    if i > 2 {
      PeelBit(n - 3, 0xe, 1, 0x3, i - 3);
    }
    if i > 4 {
      PeelBit(n - 5, 0x3, 0, 0x1, i - 5);
    }
    if i > 5 {
      PeelBit(n - 6, 0x1, 0, 0, i - 6);
    }
  }

  lemma Poly32Bit(n: nat, i: nat)
    requires i < 32 <= n
    ensures Bits(n, 0xEDB88320)[i] <==> i in {5, 8, 9, 15, 19, 20, 21, 23, 24, 26, 27, 29, 30, 31}
  {
    Poly32Low(n, i);
    if i > 15 {
      Poly32Middle(n - 16, i - 16);
      if i > 24 {
        Poly32High(n - 25, i - 25);
      }
    }
  }

  lemma Crc16IsForward()
    ensures Forward(CRC16, 0x1021, 0x8000) && 0x100 == Pow2(CRC16.width - 8)
  {
    SmallPowers();
    WordPowers();
    forall i | 0 <= i < CRC16.width
      ensures Bits(CRC16.width, 0x1021)[i] <==> i in CRC16.taps
    {
      Poly16Bit(CRC16.width, i);
    }
  }

  lemma Crc32IsReflected()
    ensures Reflected(CRC32, 0xEDB88320, 0x1_0000_0000)
  {
    WordPowers();
    forall i | 0 <= i < CRC32.width
      ensures TapBackwards(CRC32, 0xEDB88320, i)
    {
      Poly32Bit(CRC32.width, CRC32.width - 1 - i);
      MirroredTaps(i);
    }
  }

  lemma MirroredTaps(i: nat)
    requires i < 32
    ensures 31 - i in {5, 8, 9, 15, 19, 20, 21, 23, 24, 26, 27, 29, 30, 31} <==> i in CRC32.taps
  {
  }

  /** CRC-16/CCITT: the number whose bytes, low byte first, end a frame. */
  method Crc16Ccitt(data: seq<Byte>) returns (crc: nat)
    ensures crc < 0x10000 && LeBytes(2, crc) == Checksum(CRC16, data)
  {
    Crc16IsForward();
    crc := ForwardCrc(CRC16, 0x1021, 0x8000, 0x100, data);
    PackIsLe(2, CRC16.width, crc);
  }

  /** CRC-32, complemented: the number whose bytes end an update packet. */
  method UpdateCrc32(data: seq<Byte>) returns (crc: nat)
    ensures crc < 0x1_0000_0000 && LeBytes(4, crc) == Checksum(CRC32, data)
  {
    Crc32IsReflected();
    var register := ReflectedCrc(CRC32, 0xEDB88320, 0x1_0000_0000, data);
    crc := 0xFFFF_FFFF - register;
    ComplementPacks(CRC32, register, crc, 0x1_0000_0000, data);
    PackIsLe(4, CRC32.width, crc);
  }

  lemma ComplementPacks(k: Kind, register: nat, crc: nat, limit: nat, data: seq<Byte>)
    requires Proper(k) && k.reflected && limit == Pow2(k.width) && register < limit && crc == limit - 1 - register
    requires Backwards(Bits(k.width, register)) == Run(k, Ones(k), data)
    ensures PackBits(Bits(k.width, crc)) == Checksum(k, data)
  {
    ComplementBits(k, register, crc, limit, Run(k, Ones(k), data));
  }

  lemma ComplementBits(k: Kind, register: nat, crc: nat, limit: nat, c: seq<bool>)
    requires k.reflected && limit == Pow2(k.width) && register < limit && crc == limit - 1 - register
    requires c == Backwards(Bits(k.width, register))
    ensures Bits(k.width, crc) == NumericBits(k, c)
  {
    Complement(k.width, register, limit);
    Opposite(Bits(k.width, register), k);
  }

  lemma Opposite(t: seq<bool>, k: Kind)
    requires k.reflected && |t| == k.width
    ensures Flipped(t) == NumericBits(k, Backwards(t))
  {
  }
}
