/** The record checksum: a 32-bit accumulator that is never masked, fed
    sign-extended bytes, against the 16-bit register it stands for. */
module Crc {

  // ---- the code's accumulator ----

  /** `data[i]` is a signed char, promoted and then shifted left by 8. */
  function Promote(b: bv8): bv32 {
    (if b & 0x80 != 0 then (b as bv32) | 0xFFFFFF00 else b as bv32) << 8
  }

  function Turn(rst: bv32): bv32 {
    if rst & 0x8000 != 0 then (rst << 1) ^ 0x1021 else rst << 1
  }

  /** CRC_Compute. */
  method Compute(data: seq<bv8>) returns (crc: bv32)
    ensures crc == Crc16(data) as bv32
  {
    hide *;
    var rst: bv32 := 0;
    LowZero();
    RunNone(0, data);
    var i := 0;
    ghost var r: bv16 := 0;
    while i < |data|
      invariant 0 <= i <= |data| && r == Low(rst) && r == Run(0, data[..i])
    {
      rst := FeedByte(rst, data[i]);
      RunNext(data, i);
      r := Low(rst);
      i := i + 1;
    }
    CrcIsRun(data);
    assert data[..i] == data;
    MaskIsLow(rst);
    return Masked(rst);
  }

  lemma RunNone(r: bv16, data: seq<bv8>)
    ensures Run(r, data[..0]) == r
  {
  }

  lemma CrcIsRun(data: seq<bv8>)
    ensures Crc16(data) == Run(0, data)
  {
  }

  lemma RunNext(data: seq<bv8>, i: nat)
    requires i < |data|
    ensures Run(0, data[..i + 1]) == Feed(Run(0, data[..i]), data[i])
  {
    hide Feed;
    assert data[..i + 1][..i] == data[..i];
  }

  /** One byte: the inner loop. */
  method FeedByte(rst0: bv32, b: bv8) returns (rst: bv32)
    ensures Low(rst) == Feed(Low(rst0), b)
  {
    hide Low, Step, Turn, Promote;
    rst := rst0 ^ Promote(b);
    LowFeeds(rst0, b);
    ghost var fed := Low(rst);
    var j := 0;
    while j < 8
      invariant 0 <= j <= 8 && Low(rst) == Steps(fed, j)
    {
      LowTurn(rst);
      rst := Turn(rst);
      j := j + 1;
    }
  }

  // ---- the 16-bit register, polynomial 0x1021, initial value 0 ----

  function Xor16(x: bv16, y: bv16): bv16 { x ^ y }

  function Shift(r: bv16): bv16 { r << 1 }

  predicate Top(r: bv16) { r & 0x8000 != 0 }

  function High(b: bv8): bv16 { (b as bv16) << 8 }

  function Step(r: bv16): bv16 {
    if Top(r) then Xor16(Shift(r), 0x1021) else Shift(r)
  }

  function Steps(r: bv16, n: nat): bv16 {
    if n == 0 then r else Step(Steps(r, n - 1))
  }

  function Feed(r: bv16, b: bv8): bv16 { Steps(Xor16(r, High(b)), 8) }

  /** The register after `data`, started at `r`. */
  function Run(r: bv16, data: seq<bv8>): bv16 {
    if data == [] then r else Feed(Run(r, data[..|data| - 1]), data[|data| - 1])
  }

  function Crc16(data: seq<bv8>): bv16 { Run(0, data) }

  function Low(rst: bv32): bv16 { (rst & 0xFFFF) as bv16 }

  function Masked(rst: bv32): bv32 { rst & 0xFFFF }

  lemma LowZero()
    ensures Low(0) == 0
  {
  }

  lemma MaskIsLow(rst: bv32)
    ensures Masked(rst) == Low(rst) as bv32
  {
  }

  /** Sign extension only reaches bits above the register. */
  lemma LowFeeds(rst: bv32, b: bv8)
    ensures Low(rst ^ Promote(b)) == Xor16(Low(rst), High(b))
  {
  }

  /** A turn of the accumulator is a step of the register under it. */
  lemma LowTurn(rst: bv32)
    ensures Low(Turn(rst)) == Step(Low(rst))
  {
    hide Low, Top, Shift, Xor16;
    LowTop(rst);
    LowShift(rst);
    LowXor(rst << 1);
  }

  lemma LowTop(rst: bv32)
    ensures rst & 0x8000 != 0 <==> Top(Low(rst))
  {
  }

  lemma LowShift(rst: bv32)
    ensures Low(rst << 1) == Shift(Low(rst))
  {
  }

  lemma LowXor(rst: bv32)
    ensures Low(rst ^ 0x1021) == Xor16(Low(rst), 0x1021)
  {
  }

  // ---- linearity ----

  function Xor(a: seq<bv8>, b: seq<bv8>): (c: seq<bv8>)
    requires |a| == |b|
    ensures |c| == |a| && forall i :: 0 <= i < |c| ==> c[i] == a[i] ^ b[i]
  {
    seq(|a|, i requires 0 <= i < |a| => a[i] ^ b[i])
  }

  lemma TopXor(x: bv16, y: bv16)
    ensures Top(Xor16(x, y)) <==> (Top(x) != Top(y))
  {
  }

  lemma ShiftXor(x: bv16, y: bv16)
    ensures Shift(Xor16(x, y)) == Xor16(Shift(x), Shift(y))
  {
  }

  lemma HighXor(a: bv8, b: bv8)
    ensures High(a ^ b) == Xor16(High(a), High(b))
  {
  }

  lemma Associative(x: bv16, y: bv16, z: bv16)
    ensures Xor16(Xor16(x, y), z) == Xor16(x, Xor16(y, z))
  {
  }

  lemma Commutative(x: bv16, y: bv16)
    ensures Xor16(x, y) == Xor16(y, x)
  {
  }

  /** Equality is a difference of zero. */
  lemma SelfInverse(x: bv16, y: bv16)
    ensures Xor16(x, y) == 0 <==> x == y
  {
  }

  lemma Neutral(x: bv16)
    ensures Xor16(x, 0) == x
  {
  }

  /** (x + c) + (y + d) == (x + y) + (c + d). */
  lemma Exchange(x: bv16, c: bv16, y: bv16, d: bv16)
    ensures Xor16(Xor16(x, c), Xor16(y, d)) == Xor16(Xor16(x, y), Xor16(c, d))
  {
    hide Xor16;
    Associative(Xor16(x, c), y, d);
    Associative(x, c, y);
    Commutative(c, y);
    Associative(x, y, c);
    Associative(Xor16(x, y), c, d);
  }

  lemma StepLinear(x: bv16, y: bv16)
    ensures Step(Xor16(x, y)) == Xor16(Step(x), Step(y))
  {
    hide Xor16, Top, Shift;
    var c: bv16, u, v := 0x1021, Shift(x), Shift(y);
    TopXor(x, y);
    ShiftXor(x, y);
    Exchange(u, c, v, c);
    SelfInverse(c, c);
    Neutral(Xor16(u, v));
    Associative(u, v, c);
    Exchange(u, c, v, 0);
    Neutral(v);
    Neutral(c);
  }

  lemma {:induction false} StepsLinear(x: bv16, y: bv16, n: nat)
    ensures Steps(Xor16(x, y), n) == Xor16(Steps(x, n), Steps(y, n))
  {
    hide Xor16, Step;
    if n > 0 {
      StepsLinear(x, y, n - 1);
      StepLinear(Steps(x, n - 1), Steps(y, n - 1));
    }
  }

  lemma FeedLinear(x: bv16, y: bv16, a: bv8, b: bv8)
    ensures Feed(Xor16(x, y), a ^ b) == Xor16(Feed(x, a), Feed(y, b))
  {
    hide Xor16, High, Steps;
    HighXor(a, b);
    Exchange(x, y, High(a), High(b));
    Exchange(x, High(a), y, High(b));
    StepsLinear(Xor16(x, High(a)), Xor16(y, High(b)), 8);
  }

  /** The register is linear in its start and its input together. */
  lemma {:induction false} RunLinear(r: bv16, q: bv16, a: seq<bv8>, b: seq<bv8>)
    requires |a| == |b|
    ensures Run(Xor16(r, q), Xor(a, b)) == Xor16(Run(r, a), Run(q, b))
  {
    hide Xor16, Feed;
    if a != [] {
      var n := |a| - 1;
      assert Xor(a, b)[..n] == Xor(a[..n], b[..n]);
      RunLinear(r, q, a[..n], b[..n]);
      FeedLinear(Run(r, a[..n]), Run(q, b[..n]), a[n], b[n]);
    }
  }

  /** XOR of two inputs of one length has the XOR of their checksums. */
  lemma Linear(a: seq<bv8>, b: seq<bv8>)
    requires |a| == |b|
    ensures Crc16(Xor(a, b)) == Crc16(a) ^ Crc16(b)
  {
    Neutral(0);
    RunLinear(0, 0, a, b);
  }

  // ---- what that buys ----

  lemma StepInjective(x: bv16)
    requires Step(x) == 0
    ensures x == 0
  {
  }

  lemma {:induction false} StepsInjective(x: bv16, n: nat)
    requires Steps(x, n) == 0
    ensures x == 0
  {
    hide Step;
    if n > 0 {
      StepInjective(Steps(x, n - 1));
      StepsInjective(x, n - 1);
    }
  }

  lemma HighInjective(b: bv8, c: bv8)
    requires High(b) == High(c)
    ensures b == c
  {
  }

  lemma Cancel(x: bv16, y: bv16, z: bv16)
    requires Xor16(x, z) == Xor16(y, z)
    ensures x == y
  {
  }

  lemma FeedInjective(x: bv16, y: bv16, b: bv8, c: bv8)
    requires Feed(x, b) == Feed(y, c)
    ensures Xor16(x, High(b)) == Xor16(y, High(c))
  {
    hide Xor16, High, Steps;
    var u, v := Xor16(x, High(b)), Xor16(y, High(c));
    StepsLinear(u, v, 8);
    SelfInverse(Steps(u, 8), Steps(v, 8));
    StepsInjective(Xor16(u, v), 8);
    SelfInverse(u, v);
  }

  lemma {:induction false} RunInjective(r: bv16, q: bv16, data: seq<bv8>)
    requires Run(r, data) == Run(q, data)
    ensures r == q
  {
    hide Xor16, High, Feed;
    if data != [] {
      var n := |data| - 1;
      FeedInjective(Run(r, data[..n]), Run(q, data[..n]), data[n], data[n]);
      Cancel(Run(r, data[..n]), Run(q, data[..n]), High(data[n]));
      RunInjective(r, q, data[..n]);
    }
  }

  lemma {:induction false} RunOver(r: bv16, a: seq<bv8>, b: seq<bv8>)
    ensures Run(r, a + b) == Run(Run(r, a), b)
  {
    hide Feed;
    if b == [] {
      assert a + b == a;
    } else {
      assert (a + b)[..|a + b| - 1] == a + b[..|b| - 1];
      RunOver(r, a, b[..|b| - 1]);
    }
  }

  lemma RunOne(r: bv16, b: bv8)
    ensures Run(r, [b]) == Feed(r, b)
  {
    hide Feed;
    assert [b][..0] == [];
  }

  /** One changed byte always changes the checksum. */
  lemma OneByteCaught(a: seq<bv8>, b: bv8, c: bv8, d: seq<bv8>)
    requires b != c
    ensures Crc16(a + [b] + d) != Crc16(a + [c] + d)
  {
    hide Xor16, High, Feed;
    var r := Crc16(a);
    RunOver(0, a + [b], d);
    RunOver(0, a + [c], d);
    RunOver(0, a, [b]);
    RunOver(0, a, [c]);
    RunOne(r, b);
    RunOne(r, c);
    if Crc16(a + [b] + d) == Crc16(a + [c] + d) {
      RunInjective(Feed(r, b), Feed(r, c), d);
      FeedInjective(r, r, b, c);
      Commutative(r, High(b));
      Commutative(r, High(c));
      Cancel(High(b), High(c), r);
      HighInjective(b, c);
    }
  }

  // ---- a known value ----

  lemma Eight(r: bv16)
    ensures Steps(r, 8) == Step(Step(Step(Step(Step(Step(Step(Step(r))))))))
  {
    hide Step;
    assert Steps(r, 1) == Step(r);
    assert Steps(r, 2) == Step(Steps(r, 1));
    assert Steps(r, 4) == Step(Step(Steps(r, 2)));
    assert Steps(r, 6) == Step(Step(Steps(r, 4)));
  }

  lemma NextByte(data: seq<bv8>, b: bv8, r: bv16, more: seq<bv8>, q: bv16)
    requires Crc16(data) == r && more == data + [b]
    requires Step(Step(Step(Step(Step(Step(Step(Step(Xor16(r, High(b)))))))))) == q
    ensures Crc16(more) == q
  {
    hide Step, Xor16, High;
    Eight(Xor16(r, High(b)));
    assert more[..|data|] == data;
  }

  lemma CrcOfNone()
    ensures Crc16([]) == 0
  {
  }

  /** The check value of this checksum: what the digits 1 to 9 give. */
  lemma CheckValue()
    ensures Crc16([0x31, 0x32, 0x33, 0x34, 0x35, 0x36, 0x37, 0x38, 0x39]) == 0x31C3
  {
    hide Crc16, Run;
    CrcOfNone();
    NextByte([], 0x31, 0x0000,
             [0x31], 0x2672);
    NextByte([0x31], 0x32, 0x2672,
             [0x31, 0x32], 0x20B5);
    NextByte([0x31, 0x32], 0x33, 0x20B5,
             [0x31, 0x32, 0x33], 0x9752);
    NextByte([0x31, 0x32, 0x33], 0x34, 0x9752,
             [0x31, 0x32, 0x33, 0x34], 0xD789);
    NextByte([0x31, 0x32, 0x33, 0x34], 0x35, 0xD789,
             [0x31, 0x32, 0x33, 0x34, 0x35], 0x546C);
    NextByte([0x31, 0x32, 0x33, 0x34, 0x35], 0x36, 0x546C,
             [0x31, 0x32, 0x33, 0x34, 0x35, 0x36], 0x20E4);
    NextByte([0x31, 0x32, 0x33, 0x34, 0x35, 0x36], 0x37, 0x20E4,
             [0x31, 0x32, 0x33, 0x34, 0x35, 0x36, 0x37], 0x86D6);
    NextByte([0x31, 0x32, 0x33, 0x34, 0x35, 0x36, 0x37], 0x38, 0x86D6,
             [0x31, 0x32, 0x33, 0x34, 0x35, 0x36, 0x37, 0x38], 0x9015);
    NextByte([0x31, 0x32, 0x33, 0x34, 0x35, 0x36, 0x37, 0x38], 0x39, 0x9015,
             [0x31, 0x32, 0x33, 0x34, 0x35, 0x36, 0x37, 0x38, 0x39], 0x31C3);
  }
}
