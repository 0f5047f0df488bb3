/**
 Linear feedback shift registers over an abstract word: what both checksums share.

 A message bit is loaded at one end of the register and the register takes a step: it shifts
 towards that end, and when a one falls out the polynomial is added. From linearity and from the
 step losing nothing, the register notices every burst no wider than itself.
 */
module ShiftRegister {
  import opened Telemetry

  /**
   `down` shifts towards the loading end, `up` away from it; `odd` tells whether the place at the
   loading end is occupied and `load` puts a bit there. `place` puts a whole byte there, the bit
   that is sent first at the very end.
   */
  datatype Register<!W> = Register(
    width: nat,
    zero: W,
    poly: W,
    xor: (W, W) -> W,
    down: W -> W,
    up: W -> W,
    odd: W -> bool,
    load: bool -> W,
    place: Byte -> W)

  ghost predicate XorLaw<W>(r: Register<W>, x: W, y: W, z: W) {
    && r.xor(x, y) == r.xor(y, x)
    && r.xor(r.xor(x, y), z) == r.xor(x, r.xor(y, z))
    && r.xor(x, r.zero) == x
    && r.xor(r.zero, x) == x
    && r.xor(x, x) == r.zero
  }

  ghost predicate DownLaw<W>(r: Register<W>, x: W, y: W) {
    && r.down(r.xor(x, y)) == r.xor(r.down(x), r.down(y))
    && r.odd(r.xor(x, y)) == (r.odd(x) != r.odd(y))
  }

  /** A step loses nothing: the polynomial shows that a one fell out. */
  ghost predicate LossLaw<W>(r: Register<W>, x: W) {
    && r.xor(r.down(x), r.poly) != r.zero
    && (!r.odd(x) && r.down(x) == r.zero ==> x == r.zero)
  }

  ghost predicate UpLaw<W>(r: Register<W>, x: W) {
    && r.xor(r.up(r.down(x)), r.load(r.odd(x))) == x
    && !r.odd(r.up(x))
    && (r.width > 0 && DownN(r, x, r.width - 1) == r.zero ==> r.down(r.up(x)) == x)
  }

  ghost predicate LoadLaws<W>(r: Register<W>) {
    && r.down(r.zero) == r.zero
    && !r.odd(r.zero)
    && r.load(false) == r.zero
    && r.down(r.load(true)) == r.zero
    && r.odd(r.load(true))
  }

  ghost predicate PlaceLaw<W>(r: Register<W>, a: Byte, b: Byte) {
    && DownN(r, r.place(a), 8) == r.zero
    && (r.place(a) == r.place(b) ==> a == b)
  }

  ghost predicate Laws<W(!new)>(r: Register<W>) {
    && r.width >= 8
    && (forall x, y, z :: XorLaw(r, x, y, z))
    && (forall x, y :: DownLaw(r, x, y))
    && (forall x :: LossLaw(r, x))
    && (forall x :: UpLaw(r, x))
    && LoadLaws(r)
    && (forall a, b :: PlaceLaw(r, a, b))
  }

  /** One step of the register. */
  function Step<W>(r: Register<W>, c: W): W {
    if r.odd(c) then r.xor(r.down(c), r.poly) else r.down(c)
  }

  function StepN<W>(r: Register<W>, c: W, n: nat): W
    decreases n, c
  {
    if n == 0 then c else StepN(r, Step(r, c), n - 1)
  }

  function DownN<W>(r: Register<W>, c: W, n: nat): W
    decreases n, c
  {
    if n == 0 then c else DownN(r, r.down(c), n - 1)
  }

  /** The register after the message bits `bits`, starting from `c`. */
  function Run<W>(r: Register<W>, c: W, bits: seq<bool>): W
    decreases |bits|
  {
    if bits == [] then c else Run(r, Step(r, r.xor(c, r.load(bits[0]))), bits[1..])
  }

  /** The bits as one word, the first of them at the loading end. */
  function Pack<W>(r: Register<W>, bits: seq<bool>): W {
    if bits == [] then r.zero else r.xor(r.up(Pack(r, bits[1..])), r.load(bits[0]))
  }

  /** The `n` places of a word nearest the loading end. */
  function Unpack<W>(r: Register<W>, w: W, n: nat): (bits: seq<bool>)
    ensures |bits| == n
    decreases n, w
  {
    if n == 0 then [] else [r.odd(w)] + Unpack(r, r.down(w), n - 1)
  }

  /** The bits of a message in the order they are sent. */
  function ByteBits<W>(r: Register<W>, b: Byte): (bits: seq<bool>)
    ensures |bits| == 8
  {
    Unpack(r, r.place(b), 8)
  }

  function Bits<W>(r: Register<W>, bytes: seq<Byte>): (bits: seq<bool>)
    ensures |bits| == 8 * |bytes|
  {
    if bytes == [] then [] else ByteBits(r, bytes[0]) + Bits(r, bytes[1..])
  }

  // ----- runs -----

  lemma {:induction false} RunConcat<W>(r: Register<W>, c: W, u: seq<bool>, v: seq<bool>)
    ensures Run(r, c, u + v) == Run(r, Run(r, c, u), v)
    decreases |u|
  {
    if u == [] {
      assert u + v == v;
    } else {
      assert (u + v)[1..] == u[1..] + v;
      RunConcat(r, Step(r, r.xor(c, r.load(u[0]))), u[1..], v);
    }
  }

  lemma StepLinear<W(!new)>(r: Register<W>, x: W, y: W)
    requires Laws(r)
    ensures Step(r, r.xor(x, y)) == r.xor(Step(r, x), Step(r, y))
  {
    var dx, dy, p := r.down(x), r.down(y), r.poly;
    assert DownLaw(r, x, y);
    assert XorLaw(r, dx, dy, p) && XorLaw(r, dx, p, dy) && XorLaw(r, dy, p, p);
    assert XorLaw(r, dx, p, r.xor(dy, p)) && XorLaw(r, p, r.xor(dy, p), p) && XorLaw(r, p, dy, p);
    assert r.xor(p, r.xor(dy, p)) == dy by {
      assert XorLaw(r, dy, p, p) && XorLaw(r, p, r.xor(dy, p), dy) && XorLaw(r, dy, dy, dy);
    }
  }

  lemma {:induction false} StepNLinear<W(!new)>(r: Register<W>, x: W, y: W, n: nat)
    requires Laws(r)
    ensures StepN(r, r.xor(x, y), n) == r.xor(StepN(r, x, n), StepN(r, y, n))
    decreases n
  {
    if n > 0 {
      StepLinear(r, x, y);
      StepNLinear(r, Step(r, x), Step(r, y), n - 1);
    }
  }

  lemma {:induction false} StepNLosesNothing<W(!new)>(r: Register<W>, x: W, n: nat)
    requires Laws(r)
    requires StepN(r, x, n) == r.zero
    ensures x == r.zero
    decreases n
  {
    if n > 0 {
      StepNLosesNothing(r, Step(r, x), n - 1);
      assert LossLaw(r, x);
    }
  }

  lemma {:induction false} StepNZero<W(!new)>(r: Register<W>, n: nat)
    requires Laws(r)
    ensures StepN(r, r.zero, n) == r.zero
  {
    if n > 0 {
      StepNZero(r, n - 1);
    }
  }

  /** Without a one falling out, stepping is shifting. */
  predicate LowZeros<W>(r: Register<W>, w: W, n: nat)
    decreases n, w
  {
    n == 0 || (!r.odd(w) && LowZeros(r, r.down(w), n - 1))
  }

  lemma {:induction false} StepsOfLowZeros<W>(r: Register<W>, w: W, n: nat)
    requires LowZeros(r, w, n)
    ensures StepN(r, w, n) == DownN(r, w, n)
    decreases n
  {
    if n > 0 {
      StepsOfLowZeros(r, r.down(w), n - 1);
    }
  }

  /** `n` steps of a word whose last `n` places are split off into `lo`. */
  lemma StepsOfSplit<W(!new)>(r: Register<W>, hi: W, lo: W, n: nat)
    requires Laws(r) && LowZeros(r, hi, n)
    ensures StepN(r, r.xor(hi, lo), n) == r.xor(DownN(r, hi, n), StepN(r, lo, n))
  {
    StepNLinear(r, hi, lo, n);
    StepsOfLowZeros(r, hi, n);
  }

  // ----- loading a whole word -----

  lemma {:induction false} DownNZero<W(!new)>(r: Register<W>, n: nat)
    requires Laws(r)
    ensures DownN(r, r.zero, n) == r.zero
  {
    if n > 0 {
      DownNZero(r, n - 1);
    }
  }

  /** A word that `k` shifts empty is emptied by more shifts. */
  lemma {:induction false} DownNMore<W(!new)>(r: Register<W>, w: W, k: nat, n: nat)
    requires Laws(r) && k <= n && DownN(r, w, k) == r.zero
    ensures DownN(r, w, n) == r.zero
    decreases k
  {
    if k == 0 {
      DownNZero(r, n);
    } else {
      DownNMore(r, r.down(w), k - 1, n - 1);
    }
  }

  /** Shifting up and loading a bit is undone by one step, as long as there is room. */
  lemma PushLaws<W(!new)>(r: Register<W>, w: W, k: nat, bit: bool)
    requires Laws(r) && k < r.width && DownN(r, w, k) == r.zero
    ensures r.down(r.up(w)) == w && Step(r, r.up(w)) == w
    ensures DownN(r, r.xor(r.up(w), r.load(bit)), k + 1) == r.zero
    ensures r.xor(r.up(w), r.load(bit)) == r.zero ==> w == r.zero && !bit
  {
    DownNMore(r, w, k, r.width - 1);
    assert UpLaw(r, w);
    assert DownLaw(r, r.up(w), r.load(bit));
    assert XorLaw(r, w, w, w) && XorLaw(r, r.up(w), w, w);
    assert r.down(r.load(bit)) == r.zero && r.odd(r.load(bit)) == bit;
  }

  lemma {:induction false} PackFits<W(!new)>(r: Register<W>, bits: seq<bool>)
    requires Laws(r) && |bits| <= r.width
    ensures DownN(r, Pack(r, bits), |bits|) == r.zero
  {
    if bits != [] {
      PackFits(r, bits[1..]);
      PushLaws(r, Pack(r, bits[1..]), |bits| - 1, bits[0]);
    }
  }

  lemma {:induction false} PackZero<W(!new)>(r: Register<W>, bits: seq<bool>)
    requires Laws(r) && |bits| <= r.width
    requires Pack(r, bits) == r.zero
    ensures forall i :: 0 <= i < |bits| ==> !bits[i]
  {
    if bits != [] {
      PackFits(r, bits[1..]);
      PushLaws(r, Pack(r, bits[1..]), |bits| - 1, bits[0]);
      PackZero(r, bits[1..]);
    }
  }

  lemma {:induction false} PackUnpack<W(!new)>(r: Register<W>, w: W, n: nat)
    requires Laws(r) && DownN(r, w, n) == r.zero
    ensures Pack(r, Unpack(r, w, n)) == w
    decreases n
  {
    if n > 0 {
      PackUnpack(r, r.down(w), n - 1);
      assert UpLaw(r, w);
      assert Unpack(r, w, n)[1..] == Unpack(r, r.down(w), n - 1);
    }
  }

  /** Feeding bits one at a time is loading them all at once and stepping. */
  lemma {:induction false} RunIsLoadAndStep<W(!new)>(r: Register<W>, c: W, bits: seq<bool>)
    requires Laws(r) && |bits| <= r.width
    ensures Run(r, c, bits) == StepN(r, r.xor(c, Pack(r, bits)), |bits|)
    decreases |bits|
  {
    if bits == [] {
      assert XorLaw(r, c, c, c);
    } else {
      var rest, n, c' := bits[1..], |bits| - 1, Step(r, r.xor(c, r.load(bits[0])));
      var p := Pack(r, rest);
      RunIsLoadAndStep(r, c', rest);
      assert Run(r, c, bits) == StepN(r, r.xor(c', p), n);
      PackFits(r, rest);
      StepOfLoaded(r, c, p, n, bits[0]);
      assert StepN(r, r.xor(c, Pack(r, bits)), n + 1) == StepN(r, r.xor(c', p), n);
    }
  }

  lemma StepOfLoaded<W(!new)>(r: Register<W>, c: W, p: W, k: nat, bit: bool)
    requires Laws(r) && k < r.width && DownN(r, p, k) == r.zero
    ensures Step(r, r.xor(c, r.xor(r.up(p), r.load(bit)))) == r.xor(Step(r, r.xor(c, r.load(bit))), p)
  {
    var b, u := r.load(bit), r.up(p);
    assert XorLaw(r, u, b, b) && XorLaw(r, c, b, u);
    StepLinear(r, r.xor(c, b), u);
    PushLaws(r, p, k, bit);
  }

  /** A byte's bits take the register where eight steps from the placed byte take it. */
  lemma RunByte<W(!new)>(r: Register<W>, c: W, b: Byte)
    requires Laws(r)
    ensures Run(r, c, ByteBits(r, b)) == StepN(r, r.xor(c, r.place(b)), 8)
  {
    assert PlaceLaw(r, b, b);
    PackUnpack(r, r.place(b), 8);
    RunIsLoadAndStep(r, c, ByteBits(r, b));
  }

  /** A byte loop: `next` applied to the register and each byte of the message in turn. */
  function Fold<W>(next: (W, Byte) -> W, c: W, message: seq<Byte>): W
    decreases |message|
  {
    if message == [] then c else Fold(next, next(c, message[0]), message[1..])
  }

  ghost predicate EightSteps<W>(r: Register<W>, next: (W, Byte) -> W, c: W, b: Byte) {
    next(c, b) == StepN(r, r.xor(c, r.place(b)), 8)
  }

  /** A byte loop whose body is eight steps computes what the bit-serial register computes. */
  lemma {:induction false} FoldIsRun<W(!new)>(r: Register<W>, next: (W, Byte) -> W, c: W, message: seq<Byte>)
    requires Laws(r)
    requires forall c, b :: EightSteps(r, next, c, b)
    ensures Fold(next, c, message) == Run(r, c, Bits(r, message))
    decreases |message|
  {
    if message != [] {
      var b, rest := message[0], message[1..];
      FoldIsRun(r, next, next(c, b), rest);
      assert EightSteps(r, next, c, b);
      RunByte(r, c, b);
      RunConcat(r, c, ByteBits(r, b), Bits(r, rest));
    }
  }

  /** The registers of a byte loop, one after the other. */
  ghost predicate Passes<W>(next: (W, Byte) -> W, message: seq<Byte>, crcs: seq<W>) {
    |crcs| == |message| + 1 && forall k :: 0 <= k < |message| ==> crcs[k + 1] == next(crcs[k], message[k])
  }

  lemma {:induction false} FoldPasses<W>(next: (W, Byte) -> W, message: seq<Byte>, crcs: seq<W>)
    requires Passes(next, message, crcs)
    ensures Fold(next, crcs[0], message) == crcs[|message|]
    decreases |message|
  {
    if message != [] {
      assert crcs[0 + 1] == next(crcs[0], message[0]);
      FoldPasses(next, message[1..], crcs[1..]);
    }
  }

  lemma {:induction false} FourSteps<W>(r: Register<W>, c: W, n: nat)
    ensures StepN(r, c, n + 4) == StepN(r, Step(r, Step(r, Step(r, Step(r, c)))), n)
  {
    hide Step;
    var c2 := Step(r, Step(r, c));
    assert StepN(r, c, n + 4) == StepN(r, Step(r, c), n + 3) == StepN(r, c2, n + 2) == StepN(r, Step(r, c2), n + 1);
  }

  lemma ByteBitsInjective<W(!new)>(r: Register<W>, a: Byte, b: Byte)
    requires Laws(r) && ByteBits(r, a) == ByteBits(r, b)
    ensures a == b
  {
    assert PlaceLaw(r, a, b) && PlaceLaw(r, b, b);
    PackUnpack(r, r.place(a), 8);
    PackUnpack(r, r.place(b), 8);
  }

  lemma {:induction false} BitsInjective<W(!new)>(r: Register<W>, u: seq<Byte>, v: seq<Byte>)
    requires Laws(r) && |u| == |v| && Bits(r, u) == Bits(r, v)
    ensures u == v
  {
    if u != [] {
      assert Bits(r, u)[..8] == ByteBits(r, u[0]) && Bits(r, v)[..8] == ByteBits(r, v[0]);
      assert Bits(r, u)[8..] == Bits(r, u[1..]) && Bits(r, v)[8..] == Bits(r, v[1..]);
      ByteBitsInjective(r, u[0], v[0]);
      BitsInjective(r, u[1..], v[1..]);
    }
  }

  // ----- a word as the end of its message -----

  lemma {:induction false} DownNLinear<W(!new)>(r: Register<W>, x: W, y: W, n: nat)
    requires Laws(r)
    ensures DownN(r, r.xor(x, y), n) == r.xor(DownN(r, x, n), DownN(r, y, n))
    decreases n
  {
    if n > 0 {
      assert DownLaw(r, x, y);
      DownNLinear(r, r.down(x), r.down(y), n - 1);
    }
  }

  /** What lies beyond the `n` places nearest the loading end does not matter to them. */
  lemma {:induction false} UnpackNearest<W(!new)>(r: Register<W>, near: W, far: W, n: nat)
    requires Laws(r) && LowZeros(r, far, n)
    ensures Unpack(r, r.xor(near, far), n) == Unpack(r, near, n)
    decreases n
  {
    if n > 0 {
      assert DownLaw(r, near, far);
      UnpackNearest(r, r.down(near), r.down(far), n - 1);
    }
  }

  lemma {:induction false} UnpackSplit<W>(r: Register<W>, w: W, m: nat, n: nat)
    ensures Unpack(r, w, m + n) == Unpack(r, w, m) + Unpack(r, DownN(r, w, m), n)
    decreases m
  {
    if m > 0 {
      UnpackSplit(r, r.down(w), m - 1, n);
    }
  }

  /** The byte nearest the loading end is the first eight bits of a word; the rest of the word follows. */
  lemma {:induction false} FirstByteOfWord<W(!new)>(r: Register<W>, b: Byte, far: W, n: nat)
    requires Laws(r) && LowZeros(r, far, 8)
    ensures Unpack(r, r.xor(r.place(b), far), 8 + n) == ByteBits(r, b) + Unpack(r, DownN(r, far, 8), n)
  {
    var w := r.xor(r.place(b), far);
    UnpackSplit(r, w, 8, n);
    UnpackNearest(r, r.place(b), far, 8);
    DownNLinear(r, r.place(b), far, 8);
    assert PlaceLaw(r, b, b) && XorLaw(r, DownN(r, far, 8), far, far);
  }

  /** Feeding a whole word. */
  lemma {:induction false} RunOfWord<W(!new)>(r: Register<W>, c: W, w: W)
    requires Laws(r) && DownN(r, w, r.width) == r.zero
    ensures Run(r, c, Unpack(r, w, r.width)) == StepN(r, r.xor(c, w), r.width)
  {
    PackUnpack(r, w, r.width);
    RunIsLoadAndStep(r, c, Unpack(r, w, r.width));
  }

  lemma {:induction false} BitsConcat<W>(r: Register<W>, u: seq<Byte>, v: seq<Byte>)
    ensures Bits(r, u + v) == Bits(r, u) + Bits(r, v)
    decreases |u|
  {
    if u == [] {
      assert u + v == v;
    } else {
      assert (u + v)[1..] == u[1..] + v;
      BitsConcat(r, u[1..], v);
    }
  }

  // ----- bursts -----

  /** `u` and `v` agree outside the `width` bits that start at `start`. */
  ghost predicate DifferOnlyWithin(u: seq<bool>, v: seq<bool>, start: nat, width: nat) {
    && |u| == |v|
    && forall i :: 0 <= i < |u| && !(start <= i < start + width) ==> u[i] == v[i]
  }

  function Difference(u: seq<bool>, v: seq<bool>): (w: seq<bool>)
    requires |u| == |v|
    ensures |w| == |u| && forall i :: 0 <= i < |w| ==> w[i] == (u[i] != v[i])
  {
    seq(|u|, i requires 0 <= i < |u| => u[i] != v[i])
  }

  lemma XorOfLoaded<W(!new)>(r: Register<W>, c: W, d: W, a: bool, b: bool)
    requires Laws(r)
    ensures r.xor(r.xor(c, r.load(a)), r.xor(d, r.load(b))) == r.xor(r.xor(c, d), r.load(a != b))
  {
    var x, y := r.load(a), r.load(b);
    assert XorLaw(r, c, x, r.xor(d, y)) && XorLaw(r, x, r.xor(d, y), x) && XorLaw(r, d, y, x);
    assert XorLaw(r, c, d, r.xor(y, x)) && XorLaw(r, x, y, y) && XorLaw(r, y, x, x);
  }

  /** The difference of two registers is the register of the difference of their messages. */
  lemma {:induction false} RunOfDifference<W(!new)>(r: Register<W>, c: W, d: W, u: seq<bool>, v: seq<bool>)
    requires Laws(r) && |u| == |v|
    ensures r.xor(Run(r, c, u), Run(r, d, v)) == Run(r, r.xor(c, d), Difference(u, v))
    decreases |u|
  {
    if u != [] {
      var c', d' := r.xor(c, r.load(u[0])), r.xor(d, r.load(v[0]));
      RunOfDifference(r, Step(r, c'), Step(r, d'), u[1..], v[1..]);
      StepLinear(r, c', d');
      XorOfLoaded(r, c, d, u[0], v[0]);
      assert Difference(u, v)[1..] == Difference(u[1..], v[1..]);
    }
  }

  lemma {:induction false} RunZeros<W(!new)>(r: Register<W>, c: W, bits: seq<bool>)
    requires Laws(r)
    requires forall i :: 0 <= i < |bits| ==> !bits[i]
    ensures Run(r, c, bits) == StepN(r, c, |bits|)
    decreases |bits|
  {
    if bits != [] {
      assert XorLaw(r, c, c, c);
      RunZeros(r, Step(r, c), bits[1..]);
    }
  }

  /** From zero, a burst no wider than the register leaves it different from zero, whatever zeros surround it. */
  lemma BurstNotZero<W(!new)>(r: Register<W>, before: seq<bool>, burst: seq<bool>, after: seq<bool>)
    requires Laws(r)
    requires forall i :: 0 <= i < |before| ==> !before[i]
    requires forall i :: 0 <= i < |after| ==> !after[i]
    requires |burst| <= r.width && exists i :: 0 <= i < |burst| && burst[i]
    ensures Run(r, r.zero, before + burst + after) != r.zero
  {
    RunConcat(r, r.zero, before + burst, after);
    RunConcat(r, r.zero, before, burst);
    RunZeros(r, r.zero, before);
    StepNZero(r, |before|);
    RunIsLoadAndStep(r, r.zero, burst);
    assert XorLaw(r, Pack(r, burst), r.zero, r.zero);
    RunZeros(r, Run(r, r.zero, burst), after);
    if Run(r, r.zero, before + burst + after) == r.zero {
      StepNLosesNothing(r, Run(r, r.zero, burst), |after|);
      StepNLosesNothing(r, Pack(r, burst), |burst|);
      PackZero(r, burst);
    }
  }

  lemma WindowOfDifference(u: seq<bool>, v: seq<bool>, start: nat, width: nat)
    returns (before: seq<bool>, burst: seq<bool>, after: seq<bool>)
    requires DifferOnlyWithin(u, v, start, width) && u != v
    ensures Difference(u, v) == before + burst + after && |burst| <= width
    ensures forall i :: 0 <= i < |before| ==> !before[i]
    ensures forall i :: 0 <= i < |after| ==> !after[i]
    ensures exists i :: 0 <= i < |burst| && burst[i]
  {
    var w := Difference(u, v);
    var k :| 0 <= k < |u| && u[k] != v[k];
    NoDifferenceOutside(u, v, start, width);
    hide DifferOnlyWithin, Difference;
    assert w[k] && start <= k < start + width;
    var hi := if start + width < |w| then start + width else |w|;
    before, burst, after := w[..start], w[start..hi], w[hi..];
    SplitInThree(w, start, hi);
    forall i | 0 <= i < |after| ensures !after[i] { assert after[i] == w[hi + i]; }
    assert burst[k - start];
  }

  lemma NoDifferenceOutside(u: seq<bool>, v: seq<bool>, start: nat, width: nat)
    requires DifferOnlyWithin(u, v, start, width)
    ensures forall i :: 0 <= i < |u| && Difference(u, v)[i] ==> start <= i < start + width
  {}

  lemma SplitInThree(w: seq<bool>, lo: nat, hi: nat)
    requires lo <= hi <= |w|
    ensures w == w[..lo] + w[lo..hi] + w[hi..]
  {}

  /** Two different messages that differ only within a window as wide as the register leave different registers. */
  lemma BurstChangesRun<W(!new)>(r: Register<W>, c: W, u: seq<bool>, v: seq<bool>, start: nat)
    requires Laws(r)
    requires DifferOnlyWithin(u, v, start, r.width) && u != v
    ensures Run(r, c, u) != Run(r, c, v)
  {
    var before, burst, after := WindowOfDifference(u, v, start, r.width);
    BurstNotZero(r, before, burst, after);
    RunOfDifference(r, c, c, u, v);
    assert XorLaw(r, c, c, c) && XorLaw(r, Run(r, c, u), c, c);
  }

  /** Different messages of one length that differ only in a window of the register's width leave it different. */
  lemma DetectsBurst<W(!new)>(r: Register<W>, c: W, u: seq<Byte>, v: seq<Byte>, start: nat)
    requires Laws(r) && u != v && |u| == |v|
    requires DifferOnlyWithin(Bits(r, u), Bits(r, v), start, r.width)
    ensures Run(r, c, Bits(r, u)) != Run(r, c, Bits(r, v))
  {
    if Bits(r, u) == Bits(r, v) {
      BitsInjective(r, u, v);
    }
    BurstChangesRun(r, c, Bits(r, u), Bits(r, v), start);
  }
}
