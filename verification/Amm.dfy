/**
 * Constant-product pool arithmetic (pkg/token/amm.go): the fee and output
 * floors, pool safety over runs of swaps, and splitting a swap.
 */
module Amm {
  import opened Wrappers

  /** Denominator of the fee multiplier. */
  const SCALE: nat := 1_000_000

  /** feeMult: the share of the input that counts, in millionths. */
  type FeeMultiplier = m: nat | m <= SCALE

  /** The two reserves. */
  datatype Pool = Pool(apt: nat, npt: nat)

  /** Input after the fee, rounded down. */
  function AfterFee(input: nat, m: FeeMultiplier): (f: nat)
    ensures f <= input
  {
    FeeBound(input, m);
    input * m / SCALE
  }

  lemma FeeBound(input: nat, m: FeeMultiplier)
    ensures input * m / SCALE <= input
  {
    assert input * m <= input * SCALE;
  }

  /** The output of the product formula, rounded down; None when the denominator is zero. */
  function Formula(reserveIn: nat, reserveOut: nat, effective: nat): Option<nat> {
    if reserveIn + effective == 0 then None else Some(reserveOut * effective / (reserveIn + effective))
  }

  datatype Quote = Amount(value: nat) | ZeroAmount

  /** GetSwapOutput. */
  function GetSwapOutput(reserveIn: nat, reserveOut: nat, input: nat, m: FeeMultiplier): Quote {
    if input == 0 then ZeroAmount
    else match Formula(reserveIn, reserveOut, AfterFee(input, m))
      case None => ZeroAmount
      case Some(v) => Amount(v)
  }

  /** The output a swap pays; a swap that would pay nothing is refused. */
  function SwapOutput(reserveIn: nat, reserveOut: nat, input: nat, m: FeeMultiplier): Option<nat> {
    match GetSwapOutput(reserveIn, reserveOut, input, m)
    case ZeroAmount => None
    case Amount(v) => if v == 0 then None else Some(v)
  }

  // ---- Arithmetic ----

  lemma DivLower(n: nat, d: nat)
    requires d > 0
    ensures n / d * d <= n < n / d * d + d
  {
  }

  lemma MulMono(a: nat, b: nat, c: nat)
    ensures a <= b ==> a * c <= b * c && c * a <= c * b
  {
  }

  /** A quotient is at least any number whose product fits. */
  lemma DivAtLeast(q: nat, n: nat, d: nat)
    requires d > 0 && q * d <= n
    ensures q <= n / d
  {
    DivLower(n, d);
    MulMono(n / d + 1, q, d);
    assert (n / d + 1) * d == n / d * d + d;
  }

  /** What the output floor guarantees: out * (x + f) <= y * f. */
  lemma FormulaBound(x: nat, y: nat, f: nat)
    requires x + f > 0
    ensures Formula(x, y, f).value * (x + f) <= y * f
    ensures Formula(x, y, f).value <= y
    ensures x > 0 && y > 0 ==> Formula(x, y, f).value < y
  {
    var o := Formula(x, y, f).value;
    DivLower(y * f, x + f);
    assert y * f == y * (x + f) - y * x;
    MulMono(y, o, x + f);
    MulMono(y + 1, o, x + f);
    assert (y + 1) * (x + f) == y * (x + f) + (x + f);
    assert y * x >= 0 && (x > 0 && y > 0 ==> y * x > 0);
  }

  // ---- The quote in plain numbers ----

  /** A swap of this input pays o: both quotients are rounded down, and an output of zero is none. */
  ghost predicate Pays(x: nat, y: nat, input: nat, m: nat, o: nat) {
    exists f: nat :: PaysOn(x, y, input, m, f, o)
  }

  /** The same, with f for the input less the fee. */
  ghost predicate PaysOn(x: nat, y: nat, input: nat, m: nat, f: nat, o: nat) {
    && f * 1_000_000 <= input * m < (f + 1) * 1_000_000
    && o * (x + f) <= y * f < (o + 1) * (x + f)
    && input > 0 && o > 0
  }

  lemma FloorIs(n: nat, d: nat, q: nat)
    requires d > 0
    ensures q == n / d <==> q * d <= n < (q + 1) * d
  {
    var e := n / d;
    DivLower(n, d);
    assert (e + 1) * d == e * d + d;
    MulMono(q + 1, e, d);
    MulMono(e + 1, q, d);
  }

  /** With f for the input less the fee, a swap pays o exactly when o is the floored quotient and positive. */
  lemma QuoteMeans(x: nat, y: nat, input: nat, m: FeeMultiplier, f: nat)
    requires f * 1_000_000 <= input * m < (f + 1) * 1_000_000
    ensures SwapOutput(x, y, input, m).Some? <==> input > 0 && x + f > 0 && y * f >= x + f
    ensures forall o: nat :: SwapOutput(x, y, input, m) == Some(o) <==> PaysOn(x, y, input, m, f, o)
  {
    FloorIs(input * m, SCALE, f);
    if x + f > 0 {
      FloorIs(y * f, x + f, y * f / (x + f));
      FloorIs(y * f, x + f, 0);
      forall o: nat ensures SwapOutput(x, y, input, m) == Some(o) <==> PaysOn(x, y, input, m, f, o) {
        FloorIs(y * f, x + f, o);
      }
    }
  }

  /** The output is the one number that a swap pays, and there is none exactly when it is refused. */
  lemma OutputPays(x: nat, y: nat, input: nat, m: FeeMultiplier)
    ensures forall o: nat :: SwapOutput(x, y, input, m) == Some(o) <==> Pays(x, y, input, m, o)
  {
    var f := input * m / 1_000_000;
    FloorIs(input * m, 1_000_000, f);
    QuoteMeans(x, y, input, m, f);
    forall o: nat ensures SwapOutput(x, y, input, m) == Some(o) <==> Pays(x, y, input, m, o) {
      if g: nat :| PaysOn(x, y, input, m, g, o) {
        FloorIs(input * m, 1_000_000, g);
      }
    }
  }

  // ---- Pool safety ----

  /** One swap never lowers the product of the reserves. */
  lemma SwapKeepsProduct(x: nat, y: nat, input: nat, m: FeeMultiplier)
    requires SwapOutput(x, y, input, m).Some?
    ensures var o := SwapOutput(x, y, input, m).value;
            o <= y && (x + input) * (y - o) >= x * y && (x > 0 && y > 0 ==> o < y)
  {
    var f := AfterFee(input, m);
    var o := SwapOutput(x, y, input, m).value;
    FormulaBound(x, y, f);
    assert (x + f) * (y - o) == (x + f) * y - o * (x + f);
    assert (x + f) * y == x * y + y * f;
    MulMono(x + f, x + input, y - o);
  }

  datatype Swap = SellAPT(amount: nat) | SellNPT(amount: nat)

  /** One swap against the pool; a refused swap changes nothing. */
  function Apply(p: Pool, s: Swap, m: FeeMultiplier): (q: Pool)
    ensures q.apt * q.npt >= p.apt * p.npt
    ensures p.apt > 0 && p.npt > 0 ==> q.apt > 0 && q.npt > 0
  {
    match s
    case SellAPT(a) =>
      var out := SwapOutput(p.apt, p.npt, a, m);
      if out.None? then p
      else
        SwapKeepsProduct(p.apt, p.npt, a, m);
        Pool(p.apt + a, p.npt - out.value)
    case SellNPT(a) =>
      var out := SwapOutput(p.npt, p.apt, a, m);
      if out.None? then p
      else
        SwapKeepsProduct(p.npt, p.apt, a, m);
        assert (p.apt - out.value) * (p.npt + a) == (p.npt + a) * (p.apt - out.value);
        Pool(p.apt - out.value, p.npt + a)
  }

  /** A swap that pays o moves the input into one reserve and o out of the other; any other swap moves nothing. */
  lemma ApplyMeans(p: Pool, s: Swap, m: FeeMultiplier, o: nat)
    ensures var (x, y) := if s.SellAPT? then (p.apt, p.npt) else (p.npt, p.apt);
            var q := Apply(p, s, m);
            && (Pays(x, y, s.amount, m, o) && s.SellAPT? ==> q.apt == p.apt + s.amount && q.npt + o == p.npt)
            && (Pays(x, y, s.amount, m, o) && s.SellNPT? ==> q.npt == p.npt + s.amount && q.apt + o == p.apt)
            && ((forall k: nat :: !Pays(x, y, s.amount, m, k)) ==> q == p)
  {
    var (x, y) := if s.SellAPT? then (p.apt, p.npt) else (p.npt, p.apt);
    OutputPays(x, y, s.amount, m);
    var out := SwapOutput(x, y, s.amount, m);
    assert out.Some? ==> Pays(x, y, s.amount, m, out.value);
  }

  /** A run of swaps by any traders, in both directions. */
  function ApplyAll(p: Pool, swaps: seq<Swap>, m: FeeMultiplier): Pool
    decreases |swaps|
  {
    if swaps == [] then p else ApplyAll(Apply(p, swaps[0], m), swaps[1..], m)
  }

  /**
   * Over any run: the product never falls, positive reserves stay positive, and
   * the traders together do not end with more of one token and no less of the
   * other (what they gain, the pool has lost).
   */
  lemma {:induction false} PoolSafe(p: Pool, swaps: seq<Swap>, m: FeeMultiplier)
    ensures var q := ApplyAll(p, swaps, m);
            && q.apt * q.npt >= p.apt * p.npt
            && (p.apt > 0 && p.npt > 0 ==> q.apt > 0 && q.npt > 0)
            && (p.apt > 0 && p.npt > 0 ==> !(q.apt < p.apt && q.npt <= p.npt) && !(q.npt < p.npt && q.apt <= p.apt))
    decreases |swaps|
  {
    if swaps != [] {
      PoolSafe(Apply(p, swaps[0], m), swaps[1..], m);
    }
    var q := ApplyAll(p, swaps, m);
    if p.apt > 0 && p.npt > 0 {
      NoFreeLunch(p.apt, p.npt, q.apt, q.npt);
      NoFreeLunch(p.npt, p.apt, q.npt, q.apt);
    }
  }

  lemma NoFreeLunch(x: nat, y: nat, u: nat, v: nat)
    requires x > 0 && y > 0 && u * v >= x * y
    ensures !(u < x && v <= y)
  {
    MulMono(v, y, u);
    MulMono(u + 1, x, y);
    assert (u + 1) * y == u * y + y;
  }

  // ---- Splitting a swap ----

  /** What a swap pays, counting a refused one as zero. */
  function Paid(x: nat, y: nat, input: nat, m: FeeMultiplier): (o: nat)
    ensures o <= y
  {
    var out := SwapOutput(x, y, input, m);
    if out.None? then 0
    else
      FormulaBound(x, y, AfterFee(input, m));
      out.value
  }

  /** That is the one number a swap pays, and zero if there is none. */
  lemma PaidMeans(x: nat, y: nat, input: nat, m: FeeMultiplier, o: nat)
    ensures Paid(x, y, input, m) == o <==>
            Pays(x, y, input, m, o) || (o == 0 && forall k: nat :: !Pays(x, y, input, m, k))
  {
    OutputPays(x, y, input, m);
    var out := SwapOutput(x, y, input, m);
    assert out.Some? ==> Pays(x, y, input, m, out.value);
  }

  /** The fee floor is superadditive. */
  lemma FeeSplit(a: nat, b: nat, m: FeeMultiplier)
    ensures AfterFee(a, m) + AfterFee(b, m) <= AfterFee(a + b, m)
  {
    DivLower(a * m, SCALE);
    DivLower(b * m, SCALE);
    assert (a + b) * m == a * m + b * m;
    DivAtLeast(AfterFee(a, m) + AfterFee(b, m), (a + b) * m, SCALE);
  }

  /** Paid as a quotient. */
  lemma PaidValue(x: nat, y: nat, input: nat, m: FeeMultiplier)
    ensures var f := AfterFee(input, m);
            Paid(x, y, input, m) == if input == 0 || x + f == 0 then 0 else y * f / (x + f)
  {
  }

  lemma PaidBound(x: nat, y: nat, input: nat, m: FeeMultiplier)
    ensures Paid(x, y, input, m) * (x + AfterFee(input, m)) <= y * AfterFee(input, m)
  {
    if Paid(x, y, input, m) > 0 {
      FormulaBound(x, y, AfterFee(input, m));
    }
  }

  /** An amount justified by an effective input e is paid by any larger effective input h. */
  lemma Justified(x: nat, y: nat, q: nat, e: nat, h: nat)
    requires q <= y && e <= h && x + h > 0 && q * (x + e) <= y * e
    ensures q <= y * h / (x + h)
  {
    MulMono(q, y, h - e);
    assert q * (x + h) == q * (x + e) + q * (h - e);
    assert y * h == y * e + y * (h - e);
    DivAtLeast(q, y * h, x + h);
  }

  /** A larger input pays at least as much. */
  lemma PaidMono(x: nat, y: nat, a: nat, b: nat, m: FeeMultiplier)
    requires a <= b
    ensures Paid(x, y, a, m) <= Paid(x, y, b, m)
  {
    var f, g := AfterFee(a, m), AfterFee(b, m);
    FeeSplit(a, b - a, m);
    PaidBound(x, y, a, m);
    PaidValue(x, y, a, m);
    PaidValue(x, y, b, m);
    if Paid(x, y, a, m) > 0 {
      Justified(x, y, Paid(x, y, a, m), f, g);
    }
  }

  /**
   * The algebra of two floors: if the first part pays o of y and the second part
   * pays p of what is left, the whole pays at least o + p.
   */
  lemma TwoParts(x: nat, y: nat, f: nat, g: nat, z: nat, o: nat, p: nat)
    requires o <= y && z >= x + f
    requires o * (x + f) <= y * f
    requires p * (z + g) <= (y - o) * g
    ensures (o + p) * (x + f + g) <= y * (f + g)
  {
    var t := x + f + g;
    // p * t <= p * (z + g) <= (y - o) * g
    MulMono(t, z + g, p);
    assert p * t <= (y - o) * g;
    // o * t == o * (x + f) + o * g <= y * f + o * g
    assert o * t == o * (x + f) + o * g;
    assert (y - o) * g == y * g - o * g;
    assert (o + p) * t == o * t + p * t;
    assert y * (f + g) == y * f + y * g;
  }

  /** Two consecutive swaps pay no more than one swap of the sum. */
  lemma SplitInTwo(x: nat, y: nat, a: nat, b: nat, m: FeeMultiplier)
    requires SwapOutput(x, y, a, m).Some?
    ensures var o := Paid(x, y, a, m); o + Paid(x + a, y - o, b, m) <= Paid(x, y, a + b, m)
  {
    var o := Paid(x, y, a, m);
    var p := Paid(x + a, y - o, b, m);
    var f, g, h := AfterFee(a, m), AfterFee(b, m), AfterFee(a + b, m);
    FeeSplit(a, b, m);
    PaidBound(x, y, a, m);
    PaidBound(x + a, y - o, b, m);
    TwoParts(x, y, f, g, x + a, o, p);
    PaidValue(x, y, a, m);
    PaidValue(x, y, a + b, m);
    Justified(x, y, o + p, f + g, h);
  }

  function Sum(inputs: seq<nat>): nat {
    if inputs == [] then 0 else inputs[0] + Sum(inputs[1..])
  }

  /** Total paid by consecutive swaps in one direction; refused parts pay nothing. */
  function PaidInParts(x: nat, y: nat, inputs: seq<nat>, m: FeeMultiplier): nat
    decreases |inputs|
  {
    if inputs == [] then 0
    else if SwapOutput(x, y, inputs[0], m).None? then PaidInParts(x, y, inputs[1..], m)
    else
      var o := Paid(x, y, inputs[0], m);
      o + PaidInParts(x + inputs[0], y - o, inputs[1..], m)
  }

  /** The same swaps as a run against a pool. */
  function Sells(inputs: seq<nat>): (swaps: seq<Swap>)
    ensures |swaps| == |inputs| && forall i :: 0 <= i < |swaps| ==> swaps[i] == SellAPT(inputs[i])
  {
    if inputs == [] then [] else [SellAPT(inputs[0])] + Sells(inputs[1..])
  }

  /** What the parts are paid is what the pool has lost after them. */
  lemma {:induction false} PartsPaid(x: nat, y: nat, inputs: seq<nat>, m: FeeMultiplier)
    ensures ApplyAll(Pool(x, y), Sells(inputs), m).npt + PaidInParts(x, y, inputs, m) == y
    decreases |inputs|
  {
    if inputs != [] {
      var p := Apply(Pool(x, y), SellAPT(inputs[0]), m);
      assert Sells(inputs)[0] == SellAPT(inputs[0]) && Sells(inputs)[1..] == Sells(inputs[1..]);
      PartsPaid(p.apt, p.npt, inputs[1..], m);
    }
  }

  /** Cutting one input into any number of consecutive swaps never pays more than one swap. */
  lemma {:induction false} SplittingNeverPays(x: nat, y: nat, inputs: seq<nat>, m: FeeMultiplier)
    ensures PaidInParts(x, y, inputs, m) <= Paid(x, y, Sum(inputs), m)
    decreases |inputs|
  {
    if inputs != [] {
      var a, rest := inputs[0], inputs[1..];
      if SwapOutput(x, y, a, m).None? {
        SplittingNeverPays(x, y, rest, m);
        PaidMono(x, y, Sum(rest), a + Sum(rest), m);
      } else {
        var o := Paid(x, y, a, m);
        SplittingNeverPays(x + a, y - o, rest, m);
        SplitInTwo(x, y, a, Sum(rest), m);
      }
    }
  }
}
