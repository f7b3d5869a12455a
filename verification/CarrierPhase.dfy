/** The closed form that the carrier generator accumulates, and when it does. */
module CarrierPhase {
  import opened Numbers
  import opened Carrier

  const TWO_32: int := 0x1_0000_0000

  /** The carrier's phase after k samples. */
  function Phase(t: Tuning, k: nat): nat
    requires t.sample > 0
  {
    k * t.carrier % t.sample
  }

  ghost predicate Modular(t: Tuning)
    requires t.sample > 0
  {
    forall k: nat :: Div(t, k) == Phase(t, k)
  }

  function Gcd(a: nat, b: nat): nat
    decreases b
  {
    if b == 0 then a else Gcd(b, a % b)
  }

  /** The carrier is not faster than the sample rate, and adding it to the largest phase that occurs
      does not wrap around; or wrapping around does no harm, at one single sample rate. */
  predicate StaysInRange(t: Tuning) {
    || (t.carrier <= t.sample && t.sample + t.carrier - Gcd(t.sample, t.carrier) < TWO_32)
    || t.sample == 0x8000_0000
  }

  // ----- numbers

  lemma Distributed(c: int, k: int)
    ensures k * c == (k - 1) * c + c
  {}

  /** The divisor divides both numbers. */
  lemma {:induction false} GcdDivides(a: nat, b: nat) returns (x: nat, y: nat)
    requires a > 0 || b > 0
    ensures Gcd(a, b) > 0 && a == Gcd(a, b) * x && b == Gcd(a, b) * y
    decreases b
  {
    if b == 0 {
      x, y := 1, 0;
    } else {
      var v;
      y, v := GcdDivides(b, a % b);
      var g, q := Gcd(b, a % b), a / b;
      Division(a, b);
      x := y * q + v;
      Expanded(g, y, q, v);
    }
  }

  lemma Expanded(g: int, y: int, q: int, v: int)
    ensures g * (y * q + v) == (g * y) * q + g * v
  {}

  /** ... and is a combination of them. */
  lemma {:induction false} Bezout(a: nat, b: nat) returns (u: int, v: int)
    ensures a * u + b * v == Gcd(a, b)
    decreases b
  {
    if b == 0 {
      u, v := 1, 0;
    } else {
      var w;
      w, u := Bezout(b, a % b);
      var q := a / b;
      Division(a, b);
      v := w - u * q;
      Combined(a, b, q, a % b, u, w);
    }
  }

  lemma Combined(a: int, b: int, q: int, m: int, u: int, w: int)
    requires a == b * q + m
    ensures a * u + b * (w - u * q) == b * w + m * u
  {
    assert (b * q + m) * u == b * q * u + m * u;
    assert b * (w - u * q) == b * w - b * (u * q);
    assert b * q * u == b * (u * q);
  }

  // ----- the phase

  lemma PhaseDivision(t: Tuning, k: nat) returns (q: int)
    requires t.sample > 0
    ensures k * t.carrier == t.sample * q + Phase(t, k) && 0 <= Phase(t, k) < t.sample
  {
    q := k * t.carrier / t.sample;
  }

  /** One sample on, the phase grows by the carrier, up to whole periods. */
  lemma PhaseNext(t: Tuning, k: nat) returns (q: int)
    requires t.sample > 0 && k > 0
    ensures Phase(t, k - 1) + t.carrier == t.sample * q + Phase(t, k)
  {
    hide Phase;
    var before := PhaseDivision(t, k - 1);
    var after := PhaseDivision(t, k);
    Distributed(t.carrier, k);
    q := after - before;
    assert t.sample * q == t.sample * after - t.sample * before;
  }

  lemma PhaseStarts(t: Tuning)
    requires t.sample > 0
    ensures Phase(t, 0) == 0
  {
    hide Phase;
    var q := PhaseDivision(t, 0);
    Unique(t.sample, q, Phase(t, 0), 0, 0);
  }

  /** Every phase is a multiple of the divisor, so none is nearer to the sample rate than that. */
  lemma PhaseBelow(t: Tuning, k: nat)
    requires t.sample > 0
    ensures Phase(t, k) <= t.sample - Gcd(t.sample, t.carrier)
  {
    hide Phase, Gcd;
    var x, y := GcdDivides(t.sample, t.carrier);
    var g := Gcd(t.sample, t.carrier);
    var q := PhaseDivision(t, k);
    var m := k * y - x * q;
    Factored(g, k, x, y, q);
    assert Phase(t, k) == g * m;
    if m >= x {
      Multiple(g, m - x + 1);
      assert g * m == g * (m - x) + g * x;
      Nonnegative(g, m - x);
    } else {
      assert g * m + g * (x - m) == g * x;
      Multiple(g, x - m);
    }
  }

  lemma Nonnegative(a: int, b: int)
    requires a >= 0 && b >= 0
    ensures a * b >= 0
  {}

  lemma Factored(g: int, k: int, x: int, y: int, q: int)
    ensures k * (g * y) - (g * x) * q == g * (k * y - x * q)
  {}

  /** That phase does occur. */
  lemma PhaseReached(t: Tuning) returns (k: nat)
    requires t.sample > 0
    ensures Phase(t, k) == t.sample - Gcd(t.sample, t.carrier)
  {
    hide Phase, Gcd;
    var n, c, g := t.sample, t.carrier, Gcd(t.sample, t.carrier);
    var x, y := GcdDivides(n, c);
    Multiple(g, x);
    var u, v := Bezout(n, c);
    var m := -v / n;
    Division(-v, n);
    k := -v % n;
    Turned(n, c, u, v, m, k, g);
    var q := PhaseDivision(t, k);
    PositiveFactor(g, x, n);
    Unique(n, q, Phase(t, k), u - m * c - 1, n - g);
  }

  lemma PositiveFactor(g: int, x: int, n: int)
    requires n == g * x && n > 0 && g > 0
    ensures g <= n
  {
    Multiple(g, x);
    if x <= 0 { Nonnegative(g, -x); }
  }

  lemma Turned(n: int, c: int, u: int, v: int, m: int, k: int, g: int)
    requires -v == n * m + k && n * u + c * v == g
    ensures k * c == n * (u - m * c - 1) + (n - g)
  {
    assert k * c == -(c * v) - (n * m) * c by {
      assert k == -v - n * m;
      assert (-v - n * m) * c == -(v * c) - (n * m) * c;
    }
    assert n * (u - m * c - 1) == n * u - n * (m * c) - n;
    assert (n * m) * c == n * (m * c);
  }

  // ----- the accumulator

  lemma AdvancedInRange(t: Tuning, div: Uint32)
    requires div < t.sample && t.carrier <= t.sample && div + t.carrier < TWO_32
    ensures Advanced(t, div) == if div + t.carrier >= t.sample then div + t.carrier - t.sample else div + t.carrier
  {}

  lemma AdvancedAtHalf(t: Tuning, div: Uint32)
    requires t.sample == 0x8000_0000 && div < t.sample
    ensures var d := Advanced(t, div);
            && d < t.sample
            && (d == div + t.carrier || d == div + t.carrier - t.sample || d == div + t.carrier - 2 * t.sample)
  {}

  lemma {:induction false} InRangeIsModular(t: Tuning, k: nat)
    requires t.sample > 0 && StaysInRange(t)
    ensures Div(t, k) == Phase(t, k) < t.sample
  {
    hide Phase, Advanced, Gcd;
    if k == 0 {
      PhaseStarts(t);
    } else {
      InRangeIsModular(t, k - 1);
      PhaseBelow(t, k - 1);
      var q := PhaseNext(t, k);
      var after := PhaseDivision(t, k);
      var p := Phase(t, k - 1) + t.carrier;
      if t.sample == 0x8000_0000 {
        AdvancedAtHalf(t, Div(t, k - 1));
        var d := Div(t, k);
        Unique(t.sample, q, Phase(t, k), if d == p then 0 else if d == p - t.sample then 1 else 2, d);
      } else {
        AdvancedInRange(t, Div(t, k - 1));
        Unique(t.sample, q, Phase(t, k), if p >= t.sample then 1 else 0, if p >= t.sample then p - t.sample else p);
      }
    }
  }

  lemma AdvancedWrapped(t: Tuning, div: Uint32)
    requires div < t.sample && div + t.carrier >= TWO_32
    ensures Advanced(t, div) == div + t.carrier - TWO_32
  {}

  /** A modular accumulator that wraps around does so at the one harmless sample rate. */
  lemma WrapsHarmlessly(t: Tuning, k: nat)
    requires t.sample > 0 && Modular(t) && Div(t, k) + t.carrier >= TWO_32
    ensures t.sample == 0x8000_0000
  {
    hide Phase, Advanced, Gcd;
    var q := PhaseNext(t, k + 1);
    var here := PhaseDivision(t, k);
    var after := PhaseDivision(t, k + 1);
    assert Div(t, k) == Phase(t, k) && Div(t, k + 1) == Phase(t, k + 1);
    assert Div(t, k + 1) == Advanced(t, Div(t, k));
    AdvancedWrapped(t, Div(t, k));
    assert t.sample * q == TWO_32;
    SampleOne(t);
    assert t.sample * q < 3 * t.sample;
    QuotientSmall(t.sample, q);
  }

  /** Already the first sample shows that the carrier is less than twice the sample rate. */
  lemma SampleOne(t: Tuning)
    requires t.sample > 0 && Modular(t)
    ensures t.carrier < 2 * t.sample
  {
    hide Phase;
    var q := PhaseDivision(t, 1);
    assert Div(t, 1) == Phase(t, 1) && Div(t, 1) == Advanced(t, Div(t, 0));
  }

  lemma QuotientSmall(n: int, q: int)
    requires 0 < n < TWO_32 && n * q == TWO_32 && n * q < 3 * n
    ensures n == 0x8000_0000
  {
    AtLeastThrice(n, q);
    assert q == 1 || q == 2;
  }

  lemma AtLeastThrice(n: int, q: int)
    requires n > 0
    ensures (q >= 3 ==> n * q >= 3 * n) && (q <= 0 ==> n * q <= 0)
  {
    if q >= 3 {
      Nonnegative(n, q - 3);
      assert n * q == n * (q - 3) + 3 * n;
    } else if q <= 0 {
      Nonnegative(n, -q);
    }
  }

  /** A modular accumulator with a faster carrier grows with every sample until it wraps around. */
  lemma {:induction false} GrowsUntilWrap(t: Tuning, k: nat)
    requires 0 < t.sample < t.carrier && Modular(t)
    ensures (exists j :: 0 <= j < k && Div(t, j) + t.carrier >= TWO_32) || k <= Div(t, k)
  {
    hide Phase, Modular, Advanced;
    if k > 0 {
      GrowsUntilWrap(t, k - 1);
      if Div(t, k - 1) + t.carrier < TWO_32 {
        assert Div(t, k) == Advanced(t, Div(t, k - 1));
        StepGrows(t, Div(t, k - 1));
      }
    }
  }

  lemma StepGrows(t: Tuning, div: Uint32)
    requires 0 < t.sample < t.carrier && div + t.carrier < TWO_32
    ensures div < Advanced(t, div)
  {}

  /** The accumulator is the phase k * carrier modulo the sample rate, after any number of samples,
      exactly under this condition; the carrier being slower than the sample rate is not quite
      enough, but is for all sample rates below 2^31. */
  lemma PhaseIsModular(t: Tuning)
    requires t.sample > 0
    ensures Modular(t) <==> StaysInRange(t)
    ensures t.carrier <= t.sample < 0x8000_0000 ==> StaysInRange(t)
  {
    hide Phase, Gcd, Advanced;
    var x, y := GcdDivides(t.sample, t.carrier);
    if StaysInRange(t) {
      forall k: nat ensures Div(t, k) == Phase(t, k) { InRangeIsModular(t, k); }
    } else if Modular(t) {
      if t.carrier <= t.sample {
        var k := PhaseReached(t);
        assert Div(t, k) == Phase(t, k);
        WrapsHarmlessly(t, k);
      } else {
        GrowsUntilWrap(t, t.sample);
        var q := PhaseDivision(t, t.sample);
        assert Div(t, t.sample) == Phase(t, t.sample);
        var j :| 0 <= j < t.sample && Div(t, j) + t.carrier >= TWO_32;
        WrapsHarmlessly(t, j);
      }
    }
  }

  // ----- how fast is too fast

  /** A carrier faster than the sample rate, and a slower one close to 2^32. */
  lemma FastCarriersFail()
    ensures !Modular(Tuning(524288, 1000000, 1)) && !Modular(Tuning(0xFFFF_FFFF, 0xFFFF_FFFE, 1))
  {
    PhaseIsModular(Tuning(524288, 1000000, 1));
    PhaseIsModular(Tuning(0xFFFF_FFFF, 0xFFFF_FFFE, 1));
    GcdOfNeighbours(0xFFFF_FFFE);
  }

  lemma GcdOfNeighbours(a: nat)
    requires a > 1
    ensures Gcd(a + 1, a) == 1
  {
    hide Gcd;
    var q, m := (a + 1) / a, (a + 1) % a;
    assert a + 1 == q * a + m;
    assert q == 1 && m == 1;
    GcdStep(a + 1, a);
    GcdStep(a, 1);
    GcdStep(1, 0);
  }

  lemma GcdStep(a: nat, b: nat)
    ensures Gcd(a, b) == if b == 0 then a else Gcd(b, a % b)
  {}

  // ----- the carrier is on and off

  /** The on time is at least one sample, and one sample less than the whole second at most. */
  lemma DutyIsProper(sample: Uint32, dutyCycle: Uint32)
    requires sample > 1
    ensures 1 <= DutyOf(sample, dutyCycle) < sample
  {}

  /** After one second the phase is where it started. */
  lemma PhaseReturns(t: Tuning)
    requires t.sample > 0
    ensures Phase(t, t.sample) == 0
  {
    hide Phase;
    var q := PhaseDivision(t, t.sample);
    Unique(t.sample, q, Phase(t, t.sample), t.carrier, 0);
  }

  /** Whatever the duty cycle, the carrier is on at some samples, counted from 1; and it is off at others exactly if the
      on time leaves room for the largest phase, which it does if the two frequencies have no common
      divisor. */
  lemma CarrierSwitches(sample: Uint32, carrier: Uint32, dutyCycle: Uint32)
    requires sample > 1 && StaysInRange(Tuning(sample, carrier, DutyOf(sample, dutyCycle)))
    ensures var t := Tuning(sample, carrier, DutyOf(sample, dutyCycle));
            && (exists k: nat | k >= 1 :: Level(t, k) == 255)
            && ((exists k: nat | k >= 1 :: Level(t, k) == 0) <==> t.duty <= sample - Gcd(sample, carrier))
            && (Gcd(sample, carrier) == 1 ==> exists k: nat | k >= 1 :: Level(t, k) == 0)
  {
    hide Phase, Gcd, Advanced, DutyOf, StaysInRange;
    var t := Tuning(sample, carrier, DutyOf(sample, dutyCycle));
    DutyIsProper(sample, dutyCycle);
    PhaseReturns(t);
    InRangeIsModular(t, sample);
    assert Level(t, sample) == 255 && Level(t, 0) == 255;
    var k := PhaseReached(t);
    InRangeIsModular(t, k);
    if t.duty <= sample - Gcd(sample, carrier) {
      assert Level(t, k) == 0;
    } else if exists j: nat | j >= 1 :: Level(t, j) == 0 {
      var j: nat :| Level(t, j) == 0;
      InRangeIsModular(t, j);
      PhaseBelow(t, j);
    }
  }

  /** The setting of the second driver: half the sample rate, and half of the time on. */
  lemma HalfRateSwitches(carrier: Uint32)
    requires 2 <= carrier && 2 * carrier * 50 < TWO_32
    ensures var t := Tuning(2 * carrier, carrier, DutyOf(2 * carrier, 50));
            t.duty == carrier && exists k: nat | k >= 1 :: Level(t, k) == 0
  {
    hide DutyOf;
    HalfDuty(carrier);
    var t := Tuning(2 * carrier, carrier, carrier);
    assert Div(t, 0) == 0;
    assert Div(t, 1) == carrier;
    assert Level(t, 1) == 0;
  }

  lemma HalfDuty(carrier: Uint32)
    requires 2 <= carrier && 2 * carrier * 50 < TWO_32
    ensures DutyOf(2 * carrier, 50) == carrier
  {
    assert 2 * carrier * 50 == 100 * carrier;
  }

  // ----- the samples

  /** Where pulse i begins, in samples. */
  function Start(t: Tuning, pulses: seq<int>, i: nat): nat
    requires i <= |pulses|
  {
    if i == 0 then 0 else Start(t, pulses, i - 1) + Width(t, pulses[i - 1])
  }

  lemma {:induction false} StartIsLength(t: Tuning, pulses: seq<int>, i: nat)
    requires i <= |pulses|
    ensures Start(t, pulses, i) == |Samples(t, pulses[..i])|
  {
    if i > 0 {
      StartIsLength(t, pulses, i - 1);
      assert pulses[..i][..i - 1] == pulses[..i - 1];
    }
  }

  /** Sample k, counted from 1, is on exactly if it lies in a pulse, not a space, and the carrier's
      phase is in its on time: whatever came before it only shows in k. */
  lemma SampleIsClosedForm(t: Tuning, pulses: seq<int>, i: nat, k: nat)
    requires t.sample > 0 && StaysInRange(t)
    requires i < |pulses| && Start(t, pulses, i) < k <= Start(t, pulses, i + 1)
    ensures k <= |Samples(t, pulses)|
    ensures Samples(t, pulses)[k - 1] == if IsPulse(i) && Phase(t, k) < t.duty then 255 else 0
  {
    hide Phase, Samples, Advanced, Width, IsPulse, StaysInRange;
    StartIsLength(t, pulses, i);
    StartIsLength(t, pulses, i + 1);
    SamplesGrow(t, pulses, i + 1);
    InRangeIsModular(t, k);
    SamplesNext(t, pulses, i);
    var before := Samples(t, pulses[..i]);
    assert Samples(t, pulses)[k - 1] == Samples(t, pulses[..i + 1])[k - 1];
  }
}
