/** The carrier generator of plugins/ftdi.c, and the closed form it accumulates. */
module Carrier {

  type Byte = b: int | 0 <= b < 256
  type Uint32 = n: int | 0 <= n < 0x1_0000_0000

  const PULSE_MASK_SIZE: int := 0x100_0000
  const INT_MAX: int := 0x7FFF_FFFF

  function Wrapped(n: int): Uint32 { n % 0x1_0000_0000 }

  /** The samples per second, the carrier's frequency, and how many samples of a carrier period the
      transmitter is on. */
  datatype Tuning = Tuning(sample: Uint32, carrier: Uint32, duty: Uint32)

  /** The on time: a percentage of the sample rate, taken after the product has wrapped around, and
      at least one sample on and one off if there are two. */
  function DutyOf(sample: Uint32, dutyCycle: Uint32): Uint32 {
    var duty := Wrapped(sample * dutyCycle) / 100;
    if duty <= 1 then 1 else if duty >= sample then Wrapped(sample - 1) else duty
  }

  /** The accumulator one sample on. */
  function Advanced(t: Tuning, div: Uint32): Uint32 {
    var d := Wrapped(div + t.carrier);
    if d >= t.sample then d - t.sample else d
  }

  /** The accumulator after k samples. */
  function Div(t: Tuning, k: nat): Uint32 {
    if k == 0 then 0 else Advanced(t, Div(t, k - 1))
  }

  function Level(t: Tuning, k: nat): Byte {
    if Div(t, k) < t.duty then 255 else 0
  }

  /** How many samples a pulse or space takes. */
  function Width(t: Tuning, pulse: int): nat {
    t.sample * (pulse % PULSE_MASK_SIZE) / 1000000
  }

  /** The bytes of one pulse or space that begins after k samples. */
  function Segment(t: Tuning, on: bool, width: nat, k: nat): (s: seq<Byte>)
    ensures |s| == width
    ensures forall j | 0 <= j < width :: s[j] == if on then Level(t, k + 1 + j) else 0
  {
    if width == 0 then [] else Segment(t, on, width - 1, k) + [if on then Level(t, k + width) else 0]
  }

  /** Pulses and spaces take turns, a pulse first. */
  predicate IsPulse(i: nat) { i % 2 == 0 }

  /** All bytes; the phase of the carrier goes on through pulses and spaces alike. */
  function Samples(t: Tuning, pulses: seq<int>): seq<Byte> {
    if pulses == [] then []
    else
      var n := |pulses| - 1;
      var before := Samples(t, pulses[..n]);
      before + Segment(t, IsPulse(n), Width(t, pulses[n]), |before|)
  }

  /** Room for the samples and the byte that ends them, with one to spare. */
  predicate HasRoom(samples: nat, size: nat) {
    samples == 0 || samples + 1 < size
  }

  // ----- the code

  method ModulatePulses(buf: array<Byte>, pulses: seq<int>, sample: Uint32, carrier: Uint32, dutyCycle: Uint32)
    returns (r: int)
    requires buf.Length >= 1
    requires forall i | 0 <= i < |pulses| :: Width(Tuning(sample, carrier, 0), pulses[i]) <= INT_MAX
    modifies buf
    ensures var samples := Samples(Tuning(sample, carrier, DutyOf(sample, dutyCycle)), pulses);
            if HasRoom(|samples|, buf.Length) then r == |samples| + 1 && Written(buf[..], old(buf[..]), samples + [0])
            else r == -1 && Written(buf[..], old(buf[..]), samples[..Limit(|samples|, buf.Length)])
  {
    var duty := Wrapped(sample * dutyCycle) / 100;
    if duty <= 1 {
      duty := 1;
    } else if duty >= sample {
      duty := sample - 1;
    }
    assert duty == DutyOf(sample, dutyCycle);
    hide DutyOf, Samples;
    r := SendPulses(buf, Tuning(sample, carrier, duty), pulses);
  }

  /** The outer loop, over pulses and spaces. */
  method SendPulses(buf: array<Byte>, t: Tuning, pulses: seq<int>) returns (r: int)
    requires buf.Length >= 1
    modifies buf
    ensures var samples := Samples(t, pulses);
            if HasRoom(|samples|, buf.Length) then r == |samples| + 1 && Written(buf[..], old(buf[..]), samples + [0])
            else r == -1 && Written(buf[..], old(buf[..]), samples[..Limit(|samples|, buf.Length)])
  {
    ghost var before := buf[..];
    hide Div, Segment, Width, Samples, IsPulse;
    NoSamples(t);
    assert pulses[..0] == [];
    var idx, div, on := 0, Div(t, 0), false;
    var i := 0;
    while i < |pulses|
      invariant i <= |pulses| && on == !IsPulse(i)
      invariant Written(buf[..], before, Samples(t, pulses[..i])) && idx == |Samples(t, pulses[..i])|
      invariant div == Div(t, idx) && HasRoom(idx, buf.Length)
    {
      on := !on;
      SamplesNext(t, pulses, i);
      SamplesGrow(t, pulses, i + 1);
      var ok;
      ok, idx, div := SendSegment(buf, t, idx, div, on, Width(t, pulses[i]), before, Samples(t, pulses[..i]));
      if !ok {
        ShortPrefix(Samples(t, pulses[..i + 1]), Samples(t, pulses), buf.Length);
        return -1;
      }
      i := i + 1;
    }
    assert pulses[..i] == pulses;
    ghost var now := buf[..];
    buf[idx] := 0;
    OneMore(now, before, Samples(t, pulses), 0);
    assert buf[..] == now[idx := 0];
    r := idx + 1;
  }

  lemma ShortPrefix(a: seq<Byte>, b: seq<Byte>, size: nat)
    requires a <= b && !HasRoom(|a|, size) && size >= 1
    ensures !HasRoom(|b|, size) && a[..Limit(|a|, size)] == b[..Limit(|b|, size)]
  {}

  /** How much of the samples is in the buffer when it overflows. */
  function Limit(samples: nat, size: nat): (m: nat)
    requires !HasRoom(samples, size) && size >= 1
    ensures m <= samples && m <= size
  {
    if size == 1 then 1 else size - 1
  }

  /** The buffer starts with `out` and is unchanged after it. */
  ghost predicate Written(now: seq<Byte>, before: seq<Byte>, out: seq<Byte>) {
    |now| == |before| && |out| <= |now| && now == out + before[|out|..]
  }

  /** The inner loop: one pulse or space, until the buffer is all but full. */
  method SendSegment(buf: array<Byte>, t: Tuning, idx0: nat, div0: Uint32, on: bool, width: nat,
                     ghost before: seq<Byte>, ghost done: seq<Byte>)
    returns (ok: bool, idx: nat, div: Uint32)
    requires idx0 == |done| && Written(buf[..], before, done) && div0 == Div(t, idx0)
    requires HasRoom(idx0, buf.Length) && buf.Length >= 1
    modifies buf
    ensures ok == HasRoom(idx0 + width, buf.Length)
    ensures var all := done + Segment(t, on, width, idx0);
            if ok then idx == |all| && div == Div(t, idx) && Written(buf[..], before, all)
            else Written(buf[..], before, all[..Limit(idx0 + width, buf.Length)])
  {
    hide Segment, Advanced, Level;
    NoSegment(t, on, idx0, done);
    idx, div := idx0, div0;
    var i := 0;
    while i < width
      invariant i <= width && idx == idx0 + i && div == Div(t, idx) && HasRoom(idx, buf.Length)
      invariant Written(buf[..], before, done + Segment(t, on, i, idx0))
    {
      ghost var out, now := done + Segment(t, on, i, idx0), buf[..];
      div := Advanced(t, div);
      var val: Byte := if div < t.duty then 255 else 0;
      if on { buf[idx] := val; } else { buf[idx] := 0; }
      ghost var b: Byte := if on then Level(t, idx0 + i + 1) else 0;
      assert b == if on then val else 0 by { assert Div(t, idx0 + i + 1) == div; LevelOf(t, idx0 + i + 1); }
      assert buf[..] == now[idx := b];
      OneMore(now, before, out, b);
      SegmentNext(t, on, i, width, idx0, done);
      idx := idx + 1;
      i := i + 1;
      if idx >= buf.Length - 1 { return false, idx, div; }
    }
    ok := true;
  }

  lemma LevelOf(t: Tuning, k: nat)
    ensures Level(t, k) == if Div(t, k) < t.duty then 255 else 0
  {}

  lemma NoSegment(t: Tuning, on: bool, k: nat, done: seq<Byte>)
    ensures done + Segment(t, on, 0, k) == done
  {}

  lemma SegmentNext(t: Tuning, on: bool, i: nat, width: nat, k: nat, done: seq<Byte>)
    requires i < width
    ensures (done + Segment(t, on, i, k)) + [if on then Level(t, k + i + 1) else 0] == done + Segment(t, on, i + 1, k)
    ensures (done + Segment(t, on, width, k))[..|done| + i + 1] == done + Segment(t, on, i + 1, k)
  {}

  lemma NoSamples(t: Tuning)
    ensures Samples(t, []) == [] && IsPulse(0)
  {}

  lemma SamplesNext(t: Tuning, pulses: seq<int>, i: nat)
    requires i < |pulses|
    ensures var done := Samples(t, pulses[..i]);
            Samples(t, pulses[..i + 1]) == done + Segment(t, IsPulse(i), Width(t, pulses[i]), |done|)
    ensures IsPulse(i + 1) == !IsPulse(i)
  {
    assert pulses[..i + 1][..i] == pulses[..i];
  }

  lemma OneMore(now: seq<Byte>, before: seq<Byte>, out: seq<Byte>, b: Byte)
    requires Written(now, before, out) && |out| < |now|
    ensures Written(now[|out| := b], before, out + [b])
  {}

  lemma {:induction false} SamplesGrow(t: Tuning, pulses: seq<int>, i: nat)
    requires i <= |pulses|
    ensures Samples(t, pulses[..i]) <= Samples(t, pulses)
    decreases |pulses|
  {
    if i < |pulses| {
      var n := |pulses| - 1;
      SamplesGrow(t, pulses[..n], i);
      assert pulses[..n][..i] == pulses[..i];
    } else {
      assert pulses[..i] == pulses;
    }
  }
}
