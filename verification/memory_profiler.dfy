/**
  MemoryProfiler.cs: the before/after delta around an action and the unit
  chosen to display a byte count. Taking a reading (forced collections, the
  collector's counters, the process working set) is outside the model: a
  reading is a parameter, and a live one has non-negative counters.
*/
module MemoryProfiler {
  import opened Models

  /** What a reading of the live process looks like. */
  predicate IsSample(m: MemoryUsage) {
    && m.allocatedMemory >= 0 && m.workingSet >= 0
    && m.gen0Collections >= 0 && m.gen1Collections >= 0 && m.gen2Collections >= 0
  }

  /** The five counters, without the timestamp. */
  function Counters(m: MemoryUsage): seq<int> {
    [m.allocatedMemory, m.workingSet, m.gen0Collections, m.gen1Collections, m.gen2Collections]
  }

  /** `m` with every counter increased by the matching counter of `d`. */
  function Offset(m: MemoryUsage, d: MemoryUsage): (r: MemoryUsage)
    ensures forall k :: 0 <= k < 5 ==> Counters(r)[k] == Counters(m)[k] + Counters(d)[k]
  {
    m.(allocatedMemory := m.allocatedMemory + d.allocatedMemory,
       workingSet := m.workingSet + d.workingSet,
       gen0Collections := m.gen0Collections + d.gen0Collections,
       gen1Collections := m.gen1Collections + d.gen1Collections,
       gen2Collections := m.gen2Collections + d.gen2Collections)
  }

  /** The snapshot built from two readings: counter by counter, what must be
      added to `before` to reach `after`. Nothing is clamped, so a counter of
      the delta may be negative. */
  function Delta(before: MemoryUsage, after: MemoryUsage, now: int): (d: MemoryUsage)
    ensures Counters(Offset(before, d)) == Counters(after)
    ensures d.measurementTime == now
  {
    MemoryUsage(
      allocatedMemory := after.allocatedMemory - before.allocatedMemory,
      workingSet := after.workingSet - before.workingSet,
      gen0Collections := after.gen0Collections - before.gen0Collections,
      gen1Collections := after.gen1Collections - before.gen1Collections,
      gen2Collections := after.gen2Collections - before.gen2Collections,
      measurementTime := now)
  }

  /** The delta of a reading with itself is zero in every counter. */
  lemma DeltaOfItself(m: MemoryUsage, now: int)
    ensures Counters(Delta(m, m, now)) == [0, 0, 0, 0, 0]
  {
  }

  /** Swapping the readings negates every counter of the delta. */
  lemma DeltaSwapped(a: MemoryUsage, b: MemoryUsage, now: int)
    ensures forall k :: 0 <= k < 5 ==> Counters(Delta(b, a, now))[k] == -Counters(Delta(a, b, now))[k]
  {
  }

  /** `MeasureMemoryUsage(action)`: a reading of the state before the action,
      the action, a reading of the state it leaves, and their delta. The
      process state is `state`; the action maps it to its successor. */
  function MeasureMemoryUsage<S>(sample: S -> MemoryUsage, action: S -> S, state: S, now: int)
    : (r: (MemoryUsage, S))
    ensures r.1 == action(state)
    ensures Counters(Offset(sample(state), r.0)) == Counters(sample(r.1))
  {
    var beforeMemory := sample(state);
    var next := action(state);
    var afterMemory := sample(next);
    (Delta(beforeMemory, afterMemory, now), next)
  }

  /** A byte count as displayed: a magnitude in a unit, or "0 Bytes". The
      two-decimal "##.##" rendering of the magnitude is not modelled. */
  datatype ByteCount = Scaled(magnitude: real, unit: string) | ZeroBytes

  const Scale: int := 1024
  const Orders: seq<string> := ["GB", "MB", "KB", "Bytes"]

  function Pow(b: int, e: nat): int {
    if e == 0 then 1 else b * Pow(b, e - 1)
  }

  /** The number of bytes in one of each unit. */
  function UnitSize(unit: string): int {
    if unit == "GB" then 1073741824
    else if unit == "MB" then 1048576
    else if unit == "KB" then 1024
    else 1
  }

  /** Reference definition of the unit selection: the largest unit whose
      size the count strictly exceeds; counts of at most one byte, negative
      ones included, show as "0 Bytes". */
  function ByteUnit(bytes: int): ByteCount {
    if bytes > 1073741824 then Scaled(bytes as real / 1073741824.0, "GB")
    else if bytes > 1048576 then Scaled(bytes as real / 1048576.0, "MB")
    else if bytes > 1024 then Scaled(bytes as real / 1024.0, "KB")
    else if bytes > 1 then Scaled(bytes as real, "Bytes")
    else ZeroBytes
  }

  /** The divisor the loop holds at its `i`-th round. */
  function Threshold(i: nat): int {
    if i < 4 then Pow(Scale, 3 - i) else 0
  }

  lemma ThresholdValues()
    ensures Threshold(0) == 1073741824 && Threshold(1) == 1048576
    ensures Threshold(2) == 1024 && Threshold(3) == 1 && Threshold(4) == 0
  {
    assert Pow(Scale, 1) == 1024;
    assert Pow(Scale, 2) == 1048576;
  }

  /** `FormatBytes`: walks the units from the largest, dividing the threshold
      by 1024 at every step, and stops at the first one the count exceeds. */
  method FormatBytes(bytes: int) returns (r: ByteCount)
    ensures r == ByteUnit(bytes)
  {
    ThresholdValues();
    var max := Pow(Scale, |Orders| - 1);
    var i := 0;
    while i < |Orders|
      invariant 0 <= i <= |Orders|
      invariant max == Threshold(i)
      invariant forall j :: 0 <= j < i ==> bytes <= Threshold(j)
    {
      if bytes > max {
        return Scaled(bytes as real / max as real, Orders[i]);
      }
      max := max / Scale;
      i := i + 1;
    }
    return ZeroBytes;
  }

  /** The displayed magnitude times the unit gives the count back; it always
      exceeds 1, and below gigabytes it is at most 1024. */
  lemma ByteUnitRoundTrip(bytes: int)
    ensures ByteUnit(bytes).ZeroBytes? <==> bytes <= 1
    ensures var r := ByteUnit(bytes);
      r.Scaled? ==> r.magnitude * UnitSize(r.unit) as real == bytes as real
    ensures var r := ByteUnit(bytes);
      r.Scaled? ==> 1.0 < r.magnitude && (r.unit != "GB" ==> r.magnitude <= 1024.0)
  {
  }

  /** The thresholds are strict: exactly 1024 bytes stays in bytes and
      exactly 1024 * 1024 bytes stays in kilobytes. */
  lemma StrictThresholds()
    ensures ByteUnit(1024) == Scaled(1024.0, "Bytes")
    ensures ByteUnit(1048576) == Scaled(1024.0, "KB")
    ensures ByteUnit(1073741824) == Scaled(1024.0, "MB")
    ensures ByteUnit(1) == ZeroBytes && ByteUnit(0) == ZeroBytes
  {
  }
}
