/** Turning a solved assignment into gate schedules: the application start
    times, and for every port and gate a list of open-gate slots sorted by
    start, where a transmission that crosses the cycle boundary is split
    into a slot up to the boundary and one from the next cycle's start. */
module GateSchedule {
  import opened GateModel
  import opened GateConstraints
  import Text

  /** A gate-open slot: start offset in the cycle and duration, in ticks. */
  datatype Slot = Slot(start: int, duration: int)

  /** The schedule of one gate of one port. */
  datatype Schedule = Schedule(port: nat, gateIndex: nat, cycleStart: int, cycleDuration: int, slots: seq<Slot>)

  /** The remainder of C++ `%` on 64-bit integers: it truncates toward zero,
      so it takes the sign of the dividend. */
  function TruncMod(a: int, m: int): (r: int)
    requires m > 0
    ensures a >= 0 ==> 0 <= r < m
    ensures a < 0 ==> -m < r <= 0
  {
    if a >= 0 then a % m else -((-a) % m)
  }

  lemma TruncModOfSmaller(a: nat, m: nat)
    requires a < m
    ensures TruncMod(a, m) == a
  {
    Text.ModOfSmaller(a, m);
  }

  function Durations(slots: seq<Slot>): int {
    if slots == [] then 0 else slots[0].duration + Durations(slots[1..])
  }

  /** The slots one solved transmission (start, end) becomes. It is split
      exactly when it starts before the boundary and ends strictly after
      it; the two parts keep its duration. Any other transmission keeps its
      duration and has its start reduced modulo the cycle. */
  function SplitSlot(start: int, end: int, cycle: int): (slots: seq<Slot>)
    requires cycle > 0
    ensures |slots| == 2 <==> start < cycle && end > cycle
    ensures |slots| == 1 <==> !(start < cycle && end > cycle)
    ensures |slots| == 2 ==> slots[0] == Slot(start, cycle - start) && slots[1].start == 0
    ensures |slots| == 1 ==> slots[0].start == TruncMod(start, cycle)
    ensures Durations(slots) == end - start
  {
    if start < cycle && end > cycle then
      var first := Slot(start, cycle - start);
      var slots := [first, Slot(0, (end - start) - first.duration)];
      assert slots[1..][1..] == [];
      assert Durations(slots[1..]) == slots[1].duration;
      slots
    else
      var slots := [Slot(TruncMod(start, cycle), end - start)];
      assert slots[1..] == [];
      slots
  }

  /** A transmission ending exactly at the boundary stays whole. */
  lemma BoundaryIsNotSplit(start: int, cycle: int)
    requires 0 <= start < cycle
    ensures SplitSlot(start, cycle, cycle) == [Slot(start, cycle - start)]
  {
    TruncModOfSmaller(start, cycle);
    assert !(start < cycle && cycle > cycle);
  }

  /** A slot is inside the cycle window. */
  predicate InCycle(s: Slot, cycle: int) {
    0 <= s.start < cycle && 0 <= s.duration && s.start + s.duration <= cycle
  }

  /** A transmission that starts inside the cycle and lasts no longer than a
      cycle becomes slots that all lie inside the cycle window. */
  lemma SplitSlotInCycle(start: int, end: int, cycle: int)
    requires cycle > 0 && 0 <= start < cycle && 0 <= end - start <= cycle
    ensures forall s :: s in SplitSlot(start, end, cycle) ==> InCycle(s, cycle)
  {
    TruncModOfSmaller(start, cycle);
  }

  /** The slots pushed for a gate, in push order. */
  function Produced(pairs: seq<(int, int)>, cycle: int): seq<Slot>
    requires cycle > 0
  {
    if pairs == [] then []
    else Produced(pairs[..|pairs| - 1], cycle) + SplitSlot(pairs[|pairs| - 1].0, pairs[|pairs| - 1].1, cycle)
  }

  function SumOfLengths(pairs: seq<(int, int)>): int {
    if pairs == [] then 0 else SumOfLengths(pairs[..|pairs| - 1]) + (pairs[|pairs| - 1].1 - pairs[|pairs| - 1].0)
  }

  lemma {:induction false} DurationsAppend(a: seq<Slot>, b: seq<Slot>)
    ensures Durations(a + b) == Durations(a) + Durations(b)
  {
    if a != [] {
      assert (a + b)[1..] == a[1..] + b;
      DurationsAppend(a[1..], b);
    } else {
      assert a + b == b;
    }
  }

  /** The pushed slots together last as long as the transmissions. */
  lemma {:induction false} ProducedKeepsDurations(pairs: seq<(int, int)>, cycle: int)
    requires cycle > 0
    ensures Durations(Produced(pairs, cycle)) == SumOfLengths(pairs)
  {
    if pairs != [] {
      var last := pairs[|pairs| - 1];
      ProducedKeepsDurations(pairs[..|pairs| - 1], cycle);
      DurationsAppend(Produced(pairs[..|pairs| - 1], cycle), SplitSlot(last.0, last.1, cycle));
    }
  }

  /** Transmissions that each start inside the cycle and last at most a
      cycle give slots that all lie inside the cycle window. */
  lemma {:induction false} ProducedInCycle(pairs: seq<(int, int)>, cycle: int)
    requires cycle > 0
    requires forall i | 0 <= i < |pairs| :: 0 <= pairs[i].0 < cycle && 0 <= pairs[i].1 - pairs[i].0 <= cycle
    ensures forall s :: s in Produced(pairs, cycle) ==> InCycle(s, cycle)
  {
    if pairs != [] {
      var last := pairs[|pairs| - 1];
      SplitSlotInCycle(last.0, last.1, cycle);
      ProducedInCycle(pairs[..|pairs| - 1], cycle);
    }
  }

  predicate SortedByStart(slots: seq<Slot>) {
    forall i, j | 0 <= i < j < |slots| :: slots[i].start <= slots[j].start
  }

  /** `std::sort` of a gate's slots by start, in place (an insertion sort). */
  method SortByStart(a: array<Slot>)
    modifies a
    ensures SortedByStart(a[..])
    ensures multiset(a[..]) == multiset(old(a[..]))
  {
    var i := 0;
    while i < a.Length
      invariant 0 <= i <= a.Length
      invariant SortedByStart(a[..i])
      invariant multiset(a[..]) == multiset(old(a[..]))
    {
      Insert(a, i);
      i := i + 1;
    }
    assert a[..a.Length] == a[..];
  }

  /** Moves `a[i]` down into the sorted prefix `a[..i]`, so that `a[..i + 1]`
      is sorted; only the prefix is permuted. */
  method Insert(a: array<Slot>, i: nat)
    requires i < a.Length && SortedByStart(a[..i])
    modifies a
    ensures SortedByStart(a[..i + 1])
    ensures multiset(a[..]) == multiset(old(a[..]))
    ensures forall k | i < k < a.Length :: a[k] == old(a[k])
  {
    var j := i;
    while j > 0 && a[j - 1].start > a[j].start
      invariant 0 <= j <= i
      invariant forall k | i < k < a.Length :: a[k] == old(a[k])
      invariant forall k, l | 0 <= k < l <= i && k != j && l != j :: a[k].start <= a[l].start
      invariant forall l | j < l <= i :: a[j].start < a[l].start
      invariant multiset(a[..]) == multiset(old(a[..]))
    {
      Swap(a, j - 1, j);
      j := j - 1;
    }
  }

  /** Exchanges two slots. */
  method Swap(a: array<Slot>, i: nat, j: nat)
    requires i < a.Length && j < a.Length
    modifies a
    ensures a[i] == old(a[j]) && a[j] == old(a[i])
    ensures forall k | 0 <= k < a.Length && k != i && k != j :: a[k] == old(a[k])
    ensures multiset(a[..]) == multiset(old(a[..]))
  {
    a[i], a[j] := a[j], a[i];
  }

  /** The solved (start, end) ticks of a list of transmissions. */
  function SolvedPairs(x: Assignment, windows: seq<Window>): (pairs: seq<(int, int)>)
    ensures |pairs| == |windows|
    ensures forall i | 0 <= i < |windows| :: pairs[i] == (x(windows[i].start), x(windows[i].end))
  {
    seq(|windows|, i requires 0 <= i < |windows| => (x(windows[i].start), x(windows[i].end)))
  }

  /** The slots of one gate: each transmission pushed as one slot or split
      in two, then sorted by start. */
  method GateSlots(x: Assignment, windows: seq<Window>, cycle: int) returns (slots: seq<Slot>)
    requires cycle > 0
    ensures SortedByStart(slots)
    ensures multiset(slots) == multiset(Produced(SolvedPairs(x, windows), cycle))
  {
    var pushed: seq<Slot> := [];
    for i := 0 to |windows|
      invariant pushed == Produced(SolvedPairs(x, windows[..i]), cycle)
    {
      ghost var pairs := SolvedPairs(x, windows[..i + 1]);
      assert pairs[..i] == SolvedPairs(x, windows[..i]);
      assert pairs[i] == (x(windows[i].start), x(windows[i].end));
      pushed := PushTransmission(pushed, x(windows[i].start), x(windows[i].end), cycle);
    }
    assert windows[..|windows|] == windows;
    slots := SortedCopy(pushed);
  }

  /** One transmission: a window that crosses the cycle end is pushed as two
      slots, any other as one slot at its start modulo the cycle. */
  method PushTransmission(pushed: seq<Slot>, start: int, end: int, cycle: int) returns (r: seq<Slot>)
    requires cycle > 0
    ensures r == pushed + SplitSlot(start, end, cycle)
  {
    if start < cycle && end > cycle {
      var first := Slot(start, cycle - start);
      r := pushed + [first];
      r := r + [Slot(0, (end - start) - first.duration)];
    } else {
      r := pushed + [Slot(TruncMod(start, cycle), end - start)];
    }
  }

  /** `std::sort` of the pushed slots by start, on a copy in an array. */
  method SortedCopy(pushed: seq<Slot>) returns (slots: seq<Slot>)
    ensures SortedByStart(slots)
    ensures multiset(slots) == multiset(pushed)
  {
    var a := new Slot[|pushed|](i requires 0 <= i < |pushed| => pushed[i]);
    assert a[..] == pushed;
    SortByStart(a);
    slots := a[..];
  }

  /** The schedule the configurator builds for gate `g` of port `q`. */
  predicate ScheduleFor(input: Input, vs: VariableSpace, x: Assignment, q: nat, g: nat, s: Schedule)
    requires input.gateCycleDuration > 0
  {
    s.port == q && s.gateIndex == g && s.cycleStart == 0 && s.cycleDuration == input.gateCycleDuration &&
    SortedByStart(s.slots) &&
    multiset(s.slots) == multiset(Produced(SolvedPairs(x, vs.gateTransmissions(q, g)), input.gateCycleDuration))
  }

  /** One schedule per gate of port `q`, in gate order. */
  predicate PortScheduled(input: Input, vs: VariableSpace, x: Assignment, q: nat, schedules: seq<Schedule>)
    requires input.gateCycleDuration > 0 && q < |input.ports|
  {
    |schedules| == input.ports[q].numGates &&
    forall g | 0 <= g < |schedules| :: ScheduleFor(input, vs, x, q, g, schedules[g])
  }

  /** The output of a solved run: the application start times and, per
      port, its gate schedules. */
  predicate Extracted(input: Input, vs: VariableSpace, x: Assignment, appStarts: seq<int>, gateSchedules: seq<seq<Schedule>>)
    requires input.gateCycleDuration > 0
  {
    |appStarts| == |input.applications| &&
    (forall a | 0 <= a < |appStarts| :: appStarts[a] == x(ApplicationStartTime(a))) &&
    |gateSchedules| == |input.ports| &&
    forall q | 0 <= q < |gateSchedules| :: PortScheduled(input, vs, x, q, gateSchedules[q])
  }

  /** The output part of `computeGateScheduling` for a solved assignment.
      The cycle must be positive: the modulo divides by it. */
  method ComputeSchedules(input: Input, vs: VariableSpace, x: Assignment)
    returns (appStarts: seq<int>, gateSchedules: seq<seq<Schedule>>)
    requires input.gateCycleDuration > 0
    ensures Extracted(input, vs, x, appStarts, gateSchedules)
  {
    var cycle := input.gateCycleDuration;
    appStarts := [];
    for a := 0 to |input.applications|
      invariant |appStarts| == a
      invariant forall b | 0 <= b < a :: appStarts[b] == x(ApplicationStartTime(b))
    {
      appStarts := appStarts + [x(ApplicationStartTime(a))];
    }
    gateSchedules := [];
    for q := 0 to |input.ports|
      invariant |gateSchedules| == q
      invariant forall r | 0 <= r < q :: PortScheduled(input, vs, x, r, gateSchedules[r])
    {
      var schedules: seq<Schedule> := [];
      for g := 0 to input.ports[q].numGates
        invariant |schedules| == g
        invariant forall h | 0 <= h < g :: ScheduleFor(input, vs, x, q, h, schedules[h])
      {
        var slots := GateSlots(x, vs.gateTransmissions(q, g), cycle);
        schedules := schedules + [Schedule(q, g, 0, cycle, slots)];
      }
      gateSchedules := gateSchedules + [schedules];
    }
  }

  /** For an accepted assignment over consistent variable lists, and
      transmission durations of at most one cycle, every application starts
      inside the cycle and every slot of every schedule lies inside the
      cycle window. */
  lemma ExtractedOutputInCycle(input: Input, vs: VariableSpace, x: Assignment,
                               appStarts: seq<int>, gateSchedules: seq<seq<Schedule>>)
    requires input.gateCycleDuration > 0
    requires Accepted(input, vs, x) && ConsistentSpace(input, vs)
    requires forall f: nat, q: nat :: 0 <= input.transmissionDuration(f, q) <= input.gateCycleDuration
    requires Extracted(input, vs, x, appStarts, gateSchedules)
    ensures forall a | 0 <= a < |appStarts| :: 0 <= appStarts[a] < input.gateCycleDuration
    ensures forall q, g, s | 0 <= q < |gateSchedules| && 0 <= g < |gateSchedules[q]| ::
      s in gateSchedules[q][g].slots ==> InCycle(s, input.gateCycleDuration)
  {
    var cycle := input.gateCycleDuration;
    forall q, g, s | 0 <= q < |gateSchedules| && 0 <= g < |gateSchedules[q]| && s in gateSchedules[q][g].slots
      ensures InCycle(s, cycle)
    {
      assert PortScheduled(input, vs, x, q, gateSchedules[q]);
      assert ScheduleFor(input, vs, x, q, g, gateSchedules[q][g]);
      var windows := vs.gateTransmissions(q, g);
      var pairs := SolvedPairs(x, windows);
      forall i | 0 <= i < |pairs|
        ensures 0 <= pairs[i].0 < cycle && 0 <= pairs[i].1 - pairs[i].0 <= cycle
      {
        assert IsHopTransmission(input, windows[i]);
        HopTransmissionTimed(input, vs, x, windows[i]);
      }
      ProducedInCycle(pairs, cycle);
      assert s in multiset(gateSchedules[q][g].slots);
    }
  }
}
