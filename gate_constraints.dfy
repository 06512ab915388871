/** The seven constraint families `computeGateScheduling` hands to the
    solver, as predicates over an assignment. An assignment the solver may
    return is one that satisfies all of them (`Accepted`); the lemmas state
    what every accepted assignment guarantees. */
module GateConstraints {
  import opened GateModel

  // Shorthands for the variables of step `k` of flow `f`, packet `p`.

  function TxStart(input: Input, f: nat, p: nat, k: nat): Var
    requires f < |input.flows| && k < |FlowSteps(input, f)|
  {
    TransmissionStartTime(f, p, FlowSteps(input, f)[k].hop.outputPort, input.flows[f].gateIndex)
  }

  function TxEnd(input: Input, f: nat, p: nat, k: nat): Var
    requires f < |input.flows| && k < |FlowSteps(input, f)|
  {
    TransmissionEndTime(f, p, FlowSteps(input, f)[k].hop.outputPort, input.flows[f].gateIndex)
  }

  function RxStart(input: Input, f: nat, p: nat, k: nat): Var
    requires f < |input.flows| && k < |FlowSteps(input, f)|
  {
    ReceptionStartTime(f, p, FlowSteps(input, f)[k].hop.inputPort, input.flows[f].gateIndex)
  }

  function RxEnd(input: Input, f: nat, p: nat, k: nat): Var
    requires f < |input.flows| && k < |FlowSteps(input, f)|
  {
    ReceptionEndTime(f, p, FlowSteps(input, f)[k].hop.inputPort, input.flows[f].gateIndex)
  }

  /** Duration plus propagation time of step `k` of flow `f`. */
  function HopCost(input: Input, f: nat, k: nat): int
    requires ValidInput(input) && f < |input.flows| && k < |FlowSteps(input, f)|
  {
    StepPortsInRange(input, f, k);
    var q := FlowSteps(input, f)[k].hop.outputPort;
    input.transmissionDuration(f, q) + input.ports[q].propagationTime
  }

  /** The gate cycle variable is the configured cycle. */
  predicate CycleFixed(input: Input, x: Assignment) {
    x(GateCycleDuration) == input.gateCycleDuration
  }

  /** Family 1: every application starts inside the first cycle. */
  predicate ApplicationWindow(input: Input, x: Assignment) {
    forall a | 0 <= a < |input.applications| ::
      0 <= x(ApplicationStartTime(a)) < x(GateCycleDuration)
  }

  /** Family 2 for one hop of one packet: the duration and propagation
      variables are the given values, transmission starts inside the cycle,
      and the ends and the reception start follow from the start. */
  predicate HopTimed(input: Input, x: Assignment, f: nat, p: nat, k: nat)
    requires ValidInput(input) && f < |input.flows| && k < |FlowSteps(input, f)|
  {
    StepPortsInRange(input, f, k);
    var q := FlowSteps(input, f)[k].hop.outputPort;
    var duration := TransmissionDuration(f, q);
    x(duration) == input.transmissionDuration(f, q) &&
    x(TxStart(input, f, p, k)) + x(duration) == x(TxEnd(input, f, p, k)) &&
    0 <= x(TxStart(input, f, p, k)) && x(TxStart(input, f, p, k)) < x(GateCycleDuration) &&
    x(RxStart(input, f, p, k)) + x(duration) == x(RxEnd(input, f, p, k)) &&
    x(PropagationTime(q)) == input.ports[q].propagationTime &&
    x(TxStart(input, f, p, k)) + x(PropagationTime(q)) == x(RxStart(input, f, p, k))
  }

  /** Family 2: every hop of every packet of every flow is timed. */
  predicate LinkTiming(input: Input, x: Assignment)
    requires ValidInput(input)
  {
    forall f, p, k | 0 <= f < |input.flows| && 0 <= p < input.flows[f].packetCount &&
                     0 <= k < |FlowSteps(input, f)| ::
      HopTimed(input, x, f, p, k)
  }

  /** Family 3 for one hop: the first hop of each fragment starts at the
      packet's release time; a later hop starts no earlier than the
      reception at the previous hop ends. The test `k == 0` only keeps
      `k - 1` in range: the first step of a flow always has node index 0
      (`StepStructure`), so it never decides the outcome. */
  predicate StepChained(input: Input, x: Assignment, f: nat, p: nat, k: nat)
    requires ValidInput(input) && f < |input.flows| && k < |FlowSteps(input, f)|
  {
    var app := input.flows[f].startApplication;
    if FlowSteps(input, f)[k].nodeIndex == 0 then
      x(ApplicationStartTime(app)) + x(ApplicationPacketInterval(app)) * p == x(TxStart(input, f, p, k))
    else
      k == 0 || x(TxStart(input, f, p, k)) >= x(RxEnd(input, f, p, k - 1))
  }

  /** Family 3 for one packet: every hop is chained, and the end-to-end
      delay runs from the first transmission start to the last reception
      end, bounded by the latency variable when the application has a bound.
      A flow without hops has no first or last hop: the configurator
      dereferences a null variable there, and no assignment is accepted. */
  predicate PacketChained(input: Input, x: Assignment, f: nat, p: nat)
    requires ValidInput(input) && f < |input.flows|
  {
    var steps := FlowSteps(input, f);
    var app := input.flows[f].startApplication;
    |steps| > 0 &&
    (forall k | 0 <= k < |steps| :: StepChained(input, x, f, p, k)) &&
    x(EndToEndDelay(f, p)) == x(RxEnd(input, f, p, |steps| - 1)) - x(TxStart(input, f, p, 0)) &&
    (input.applications[app].maxLatency > 0 ==> x(EndToEndDelay(f, p)) <= x(MaxEndToEndDelay(f)))
  }

  /** The sum of the delays of the first `n` packets of flow `f`. */
  function DelaySum(x: Assignment, f: nat, n: nat): int {
    if n == 0 then 0 else DelaySum(x, f, n - 1) + x(EndToEndDelay(f, n - 1))
  }

  /** The sum of the delays of all packets of the first `n` flows. */
  function TotalDelay(input: Input, x: Assignment, n: nat): int
    requires n <= |input.flows|
  {
    if n == 0 then 0 else TotalDelay(input, x, n - 1) + DelaySum(x, n - 1, input.flows[n - 1].packetCount)
  }

  /** Family 3: the packet interval and latency variables are the given
      values, every packet is chained, and the total delay is the sum. */
  predicate Chaining(input: Input, x: Assignment)
    requires ValidInput(input)
  {
    (forall f | 0 <= f < |input.flows| ::
       var app := input.flows[f].startApplication;
       x(ApplicationPacketInterval(app)) == input.applications[app].packetInterval &&
       (input.applications[app].maxLatency > 0 ==> x(MaxEndToEndDelay(f)) == input.applications[app].maxLatency) &&
       forall p | 0 <= p < input.flows[f].packetCount :: PacketChained(input, x, f, p)) &&
    x(TotalEndToEndDelay) == TotalDelay(input, x, |input.flows|)
  }

  /** Family 4 for one flow: the jitter variable is 0 and the average delay
      exceeds no packet's delay by more than it. The average is a real in
      the solver; the inequality is stated multiplied by the packet count,
      which is positive whenever there is a packet to compare. */
  predicate FlowJitterFree(x: Assignment, f: nat, count: nat) {
    x(MaxJitter(f)) == 0 &&
    forall p | 0 <= p < count :: DelaySum(x, f, count) - count * x(EndToEndDelay(f, p)) <= count * x(MaxJitter(f))
  }

  /** Family 4. */
  predicate Jitter(input: Input, x: Assignment) {
    forall f | 0 <= f < |input.flows| :: FlowJitterFree(x, f, input.flows[f].packetCount)
  }

  /** Two transmissions are separated by the interframe gap, one way or the other. */
  predicate Separated(x: Assignment, a: Window, b: Window, gap: int) {
    x(a.end) + gap <= x(b.start) || x(b.end) + gap <= x(a.start)
  }

  /** Family 5: the gap variable is the given gap, and any two
      transmissions of a port are separated by it. */
  predicate PortExclusive(input: Input, vs: VariableSpace, x: Assignment) {
    forall q | 0 <= q < |input.ports| ::
      x(InterframeGap(q)) == input.ports[q].interframeGap &&
      forall i, j | 0 <= i < j < |vs.portTransmissions(q)| ::
        Separated(x, vs.portTransmissions(q)[i], vs.portTransmissions(q)[j], x(InterframeGap(q)))
  }

  /** Family 6 for two queued packets of one gate: they are received and
      transmitted in the same order. */
  predicate InOrder(x: Assignment, tx: seq<Window>, rx: seq<Window>, i: nat, j: nat)
    requires i < |tx| && i < |rx| && j < |tx| && j < |rx|
  {
    (x(rx[i].end) < x(rx[j].end)) == (x(tx[i].end) < x(tx[j].end))
  }

  /** Family 6. The lists are paired index by index. */
  predicate NoReorder(input: Input, vs: VariableSpace, x: Assignment) {
    forall q, g, i, j | 0 <= q < |input.ports| && 0 <= g < input.ports[q].numGates &&
                        0 <= i < j < |vs.gateTransmissions(q, g)| && j < |vs.gateReceptions(q, g)| ::
      InOrder(x, vs.gateTransmissions(q, g), vs.gateReceptions(q, g), i, j)
  }

  /** Family 7 for a packet `i` of gate `gi` and a packet `j` of a later
      gate `gj`: the later-gate transmission starts no later than the
      reception of `i` ends, or no earlier than `i` is transmitted. */
  predicate PriorityRespected(x: Assignment, vs: VariableSpace, q: nat, gi: nat, gj: nat, i: nat, j: nat)
    requires i < |vs.gateTransmissions(q, gi)| && i < |vs.gateReceptions(q, gi)| && j < |vs.gateTransmissions(q, gj)|
  {
    var txJ := x(vs.gateTransmissions(q, gj)[j].start);
    txJ <= x(vs.gateReceptions(q, gi)[i].end) || txJ >= x(vs.gateTransmissions(q, gi)[i].start)
  }

  /** Family 7. */
  predicate Priority(input: Input, vs: VariableSpace, x: Assignment) {
    forall q, gi, gj, i, j |
        0 <= q < |input.ports| && 0 <= gi < gj < input.ports[q].numGates &&
        0 <= i < |vs.gateReceptions(q, gi)| && i < |vs.gateTransmissions(q, gi)| &&
        0 <= j < |vs.gateTransmissions(q, gj)| ::
      PriorityRespected(x, vs, q, gi, gj, i, j)
  }

  /** What the solver may return: an assignment satisfying every family. */
  predicate Accepted(input: Input, vs: VariableSpace, x: Assignment) {
    ValidInput(input) && CycleFixed(input, x) && ApplicationWindow(input, x) &&
    LinkTiming(input, x) && Chaining(input, x) && Jitter(input, x) &&
    PortExclusive(input, vs, x) && NoReorder(input, vs, x) && Priority(input, vs, x)
  }

  /** In an accepted assignment every hop of every packet starts inside the
      cycle, ends its given duration later, and is received after the
      port's propagation time, for its given duration. */
  lemma AcceptedHopTiming(input: Input, vs: VariableSpace, x: Assignment, f: nat, p: nat, k: nat)
    requires Accepted(input, vs, x)
    requires f < |input.flows| && p < input.flows[f].packetCount && k < |FlowSteps(input, f)|
    ensures FlowSteps(input, f)[k].hop.outputPort < |input.ports|
    ensures var q := FlowSteps(input, f)[k].hop.outputPort;
      var duration := input.transmissionDuration(f, q);
      && 0 <= x(TxStart(input, f, p, k)) < input.gateCycleDuration
      && x(TxEnd(input, f, p, k)) == x(TxStart(input, f, p, k)) + duration
      && x(RxStart(input, f, p, k)) == x(TxStart(input, f, p, k)) + input.ports[q].propagationTime
      && x(RxEnd(input, f, p, k)) == x(RxStart(input, f, p, k)) + duration
  {
    StepPortsInRange(input, f, k);
    assert HopTimed(input, x, f, p, k);
  }

  /** In an accepted assignment the first hop of every fragment starts at the
      packet's release time (application start plus `p` packet intervals),
      a later hop starts no earlier than the previous reception ends, the
      delay runs from the first transmission to the last reception, and a
      positive latency bound holds. */
  lemma AcceptedPacketChaining(input: Input, vs: VariableSpace, x: Assignment, f: nat, p: nat, k: nat)
    requires Accepted(input, vs, x)
    requires f < |input.flows| && p < input.flows[f].packetCount && k < |FlowSteps(input, f)|
    ensures var app := input.flows[f].startApplication;
      FlowSteps(input, f)[k].nodeIndex == 0 ==>
        x(TxStart(input, f, p, k)) == x(ApplicationStartTime(app)) + input.applications[app].packetInterval * p
    ensures FlowSteps(input, f)[k].nodeIndex > 0 ==> 0 < k && x(TxStart(input, f, p, k)) >= x(RxEnd(input, f, p, k - 1))
    ensures x(EndToEndDelay(f, p)) ==
      x(RxEnd(input, f, p, |FlowSteps(input, f)| - 1)) - x(TxStart(input, f, p, 0))
    ensures var app := input.flows[f].startApplication;
      input.applications[app].maxLatency > 0 ==> x(EndToEndDelay(f, p)) <= input.applications[app].maxLatency
  {
    assert PacketChained(input, x, f, p);
    assert StepChained(input, x, f, p, k);
    StepStructure(input.flows[f].pathFragments, k);
  }

  /** The summed cost of steps `lo` .. `hi - 1` of flow `f`. */
  function CostSum(input: Input, f: nat, lo: nat, hi: nat): int
    requires ValidInput(input) && f < |input.flows| && lo <= hi <= |FlowSteps(input, f)|
    decreases hi
  {
    if lo == hi then 0 else CostSum(input, f, lo, hi - 1) + HopCost(input, f, hi - 1)
  }

  /** Under link timing, every hop of a chained packet is timed and chained. */
  lemma PacketHopsTimed(input: Input, x: Assignment, f: nat, p: nat)
    requires ValidInput(input) && LinkTiming(input, x)
    requires f < |input.flows| && p < input.flows[f].packetCount && PacketChained(input, x, f, p)
    ensures forall j | 0 <= j < |FlowSteps(input, f)| :: HopTimed(input, x, f, p, j) && StepChained(input, x, f, p, j)
  {
  }

  /** Along a fragment, the reception at a hop ends no earlier than the
      fragment's first transmission start plus the durations and
      propagation times of all hops up to it. */
  lemma {:induction false} FragmentChainCost(input: Input, x: Assignment, f: nat, p: nat, k: nat)
    requires ValidInput(input) && f < |input.flows| && k < |FlowSteps(input, f)|
    requires forall j | 0 <= j <= k :: HopTimed(input, x, f, p, j) && StepChained(input, x, f, p, j)
    ensures FlowSteps(input, f)[k].nodeIndex <= k
    ensures var s := k - FlowSteps(input, f)[k].nodeIndex;
      x(RxEnd(input, f, p, k)) - x(TxStart(input, f, p, s)) >= CostSum(input, f, s, k + 1)
    decreases FlowSteps(input, f)[k].nodeIndex
  {
    var steps := FlowSteps(input, f);
    StepStructure(input.flows[f].pathFragments, k);
    assert HopTimed(input, x, f, p, k);
    StepPortsInRange(input, f, k);
    var s := k - steps[k].nodeIndex;
    var rx := x(RxEnd(input, f, p, k));
    var tx := x(TxStart(input, f, p, k));
    var cost := HopCost(input, f, k);
    assert rx == tx + cost;
    assert CostSum(input, f, s, k + 1) == CostSum(input, f, s, k) + cost;
    if steps[k].nodeIndex > 0 {
      assert StepChained(input, x, f, p, k);
      FragmentChainCost(input, x, f, p, k - 1);
      assert tx >= x(RxEnd(input, f, p, k - 1)) >= x(TxStart(input, f, p, s)) + CostSum(input, f, s, k);
    } else {
      assert s == k && CostSum(input, f, s, k) == 0;
    }
  }

  /** A packet's end-to-end delay covers at least the durations and
      propagation times of the hops of the flow's last fragment: every
      fragment's first hop starts at the packet's release time, and so does
      the first hop of all. Under a latency bound, those hops must fit it. */
  lemma DelayCoversLastFragment(input: Input, vs: VariableSpace, x: Assignment, f: nat, p: nat)
    requires Accepted(input, vs, x)
    requires f < |input.flows| && p < input.flows[f].packetCount
    ensures |FlowSteps(input, f)| > 0
    ensures var last := |FlowSteps(input, f)| - 1;
      FlowSteps(input, f)[last].nodeIndex <= last &&
      x(EndToEndDelay(f, p)) >= CostSum(input, f, last - FlowSteps(input, f)[last].nodeIndex, last + 1)
    ensures var last := |FlowSteps(input, f)| - 1;
      var app := input.flows[f].startApplication;
      FlowSteps(input, f)[last].nodeIndex <= last &&
      (input.applications[app].maxLatency > 0 ==>
         CostSum(input, f, last - FlowSteps(input, f)[last].nodeIndex, last + 1) <= input.applications[app].maxLatency)
  {
    assert LinkTiming(input, x) && PacketChained(input, x, f, p);
    LastFragmentCost(input, x, f, p);
    AcceptedPacketChaining(input, vs, x, f, p, 0);
  }

  /** The delay of a chained packet is at least the cost of its flow's last
      fragment: that fragment's first hop starts at the release time, as
      does the first hop of all, and the chain of hops up to the last
      reception costs at least their durations and propagation times. */
  lemma LastFragmentCost(input: Input, x: Assignment, f: nat, p: nat)
    requires ValidInput(input) && LinkTiming(input, x)
    requires f < |input.flows| && p < input.flows[f].packetCount && PacketChained(input, x, f, p)
    ensures |FlowSteps(input, f)| > 0
    ensures var last := |FlowSteps(input, f)| - 1;
      FlowSteps(input, f)[last].nodeIndex <= last &&
      x(EndToEndDelay(f, p)) >= CostSum(input, f, last - FlowSteps(input, f)[last].nodeIndex, last + 1)
  {
    var steps := FlowSteps(input, f);
    var last := |steps| - 1;
    PacketHopsTimed(input, x, f, p);
    FragmentChainCost(input, x, f, p, last);
    FragmentStart(input.flows[f].pathFragments, last);
    StepStructure(input.flows[f].pathFragments, 0);
    var s := last - steps[last].nodeIndex;
    assert StepChained(input, x, f, p, s);
    assert StepChained(input, x, f, p, 0);
    assert x(TxStart(input, f, p, s)) == x(TxStart(input, f, p, 0));
  }

  /** Every packet delay of flow `f` is at least `m`, and above `n * m` in
      sum when one of them exceeds `m`. */
  lemma {:induction false} DelaySumBelow(x: Assignment, f: nat, n: nat, m: int, k: nat)
    requires forall p | 0 <= p < n :: x(EndToEndDelay(f, p)) >= m
    ensures DelaySum(x, f, n) >= n * m
    ensures k < n && x(EndToEndDelay(f, k)) > m ==> DelaySum(x, f, n) > n * m
  {
    if n > 0 {
      DelaySumBelow(x, f, n - 1, m, k);
      assert n * m == (n - 1) * m + m;
    }
  }

  /** The index of a smallest delay among the first `n` packets. */
  lemma {:induction false} SmallestDelay(x: Assignment, f: nat, n: nat) returns (j: nat)
    requires n > 0
    ensures j < n && forall p | 0 <= p < n :: x(EndToEndDelay(f, j)) <= x(EndToEndDelay(f, p))
  {
    if n == 1 {
      j := 0;
    } else {
      j := SmallestDelay(x, f, n - 1);
      if x(EndToEndDelay(f, n - 1)) < x(EndToEndDelay(f, j)) {
        j := n - 1;
      }
    }
  }

  /** With the jitter fixed at 0 no packet's delay is below the flow's
      average, and therefore every packet of the flow has the same delay. */
  lemma JitterFreeDelaysEqual(x: Assignment, f: nat, count: nat, p: nat, p': nat)
    requires FlowJitterFree(x, f, count)
    requires p < count && p' < count
    ensures count * x(EndToEndDelay(f, p)) >= DelaySum(x, f, count)
    ensures x(EndToEndDelay(f, p)) == x(EndToEndDelay(f, p'))
  {
    var j := SmallestDelay(x, f, count);
    var m := x(EndToEndDelay(f, j));
    assert DelaySum(x, f, count) <= count * m;
    if x(EndToEndDelay(f, p)) > m {
      DelaySumBelow(x, f, count, m, p);
    }
    if x(EndToEndDelay(f, p')) > m {
      DelaySumBelow(x, f, count, m, p');
    }
  }

  /** With a non-negative gap, two different transmissions of a port never
      overlap: one ends before the other starts. */
  lemma TransmissionsDoNotOverlap(input: Input, vs: VariableSpace, x: Assignment, q: nat, i: nat, j: nat)
    requires PortExclusive(input, vs, x)
    requires q < |input.ports| && input.ports[q].interframeGap >= 0
    requires i < |vs.portTransmissions(q)| && j < |vs.portTransmissions(q)| && i != j
    ensures var a := vs.portTransmissions(q)[i];
      var b := vs.portTransmissions(q)[j];
      x(a.end) <= x(b.start) || x(b.end) <= x(a.start)
  {
    if i < j {
      assert Separated(x, vs.portTransmissions(q)[i], vs.portTransmissions(q)[j], x(InterframeGap(q)));
    } else {
      assert Separated(x, vs.portTransmissions(q)[j], vs.portTransmissions(q)[i], x(InterframeGap(q)));
    }
  }

  /** On one gate, whichever of two queued packets is received first is not
      transmitted after the other. */
  lemma ReceptionOrderIsTransmissionOrder(input: Input, vs: VariableSpace, x: Assignment, q: nat, g: nat, i: nat, j: nat)
    requires NoReorder(input, vs, x)
    requires q < |input.ports| && g < input.ports[q].numGates
    requires i < |vs.gateTransmissions(q, g)| && i < |vs.gateReceptions(q, g)|
    requires j < |vs.gateTransmissions(q, g)| && j < |vs.gateReceptions(q, g)|
    requires i != j
    ensures x(vs.gateReceptions(q, g)[i].end) < x(vs.gateReceptions(q, g)[j].end) ==>
      x(vs.gateTransmissions(q, g)[i].end) <= x(vs.gateTransmissions(q, g)[j].end)
    ensures x(vs.gateTransmissions(q, g)[i].end) < x(vs.gateTransmissions(q, g)[j].end) ==>
      x(vs.gateReceptions(q, g)[i].end) <= x(vs.gateReceptions(q, g)[j].end)
  {
    if i < j {
      assert InOrder(x, vs.gateTransmissions(q, g), vs.gateReceptions(q, g), i, j);
    } else {
      assert InOrder(x, vs.gateTransmissions(q, g), vs.gateReceptions(q, g), j, i);
    }
  }

  /** Families 5 and 7 together: in an accepted assignment, once a packet
      of a gate has been received on a port, a packet of a later gate of
      that port that starts transmitting afterwards waits for the whole
      received packet's transmission and the interframe gap. Both
      transmissions are listed on the port, and every transmission lasts a
      positive time. */
  lemma QueuedHigherPriorityGoesFirst(input: Input, vs: VariableSpace, x: Assignment,
                                      q: nat, gi: nat, gj: nat, i: nat, j: nat, m: nat, n: nat)
    requires Accepted(input, vs, x) && ConsistentSpace(input, vs)
    requires forall f: nat, p: nat :: input.transmissionDuration(f, p) > 0
    requires q < |input.ports| && gi < gj < input.ports[q].numGates && input.ports[q].interframeGap >= 0
    requires i < |vs.gateTransmissions(q, gi)| && i < |vs.gateReceptions(q, gi)| && j < |vs.gateTransmissions(q, gj)|
    requires m < |vs.portTransmissions(q)| && n < |vs.portTransmissions(q)| && m != n
    requires vs.portTransmissions(q)[m] == vs.gateTransmissions(q, gi)[i]
    requires vs.portTransmissions(q)[n] == vs.gateTransmissions(q, gj)[j]
    ensures x(vs.gateReceptions(q, gi)[i].end) < x(vs.gateTransmissions(q, gj)[j].start) ==>
      x(vs.gateTransmissions(q, gi)[i].end) + input.ports[q].interframeGap <= x(vs.gateTransmissions(q, gj)[j].start)
  {
    var wi, wj := vs.gateTransmissions(q, gi)[i], vs.gateTransmissions(q, gj)[j];
    assert PriorityRespected(x, vs, q, gi, gj, i, j);
    assert IsHopTransmission(input, wj);
    HopTransmissionTimed(input, vs, x, wj);
    assert x(wj.start) < x(wj.end);
    if m < n {
      assert Separated(x, vs.portTransmissions(q)[m], vs.portTransmissions(q)[n], x(InterframeGap(q)));
    } else {
      assert Separated(x, vs.portTransmissions(q)[n], vs.portTransmissions(q)[m], x(InterframeGap(q)));
    }
  }

  /** A listed transmission is that of some visited hop of some packet. */
  predicate IsHopTransmission(input: Input, w: Window) {
    exists f: nat, p: nat, k: nat | f < |input.flows| && p < input.flows[f].packetCount && k < |FlowSteps(input, f)| ::
      w == Window(TxStart(input, f, p, k), TxEnd(input, f, p, k))
  }

  /** The per-gate transmission lists hold only hop transmissions. */
  predicate ConsistentSpace(input: Input, vs: VariableSpace) {
    forall q, g, i | 0 <= q < |input.ports| && 0 <= g < input.ports[q].numGates &&
                     0 <= i < |vs.gateTransmissions(q, g)| ::
      IsHopTransmission(input, vs.gateTransmissions(q, g)[i])
  }

  /** In an accepted assignment a hop transmission starts inside the cycle
      and lasts its given duration. */
  lemma HopTransmissionTimed(input: Input, vs: VariableSpace, x: Assignment, w: Window)
    requires Accepted(input, vs, x) && IsHopTransmission(input, w)
    ensures 0 <= x(w.start) < input.gateCycleDuration
    ensures exists f: nat, q: nat :: x(w.end) - x(w.start) == input.transmissionDuration(f, q)
  {
    var f: nat, p: nat, k: nat :| f < |input.flows| && p < input.flows[f].packetCount && k < |FlowSteps(input, f)| &&
      w == Window(TxStart(input, f, p, k), TxEnd(input, f, p, k));
    assert HopTimed(input, x, f, p, k);
  }
}
