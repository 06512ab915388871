/** The input of the Z3 gate-scheduling configurator and the solver
    variables it constrains. Times are integer simulation ticks
    (`SimTime::raw()`); an accepted solution is an assignment of a tick
    value to every variable. */
module GateModel {

  /** A traffic source: its packet interval and its latency bound (a bound
      of 0 or less means "no bound"). */
  datatype Application = Application(packetInterval: int, maxLatency: int)

  /** One link of a path fragment: the output port of the sending node and
      the input port of the receiving one (indices into the port list). */
  datatype Hop = Hop(outputPort: nat, inputPort: nat)

  /** A flow: the application it starts at (an index), the gate (traffic
      class) it uses, how many packets of it one cycle carries, and its
      path fragments, each the hops between consecutive network nodes. */
  datatype Flow = Flow(
    startApplication: nat,
    gateIndex: nat,
    packetCount: nat,
    pathFragments: seq<seq<Hop>>)

  /** A switch or end-station port: propagation time of its link, the
      interframe gap at its data rate, and its number of gates. */
  datatype Port = Port(propagationTime: int, interframeGap: int, numGates: nat)

  /** The configurator's input. `transmissionDuration(f, q)` is the time a
      packet of flow `f` takes on port `q` (packet length over data rate). */
  datatype Input = Input(
    applications: seq<Application>,
    flows: seq<Flow>,
    ports: seq<Port>,
    gateCycleDuration: int,
    transmissionDuration: (nat, nat) -> int)

  /** Every index an input refers to exists. */
  predicate ValidInput(input: Input) {
    (forall f | 0 <= f < |input.flows| :: input.flows[f].startApplication < |input.applications|) &&
    (forall f, i, k | 0 <= f < |input.flows| && 0 <= i < |input.flows[f].pathFragments| &&
                      0 <= k < |input.flows[f].pathFragments[i]| ::
       input.flows[f].pathFragments[i][k].outputPort < |input.ports| &&
       input.flows[f].pathFragments[i][k].inputPort < |input.ports|)
  }

  /** The solver variables, one constructor per `get...Variable` accessor.
      Flows, packets, ports and gates are indices. */
  datatype Var =
    | GateCycleDuration
    | ApplicationStartTime(application: nat)
    | ApplicationPacketInterval(application: nat)
    | TransmissionDuration(flow: nat, port: nat)
    | PropagationTime(port: nat)
    | InterframeGap(port: nat)
    | TransmissionStartTime(flow: nat, packet: nat, port: nat, gate: nat)
    | TransmissionEndTime(flow: nat, packet: nat, port: nat, gate: nat)
    | ReceptionStartTime(flow: nat, packet: nat, port: nat, gate: nat)
    | ReceptionEndTime(flow: nat, packet: nat, port: nat, gate: nat)
    | EndToEndDelay(flow: nat, packet: nat)
    | MaxEndToEndDelay(flow: nat)
    | AverageEndToEndDelay(flow: nat)
    | MaxJitter(flow: nat)
    | TotalEndToEndDelay

  /** A solver model: a tick value for every variable. */
  type Assignment = Var -> int

  /** A (start, end) pair of transmission or reception variables. */
  datatype Window = Window(start: Var, end: Var)

  /** The per-port variable lists the configurator's accessors return:
      all transmissions of a port, and the transmissions and receptions
      of a port restricted to one gate. */
  datatype VariableSpace = VariableSpace(
    portTransmissions: nat -> seq<Window>,
    gateTransmissions: (nat, nat) -> seq<Window>,
    gateReceptions: (nat, nat) -> seq<Window>)

  /** One iteration of the `nodeIndex` loop over a path fragment. */
  datatype Step = Step(hop: Hop, nodeIndex: nat)

  function FragmentSteps(hops: seq<Hop>): (s: seq<Step>)
    ensures |s| == |hops|
    ensures forall i :: 0 <= i < |hops| ==> s[i] == Step(hops[i], i)
  {
    seq(|hops|, i requires 0 <= i < |hops| => Step(hops[i], i))
  }

  /** The hops of a flow in the order the configurator visits them. */
  function Steps(fragments: seq<seq<Hop>>): seq<Step> {
    if fragments == [] then [] else FragmentSteps(fragments[0]) + Steps(fragments[1..])
  }

  /** Each step's hop comes from one of the fragments. */
  lemma {:induction false} StepHopsFromFragments(fragments: seq<seq<Hop>>, k: nat)
    requires k < |Steps(fragments)|
    ensures exists i, j ::
              0 <= i < |fragments| && 0 <= j < |fragments[i]| && Steps(fragments)[k].hop == fragments[i][j]
    decreases |fragments|
  {
    var head := FragmentSteps(fragments[0]);
    if k < |head| {
      assert Steps(fragments)[k] == head[k];
      assert Steps(fragments)[k].hop == fragments[0][k];
    } else {
      assert Steps(fragments)[k] == Steps(fragments[1..])[k - |head|];
      StepHopsFromFragments(fragments[1..], k - |head|);
      var i, j :| 0 <= i < |fragments[1..]| && 0 <= j < |fragments[1..][i]| &&
        Steps(fragments[1..])[k - |head|].hop == fragments[1..][i][j];
      assert fragments[1..][i] == fragments[i + 1];
    }
  }

  /** Every fragment restarts the node index at 0, and inside a fragment
      the index grows by one from step to step. */
  lemma {:induction false} StepStructure(fragments: seq<seq<Hop>>, k: nat)
    requires k < |Steps(fragments)|
    ensures Steps(fragments)[k].nodeIndex <= k
    ensures Steps(fragments)[k].nodeIndex > 0 ==>
      Steps(fragments)[k - 1].nodeIndex == Steps(fragments)[k].nodeIndex - 1
    decreases |fragments|
  {
    var head := FragmentSteps(fragments[0]);
    var rest := Steps(fragments[1..]);
    assert Steps(fragments) == head + rest;
    if k >= |head| {
      StepStructure(fragments[1..], k - |head|);
      if k > |head| {
        assert Steps(fragments)[k - 1] == rest[k - 1 - |head|];
      }
    }
  }

  /** Following the node index back from any step reaches the first step of
      its fragment, which has index 0. */
  lemma {:induction false} FragmentStart(fragments: seq<seq<Hop>>, k: nat)
    requires k < |Steps(fragments)|
    ensures Steps(fragments)[k].nodeIndex <= k
    ensures Steps(fragments)[k - Steps(fragments)[k].nodeIndex].nodeIndex == 0
    decreases Steps(fragments)[k].nodeIndex
  {
    StepStructure(fragments, k);
    if Steps(fragments)[k].nodeIndex > 0 {
      FragmentStart(fragments, k - 1);
    }
  }

  /** The hops of flow `f`, in visiting order. */
  function FlowSteps(input: Input, f: nat): seq<Step>
    requires f < |input.flows|
  {
    Steps(input.flows[f].pathFragments)
  }

  /** In a valid input every visited hop names existing ports. */
  lemma StepPortsInRange(input: Input, f: nat, k: nat)
    requires ValidInput(input) && f < |input.flows| && k < |FlowSteps(input, f)|
    ensures FlowSteps(input, f)[k].hop.outputPort < |input.ports|
    ensures FlowSteps(input, f)[k].hop.inputPort < |input.ports|
  {
    StepHopsFromFragments(input.flows[f].pathFragments, k);
  }
}
