/** The IEEE 802.1D relay of an Ethernet switch: the per-frame decision of
    the Forwarding Process (clause 7.7 of IEEE 802.1D-2004), source-address
    learning (clause 7.8), flooding, and the operational start/stop state.
    The interface table is a sequence of entries, each with its optional
    802.1D port data; the MAC address table is a map from address to
    interface id. */
module Ieee8021dRelay {
  import opened Wrappers

  type MacAddress = n: int | 0 <= n < 0x1_0000_0000_0000

  const BROADCAST_ADDRESS: MacAddress := 0xFFFF_FFFF_FFFF
  const STP_MULTICAST_ADDRESS: MacAddress := 0x0180_C200_0000

  /** The 802.1D port roles; only "disabled" matters to the relay. */
  datatype PortRole = Disabled | Root | Designated | Alternate | Backup

  /** The 802.1D data of a port (`Ieee8021dInterfaceData`). */
  datatype PortData = PortData(role: PortRole, isLearning: bool, isForwarding: bool)

  /** An interface table entry and its optional 802.1D port data. */
  datatype InterfaceEntry = InterfaceEntry(
    interfaceId: int,
    macAddress: MacAddress,
    isLoopback: bool,
    isBroadcast: bool,
    portData: Option<PortData>)

  /** The IEEE 802.2 LLC header that follows an 802.3 length header. */
  datatype Llc = Llc(ssap: int, dsap: int, control: int)

  /** The parts of a frame the relay looks at. */
  datatype Frame = Frame(src: MacAddress, dest: MacAddress, isIeee8023: bool, llc: Llc)

  /** Where a message arrived. */
  datatype Gate = UpperLayerIn | IfIn | OtherGate

  /** A message handed to the relay: the gate, whether it is a self-message,
      the frame, the arrival interface (`InterfaceInd`) and the requested
      output interface (`InterfaceReq`, if the tag is present). */
  datatype Message = Message(arrivalGate: Gate, isSelfMessage: bool, frame: Frame,
                             interfaceInd: int, interfaceReq: Option<int>)

  /** What happens to a frame: sent to the upper layer (the STP module or
      the host), sent on the listed interfaces, or discarded. */
  datatype Emission = SentUp | Dispatched(interfaceIds: seq<int>) | Discarded

  /** The rungs of the decision ladder. */
  datatype Decision =
    | DeliverBpdu
    | DiscardArrivalNotForwarding
    | DeliverRegistered
    | FloodBroadcast
    | FloodUnknown
    | DiscardSamePort
    | DiscardOutputNotForwarding
    | DispatchTo(interfaceId: int)
    | Fault(reason: string)

  /** The decision for a frame from the upper layer. */
  datatype HLDecision = HLDispatch(interfaceId: int) | HLFlood | HLFault(reason: string)

  /** What a decision emits, given the flood it would send. */
  function EmissionOf(d: Decision, flood: Result<seq<int>, string>): Result<Emission, string> {
    match d
    case DeliverBpdu => Ok(SentUp)
    case DeliverRegistered => Ok(SentUp)
    case DiscardArrivalNotForwarding => Ok(Discarded)
    case DiscardSamePort => Ok(Discarded)
    case DiscardOutputNotForwarding => Ok(Discarded)
    case FloodBroadcast => if flood.Ok? then Ok(Dispatched(flood.value)) else Err(flood.error)
    case FloodUnknown => if flood.Ok? then Ok(Dispatched(flood.value)) else Err(flood.error)
    case DispatchTo(id) => Ok(Dispatched([id]))
    case Fault(msg) => Err(msg)
  }

  predicate IsDiscard(d: Decision) {
    d == DiscardArrivalNotForwarding || d == DiscardSamePort || d == DiscardOutputNotForwarding
  }

  predicate IsBroadcastAddress(m: MacAddress) {
    m == BROADCAST_ADDRESS
  }

  /** A BPDU: an 802.3 frame whose LLC header has SSAP = DSAP = 0x42 and
      control 3. */
  predicate IsBpdu(frame: Frame) {
    frame.isIeee8023 && frame.llc.ssap == 0x42 && frame.llc.dsap == 0x42 && frame.llc.control == 3
  }

  /** `in_range`: the address lies in one of the registered ranges. */
  predicate InRange(ranges: set<(MacAddress, MacAddress)>, m: MacAddress) {
    exists r :: r in ranges && r.0 <= m <= r.1
  }

  /** `getInterfaceById`: the first entry with the id, if any. */
  function InterfaceById(ifs: seq<InterfaceEntry>, id: int): (r: Option<InterfaceEntry>)
    ensures r.Some? ==> r.value in ifs && r.value.interfaceId == id
    ensures r.None? <==> forall e :: e in ifs ==> e.interfaceId != id
  {
    if ifs == [] then None
    else if ifs[0].interfaceId == id then Some(ifs[0])
    else InterfaceById(ifs[1..], id)
  }

  /** `chooseInterface`'s answer: the first non-loopback interface. */
  function FirstNonLoopback(ifs: seq<InterfaceEntry>): (r: Option<InterfaceEntry>)
    ensures r.None? <==> forall e :: e in ifs ==> e.isLoopback
    ensures r.Some? ==> exists i :: 0 <= i < |ifs| && ifs[i] == r.value && !r.value.isLoopback &&
                                    forall j :: 0 <= j < i ==> ifs[j].isLoopback
  {
    if ifs == [] then None
    else if !ifs[0].isLoopback then Some(ifs[0])
    else
      var r := FirstNonLoopback(ifs[1..]);
      if r.Some? then
        var i :| 0 <= i < |ifs[1..]| && ifs[1..][i] == r.value && !r.value.isLoopback &&
                 forall j :: 0 <= j < i ==> ifs[1..][j].isLoopback;
        assert ifs[i + 1] == r.value;
        r
      else
        r
  }

  /** `isForwardingInterface`: an STP-aware relay asks the port's state
      (and fails without port data); any other relay forwards everywhere. */
  function IsForwardingInterface(isStpAware: bool, e: InterfaceEntry): (r: Result<bool, string>)
    ensures !isStpAware ==> r == Ok(true)
    ensures isStpAware ==> (r.Err? <==> e.portData.None?)
    ensures isStpAware && r.Ok? ==> r.value == e.portData.value.isForwarding
  {
    if isStpAware then
      if e.portData.None? then Err("Ieee8021dInterfaceData not found") else Ok(e.portData.value.isForwarding)
    else Ok(true)
  }

  /** The interfaces a flood sends a copy to, in table order: those that
      are not loopback, are broadcast-capable, are not the arrival
      interface, and forward. The first interface whose forwarding state
      cannot be read ends the flood with an error. */
  function FloodTargets(ifs: seq<InterfaceEntry>, arrivalId: int, isStpAware: bool): (r: Result<seq<int>, string>)
    ensures r.Ok? ==> |r.value| <= |ifs|
  {
    if ifs == [] then Ok([])
    else
      var e := ifs[|ifs| - 1];
      var init := FloodTargets(ifs[..|ifs| - 1], arrivalId, isStpAware);
      if init.Err? then init
      else if e.isLoopback || !e.isBroadcast || e.interfaceId == arrivalId then init
      else match IsForwardingInterface(isStpAware, e)
        case Err(msg) => Err(msg)
        case Ok(fwd) => Ok(init.value + (if fwd then [e.interfaceId] else []))
  }

  /** An error while flooding a prefix of the table ends the whole flood. */
  lemma {:induction false} FloodErrorPersists(ifs: seq<InterfaceEntry>, n: nat, arrivalId: int, isStpAware: bool)
    requires n <= |ifs| && FloodTargets(ifs[..n], arrivalId, isStpAware).Err?
    ensures FloodTargets(ifs, arrivalId, isStpAware) == FloodTargets(ifs[..n], arrivalId, isStpAware)
    decreases |ifs| - n
  {
    if n < |ifs| {
      assert ifs[..n + 1][..n] == ifs[..n];
      FloodErrorPersists(ifs, n + 1, arrivalId, isStpAware);
    } else {
      assert ifs[..n] == ifs;
    }
  }

  /** A flood sends to exactly the eligible interfaces, and never back to
      the arrival interface. */
  lemma {:induction false} FloodTargetsEligible(ifs: seq<InterfaceEntry>, arrivalId: int, isStpAware: bool, id: int)
    requires FloodTargets(ifs, arrivalId, isStpAware).Ok?
    ensures id in FloodTargets(ifs, arrivalId, isStpAware).value <==>
      exists e :: e in ifs && e.interfaceId == id && !e.isLoopback && e.isBroadcast && id != arrivalId &&
                  IsForwardingInterface(isStpAware, e) == Ok(true)
  {
    if ifs != [] {
      var init := ifs[..|ifs| - 1];
      FloodTargetsEligible(init, arrivalId, isStpAware, id);
      assert ifs == init + [ifs[|ifs| - 1]];
      assert forall e :: e in ifs <==> e == ifs[|ifs| - 1] || e in init;
    }
  }

  /** With distinct interface ids, a flood sends at most one copy to each
      interface. */
  lemma {:induction false} FloodTargetsDistinct(ifs: seq<InterfaceEntry>, arrivalId: int, isStpAware: bool)
    requires FloodTargets(ifs, arrivalId, isStpAware).Ok?
    requires forall i, j | 0 <= i < j < |ifs| :: ifs[i].interfaceId != ifs[j].interfaceId
    ensures var t := FloodTargets(ifs, arrivalId, isStpAware).value;
      forall i, j | 0 <= i < j < |t| :: t[i] != t[j]
  {
    if ifs != [] {
      var init, e := ifs[..|ifs| - 1], ifs[|ifs| - 1];
      var before := FloodTargets(init, arrivalId, isStpAware);
      assert before.Ok?;
      FloodTargetsDistinct(init, arrivalId, isStpAware);
      FloodTargetsEligible(init, arrivalId, isStpAware, e.interfaceId);
    }
  }

  /** The relay's state. `interfaces` is the interface table and is never
      changed by the relay. */
  class Relay {
    const isStpAware: bool
    const interfaces: seq<InterfaceEntry>
    var macTable: map<MacAddress, int>
    var isOperational: bool
    var registeredMacAddresses: set<(MacAddress, MacAddress)>
    var bridgeAddress: MacAddress
    var ie: Option<InterfaceEntry>
    var numDroppedFrames: nat
    var numReceivedNetworkFrames: nat
    var numDispatchedNonBPDUFrames: nat

    /** The local initialisation stage: counters at 0. */
    constructor (isStpAware: bool, interfaces: seq<InterfaceEntry>)
      ensures this.isStpAware == isStpAware && this.interfaces == interfaces
      ensures macTable == map[] && !isOperational && registeredMacAddresses == {}
      ensures ie == None && numDroppedFrames == 0 && numReceivedNetworkFrames == 0
      ensures numDispatchedNonBPDUFrames == 0
    {
      this.isStpAware := isStpAware;
      this.interfaces := interfaces;
      macTable := map[];
      isOperational := false;
      registeredMacAddresses := {};
      bridgeAddress := 0;
      ie := None;
      numDroppedFrames := 0;
      numReceivedNetworkFrames := 0;
      numDispatchedNonBPDUFrames := 0;
    }

    /** `getPortForAddress`: -1 for an unknown address. */
    function PortForAddress(m: MacAddress): int
      reads this`macTable
    {
      if m in macTable then macTable[m] else -1
    }

    /** `registerAddresses`: one more registered range. */
    method RegisterAddresses(startMac: MacAddress, endMac: MacAddress)
      modifies this`registeredMacAddresses
      ensures registeredMacAddresses == old(registeredMacAddresses) + {(startMac, endMac)}
    {
      registeredMacAddresses := registeredMacAddresses + {(startMac, endMac)};
    }

    /** `registerAddress`: the one-address range (m, m). */
    method RegisterAddress(m: MacAddress)
      modifies this`registeredMacAddresses
      ensures registeredMacAddresses == old(registeredMacAddresses) + {(m, m)}
      ensures InRange(registeredMacAddresses, m)
    {
      RegisterAddresses(m, m);
      assert (m, m) in registeredMacAddresses;
    }

    /** The MAC table after learning `src` on `arrivalId`: it is learned
        when the relay is not STP-aware or the port is learning. */
    function Learned(src: MacAddress, arrivalId: int, data: Option<PortData>): map<MacAddress, int>
      reads this`macTable
      requires isStpAware ==> data.Some?
    {
      if !isStpAware || data.value.isLearning then macTable[src := arrivalId] else macTable
    }

    /** `learn`. An STP-aware relay needs the port's 802.1D data. */
    method Learn(src: MacAddress, arrivalId: int) returns (r: Result<(), string>)
      modifies this`macTable
      ensures var e := InterfaceById(interfaces, arrivalId);
        r.Err? <==> isStpAware && (e.None? || e.value.portData.None?)
      ensures r.Ok? ==> macTable == old(
        if !isStpAware then macTable[src := arrivalId]
        else if InterfaceById(interfaces, arrivalId).value.portData.value.isLearning then macTable[src := arrivalId]
        else macTable)
      ensures r.Err? ==> macTable == old(macTable)
    {
      var port: Option<PortData> := None;
      if isStpAware {
        var e := InterfaceById(interfaces, arrivalId);
        if e.None? || e.value.portData.None? {
          return Err("Ieee8021dInterfaceData not found");
        }
        port := e.value.portData;
      }
      if !isStpAware || port.value.isLearning {
        macTable := macTable[src := arrivalId];
      }
      return Ok(());
    }

    /** The decision ladder for a frame arriving on `arrivalId`, whose
        port data is `arrival`, taken on the MAC table after learning. */
    function Decide(frame: Frame, arrivalId: int, arrival: Option<PortData>): Decision
      reads this`macTable, this`registeredMacAddresses, this`bridgeAddress
      requires isStpAware ==> arrival.Some?
    {
      if isStpAware && (frame.dest == STP_MULTICAST_ADDRESS || frame.dest == bridgeAddress) &&
         arrival.value.role != Disabled && IsBpdu(frame) then DeliverBpdu
      else if isStpAware && !arrival.value.isForwarding then DiscardArrivalNotForwarding
      else if InRange(registeredMacAddresses, frame.dest) then DeliverRegistered
      else if IsBroadcastAddress(frame.dest) then FloodBroadcast
      else if PortForAddress(frame.dest) == -1 then FloodUnknown
      else
        var outId := PortForAddress(frame.dest);
        var out := InterfaceById(interfaces, outId);
        if outId == arrivalId then DiscardSamePort
        else if out.None? then Fault("null output interface")
        else match IsForwardingInterface(isStpAware, out.value)
          case Err(msg) => Fault(msg)
          case Ok(fwd) => if fwd then DispatchTo(outId) else DiscardOutputNotForwarding
    }

    /** `broadcast`: one copy to every flood target, each counted as a
        dispatched frame. */
    method Broadcast(arrivalId: int) returns (r: Result<seq<int>, string>)
      modifies this`numDispatchedNonBPDUFrames
      ensures r == FloodTargets(interfaces, arrivalId, isStpAware)
      ensures r.Ok? ==> numDispatchedNonBPDUFrames == old(numDispatchedNonBPDUFrames) + |r.value|
    {
      var sent: seq<int> := [];
      var i := 0;
      while i < |interfaces|
        invariant 0 <= i <= |interfaces|
        invariant FloodTargets(interfaces[..i], arrivalId, isStpAware) == Ok(sent)
        invariant numDispatchedNonBPDUFrames == old(numDispatchedNonBPDUFrames) + |sent|
      {
        var e := interfaces[i];
        assert interfaces[..i + 1][..i] == interfaces[..i];
        if !e.isLoopback && e.isBroadcast && e.interfaceId != arrivalId {
          var fwd := IsForwardingInterface(isStpAware, e);
          if fwd.Err? {
            FloodErrorPersists(interfaces, i + 1, arrivalId, isStpAware);
            return Err(fwd.error);
          }
          if fwd.value {
            sent := sent + [e.interfaceId];
            numDispatchedNonBPDUFrames := numDispatchedNonBPDUFrames + 1;
          } else {
            assert sent + [] == sent;
          }
        }
        i := i + 1;
      }
      assert interfaces[..|interfaces|] == interfaces;
      return Ok(sent);
    }

    /** The effect of a ladder decision: deliver up, count a discard,
        flood, or dispatch on one port. */
    method ActOn(d: Decision, arrivalId: int) returns (r: Result<Emission, string>)
      modifies this`numDroppedFrames, this`numDispatchedNonBPDUFrames
      ensures r == EmissionOf(d, FloodTargets(interfaces, arrivalId, isStpAware))
      ensures numDroppedFrames == old(numDroppedFrames) + (if IsDiscard(d) then 1 else 0)
      ensures r.Ok? && r.value.Dispatched? ==>
        numDispatchedNonBPDUFrames == old(numDispatchedNonBPDUFrames) + |r.value.interfaceIds|
      ensures r.Ok? && !r.value.Dispatched? ==> numDispatchedNonBPDUFrames == old(numDispatchedNonBPDUFrames)
    {
      match d {
        case DeliverBpdu => r := Ok(SentUp);
        case DeliverRegistered => r := Ok(SentUp);
        case DiscardArrivalNotForwarding =>
          numDroppedFrames := numDroppedFrames + 1;
          r := Ok(Discarded);
        case DiscardSamePort =>
          numDroppedFrames := numDroppedFrames + 1;
          r := Ok(Discarded);
        case DiscardOutputNotForwarding =>
          numDroppedFrames := numDroppedFrames + 1;
          r := Ok(Discarded);
        case FloodBroadcast =>
          var sent := Broadcast(arrivalId);
          r := if sent.Ok? then Ok(Dispatched(sent.value)) else Err(sent.error);
        case FloodUnknown =>
          var sent := Broadcast(arrivalId);
          r := if sent.Ok? then Ok(Dispatched(sent.value)) else Err(sent.error);
        case DispatchTo(id) =>
          numDispatchedNonBPDUFrames := numDispatchedNonBPDUFrames + 1;
          r := Ok(Dispatched([id]));
        case Fault(msg) => r := Err(msg);
      }
    }

    /** What `handleAndDispatchFrame` leaves behind: without the arrival
        interface (or, STP-aware, its port data) an error and nothing
        learned or counted; otherwise the source learned on the arrival
        port, the decision's emission, a discard counted as a drop and
        dispatched frames counted. */
    twostate predicate FrameHandled(frame: Frame, arrivalId: int, new r: Result<Emission, string>)
      reads this
    {
      var e := InterfaceById(interfaces, arrivalId);
      if e.None? || (isStpAware && e.value.portData.None?) then
        r.Err? && macTable == old(macTable) && numDroppedFrames == old(numDroppedFrames) &&
        numDispatchedNonBPDUFrames == old(numDispatchedNonBPDUFrames)
      else
        var d := Decide(frame, arrivalId, e.value.portData);
        macTable == old(Learned(frame.src, arrivalId, e.value.portData)) &&
        r == EmissionOf(d, FloodTargets(interfaces, arrivalId, isStpAware)) &&
        numDroppedFrames == old(numDroppedFrames) + (if IsDiscard(d) then 1 else 0) &&
        (r.Ok? && r.value.Dispatched? ==>
          numDispatchedNonBPDUFrames == old(numDispatchedNonBPDUFrames) + |r.value.interfaceIds|) &&
        (r.Ok? && !r.value.Dispatched? ==> numDispatchedNonBPDUFrames == old(numDispatchedNonBPDUFrames))
    }

    /** `handleAndDispatchFrame`: learn the source, then act on the ladder's
        decision. A missing arrival interface, or missing port data on an
        STP-aware relay, is an error before anything changes. */
    method HandleAndDispatchFrame(frame: Frame, arrivalId: int) returns (r: Result<Emission, string>)
      modifies this`macTable, this`numDroppedFrames, this`numDispatchedNonBPDUFrames
      ensures FrameHandled(frame, arrivalId, r)
    {
      var arrival := InterfaceById(interfaces, arrivalId);
      if arrival.None? {
        return Err("null arrival interface");
      }
      var data := arrival.value.portData;
      if isStpAware && data.None? {
        return Err("Ieee8021dInterfaceData not found");
      }
      var learned := Learn(frame.src, arrivalId);
      var d := Decide(frame, arrivalId, data);
      r := ActOn(d, arrivalId);
    }

    /** `handleAndDispatchFrameFromHL` as written: a known unicast
        destination is dispatched on the interface with the *requested* id,
        which on that path is always -1. */
    function DecideFromHLAsWritten(frame: Frame, interfaceReq: Option<int>): HLDecision
      reads this`macTable
    {
      var interfaceId := if interfaceReq.Some? then interfaceReq.value else -1;
      if interfaceId != -1 then
        (if InterfaceById(interfaces, interfaceId).Some? then HLDispatch(interfaceId) else HLFault("null interface"))
      else if IsBroadcastAddress(frame.dest) then HLFlood
      else
        var outInterfaceId := PortForAddress(frame.dest);
        if outInterfaceId == -1 then HLFlood
        else if InterfaceById(interfaces, interfaceId).Some? then HLDispatch(interfaceId)
        else HLFault("null interface")
    }

    /** `handleAndDispatchFrameFromHL` as intended: a known unicast
        destination is dispatched on the port the MAC table names. */
    function DecideFromHL(frame: Frame, interfaceReq: Option<int>): (d: HLDecision)
      reads this`macTable
      ensures d.HLDispatch? ==> InterfaceById(interfaces, d.interfaceId).Some?
      ensures d.HLDispatch? && interfaceReq.None? ==>
        !IsBroadcastAddress(frame.dest) && d.interfaceId == PortForAddress(frame.dest) != -1
      ensures interfaceReq.Some? && interfaceReq.value != -1 && InterfaceById(interfaces, interfaceReq.value).Some? ==>
        d == HLDispatch(interfaceReq.value)
      ensures (interfaceReq.None? || interfaceReq.value == -1) &&
              !IsBroadcastAddress(frame.dest) && PortForAddress(frame.dest) != -1 &&
              InterfaceById(interfaces, PortForAddress(frame.dest)).Some? ==>
        d == HLDispatch(PortForAddress(frame.dest))
      ensures d == HLFlood <==>
        (interfaceReq.None? || interfaceReq.value == -1) &&
        (IsBroadcastAddress(frame.dest) || PortForAddress(frame.dest) == -1)
    {
      var interfaceId := if interfaceReq.Some? then interfaceReq.value else -1;
      if interfaceId != -1 then
        (if InterfaceById(interfaces, interfaceId).Some? then HLDispatch(interfaceId) else HLFault("null interface"))
      else if IsBroadcastAddress(frame.dest) then HLFlood
      else
        var outInterfaceId := PortForAddress(frame.dest);
        if outInterfaceId == -1 then HLFlood
        else if InterfaceById(interfaces, outInterfaceId).Some? then HLDispatch(outInterfaceId)
        else HLFault("null interface")
    }

    /** As written, a frame from the upper layer without an interface
        request, to a unicast address the MAC table knows, reaches
        `dispatch` with no interface whenever no interface has id -1, while
        the intended code sends it on the learned port. */
    lemma FromHLKnownUnicastAsWritten(frame: Frame)
      requires forall e :: e in interfaces ==> e.interfaceId != -1
      requires !IsBroadcastAddress(frame.dest) && PortForAddress(frame.dest) != -1
      requires InterfaceById(interfaces, PortForAddress(frame.dest)).Some?
      ensures DecideFromHLAsWritten(frame, None).HLFault?
      ensures DecideFromHL(frame, None) == HLDispatch(PortForAddress(frame.dest))
    {
    }

    /** What `handleAndDispatchFrameFromHL` leaves behind: the emission of
        the decision and the dispatched frames counted. */
    twostate predicate FrameFromHLHandled(frame: Frame, interfaceReq: Option<int>, new r: Result<Emission, string>)
      reads this
    {
      var d := DecideFromHL(frame, interfaceReq);
      r == (if d.HLDispatch? then Ok(Dispatched([d.interfaceId]))
            else if d.HLFlood? then EmissionOf(FloodBroadcast, FloodTargets(interfaces, -1, isStpAware))
            else Err(d.reason)) &&
      (r.Ok? ==>
        r.value.Dispatched? &&
        numDispatchedNonBPDUFrames == old(numDispatchedNonBPDUFrames) + |r.value.interfaceIds|)
    }

    /** `handleAndDispatchFrameFromHL` (with the intended lookup): dispatch
        on the chosen interface or flood from "no arrival interface". */
    method HandleAndDispatchFrameFromHL(frame: Frame, interfaceReq: Option<int>) returns (r: Result<Emission, string>)
      modifies this`numDispatchedNonBPDUFrames
      ensures FrameFromHLHandled(frame, interfaceReq, r)
    {
      var d := DecideFromHL(frame, interfaceReq);
      match d {
        case HLDispatch(id) =>
          numDispatchedNonBPDUFrames := numDispatchedNonBPDUFrames + 1;
          r := Ok(Dispatched([id]));
        case HLFlood =>
          var sent := Broadcast(-1);
          r := if sent.Ok? then Ok(Dispatched(sent.value)) else Err(sent.error);
        case HLFault(msg) => r := Err(msg);
      }
    }

    /** `handleMessage`: a relay that is down discards every message and
        changes nothing; a self-message or a message on an unknown gate is
        an error; frames from the network are counted, then handled. */
    method HandleMessage(msg: Message) returns (r: Result<Emission, string>)
      modifies this`macTable, this`numDroppedFrames, this`numDispatchedNonBPDUFrames, this`numReceivedNetworkFrames
      ensures !isOperational ==>
                r == Ok(Discarded) && macTable == old(macTable) &&
                numDroppedFrames == old(numDroppedFrames) && numReceivedNetworkFrames == old(numReceivedNetworkFrames) &&
                numDispatchedNonBPDUFrames == old(numDispatchedNonBPDUFrames)
      ensures isOperational && (msg.isSelfMessage || msg.arrivalGate == OtherGate) ==>
                r.Err? && macTable == old(macTable) &&
                numDroppedFrames == old(numDroppedFrames) && numReceivedNetworkFrames == old(numReceivedNetworkFrames) &&
                numDispatchedNonBPDUFrames == old(numDispatchedNonBPDUFrames)
      ensures isOperational && !msg.isSelfMessage && msg.arrivalGate == UpperLayerIn ==>
                FrameFromHLHandled(msg.frame, msg.interfaceReq, r) &&
                macTable == old(macTable) && numDroppedFrames == old(numDroppedFrames)
      ensures isOperational && !msg.isSelfMessage && msg.arrivalGate == IfIn ==>
                FrameHandled(msg.frame, msg.interfaceInd, r)
      ensures numReceivedNetworkFrames ==
        old(numReceivedNetworkFrames) + (if isOperational && !msg.isSelfMessage && msg.arrivalGate == IfIn then 1 else 0)
    {
      if !isOperational {
        return Ok(Discarded);
      } else if msg.isSelfMessage {
        return Err("This module doesn't handle self-messages!");
      } else if msg.arrivalGate == UpperLayerIn {
        r := HandleAndDispatchFrameFromHL(msg.frame, msg.interfaceReq);
      } else if msg.arrivalGate == IfIn {
        numReceivedNetworkFrames := numReceivedNetworkFrames + 1;
        r := HandleAndDispatchFrame(msg.frame, msg.interfaceInd);
      } else {
        return Err("Message arrived on unknown gate");
      }
    }

    /** `chooseInterface`: the first non-loopback interface, if any. */
    method ChooseInterface() returns (r: Option<InterfaceEntry>)
      ensures r == FirstNonLoopback(interfaces)
    {
      var i := 0;
      while i < |interfaces|
        invariant 0 <= i <= |interfaces|
        invariant FirstNonLoopback(interfaces) == FirstNonLoopback(interfaces[i..])
      {
        assert interfaces[i..][1..] == interfaces[i + 1..];
        if !interfaces[i].isLoopback {
          return Some(interfaces[i]);
        }
        i := i + 1;
      }
      return None;
    }

    /** `start`: operational again, with the bridge address of the chosen
        interface and an empty MAC table; no usable interface is an error. */
    method Start() returns (r: Result<(), string>)
      modifies this`isOperational, this`ie, this`bridgeAddress, this`macTable
      ensures isOperational && ie == FirstNonLoopback(interfaces)
      ensures r.Err? <==> ie.None?
      ensures r.Ok? ==> bridgeAddress == ie.value.macAddress && macTable == map[]
      ensures r.Err? ==> macTable == old(macTable) && bridgeAddress == old(bridgeAddress)
    {
      isOperational := true;
      ie := ChooseInterface();
      if ie.Some? {
        bridgeAddress := ie.value.macAddress;
      } else {
        return Err("No non-loopback interface found!");
      }
      macTable := map[];
      return Ok(());
    }

    /** `stop`: not operational, empty MAC table, no chosen interface. */
    method Stop()
      modifies this`isOperational, this`ie, this`macTable
      ensures !isOperational && macTable == map[] && ie == None
    {
      isOperational := false;
      macTable := map[];
      ie := None;
    }

    /** The link-layer initialisation stages: the relay is operational when
        the node is up; an STP-aware relay registers the STP multicast
        address; an operational relay takes its bridge address from the
        chosen interface and registers it. */
    method Initialize(nodeUp: bool) returns (r: Result<(), string>)
      modifies this`isOperational, this`ie, this`bridgeAddress, this`registeredMacAddresses
      ensures isOperational == nodeUp
      ensures registeredMacAddresses ==
        old(registeredMacAddresses) + (if isStpAware then {(STP_MULTICAST_ADDRESS, STP_MULTICAST_ADDRESS)} else {})
          + (if nodeUp && r.Ok? then {(bridgeAddress, bridgeAddress)} else {})
      ensures nodeUp ==> ie == FirstNonLoopback(interfaces) && (r.Err? <==> ie.None?)
      ensures nodeUp && r.Ok? ==> bridgeAddress == ie.value.macAddress
      ensures !nodeUp ==> r.Ok? && ie == old(ie)
      ensures !(nodeUp && r.Ok?) ==> bridgeAddress == old(bridgeAddress)
    {
      isOperational := nodeUp;
      if isStpAware {
        RegisterAddress(STP_MULTICAST_ADDRESS);
      }
      if isOperational {
        ie := ChooseInterface();
        if ie.Some? {
          bridgeAddress := ie.value.macAddress;
          RegisterAddress(bridgeAddress);
        } else {
          return Err("No non-loopback interface found!");
        }
      }
      return Ok(());
    }

    /** A frame arriving on a port that does not forward, at an STP-aware
        relay, is either a BPDU delivered up or discarded. */
    lemma NonForwardingArrivalPassesOnlyBpdus(frame: Frame, arrivalId: int, arrival: Option<PortData>)
      requires isStpAware && arrival.Some? && !arrival.value.isForwarding
      ensures Decide(frame, arrivalId, arrival) == DeliverBpdu <==>
        (frame.dest == STP_MULTICAST_ADDRESS || frame.dest == bridgeAddress) &&
        arrival.value.role != Disabled && IsBpdu(frame)
      ensures Decide(frame, arrivalId, arrival) != DeliverBpdu ==>
        Decide(frame, arrivalId, arrival) == DiscardArrivalNotForwarding
    {
    }

    /** A relay that is not STP-aware ignores port data and never discards a
        frame for its arrival port. */
    lemma StpUnawareIgnoresPortData(frame: Frame, arrivalId: int, a: Option<PortData>, b: Option<PortData>)
      requires !isStpAware
      ensures Decide(frame, arrivalId, a) == Decide(frame, arrivalId, b)
      ensures Decide(frame, arrivalId, a) != DeliverBpdu
      ensures Decide(frame, arrivalId, a) != DiscardArrivalNotForwarding
    {
    }

    /** A unicast frame is only ever dispatched on the learned port of its
        destination, never back on its arrival port, and only when that
        port forwards. */
    lemma DispatchOnlyToForwardingLearnedPort(frame: Frame, arrivalId: int, arrival: Option<PortData>, id: int)
      requires isStpAware ==> arrival.Some?
      requires Decide(frame, arrivalId, arrival) == DispatchTo(id)
      ensures id == PortForAddress(frame.dest) && id != arrivalId && !IsBroadcastAddress(frame.dest)
      ensures !InRange(registeredMacAddresses, frame.dest)
      ensures InterfaceById(interfaces, id).Some? &&
        IsForwardingInterface(isStpAware, InterfaceById(interfaces, id).value) == Ok(true)
    {
    }

    /** A registered destination goes up unless the BPDU or arrival-port
        rungs come first. */
    lemma RegisteredDestinationGoesUp(frame: Frame, arrivalId: int, arrival: Option<PortData>)
      requires isStpAware ==> arrival.Some? && arrival.value.isForwarding && !IsBpdu(frame)
      requires InRange(registeredMacAddresses, frame.dest)
      ensures Decide(frame, arrivalId, arrival) == DeliverRegistered
    {
    }

    /** A discard comes from exactly one of the three discard rungs: the
        arrival port not forwarding, the output port equal to the arrival
        port, or the output port not forwarding. */
    lemma DiscardRungs(frame: Frame, arrivalId: int, arrival: Option<PortData>)
      requires isStpAware ==> arrival.Some?
      ensures IsDiscard(Decide(frame, arrivalId, arrival)) <==>
        (isStpAware && !arrival.value.isForwarding && Decide(frame, arrivalId, arrival) != DeliverBpdu) ||
        Decide(frame, arrivalId, arrival) == DiscardSamePort ||
        Decide(frame, arrivalId, arrival) == DiscardOutputNotForwarding
      ensures Decide(frame, arrivalId, arrival) == DiscardSamePort ==>
        PortForAddress(frame.dest) == arrivalId && !IsBroadcastAddress(frame.dest)
    {
    }

    /** Learning happens before the lookup: a frame whose source learning
        recorded on its arrival port, sent to its own address, is dropped as
        a same-port frame once the earlier rungs let it through. */
    lemma SelfAddressedFrameDropped(frame: Frame, arrivalId: int, arrival: Option<PortData>)
      requires isStpAware ==> arrival.Some? && arrival.value.isForwarding && !IsBpdu(frame)
      requires frame.dest == frame.src && arrivalId != -1
      requires !InRange(registeredMacAddresses, frame.dest) && !IsBroadcastAddress(frame.dest)
      requires macTable == Learned(frame.src, arrivalId, arrival) && (!isStpAware || arrival.value.isLearning)
      ensures Decide(frame, arrivalId, arrival) == DiscardSamePort
    {
    }
  }
}
