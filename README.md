# Gate scheduling, MPLS label tables and the 802.1D relay, modelled in Dafny

This project models four sequential components of an INET-based network
simulator and proves properties of them:

- **Z3 gate-schedule synthesis**, without the solver (`GateModel`,
  `GateConstraints`, `GateSchedule`).
  - The seven constraint families that `computeGateScheduling` hands to Z3
    become predicates over an assignment of integer raw-tick times to the
    solver variables. An accepted solution is any assignment that satisfies
    all of them (`Accepted`), and lemmas state what every such assignment
    guarantees.
  - The extraction of gate schedules from a solution is modelled
    imperatively: slot splitting at the cycle boundary, the C++ truncating
    `%`, and an in-place sort of each gate's slots by start.
- **The MPLS Label Information Base** (`LibTypes`, `LibTable`).
  - Label operations push, swap and pop (section 3.10 of RFC 3031),
    forwarding entries, LIB entries and their key equality, and the text
    form of a label-operation vector.
  - The `LibTable` class holds `maxLabel` and the ordered `lib` vector. Its
    methods install, remove and load entries in place.
  - `resolveLabel` is the Incoming Label Map to NHLFE choice of section 3.11
    of RFC 3031. It picks an up entry of minimal priority, with `std::rand()`
    as a parameter.
- **The MPLS action program** (`MplsProgram`). The `MplsProgram` class keeps
  the map from incoming label to the ordered update actions. It loads that
  map from the XML records, and on an incoming packet it issues the update
  calls of the matching actions in order.
- **The IEEE 802.1D relay** (`Ieee8021dRelay`). This covers:
  - the Forwarding Process decision ladder of clause 7.7 of IEEE 802.1D-2004
    and the learning of clause 7.8;
  - flooding and `isForwardingInterface`;
  - address registration, the operational start/stop state, and the drop
    and dispatch counters.

  The `Relay` class holds the MAC table as a map and the interface table as
  a sequence.

`Wrappers` supplies `Option` and `Result` for the error paths. `Text`
supplies decimal printing and `atoi`.

## Model

| member | source | states |
|---|---|---|
| Text.IntToString | src/inet/networklayer/mpls/LibTable.cc:302 | An `int` printed on a stream is a minus sign exactly for negatives, followed by decimal digits. |
| Text.Atoi | src/inet/networklayer/mpls/MplsProgram.cc:116-119 | `atoi` of an empty attribute is 0, so an empty label attribute fails the label check. |
| Text.AtoiOfIntToString | src/inet/networklayer/mpls/MplsProgram.cc:149-151 | `atoi` reads back any integer written in decimal. |
| Text.AtoiOfDigits | src/inet/networklayer/mpls/MplsProgram.cc:149-151 | `atoi` of a non-empty run of decimal digits is the value of those digits. |
| Text.AtoiOfNegatedDigits | src/inet/networklayer/mpls/MplsProgram.cc:149-151 | `atoi` of a minus sign followed by a non-empty run of digits is the negated value of those digits. |
| LibTypes.MakeForwardingEntry | src/inet/networklayer/mpls/LibTable.cc:143 | An aggregate-initialised forwarding entry has the given out label, interface and priority, and keeps the default preference 1. |
| LibTypes.DefaultForwardingEntry | src/inet/networklayer/mpls/LibTable.h:42-48 | A default forwarding entry has priority 0 and preference 1. |
| LibTypes.SameEntry | src/inet/networklayer/mpls/LibTable.cc:288-290 | `operator==`: the same in label and in interface. |
| LibTypes.SameEntryIgnoresForwardingAndColor | src/inet/networklayer/mpls/LibTable.cc:288-290 | Two LIB entries are equal whatever their forwarding entries and color, as long as they share the key. |
| LibTypes.SameEntryIsEquivalence | src/inet/networklayer/mpls/LibTable.cc:288-293 | LIB-entry equality is reflexive, symmetric and transitive. |
| LibTypes.PushLabel | src/inet/networklayer/mpls/LibTable.cc:255-263 | `pushLabel(n)` is a one-element vector holding PUSH n. |
| LibTypes.SwapLabel | src/inet/networklayer/mpls/LibTable.cc:265-273 | `swapLabel(n)` is a one-element vector holding SWAP n. |
| LibTypes.PopLabel | src/inet/networklayer/mpls/LibTable.cc:275-283 | `popLabel()` is a one-element vector holding POP with label 0. |
| LibTypes.FormatLabelOps | src/inet/networklayer/mpls/LibTable.cc:296-324 | `operator<<` of a label-op vector: "{", then each op as PUSH n, SWAP n or POP separated by "; ", then "}" unless the vector is empty. |
| LibTypes.FormatFromIsJoin | src/inet/networklayer/mpls/LibTable.cc:299-322 | From any position, the printing loop writes the remaining items joined by "; ", followed by "}". |
| LibTypes.FormatLabelOpsShape | src/inet/networklayer/mpls/LibTable.cc:296-324 | A non-empty vector prints as "{" + the items joined by "; " + "}"; an empty vector prints as just "{". |
| LibTypes.FormatSingleOps | src/inet/networklayer/mpls/LibTable.cc:255-324 | The vectors built by push, swap and pop print as "{PUSH n}", "{SWAP n}" and "{POP}". |
| LibTable.FindLabel | src/inet/networklayer/mpls/LibTable.cc:150-153 | Returns the index of the first entry with the label; no earlier entry has it; None exactly when no entry has it. |
| LibTable.FindEntry | src/inet/networklayer/mpls/LibTable.cc:234-236 | Returns the first entry with the same key (`operator==`); no earlier entry has that key; None exactly when none has it. |
| LibTable.UpEntries | src/inet/networklayer/mpls/LibTable.cc:92-96 | Keeps exactly the forwarding entries whose interface is up. |
| LibTable.MinPriority | src/inet/networklayer/mpls/LibTable.cc:100-110 | Returns a priority that some entry has and that no entry is below. |
| LibTable.WithPriority | src/inet/networklayer/mpls/LibTable.cc:111-114 | Keeps exactly the entries with the given priority. |
| LibTable.ChooseEntry | src/inet/networklayer/mpls/LibTable.cc:100-118 | The ECMP pick is one of the valid entries, and no valid entry has a lower priority. |
| LibTable.ResolveLabel | src/inet/networklayer/mpls/LibTable.cc:67-130 | Fails exactly when no entry has the label, or when none of the first such entry's forwarding entries is up. On success it returns the out label and interface of an up entry of minimal priority, with the LIB entry's color. |
| LibTable.EveryMinimalEntryCanBeChosen | src/inet/networklayer/mpls/LibTable.cc:110-118 | Every valid entry of minimal priority is picked for some value of `std::rand()`. |
| LibTable.EveryBestEntryCanBeChosen | src/inet/networklayer/mpls/LibTable.cc:92-127 | Every up entry of minimal priority is the resolution for some value of `std::rand()`. |
| LibTable.ResolveIgnoresInInterface | src/inet/networklayer/mpls/LibTable.cc:72-78 | The incoming interface never changes the resolution. |
| LibTable.ResolveStopsAtFirstEntry | src/inet/networklayer/mpls/LibTable.cc:76-106 | When the first entry with the label has no up interface, resolution fails, even if a later entry with the label would succeed. |
| LibTable.ParseOp | src/inet/networklayer/mpls/LibTable.cc:207-229 | A parsed push or swap has a value that reads as a label > 0, and conversely such a push or swap parses to that label. A pop parses exactly when it has no value. A missing or unknown code fails. |
| LibTable.ParseOps | src/inet/networklayer/mpls/LibTable.cc:204-232 | Succeeds exactly when every op parses; the result holds the parsed ops in document order. |
| LibTable.ParseRow | src/inet/networklayer/mpls/LibTable.cc:191-202 | A parsed row has all its mandatory parts. Its LIB entry has the row's key and color (default 0) and no forwarding entries. Its forwarding entry holds the parsed ops, the out interface and the priority (default 0). Conversely, the first missing part of `inLabel`, `inInterface`, `outInterface`, `outLabel` is the reported error, and a complete row parses exactly when its ops do. |
| LibTable.MergeRow | src/inet/networklayer/mpls/LibTable.cc:189-251 | One row: parse it, then append its entry with its forwarding entry when the key is new, or append the forwarding entry to the first entry with the key. `maxLabel` rises to the row label when that is larger. A non-positive label is an assertion failure. |
| LibTable.MergeRows | src/inet/networklayer/mpls/LibTable.cc:188-252 | The rows merged one by one in document order, stopping at the first fault. |
| LibTable.MergeRowProperties | src/inet/networklayer/mpls/LibTable.cc:234-251 | One merged row keeps the keys unique and every label at most `maxLabel`. It puts its key in the table with a positive label, raises `maxLabel` only to that label, loses no key, and adds at most one entry. |
| LibTable.MergeRowsProperties | src/inet/networklayer/mpls/LibTable.cc:188-252 | After a successful load, keys are unique and every row's key is present with a positive label ≤ `maxLabel`. `maxLabel` is its old value or some row's label, and no earlier key is lost. |
| LibTable.FindEntryByKey | src/inet/networklayer/mpls/LibTable.cc:234-236 | The search depends only on the keys: two tables with the same keys, searched for the same key, give the same position. |
| LibTable.FindEntryAppend | src/inet/networklayer/mpls/LibTable.cc:234-236 | After appending an entry, the search finds the old position if there was one, else the new last position when the key matches, else nothing. |
| LibTable.MergeRowShape | src/inet/networklayer/mpls/LibTable.cc:234-246 | A merged row appends its LIB entry with only its forwarding entry exactly when its key is new. Otherwise it appends the forwarding entry to the first entry with that key. Every other entry, and every key and color, stays as it was. |
| LibTable.MergeRowForwarding | src/inet/networklayer/mpls/LibTable.cc:234-246 | For every key, the forwarding entries after one merged row are the old ones, plus the row's forwarding entry when the key is the row's. |
| LibTable.MergeRowsForwarding | src/inet/networklayer/mpls/LibTable.cc:188-252 | After a successful load, each key's forwarding entries are its old ones followed by those of the rows with that key, in document order. |
| LibTable.AppendNewKey | src/inet/networklayer/mpls/LibTable.cc:238-242 | Appending an entry whose key is not yet in the table keeps the keys unique, keeps every old key and adds the new key. |
| LibTable.ReplaceSameKey | src/inet/networklayer/mpls/LibTable.cc:243-246 | Replacing an entry by one with the same key keeps the keys unique and every key present. |
| LibTable.LibTable.constructor | src/inet/networklayer/mpls/LibTable.cc:27-29 | A new table has `maxLabel` 0 and no entries, and satisfies the invariant. |
| LibTable.LibTable.InstallLibEntry | src/inet/networklayer/mpls/LibTable.cc:134-166 | Label -1: `maxLabel` rises by one, and one entry with that label and exactly one forwarding entry is appended; the label is returned. Otherwise: the forwarding entry is appended to the first entry with the label and its color is overwritten, with nothing else changed. A missing label is an assertion failure that changes nothing. The invariant is kept. |
| LibTable.LibTable.RemoveLibEntry | src/inet/networklayer/mpls/LibTable.cc:168-178 | Erases exactly the first entry with the label and keeps the others in order. An absent label is an assertion failure that changes nothing. |
| LibTable.LibTable.ReadTableFromXml | src/inet/networklayer/mpls/LibTable.cc:180-253 | Succeeds exactly when the row-by-row merge does, and then leaves the table and `maxLabel` the merge computes, with the invariant kept. |
| LibTable.LibTable.MergeRowInPlace | src/inet/networklayer/mpls/LibTable.cc:189-251 | One row succeeds exactly when its merge does. The table and `maxLabel` then become the merged ones, and the invariant holds. |
| LibTable.FreshLabelIsUnused | src/inet/networklayer/mpls/LibTable.cc:137-147 | Under the table invariant, `maxLabel + 1` labels no entry, so an installed fresh label is unique. |
| MplsProgram.NewAction | src/inet/networklayer/mpls/MplsProgram.h:38-40 | A new action has the given filter and -1 ("do not update") as its new preference and new priority. |
| MplsProgram.UpdateEntryFields | src/inet/networklayer/mpls/MplsProgram.cc:142-178 | Fails exactly when both the label and the group attribute are missing; otherwise keeps the action's filter. |
| MplsProgram.UpdateEntryReadsTargets | src/inet/networklayer/mpls/MplsProgram.cc:164-177 | The `outInterface` attribute is stored as given. The decimal `value` of the `<preference>` and `<priority>` children becomes the new preference and the new priority. |
| MplsProgram.UpdateEntryDefaults | src/inet/networklayer/mpls/MplsProgram.cc:149-177 | A missing label, an absent or empty group, priority or preference, a missing out interface, and a missing preference or priority value each give their "invalid" marker or "". |
| MplsProgram.UpdateEntryReadsNumbers | src/inet/networklayer/mpls/MplsProgram.cc:144-166 | Each of label, group, priority and preference written in decimal is stored as that number, whatever the other attributes hold. A decimal label alone, or a decimal group alone, is enough for the entry to be read. |
| MplsProgram.UpdateEntryOverwritesAllButFilter | src/inet/networklayer/mpls/MplsProgram.cc:132-135 | Only the filter of the action being filled matters; every other field is overwritten. |
| MplsProgram.EmptyGroupWithoutLabel | src/inet/networklayer/mpls/MplsProgram.cc:144-163 | An update entry with no label and an empty group passes the check, and both fields become "invalid". |
| MplsProgram.FilterTakenWhenPresent | src/inet/networklayer/mpls/MplsProgram.cc:116-125 | Because the label check runs first, the filter is the `inInterface` attribute whenever that attribute is present. |
| MplsProgram.ActionInInterface | src/inet/networklayer/mpls/MplsProgram.cc:121-125 | The filter: the `inInterface` attribute when present and the label is non-empty, else "". |
| MplsProgram.ElementActions | src/inet/networklayer/mpls/MplsProgram.cc:114-138 | An action element fails when its label is missing or reads as 0, or when an update entry fails. Otherwise it yields its label and one action per update entry, in document order, each with the element's filter. |
| MplsProgram.EntriesActions | src/inet/networklayer/mpls/MplsProgram.cc:129-138 | The update entries of one `<action>` read in order into actions with the element's filter, stopping at the first fault. |
| MplsProgram.EntriesActionsReadsEach | src/inet/networklayer/mpls/MplsProgram.cc:129-138 | Update entries become actions one for one, in order; reading fails exactly when one entry fails. |
| MplsProgram.EntriesActionsSuffixStep | src/inet/networklayer/mpls/MplsProgram.cc:131-138 | Reading from one child on: a faulty child is the fault of the whole rest. Otherwise its action comes before the actions of the children after it. |
| MplsProgram.AppendActions | src/inet/networklayer/mpls/MplsProgram.cc:137 | Appending under a label extends that label's actions by the new ones and leaves every other label untouched. |
| MplsProgram.AppendActionsStep | src/inet/networklayer/mpls/MplsProgram.cc:137 | Appending one more action is one more `push_back` on the label's vector. |
| MplsProgram.LoadActions | src/inet/networklayer/mpls/MplsProgram.cc:107-140 | The `<action>` elements loaded in order, each appending its actions under its label, stopping at the first fault. |
| MplsProgram.LoadActionsExtends | src/inet/networklayer/mpls/MplsProgram.cc:107-140 | Loading never drops or reorders stored actions: each label's old actions are a prefix of its new ones. |
| MplsProgram.Applicable | src/inet/networklayer/mpls/MplsProgram.cc:82-85 | Filtering never adds actions. |
| MplsProgram.ApplicableDistributes | src/inet/networklayer/mpls/MplsProgram.cc:82-85 | Filtering keeps stored order: the filter of `xs + ys` is the filter of `xs` followed by the filter of `ys`. |
| MplsProgram.ApplicableMembers | src/inet/networklayer/mpls/MplsProgram.cc:82-85 | An action runs exactly when it is stored under the label and its filter is empty or equals the arrival interface. |
| MplsProgram.CallsOf | src/inet/networklayer/mpls/MplsProgram.cc:92-93 | Each action gives one update call with its fields, in order. |
| MplsProgram.CallsOfAppend | src/inet/networklayer/mpls/MplsProgram.cc:82-94 | The calls of two action lists in sequence are the calls of the first list followed by those of the second. |
| MplsProgram.MplsProgram.constructor | src/inet/networklayer/mpls/MplsProgram.h:43 | The action map starts empty. |
| MplsProgram.MplsProgram.ReadUpdateEntry | src/inet/networklayer/mpls/MplsProgram.cc:142-178 | Filling an action field by field gives exactly the fields `UpdateEntryFields` describes, or the same assertion failure. |
| MplsProgram.MplsProgram.PushUpdateEntries | src/inet/networklayer/mpls/MplsProgram.cc:128-138 | Succeeds exactly when every update entry reads, and then appends their actions, in order, under the label. |
| MplsProgram.MplsProgram.PushAction | src/inet/networklayer/mpls/MplsProgram.cc:137 | `push_back` adds the action at the end of the label's vector and changes no other label. |
| MplsProgram.MplsProgram.ReadActionsFromXml | src/inet/networklayer/mpls/MplsProgram.cc:107-140 | Succeeds exactly when loading the elements does, and then the map is the loaded map. |
| MplsProgram.MplsProgram.ReadActionElement | src/inet/networklayer/mpls/MplsProgram.cc:114-138 | One `<action>` succeeds exactly when its label and update entries read, and then its actions are appended under its label. |
| MplsProgram.MplsProgram.HandleIncomingPacket | src/inet/networklayer/mpls/MplsProgram.cc:79-95 | A label with no actions issues no call. Otherwise the calls are those of the label's applicable actions, in stored order. |
| GateModel.FragmentSteps | src/inet/linklayer/configurator/gatescheduling/z3/Z3GateSchedulingConfigurator.cc:99-100 | A fragment's visited hops are its hops, with node indices 0, 1, … in order. |
| GateModel.StepHopsFromFragments | src/inet/linklayer/configurator/gatescheduling/z3/Z3GateSchedulingConfigurator.cc:65-67 | Every visited hop is a hop of one of the flow's fragments. |
| GateModel.StepStructure | src/inet/linklayer/configurator/gatescheduling/z3/Z3GateSchedulingConfigurator.cc:98-99 | The node index restarts at 0 for every fragment and grows by one from hop to hop within it. |
| GateModel.FragmentStart | src/inet/linklayer/configurator/gatescheduling/z3/Z3GateSchedulingConfigurator.cc:98-107 | Stepping back by a hop's node index reaches the first hop of its fragment, whose index is 0. |
| GateModel.StepPortsInRange | src/inet/linklayer/configurator/gatescheduling/z3/Z3GateSchedulingConfigurator.cc:67-76 | In a valid input every visited hop names existing ports. |
| GateConstraints.CycleFixed | src/inet/linklayer/configurator/gatescheduling/z3/Z3GateSchedulingConfigurator.cc:50-51 | The gate-cycle variable equals the configured cycle. |
| GateConstraints.ApplicationWindow | src/inet/linklayer/configurator/gatescheduling/z3/Z3GateSchedulingConfigurator.cc:55-60 | Family 1: every application starts at or after 0 and before the cycle ends. |
| GateConstraints.HopTimed | src/inet/linklayer/configurator/gatescheduling/z3/Z3GateSchedulingConfigurator.cc:66-83 | Family 2 for one hop of one packet. The duration and propagation variables are the given values. Transmission starts inside the cycle and ends one duration later. Reception starts one propagation time after transmission starts and lasts one duration. |
| GateConstraints.LinkTiming | src/inet/linklayer/configurator/gatescheduling/z3/Z3GateSchedulingConfigurator.cc:62-86 | Family 2: every hop of every packet of every flow is timed. |
| GateConstraints.StepChained | src/inet/linklayer/configurator/gatescheduling/z3/Z3GateSchedulingConfigurator.cc:101-111 | Family 3 for one hop. The first hop of a fragment starts at application start plus packet index times interval. A later hop starts no earlier than the previous reception ends. |
| GateConstraints.PacketChained | src/inet/linklayer/configurator/gatescheduling/z3/Z3GateSchedulingConfigurator.cc:95-118 | Family 3 for one packet. Every hop is chained. The delay runs from the first transmission start to the last reception end. With a latency bound, the delay is at most the bound. A flow without hops is never accepted. |
| GateConstraints.Chaining | src/inet/linklayer/configurator/gatescheduling/z3/Z3GateSchedulingConfigurator.cc:88-122 | Family 3: the interval and latency variables are the given values, every packet is chained, and the total delay is the sum of all delays. |
| GateConstraints.FlowJitterFree | src/inet/linklayer/configurator/gatescheduling/z3/Z3GateSchedulingConfigurator.cc:124-140 | Family 4 for one flow: the jitter variable is 0, and the average delay exceeds no packet delay by more than it. The average is stated multiplied by the packet count. |
| GateConstraints.Jitter | src/inet/linklayer/configurator/gatescheduling/z3/Z3GateSchedulingConfigurator.cc:124-140 | Family 4 for every flow. |
| GateConstraints.Separated | src/inet/linklayer/configurator/gatescheduling/z3/Z3GateSchedulingConfigurator.cc:150-157 | One transmission ends at least the interframe gap before the other starts, in either order. |
| GateConstraints.PortExclusive | src/inet/linklayer/configurator/gatescheduling/z3/Z3GateSchedulingConfigurator.cc:142-159 | Family 5: the gap variable is the given gap, and every two listed transmissions of a port are separated by it. |
| GateConstraints.InOrder | src/inet/linklayer/configurator/gatescheduling/z3/Z3GateSchedulingConfigurator.cc:168-174 | Family 6 for two packets of a gate: receiving one first is the same as transmitting it first. |
| GateConstraints.NoReorder | src/inet/linklayer/configurator/gatescheduling/z3/Z3GateSchedulingConfigurator.cc:161-178 | Family 6 for every pair of packets of every gate of every port. |
| GateConstraints.PriorityRespected | src/inet/linklayer/configurator/gatescheduling/z3/Z3GateSchedulingConfigurator.cc:186-193 | Family 7 for one pair. The later-gate packet starts transmitting no later than the earlier-gate packet's reception ends, or no earlier than its transmission starts. |
| GateConstraints.Priority | src/inet/linklayer/configurator/gatescheduling/z3/Z3GateSchedulingConfigurator.cc:180-197 | Family 7 for every pair of gates of every port. |
| GateConstraints.Accepted | src/inet/linklayer/configurator/gatescheduling/z3/Z3GateSchedulingConfigurator.cc:50-197 | What the solver may return: an assignment satisfying the cycle constraint and families 1 to 7. |
| GateConstraints.AcceptedHopTiming | src/inet/linklayer/configurator/gatescheduling/z3/Z3GateSchedulingConfigurator.cc:62-86 | In an accepted solution every hop has 0 ≤ txStart < cycle, txEnd = txStart + duration, rxStart = txStart + propagation and rxEnd = rxStart + duration. |
| GateConstraints.AcceptedPacketChaining | src/inet/linklayer/configurator/gatescheduling/z3/Z3GateSchedulingConfigurator.cc:88-121 | In an accepted solution: each fragment's first hop starts at appStart + interval·packetIndex; a later hop starts no earlier than the previous reception end; delay = last rxEnd − first txStart; delay ≤ maxLatency when maxLatency > 0. |
| GateConstraints.FragmentChainCost | src/inet/linklayer/configurator/gatescheduling/z3/Z3GateSchedulingConfigurator.cc:73-110 | Along a fragment, a reception ends at least the summed duration and propagation of the hops so far after the fragment's first transmission starts. |
| GateConstraints.PacketHopsTimed | src/inet/linklayer/configurator/gatescheduling/z3/Z3GateSchedulingConfigurator.cc:62-121 | Every hop of a packet that satisfies families 2 and 3 is timed and chained. |
| GateConstraints.LastFragmentCost | src/inet/linklayer/configurator/gatescheduling/z3/Z3GateSchedulingConfigurator.cc:98-120 | A chained packet's delay is at least the summed durations and propagation times of its flow's last fragment. |
| GateConstraints.DelayCoversLastFragment | src/inet/linklayer/configurator/gatescheduling/z3/Z3GateSchedulingConfigurator.cc:98-120 | Every accepted packet delay is at least the cost of the flow's last fragment, and under a positive latency bound that cost fits the bound. A flow must have a hop. |
| GateConstraints.DelaySumBelow | src/inet/linklayer/configurator/gatescheduling/z3/Z3GateSchedulingConfigurator.cc:130-133 | A sum of delays that are each ≥ m is ≥ n·m, and is strictly greater when one delay exceeds m. |
| GateConstraints.SmallestDelay | src/inet/linklayer/configurator/gatescheduling/z3/Z3GateSchedulingConfigurator.cc:130-137 | Some packet of a flow has the smallest delay. |
| GateConstraints.JitterFreeDelaysEqual | src/inet/linklayer/configurator/gatescheduling/z3/Z3GateSchedulingConfigurator.cc:124-140 | With jitter fixed at 0, no packet's delay is below the flow's average, so all of the flow's packets have the same delay. |
| GateConstraints.TransmissionsDoNotOverlap | src/inet/linklayer/configurator/gatescheduling/z3/Z3GateSchedulingConfigurator.cc:142-159 | With a non-negative interframe gap, two different transmissions of a port do not overlap. |
| GateConstraints.ReceptionOrderIsTransmissionOrder | src/inet/linklayer/configurator/gatescheduling/z3/Z3GateSchedulingConfigurator.cc:161-178 | On one gate, a packet received before another is not transmitted after it, and a packet transmitted before another was not received after it. |
| GateConstraints.QueuedHigherPriorityGoesFirst | src/inet/linklayer/configurator/gatescheduling/z3/Z3GateSchedulingConfigurator.cc:142-197 | Families 5 and 7 together. Take an accepted assignment where transmissions last a positive time. A later-gate packet that starts transmitting after an earlier-gate packet was received on the same port starts only after that packet's whole transmission and the interframe gap. |
| GateConstraints.HopTransmissionTimed | src/inet/linklayer/configurator/gatescheduling/z3/Z3GateSchedulingConfigurator.cc:71-75 | An accepted hop transmission starts inside the cycle and lasts a given transmission duration. |
| GateSchedule.TruncMod | src/inet/linklayer/configurator/gatescheduling/z3/Z3GateSchedulingConfigurator.cc:264 | The C++ `%` result lies in [0, m) for a non-negative dividend and in (−m, 0] for a negative one. |
| GateSchedule.TruncModOfSmaller | src/inet/linklayer/configurator/gatescheduling/z3/Z3GateSchedulingConfigurator.cc:264 | A start already inside the cycle is left unchanged by the modulo. |
| GateSchedule.SplitSlot | src/inet/linklayer/configurator/gatescheduling/z3/Z3GateSchedulingConfigurator.cc:249-267 | A transmission splits in two exactly when start < cycle < end: first (start, cycle − start), then a slot starting at 0. Any other transmission becomes one slot starting at start mod cycle. The slot durations always sum to end − start. |
| GateSchedule.BoundaryIsNotSplit | src/inet/linklayer/configurator/gatescheduling/z3/Z3GateSchedulingConfigurator.cc:253-266 | A transmission ending exactly at the boundary stays one slot. |
| GateSchedule.SplitSlotInCycle | src/inet/linklayer/configurator/gatescheduling/z3/Z3GateSchedulingConfigurator.cc:253-266 | A transmission that starts in the cycle and lasts at most a cycle gives slots inside the cycle window. |
| GateSchedule.DurationsAppend | src/inet/linklayer/configurator/gatescheduling/z3/Z3GateSchedulingConfigurator.cc:257-266 | The total duration of concatenated slot lists is the sum of their totals. |
| GateSchedule.Produced | src/inet/linklayer/configurator/gatescheduling/z3/Z3GateSchedulingConfigurator.cc:248-268 | The slots pushed for a gate, in list order. Each solved transmission is one slot, or two when it crosses the cycle end. |
| GateSchedule.ProducedKeepsDurations | src/inet/linklayer/configurator/gatescheduling/z3/Z3GateSchedulingConfigurator.cc:248-268 | A gate's pushed slots last exactly as long as its transmissions together. |
| GateSchedule.ProducedInCycle | src/inet/linklayer/configurator/gatescheduling/z3/Z3GateSchedulingConfigurator.cc:248-268 | Transmissions that start in the cycle and last at most a cycle give only slots inside the cycle window. |
| GateSchedule.SortByStart | src/inet/linklayer/configurator/gatescheduling/z3/Z3GateSchedulingConfigurator.cc:269-272 | The in-place sort leaves the slots ordered by start and a permutation of the input. |
| GateSchedule.Insert | src/inet/linklayer/configurator/gatescheduling/z3/Z3GateSchedulingConfigurator.cc:269-272 | One insertion step of the sort: the prefix grows by one and stays ordered by start, and the array is a permutation of the old one. |
| GateSchedule.Swap | src/inet/linklayer/configurator/gatescheduling/z3/Z3GateSchedulingConfigurator.cc:269-272 | Exchanges two slots and leaves every other slot and the multiset of slots unchanged. |
| GateSchedule.SolvedPairs | src/inet/linklayer/configurator/gatescheduling/z3/Z3GateSchedulingConfigurator.cc:248-250 | Each listed transmission gives its solved (start, end), in list order. |
| GateSchedule.GateSlots | src/inet/linklayer/configurator/gatescheduling/z3/Z3GateSchedulingConfigurator.cc:246-272 | A gate's slot list is sorted by start and is a permutation of the slots pushed for its transmissions. |
| GateSchedule.PushTransmission | src/inet/linklayer/configurator/gatescheduling/z3/Z3GateSchedulingConfigurator.cc:249-267 | One transmission appends exactly its split slots to the gate's list. |
| GateSchedule.SortedCopy | src/inet/linklayer/configurator/gatescheduling/z3/Z3GateSchedulingConfigurator.cc:269-272 | The sorted list is ordered by start and is a permutation of the pushed slots. |
| GateSchedule.ComputeSchedules | src/inet/linklayer/configurator/gatescheduling/z3/Z3GateSchedulingConfigurator.cc:217-277 | The output gives every application's solved start time. Every port gets one schedule per gate index, in order, each with cycle start 0, the configured cycle, and the gate's sorted slots. |
| GateSchedule.ExtractedOutputInCycle | src/inet/linklayer/configurator/gatescheduling/z3/Z3GateSchedulingConfigurator.cc:56-268 | For an accepted solution whose durations are at most a cycle, every application start and every slot of every schedule lies inside the cycle window. |
| Ieee8021dRelay.IsBpdu | src/inet/linklayer/ieee8021d/relay/Ieee8021dRelay.cc:195-203 | A BPDU is an 802.3 frame whose LLC header has SSAP = DSAP = 0x42 and control 3. |
| Ieee8021dRelay.InterfaceById | src/inet/linklayer/ieee8021d/relay/Ieee8021dRelay.cc:244 | Returns an interface with that id; None exactly when no interface has the id. |
| Ieee8021dRelay.FirstNonLoopback | src/inet/linklayer/ieee8021d/relay/Ieee8021dRelay.cc:334-340 | Returns the first non-loopback interface; None exactly when all interfaces are loopback. |
| Ieee8021dRelay.IsForwardingInterface | src/inet/linklayer/ieee8021d/relay/Ieee8021dRelay.cc:161-169 | Always true for a relay that is not STP-aware. Otherwise it fails exactly when the port data is missing, and is the port's forwarding state. |
| Ieee8021dRelay.FloodTargets | src/inet/linklayer/ieee8021d/relay/Ieee8021dRelay.cc:182-190 | A flood sends no more copies than there are interfaces. |
| Ieee8021dRelay.FloodTargetsDistinct | src/inet/linklayer/ieee8021d/relay/Ieee8021dRelay.cc:182-190 | When interface ids are distinct, a flood sends at most one copy to each interface. |
| Ieee8021dRelay.FloodErrorPersists | src/inet/linklayer/ieee8021d/relay/Ieee8021dRelay.cc:183-189 | A forwarding state that cannot be read ends the flood with that error. |
| Ieee8021dRelay.FloodTargetsEligible | src/inet/linklayer/ieee8021d/relay/Ieee8021dRelay.cc:183-190 | A copy goes to an interface exactly when it is not loopback, is broadcast-capable, is not the arrival interface, and forwards. |
| Ieee8021dRelay.Relay.constructor | src/inet/linklayer/ieee8021d/relay/Ieee8021dRelay.cc:39-45 | The relay starts with counters at 0, an empty MAC table, no registered ranges, and no chosen interface. |
| Ieee8021dRelay.Relay.RegisterAddresses | src/inet/linklayer/ieee8021d/relay/Ieee8021dRelay.cc:91-95 | Adds exactly the range (start, end). |
| Ieee8021dRelay.Relay.RegisterAddress | src/inet/linklayer/ieee8021d/relay/Ieee8021dRelay.cc:84-88 | Adds exactly the range (m, m), after which m is in range. |
| Ieee8021dRelay.Relay.Learned | src/inet/linklayer/ieee8021d/relay/Ieee8021dRelay.cc:280-286 | The MAC table after learning. The source is mapped to the arrival port when the relay is not STP-aware or the port is learning; otherwise the table is unchanged. |
| Ieee8021dRelay.Relay.Decide | src/inet/linklayer/ieee8021d/relay/Ieee8021dRelay.cc:217-259 | The decision ladder, in order. At an STP-aware relay, a BPDU to the STP multicast or bridge address on a port not Disabled is delivered up, and any other frame at a non-forwarding port is discarded. A registered destination is delivered up. A broadcast or unknown destination is flooded. A learned port equal to the arrival port is a discard, a missing one a fault, and a non-forwarding one a discard. Otherwise the frame is dispatched to the learned port. |
| Ieee8021dRelay.Relay.Learn | src/inet/linklayer/ieee8021d/relay/Ieee8021dRelay.cc:280-306 | The source is mapped to the arrival port exactly when the relay is not STP-aware or the port is learning. An STP-aware relay without the port's data fails and learns nothing. |
| Ieee8021dRelay.Relay.Broadcast | src/inet/linklayer/ieee8021d/relay/Ieee8021dRelay.cc:171-192 | Sends to exactly the flood targets, in table order, and counts one dispatched frame per copy. |
| Ieee8021dRelay.Relay.ActOn | src/inet/linklayer/ieee8021d/relay/Ieee8021dRelay.cc:221-268 | Acts on a ladder decision. `numDroppedFrames` rises by one exactly on the three discard rungs. The dispatch counter rises by the number of copies sent. |
| Ieee8021dRelay.Relay.HandleAndDispatchFrame | src/inet/linklayer/ieee8021d/relay/Ieee8021dRelay.cc:206-261 | A missing arrival interface, or missing port data at an STP-aware relay, fails before anything changes. Otherwise the relay learns the source, then emits what the ladder decides on the updated table; drops rise by one exactly on a discard. |
| Ieee8021dRelay.Relay.DecideFromHLAsWritten | src/inet/linklayer/ieee8021d/relay/Ieee8021dRelay.cc:132-159 | The upper-layer decision as written. A known unicast destination is looked up by the requested id, which is -1 on that branch. |
| Ieee8021dRelay.Relay.DecideFromHL | src/inet/linklayer/ieee8021d/relay/Ieee8021dRelay.cc:132-159 | Corrected upper-layer decision. A requested existing interface is dispatched on. Without a request, a broadcast or unknown destination is flooded (and only then is anything flooded), and a known unicast goes to the learned port when it exists. A dispatch always names an existing interface. |
| Ieee8021dRelay.Relay.FromHLKnownUnicastAsWritten | src/inet/linklayer/ieee8021d/relay/Ieee8021dRelay.cc:153-155 | As written, a known unicast frame from the upper layer without a request finds no interface, while the corrected decision dispatches it on the learned port. |
| Ieee8021dRelay.Relay.HandleAndDispatchFrameFromHL | src/inet/linklayer/ieee8021d/relay/Ieee8021dRelay.cc:132-159 | Follows the corrected lookup of `DecideFromHL`, not line 154 as written (see Findings). Dispatches on the decided interface, or floods with no arrival interface. Every success is a dispatch counted copy by copy. |
| Ieee8021dRelay.Relay.HandleMessage | src/inet/linklayer/ieee8021d/relay/Ieee8021dRelay.cc:97-130 | A relay that is down discards every message with no other effect. At a running relay, a self-message or an unknown gate is an error that changes nothing. A frame from the upper layer is handled as `HandleAndDispatchFrameFromHL` states, with no learning and no drop. A frame from the network is counted as received, then handled as `HandleAndDispatchFrame` states. |
| Ieee8021dRelay.Relay.ChooseInterface | src/inet/linklayer/ieee8021d/relay/Ieee8021dRelay.cc:329-341 | Returns the first non-loopback interface, or none. |
| Ieee8021dRelay.Relay.Start | src/inet/linklayer/ieee8021d/relay/Ieee8021dRelay.cc:308-319 | The relay becomes operational with the chosen interface. If there is one, the bridge address is its address and the MAC table is cleared; if not, it is an error and the table is kept. |
| Ieee8021dRelay.Relay.Stop | src/inet/linklayer/ieee8021d/relay/Ieee8021dRelay.cc:321-327 | The relay is not operational, its MAC table is empty, and it has no chosen interface. |
| Ieee8021dRelay.Relay.Initialize | src/inet/linklayer/ieee8021d/relay/Ieee8021dRelay.cc:46-70 | The relay is operational iff the node is up. An STP-aware relay registers the STP multicast address. When up, it takes and registers the first non-loopback interface's address, or fails when there is none. The bridge address is written only on that success. |
| Ieee8021dRelay.Relay.NonForwardingArrivalPassesOnlyBpdus | src/inet/linklayer/ieee8021d/relay/Ieee8021dRelay.cc:217-228 | At an STP-aware relay, a frame arriving on a non-forwarding port goes up iff it is a BPDU for the STP or bridge address on a non-disabled port; otherwise it is discarded. |
| Ieee8021dRelay.Relay.StpUnawareIgnoresPortData | src/inet/linklayer/ieee8021d/relay/Ieee8021dRelay.cc:217-224 | A relay that is not STP-aware decides without port data, never delivers BPDUs, and never discards for the arrival port. |
| Ieee8021dRelay.Relay.DispatchOnlyToForwardingLearnedPort | src/inet/linklayer/ieee8021d/relay/Ieee8021dRelay.cc:229-247 | A single dispatch goes to the learned port of an unregistered, non-broadcast destination. That port differs from the arrival port and forwards. |
| Ieee8021dRelay.Relay.RegisteredDestinationGoesUp | src/inet/linklayer/ieee8021d/relay/Ieee8021dRelay.cc:229-232 | A registered destination goes up once the BPDU and arrival-port rungs let the frame through. |
| Ieee8021dRelay.Relay.DiscardRungs | src/inet/linklayer/ieee8021d/relay/Ieee8021dRelay.cc:224-258 | A frame is discarded exactly on one of three rungs: a non-forwarding arrival port (non-BPDU), output port equal to the arrival port, or a non-forwarding output port. |
| Ieee8021dRelay.Relay.SelfAddressedFrameDropped | src/inet/linklayer/ieee8021d/relay/Ieee8021dRelay.cc:214-258 | Learning precedes lookup, so a unicast frame addressed to its own learned source is dropped as a same-port frame. |

## Left out

- The Z3 context, solver and optimiser, the assertion labels, the minimisation goal and the unsatisfiable branch (`computeGateScheduling` lines 45-53, 199-214 and 282-284) are not modelled. A solution is any assignment that satisfies the constraint families.
- `getVariableValue` parses the solver's rational text with `atof` and divides doubles. It is not modelled; solved times are integer ticks.
- Physical-unit conversions of packet length, data rate and the 96-bit interframe gap are not modelled. Durations, propagation times and gaps are given integers.
- `getPacketCount` and the per-port variable-list accessors are not part of this model. The packet count is a field of the flow, and the variable lists are an abstract `VariableSpace`. `ConsistentSpace` states what the lists are assumed to hold, and `ExtractedOutputInCycle` takes it as a hypothesis.
- The average-delay variable of family 4 is a rational in the solver. `FlowJitterFree` states the same inequality multiplied by the packet count, so the average variable itself is not constrained.
- The `networkNodes.size() - 1` loop bound wraps around for a fragment without nodes. The model takes the hops of a fragment as given, one per node pair.
- A flow without any hop makes the configurator dereference a null variable. The model accepts no assignment for it (`PacketChained` requires a hop).
- The debug loop that prints the solved times (lines 221-234) and all logging, `WATCH` and `recordScalar` calls are not modelled.
- GateSchedule.ComputeSchedules: requires a positive gate cycle, because the modulo would divide by zero otherwise.
- Packets, tags, headers, `send`, `emit`, `dispatch` and protocol registration are not modelled. An emission is recorded as "sent up", "dispatched to these interface ids" or "discarded".
- The relay's MAC address table is a map with no aging or capacity. `getPortForAddress` is a map lookup, and `updateTableWithAddress` is a map update.
- `in_range` is not part of this model. It is taken to test the inclusive ranges `(start, end)`.
- `handleOperationStage` is not modelled: it only calls `start` and `stop`. `finish` only records scalars.
- Ieee8021dRelay.Relay.HandleAndDispatchFrameFromHL: a requested interface id that no interface has is an error, whereas the code passes a null interface to `dispatch`.
- `LibTable::isInterfaceUp` is the parameter `isUp`, and the value of `std::rand()` is the parameter `rand`.
- GateConstraints.NoReorder and GateConstraints.Priority pair a gate's transmission and reception lists only over the index range they share. The code indexes both lists by the range of one of them (`Z3GateSchedulingConfigurator.cc` lines 168-173 and 187-188), which reads past the shorter list if their lengths ever differ.
- Assertion failures are modelled as stopping the simulation. The lowercase `assert(false); return;` of `MplsProgram.cc` lines 146-147 is compiled out under `NDEBUG`. The code then returns early and line 137 still appends a partly uninitialised action. That build is not modelled.
- `LibTable::handleMessage` only asserts. `operator<<` of a whole LIB entry only prints.
- The XML DOM calls are not modelled. `<libentry>`, `<action>` and `<update-entry>` elements are records of optional attribute strings. `checkTags` and a duplicated unique child are not modelled.
- `atoi` is modelled on its documented behaviour; overflow of the parsed value is not. `atof` is not modelled: MplsProgram.UpdateEntryFields reads preference values as integers.
- The label of a pop read from XML is uninitialised in the code; the model sets it to 0.
- `processCommand_updateEntry` is not part of this model. `MplsProgram.MplsProgram.HandleIncomingPacket` returns the sequence of calls it would issue.
- `MplsProgram::handleMessage` is not modelled: it extracts the label and interface name from a packet and calls `handleIncomingPacket`.
- The `INVALID_*` constants of the LIB are not part of this model. They are taken to be -1, the value the action's own defaults use for "do not update".
- The header declares a `preference` parameter of `installLibEntry` that the definition does not have. The model follows the definition, so installed entries keep preference 1.
- `ReadTableFromXml` and `ReadActionsFromXml` promise nothing about the state after a fault: the simulation stops there.

## Findings

| source | as written | input that shows it | evidently intended | confidence | as-written member | corrected member |
|---|---|---|---|---|---|---|
| src/inet/linklayer/ieee8021d/relay/Ieee8021dRelay.cc:154 | A known unicast destination from the upper layer is dispatched on `ifTable->getInterfaceById(interfaceId)`. On this branch `interfaceId` is always -1. | A frame from the upper layer with no `InterfaceReq`, to a non-broadcast address the MAC table maps to an existing port, when no interface has id -1: `dispatch` gets a null interface. | Dispatch on `getInterfaceById(outInterfaceId)`, the port the MAC table returned. | not executed | Ieee8021dRelay.Relay.FromHLKnownUnicastAsWritten | Ieee8021dRelay.Relay.DecideFromHL |
