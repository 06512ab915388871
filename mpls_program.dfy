/** The MPLS action program: a map from an incoming label to the ordered
    update actions that run when a packet with that label arrives. The
    actions are loaded from an `<actions>` XML element, and running them
    issues `processCommand_updateEntry` calls on the LIB, which the model
    records as a sequence of calls. */
module MplsProgram {
  import opened Wrappers
  import opened Text

  /** The "no value" markers of the LIB. Their declarations are not part of
      this model; they are taken to be -1, the value the action's own
      defaults use for "do not update". */
  const INVALID_LABEL: int := -1
  const INVALID_GROUP: int := -1
  const INVALID_PREFERENCE: int := -1
  const INVALID_PRIORITY: int := -1

  /** One update action: the interface filter, the fields that select LIB
      forwarding entries, and the new preference and priority (-1: keep). */
  datatype Action = Action(
    inInterface: string,
    entryLabel: int,
    group: int,
    outInterface: string,
    preference: int,
    priority: int,
    newPreference: int,
    newPriority: int)

  /** One `processCommand_updateEntry(label, outInterface, priority, group,
      preference, new_preference, new_priority)` call on the LIB. */
  datatype UpdateCall = UpdateCall(
    entryLabel: int,
    outInterface: string,
    priority: int,
    group: int,
    preference: int,
    newPreference: int,
    newPriority: int)

  datatype Fault = AssertionFailure | RuntimeError(message: string)

  /** A `<preference>` or `<priority>` child: its `value` attribute. */
  datatype XmlValueTag = XmlValueTag(value: Option<string>)

  /** An `<update-entry>` element: its attributes (`labelAttr` is the
      `label` attribute) and its optional `<preference>` and `<priority>`
      children. */
  datatype XmlUpdateEntry = XmlUpdateEntry(
    labelAttr: Option<string>,
    group: Option<string>,
    priority: Option<string>,
    preference: Option<string>,
    outInterface: Option<string>,
    preferenceTag: Option<XmlValueTag>,
    priorityTag: Option<XmlValueTag>)

  /** An `<action>` element: its `label` and `inInterface` attributes and
      its `<update-entry>` children in document order. */
  datatype XmlAction = XmlAction(
    labelAttr: Option<string>,
    inInterface: Option<string>,
    updateEntries: seq<XmlUpdateEntry>)

  /** A freshly declared `Action` with the given filter: the two "new"
      fields start at -1, "do not update"; the other fields are
      uninitialised in the code and 0 here (they are always overwritten). */
  function NewAction(inInterface: string): (a: Action)
    ensures a.inInterface == inInterface && a.newPreference == -1 && a.newPriority == -1
  {
    Action(inInterface, 0, 0, "", 0, 0, -1, -1)
  }

  /** An attribute that is present and not the empty string. */
  predicate Given(attr: Option<string>) {
    attr.Some? && attr.value != ""
  }

  /** The `value` attribute of an optional child element, if any. */
  function TagValue(tag: Option<XmlValueTag>): Option<string> {
    if tag.Some? then tag.value.value else None
  }

  /** What `readActionsFromXML_update_entry` leaves in the action it fills.
      Preference values are read as integers (`atof` is not modelled). */
  function UpdateEntryFields(node: XmlUpdateEntry, a: Action): (r: Result<Action, Fault>)
    ensures r.Err? <==> node.labelAttr.None? && node.group.None?
    ensures r.Ok? ==> r.value.inInterface == a.inInterface
  {
    if node.labelAttr.None? && node.group.None? then Err(AssertionFailure)
    else
      Ok(Action(
        a.inInterface,
        if node.labelAttr.Some? then Atoi(node.labelAttr.value) else INVALID_LABEL,
        if Given(node.group) then Atoi(node.group.value) else INVALID_GROUP,
        if node.outInterface.Some? then node.outInterface.value else "",
        if Given(node.preference) then Atoi(node.preference.value) else INVALID_PREFERENCE,
        if Given(node.priority) then Atoi(node.priority.value) else INVALID_PRIORITY,
        if TagValue(node.preferenceTag).Some? then Atoi(TagValue(node.preferenceTag).value) else INVALID_PREFERENCE,
        if TagValue(node.priorityTag).Some? then Atoi(TagValue(node.priorityTag).value) else INVALID_PRIORITY))
  }

  /** Every field whose attribute or child is absent gets its "no value"
      marker; the group, priority and preference attributes also get it when
      present but empty. */
  lemma UpdateEntryDefaults(node: XmlUpdateEntry, a: Action)
    requires UpdateEntryFields(node, a).Ok?
    ensures var r := UpdateEntryFields(node, a).value;
      (node.labelAttr.None? ==> r.entryLabel == INVALID_LABEL) &&
      (!Given(node.group) ==> r.group == INVALID_GROUP) &&
      (!Given(node.priority) ==> r.priority == INVALID_PRIORITY) &&
      (!Given(node.preference) ==> r.preference == INVALID_PREFERENCE) &&
      (node.outInterface.None? ==> r.outInterface == "") &&
      (TagValue(node.preferenceTag).None? ==> r.newPreference == INVALID_PREFERENCE) &&
      (TagValue(node.priorityTag).None? ==> r.newPriority == INVALID_PRIORITY)
  {
  }

  /** Each number attribute written in decimal is read back as written,
      whatever the other attributes hold; a label or a group alone is
      enough for the entry to be read. */
  lemma UpdateEntryReadsNumbers(node: XmlUpdateEntry, a: Action, lbl: int, grp: int, prio: int, pref: int)
    ensures node.labelAttr == Some(IntToString(lbl)) ==>
      UpdateEntryFields(node, a).Ok? && UpdateEntryFields(node, a).value.entryLabel == lbl
    ensures node.group == Some(IntToString(grp)) ==>
      UpdateEntryFields(node, a).Ok? && UpdateEntryFields(node, a).value.group == grp
    ensures UpdateEntryFields(node, a).Ok? && node.priority == Some(IntToString(prio)) ==>
      UpdateEntryFields(node, a).value.priority == prio
    ensures UpdateEntryFields(node, a).Ok? && node.preference == Some(IntToString(pref)) ==>
      UpdateEntryFields(node, a).value.preference == pref
  {
    AtoiOfIntToString(lbl);
    AtoiOfIntToString(grp);
    AtoiOfIntToString(prio);
    AtoiOfIntToString(pref);
  }

  /** The `outInterface` attribute is taken as it is, and the `value`
      attributes of the `<preference>` and `<priority>` children, written in
      decimal, become the new preference and the new priority. */
  lemma UpdateEntryReadsTargets(node: XmlUpdateEntry, a: Action, out: string, newPref: int, newPrio: int)
    requires UpdateEntryFields(node, a).Ok?
    ensures node.outInterface == Some(out) ==> UpdateEntryFields(node, a).value.outInterface == out
    ensures TagValue(node.preferenceTag) == Some(IntToString(newPref)) ==>
      UpdateEntryFields(node, a).value.newPreference == newPref
    ensures TagValue(node.priorityTag) == Some(IntToString(newPrio)) ==>
      UpdateEntryFields(node, a).value.newPriority == newPrio
  {
    AtoiOfIntToString(newPref);
    AtoiOfIntToString(newPrio);
  }

  /** Only the filter of the action being filled survives: every other field
      is overwritten, so its uninitialised values never matter. */
  lemma UpdateEntryOverwritesAllButFilter(node: XmlUpdateEntry, a: Action, b: Action)
    requires a.inInterface == b.inInterface
    ensures UpdateEntryFields(node, a) == UpdateEntryFields(node, b)
  {
  }

  /** An update entry whose `group` attribute is present but empty, and
      that has no label, is accepted with both fields "invalid". */
  lemma EmptyGroupWithoutLabel(node: XmlUpdateEntry, a: Action)
    requires node.labelAttr.None? && node.group == Some("")
    ensures UpdateEntryFields(node, a).Ok?
    ensures UpdateEntryFields(node, a).value.entryLabel == INVALID_LABEL
    ensures UpdateEntryFields(node, a).value.group == INVALID_GROUP
  {
  }

  /** The `inInterface` filter of an `<action>`: taken when the attribute is
      present and the *label* attribute is non-empty. */
  function ActionInInterface(elem: XmlAction): string
    requires elem.labelAttr.Some?
  {
    if elem.inInterface.Some? && |elem.labelAttr.value| > 0 then elem.inInterface.value else ""
  }

  /** The label check comes first and `atoi("")` is 0, so by the time the
      filter is read the label attribute is never empty: the filter is the
      `inInterface` attribute whenever it is present. */
  lemma FilterTakenWhenPresent(elem: XmlAction)
    requires elem.labelAttr.Some? && Atoi(elem.labelAttr.value) != 0
    ensures ActionInInterface(elem) == (if elem.inInterface.Some? then elem.inInterface.value else "")
  {
  }

  /** The actions one `<action>` element contributes: a label attribute that
      is missing or reads as 0 is a runtime error; otherwise one action per
      `<update-entry>` child, in document order, all with the element's
      filter. */
  function ElementActions(elem: XmlAction): (r: Result<(int, seq<Action>), Fault>)
    ensures r.Ok? <==>
      (elem.labelAttr.Some? && Atoi(elem.labelAttr.value) != 0 &&
       forall i :: 0 <= i < |elem.updateEntries| ==>
         UpdateEntryFields(elem.updateEntries[i], NewAction(ActionInInterface(elem))).Ok?)
    ensures r.Ok? ==> r.value.0 == Atoi(elem.labelAttr.value) != 0
    ensures r.Ok? ==> |r.value.1| == |elem.updateEntries|
    ensures r.Ok? ==> forall i :: 0 <= i < |elem.updateEntries| ==>
      r.value.1[i] == UpdateEntryFields(elem.updateEntries[i], NewAction(ActionInInterface(elem))).value &&
      r.value.1[i].inInterface == ActionInInterface(elem)
  {
    if elem.labelAttr.None? || Atoi(elem.labelAttr.value) == 0 then Err(RuntimeError("Label attribute is mandatory"))
    else
      EntriesActionsReadsEach(elem.updateEntries, ActionInInterface(elem));
      match EntriesActions(elem.updateEntries, ActionInInterface(elem))
      case Err(f) => Err(f)
      case Ok(acts) => Ok((Atoi(elem.labelAttr.value), acts))
  }

  /** The actions read from the `<update-entry>` children, in document
      order; the first fault wins. */
  function EntriesActions(nodes: seq<XmlUpdateEntry>, inInterface: string): Result<seq<Action>, Fault>
  {
    if nodes == [] then Ok([])
    else match UpdateEntryFields(nodes[0], NewAction(inInterface))
      case Err(f) => Err(f)
      case Ok(a) =>
        match EntriesActions(nodes[1..], inInterface)
        case Err(f) => Err(f)
        case Ok(rest) => Ok([a] + rest)
  }

  /** Update entries become actions one for one and in order, and reading
      fails exactly when one of them fails. */
  lemma {:induction false} EntriesActionsReadsEach(nodes: seq<XmlUpdateEntry>, inInterface: string)
    ensures EntriesActions(nodes, inInterface).Ok? <==>
      forall i :: 0 <= i < |nodes| ==> UpdateEntryFields(nodes[i], NewAction(inInterface)).Ok?
    ensures EntriesActions(nodes, inInterface).Ok? ==>
      var acts := EntriesActions(nodes, inInterface).value;
      |acts| == |nodes| && forall i :: 0 <= i < |nodes| ==> acts[i] == UpdateEntryFields(nodes[i], NewAction(inInterface)).value
  {
    if nodes != [] {
      EntriesActionsReadsEach(nodes[1..], inInterface);
      assert forall i :: 1 <= i < |nodes| ==> nodes[i] == nodes[1..][i - 1];
    }
  }

  /** One step of reading the `<update-entry>` children from position `j`:
      a faulty child is the fault of the whole suffix; otherwise its action
      goes in front of the actions read from the rest. */
  lemma EntriesActionsSuffixStep(nodes: seq<XmlUpdateEntry>, j: nat, inInterface: string, acts: seq<Action>)
    requires j < |nodes|
    ensures var head := UpdateEntryFields(nodes[j], NewAction(inInterface));
      head.Err? ==> EntriesActions(nodes[j..], inInterface) == Err(head.error)
    ensures var head := UpdateEntryFields(nodes[j], NewAction(inInterface));
      var rest := EntriesActions(nodes[j..], inInterface);
      var tail := EntriesActions(nodes[j + 1..], inInterface);
      head.Ok? ==> ((rest.Ok? <==> tail.Ok?) &&
                    (rest.Ok? ==> acts + rest.value == (acts + [head.value]) + tail.value))
  {
    assert nodes[j..][0] == nodes[j] && nodes[j..][1..] == nodes[j + 1..];
    var head := UpdateEntryFields(nodes[j], NewAction(inInterface));
    var tail := EntriesActions(nodes[j + 1..], inInterface);
    if head.Ok? && tail.Ok? {
      assert acts + ([head.value] + tail.value) == (acts + [head.value]) + tail.value;
    }
  }

  /** The actions stored for a label (none when the label has no entry). */
  function Stored(actions: map<int, seq<Action>>, key: int): seq<Action> {
    if key in actions then actions[key] else []
  }

  /** `actions[label].push_back(...)` for each action in turn; the key gets
      an entry only when something is pushed. */
  function AppendActions(actions: map<int, seq<Action>>, key: int, acts: seq<Action>): (r: map<int, seq<Action>>)
    ensures Stored(r, key) == Stored(actions, key) + acts
    ensures forall l :: l != key ==> Stored(r, l) == Stored(actions, l) && (l in r <==> l in actions)
    ensures key in r <==> key in actions || acts != []
  {
    if acts == [] then actions else actions[key := Stored(actions, key) + acts]
  }

  lemma AppendActionsStep(actions: map<int, seq<Action>>, key: int, acts: seq<Action>, a: Action)
    ensures AppendActions(actions, key, acts + [a])
         == AppendActions(actions, key, acts)[key := Stored(AppendActions(actions, key, acts), key) + [a]]
  {
    var s := Stored(actions, key);
    if acts == [] {
      assert acts + [a] == [a] && s + acts == s;
    } else {
      assert s + (acts + [a]) == (s + acts) + [a];
      assert actions[key := s + acts][key := (s + acts) + [a]] == actions[key := s + (acts + [a])];
    }
  }

  /** `readActionsFromXML` over the `<action>` elements in document order. */
  function LoadActions(actions: map<int, seq<Action>>, elems: seq<XmlAction>): Result<map<int, seq<Action>>, Fault>
    decreases |elems|
  {
    if elems == [] then Ok(actions)
    else match ElementActions(elems[0])
      case Err(f) => Err(f)
      case Ok((key, acts)) => LoadActions(AppendActions(actions, key, acts), elems[1..])
  }

  /** Loading never drops or reorders what is stored: each label's actions
      after a load start with the ones stored before. */
  lemma {:induction false} LoadActionsExtends(actions: map<int, seq<Action>>, elems: seq<XmlAction>, key: int)
    requires LoadActions(actions, elems).Ok?
    ensures Stored(actions, key) <= Stored(LoadActions(actions, elems).value, key)
    decreases |elems|
  {
    if elems != [] {
      var (l, acts) := ElementActions(elems[0]).value;
      var next := AppendActions(actions, l, acts);
      LoadActionsExtends(next, elems[1..], key);
    }
  }

  /** The actions a packet arriving on `inInterface` runs, in stored order:
      those with an empty filter or a filter equal to the interface. */
  function Applicable(acts: seq<Action>, inInterface: string): (r: seq<Action>)
    ensures |r| <= |acts|
  {
    if acts == [] then []
    else
      (if acts[0].inInterface == "" || acts[0].inInterface == inInterface then [acts[0]] else [])
      + Applicable(acts[1..], inInterface)
  }

  /** Filtering keeps the stored order: the applicable actions of `xs + ys`
      are those of `xs` followed by those of `ys`. */
  lemma {:induction false} ApplicableDistributes(xs: seq<Action>, ys: seq<Action>, inInterface: string)
    ensures Applicable(xs + ys, inInterface) == Applicable(xs, inInterface) + Applicable(ys, inInterface)
    decreases |xs|
  {
    if xs != [] {
      assert (xs + ys)[1..] == xs[1..] + ys;
      ApplicableDistributes(xs[1..], ys, inInterface);
    } else {
      assert xs + ys == ys;
    }
  }

  /** An action runs exactly when it is stored under the label and its
      filter is empty or names the arrival interface. */
  lemma {:induction false} ApplicableMembers(acts: seq<Action>, inInterface: string, a: Action)
    ensures a in Applicable(acts, inInterface) <==> a in acts && (a.inInterface == "" || a.inInterface == inInterface)
    decreases |acts|
  {
    if acts != [] {
      ApplicableMembers(acts[1..], inInterface, a);
      assert acts == [acts[0]] + acts[1..];
    }
  }

  function CallOf(a: Action): UpdateCall {
    UpdateCall(a.entryLabel, a.outInterface, a.priority, a.group, a.preference, a.newPreference, a.newPriority)
  }

  function CallsOf(acts: seq<Action>): (calls: seq<UpdateCall>)
    ensures |calls| == |acts| && forall i :: 0 <= i < |acts| ==> calls[i] == CallOf(acts[i])
  {
    seq(|acts|, i requires 0 <= i < |acts| => CallOf(acts[i]))
  }

  lemma CallsOfAppend(acts: seq<Action>, more: seq<Action>)
    ensures CallsOf(acts + more) == CallsOf(acts) + CallsOf(more)
  {
  }

  class MplsProgram {
    var actions: map<int, seq<Action>>

    constructor ()
      ensures actions == map[]
    {
      actions := map[];
    }

    /** `readActionsFromXML_update_entry`: fills `a` field by field. */
    static method ReadUpdateEntry(node: XmlUpdateEntry, a: Action) returns (r: Result<Action, Fault>)
      ensures r == UpdateEntryFields(node, a)
    {
      if node.labelAttr.None? && node.group.None? {
        return Err(AssertionFailure);
      }
      var action := a;
      var value := INVALID_LABEL;
      if node.labelAttr.Some? {
        value := Atoi(node.labelAttr.value);
      }
      action := action.(entryLabel := value);
      action := action.(group := if Given(node.group) then Atoi(node.group.value) else INVALID_GROUP);
      action := action.(outInterface := if node.outInterface.Some? then node.outInterface.value else "");
      action := action.(preference := if Given(node.preference) then Atoi(node.preference.value) else INVALID_PREFERENCE);
      action := action.(priority := if Given(node.priority) then Atoi(node.priority.value) else INVALID_PRIORITY);
      action := action.(newPreference := INVALID_PREFERENCE);
      if node.preferenceTag.Some? && node.preferenceTag.value.value.Some? {
        action := action.(newPreference := Atoi(node.preferenceTag.value.value.value));
      }
      action := action.(newPriority := INVALID_PRIORITY);
      if node.priorityTag.Some? && node.priorityTag.value.value.Some? {
        action := action.(newPriority := Atoi(node.priorityTag.value.value.value));
      }
      return Ok(action);
    }

    /** The inner loop of `readActionsFromXML`: reads each `<update-entry>`
        child into a fresh action with the given filter and pushes it under
        `key`, stopping at the first fault. */
    method PushUpdateEntries(nodes: seq<XmlUpdateEntry>, key: int, inInterface: string) returns (r: Result<(), Fault>)
      modifies this
      ensures r.Ok? <==> EntriesActions(nodes, inInterface).Ok?
      ensures r.Ok? ==> actions == AppendActions(old(actions), key, EntriesActions(nodes, inInterface).value)
    {
      ghost var acts: seq<Action> := [];
      ghost var start := actions;
      var j := 0;
      while j < |nodes|
        invariant 0 <= j <= |nodes|
        invariant EntriesActions(nodes, inInterface).Ok? <==> EntriesActions(nodes[j..], inInterface).Ok?
        invariant EntriesActions(nodes, inInterface).Ok? ==>
          EntriesActions(nodes, inInterface).value == acts + EntriesActions(nodes[j..], inInterface).value
        invariant actions == AppendActions(start, key, acts)
      {
        EntriesActionsSuffixStep(nodes, j, inInterface, acts);
        var action := ReadUpdateEntry(nodes[j], NewAction(inInterface));
        if action.Err? {
          return Err(action.error);
        }
        AppendActionsStep(start, key, acts, action.value);
        PushAction(key, action.value);
        acts := acts + [action.value];
        j := j + 1;
      }
      assert nodes[j..] == [] && acts + [] == acts;
      assert EntriesActions(nodes, inInterface).Ok? ==> EntriesActions(nodes, inInterface).value == acts;
      return Ok(());
    }

    /** `actions[label].push_back(action)`. */
    method PushAction(key: int, a: Action)
      modifies this
      ensures actions == old(actions)[key := Stored(old(actions), key) + [a]]
    {
      actions := actions[key := Stored(actions, key) + [a]];
    }

    /** `readActionsFromXML`: each `<update-entry>` child of each `<action>`
        appends one action under the action's label. On a fault the
        simulation stops, and nothing is promised about the map. */
    method ReadActionsFromXml(elems: seq<XmlAction>) returns (r: Result<(), Fault>)
      modifies this
      ensures r.Ok? <==> LoadActions(old(actions), elems).Ok?
      ensures r.Ok? ==> actions == LoadActions(old(actions), elems).value
    {
      var k := 0;
      while k < |elems|
        invariant 0 <= k <= |elems|
        invariant LoadActions(old(actions), elems) == LoadActions(actions, elems[k..])
      {
        assert elems[k..][1..] == elems[k + 1..];
        r := ReadActionElement(elems[k]);
        if r.Err? {
          return;
        }
        k := k + 1;
      }
      return Ok(());
    }

    /** One iteration of `readActionsFromXML`: the label attribute is
        checked, then every `<update-entry>` child is pushed under it. */
    method ReadActionElement(elem: XmlAction) returns (r: Result<(), Fault>)
      modifies this
      ensures r.Ok? <==> ElementActions(elem).Ok?
      ensures r.Ok? ==> actions == AppendActions(old(actions), ElementActions(elem).value.0, ElementActions(elem).value.1)
    {
      if elem.labelAttr.None? || Atoi(elem.labelAttr.value) == 0 {
        return Err(RuntimeError("Label attribute is mandatory"));
      }
      var key := Atoi(elem.labelAttr.value);
      var inInterface := "";
      if elem.inInterface.Some? && |elem.labelAttr.value| > 0 {
        inInterface := elem.inInterface.value;
      }
      assert inInterface == ActionInInterface(elem);
      r := PushUpdateEntries(elem.updateEntries, key, inInterface);
    }

    /** `handleIncomingPacket`: nothing for a label without actions;
        otherwise one update call per applicable action, in stored order. */
    method HandleIncomingPacket(key: int, inInterface: string) returns (calls: seq<UpdateCall>)
      ensures key !in actions ==> calls == []
      ensures calls == CallsOf(Applicable(Stored(actions, key), inInterface))
    {
      calls := [];
      if key !in actions {
        return;
      }
      var acts := actions[key];
      var i := 0;
      while i < |acts|
        invariant 0 <= i <= |acts|
        invariant calls == CallsOf(Applicable(acts[..i], inInterface))
      {
        ApplicableDistributes(acts[..i], [acts[i]], inInterface);
        assert acts[..i + 1] == acts[..i] + [acts[i]];
        CallsOfAppend(Applicable(acts[..i], inInterface), Applicable([acts[i]], inInterface));
        if acts[i].inInterface == "" || inInterface == acts[i].inInterface {
          assert CallsOf(Applicable([acts[i]], inInterface)) == [CallOf(acts[i])];
          calls := calls + [CallOf(acts[i])];
        } else {
          assert Applicable([acts[i]], inInterface) == [];
        }
        i := i + 1;
      }
      assert acts[..|acts|] == acts;
    }
  }
}
