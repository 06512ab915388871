/** The MPLS Label Information Base: an ordered table of LIB entries and a
    label counter, updated in place by `installLibEntry`, `removeLibEntry` and
    the XML loader, and read by `resolveLabel`, which picks one next hop for an
    incoming label (the Incoming Label Map to NHLFE step of section 3.11 of
    RFC 3031). */
module LibTable {
  import opened Wrappers
  import opened Text
  import opened LibTypes

  /** Why a call stops the simulation: an `ASSERT` that fails, or a
      mandatory XML element that is missing. */
  datatype Fault = AssertionFailure | MissingElement(name: string)

  /** Index of the first LIB entry whose incoming label is `inLabel`. */
  function FindLabel(lib: seq<LibEntry>, inLabel: int): (r: Option<nat>)
    ensures r.Some? ==> r.value < |lib| && lib[r.value].inLabel == inLabel
    ensures r.Some? ==> forall j :: 0 <= j < r.value ==> lib[j].inLabel != inLabel
    ensures r.None? ==> forall j :: 0 <= j < |lib| ==> lib[j].inLabel != inLabel
  {
    if lib == [] then None
    else if lib[0].inLabel == inLabel then Some(0)
    else match FindLabel(lib[1..], inLabel)
      case None => None
      case Some(i) => Some(i + 1)
  }

  /** Index of the first LIB entry equal to `e` under `operator==` (same key). */
  function FindEntry(lib: seq<LibEntry>, e: LibEntry): (r: Option<nat>)
    ensures r.Some? ==> r.value < |lib| && SameEntry(lib[r.value], e)
    ensures r.Some? ==> forall j :: 0 <= j < r.value ==> !SameEntry(lib[j], e)
    ensures r.None? ==> forall j :: 0 <= j < |lib| ==> !SameEntry(lib[j], e)
  {
    if lib == [] then None
    else if SameEntry(lib[0], e) then Some(0)
    else match FindEntry(lib[1..], e)
      case None => None
      case Some(i) => Some(i + 1)
  }

  /** The invariant the table keeps: no entry carries a label above
      `maxLabel` (so a label handed out by `installLibEntry(-1, ...)` is
      fresh), and no two entries share a key. */
  ghost predicate TableInvariant(lib: seq<LibEntry>, maxLabel: int) {
    && (forall i :: 0 <= i < |lib| ==> lib[i].inLabel <= maxLabel)
    && (forall i, j :: 0 <= i < j < |lib| ==> !SameEntry(lib[i], lib[j]))
  }

  /** `e` with one more forwarding entry at the end of its list and a new color. */
  function AddForwarding(e: LibEntry, fwe: ForwardingEntry, color: int): LibEntry {
    e.(entries := e.entries + [fwe], color := color)
  }

  // ---------------------------------------------------------------- resolve

  /** The forwarding entries whose out interface is up, in their order. */
  function UpEntries(entries: seq<ForwardingEntry>, isUp: string -> bool): (r: seq<ForwardingEntry>)
    ensures forall e :: e in r <==> e in entries && isUp(e.outInterface)
  {
    if entries == [] then []
    else (if isUp(entries[0].outInterface) then [entries[0]] else []) + UpEntries(entries[1..], isUp)
  }

  /** The lowest priority value among a non-empty list of entries. */
  function MinPriority(entries: seq<ForwardingEntry>): (m: int)
    requires entries != []
    ensures exists e :: e in entries && e.priority == m
    ensures forall e :: e in entries ==> m <= e.priority
  {
    if |entries| == 1 then entries[0].priority
    else
      var rest := MinPriority(entries[1..]);
      assert forall e :: e in entries ==> e == entries[0] || e in entries[1..];
      if entries[0].priority <= rest then entries[0].priority else rest
  }

  /** The entries whose priority is `p`, in their order. */
  function WithPriority(entries: seq<ForwardingEntry>, p: int): (r: seq<ForwardingEntry>)
    ensures forall e :: e in r <==> e in entries && e.priority == p
  {
    if entries == [] then []
    else (if entries[0].priority == p then [entries[0]] else []) + WithPriority(entries[1..], p)
  }

  /** What a successful `resolveLabel` writes to its out-parameters. */
  datatype Resolution = Resolution(outLabel: LabelOpVector, outInterface: string, color: int)

  /** An up forwarding entry of minimal priority among the up entries. */
  ghost predicate IsBestUp(e: ForwardingEntry, entries: seq<ForwardingEntry>, isUp: string -> bool) {
    && e in entries
    && isUp(e.outInterface)
    && forall e' :: e' in entries && isUp(e'.outInterface) ==> e.priority <= e'.priority
  }

  /** The ECMP pick: among the up entries of the lowest priority value, the
      one at position `rand % count`. */
  function ChooseEntry(valid: seq<ForwardingEntry>, rand: nat): (e: ForwardingEntry)
    requires valid != []
    ensures e in valid && forall e' :: e' in valid ==> e.priority <= e'.priority
  {
    var minimum := WithPriority(valid, MinPriority(valid));
    assert exists e :: e in valid && e.priority == MinPriority(valid);
    minimum[rand % |minimum|]
  }

  /** `resolveLabel`: the incoming interface is ignored (the code forces
      `any` to true); only the first LIB entry with the label is consulted;
      among its forwarding entries whose interface is up (`isInterfaceUp`,
      here the parameter `isUp`) those of the lowest priority value are kept
      and the one at position `rand % count` is chosen, `rand` standing for
      the value of `std::rand()`. */
  function ResolveLabel(lib: seq<LibEntry>, inInterface: string, inLabel: int,
                        isUp: string -> bool, rand: nat): (r: Option<Resolution>)
    ensures r.None? <==>
      (FindLabel(lib, inLabel).None? ||
       forall e :: e in lib[FindLabel(lib, inLabel).value].entries ==> !isUp(e.outInterface))
    ensures r.Some? ==>
      var elem := lib[FindLabel(lib, inLabel).value];
      exists e :: IsBestUp(e, elem.entries, isUp) &&
        r.value == Resolution(e.outLabel, e.outInterface, elem.color)
  {
    match FindLabel(lib, inLabel)
    case None => None
    case Some(i) =>
      var elem := lib[i];
      var valid := UpEntries(elem.entries, isUp);
      if valid == [] then None
      else
        var chosen := ChooseEntry(valid, rand);
        assert IsBestUp(chosen, elem.entries, isUp);
        Some(Resolution(chosen.outLabel, chosen.outInterface, elem.color))
  }

  /** Every up entry of the lowest priority value is the pick for some value
      of `std::rand()`. */
  lemma EveryMinimalEntryCanBeChosen(valid: seq<ForwardingEntry>, e: ForwardingEntry)
    requires e in valid && forall e' :: e' in valid ==> e.priority <= e'.priority
    ensures exists rand: nat :: ChooseEntry(valid, rand) == e
  {
    var m := MinPriority(valid);
    assert e.priority == m by {
      var w :| w in valid && w.priority == m;
    }
    var minimum := WithPriority(valid, m);
    assert e in minimum;
    var k :| 0 <= k < |minimum| && minimum[k] == e;
    ModOfSmaller(k, |minimum|);
    assert ChooseEntry(valid, k) == minimum[k % |minimum|];
  }

  /** Every best up entry is the pick for some value of `std::rand()`: the
      choice among equal-priority next hops is the only freedom left. */
  lemma EveryBestEntryCanBeChosen(lib: seq<LibEntry>, inInterface: string, inLabel: int,
                                  isUp: string -> bool, e: ForwardingEntry)
    requires FindLabel(lib, inLabel).Some?
    requires IsBestUp(e, lib[FindLabel(lib, inLabel).value].entries, isUp)
    ensures exists rand: nat :: (ResolveLabel(lib, inInterface, inLabel, isUp, rand) ==
      Some(Resolution(e.outLabel, e.outInterface, lib[FindLabel(lib, inLabel).value].color)))
  {
    var elem := lib[FindLabel(lib, inLabel).value];
    var valid := UpEntries(elem.entries, isUp);
    assert e in valid;
    EveryMinimalEntryCanBeChosen(valid, e);
    var k: nat :| ChooseEntry(valid, k) == e;
    assert ResolveLabel(lib, inInterface, inLabel, isUp, k) ==
      Some(Resolution(e.outLabel, e.outInterface, elem.color));
  }

  /** The incoming interface plays no part in the lookup. */
  lemma ResolveIgnoresInInterface(lib: seq<LibEntry>, a: string, b: string, inLabel: int,
                                  isUp: string -> bool, rand: nat)
    ensures ResolveLabel(lib, a, inLabel, isUp, rand) == ResolveLabel(lib, b, inLabel, isUp, rand)
  {
  }

  /** A later entry with the same label is never tried, even when the first
      one has no up interface and the later one has. */
  lemma ResolveStopsAtFirstEntry(lib: seq<LibEntry>, inInterface: string, inLabel: int,
                                 isUp: string -> bool, rand: nat, i: nat)
    requires 0 <= i < |lib| && lib[i].inLabel == inLabel
    requires forall e :: e in lib[i].entries ==> !isUp(e.outInterface)
    requires forall j :: 0 <= j < i ==> lib[j].inLabel != inLabel
    ensures ResolveLabel(lib, inInterface, inLabel, isUp, rand) == None
  {
  }

  // ---------------------------------------------------------------- XML

  /** An `<op>` element of `<outLabel>`: its `code` and `value` attributes. */
  datatype XmlOp = XmlOp(code: Option<string>, value: Option<string>)

  /** A `<libentry>` element: the text of each parameter child when present,
      and the ops of its `<outLabel>` child when there is exactly one. */
  datatype XmlLibEntry = XmlLibEntry(
    inLabel: Option<string>,
    inInterface: Option<string>,
    color: Option<string>,
    outInterface: Option<string>,
    priority: Option<string>,
    outLabel: Option<seq<XmlOp>>)

  /** One `<op>`: push and swap need a value that reads as a positive label,
      pop must have no value; anything else is an assertion failure. The
      label of a pop read from XML is left uninitialised by the code; the
      model sets it to 0. */
  function ParseOp(op: XmlOp): (r: Result<LabelOp, Fault>)
    ensures r.Ok? ==> op.code.Some?
    ensures r.Ok? && r.value.optcode == PushOper ==>
      op.code.value == "push" && op.value.Some? && r.value.labelValue == Atoi(op.value.value) > 0
    ensures r.Ok? && r.value.optcode == SwapOper ==>
      op.code.value == "swap" && op.value.Some? && r.value.labelValue == Atoi(op.value.value) > 0
    ensures r.Ok? && r.value.optcode == PopOper ==> op.code.value == "pop" && op.value.None?
    ensures op.code.Some? && op.code.value !in {"push", "pop", "swap"} ==> r.Err?
    ensures op.code == Some("push") && op.value.Some? && Atoi(op.value.value) > 0 ==>
      r == Ok(LabelOp(Atoi(op.value.value), PushOper))
    ensures op.code == Some("swap") && op.value.Some? && Atoi(op.value.value) > 0 ==>
      r == Ok(LabelOp(Atoi(op.value.value), SwapOper))
    ensures op.code == Some("pop") && op.value.None? ==> r == Ok(LabelOp(0, PopOper))
  {
    match op.code
    case None => Err(AssertionFailure)
    case Some(code) =>
      if code == "push" || code == "swap" then
        if op.value.None? then Err(AssertionFailure)
        else
          var l := Atoi(op.value.value);
          if l > 0 then Ok(LabelOp(l, if code == "push" then PushOper else SwapOper))
          else Err(AssertionFailure)
      else if code == "pop" then
        if op.value.Some? then Err(AssertionFailure) else Ok(LabelOp(0, PopOper))
      else Err(AssertionFailure)
  }

  /** The ops of `<outLabel>` in document order; the first bad one fails. */
  function ParseOps(ops: seq<XmlOp>): (r: Result<LabelOpVector, Fault>)
    ensures r.Ok? <==> forall i :: 0 <= i < |ops| ==> ParseOp(ops[i]).Ok?
    ensures r.Ok? ==> |r.value| == |ops| && forall i :: 0 <= i < |ops| ==> r.value[i] == ParseOp(ops[i]).value
  {
    if ops == [] then Ok([])
    else match ParseOp(ops[0])
      case Err(f) => Err(f)
      case Ok(op) =>
        match ParseOps(ops[1..])
        case Err(f) => Err(f)
        case Ok(rest) =>
          assert forall i :: 1 <= i < |ops| ==> ops[i] == ops[1..][i - 1];
          Ok([op] + rest)
  }

  /** A `<libentry>` row read into a LIB entry without forwarding entries
      and the forwarding entry it contributes. `inLabel`, `inInterface`,
      `outInterface` and `outLabel` are mandatory; `color` and `priority`
      default to 0. */
  function ParseRow(row: XmlLibEntry): (r: Result<(LibEntry, ForwardingEntry), Fault>)
    ensures r.Ok? ==> row.inLabel.Some? && row.inInterface.Some? && row.outInterface.Some? && row.outLabel.Some?
    ensures r.Ok? ==> r.value.0 == LibEntry(Atoi(row.inLabel.value), row.inInterface.value, [],
                                          if row.color.Some? then Atoi(row.color.value) else 0)
    ensures r.Ok? ==> ParseOps(row.outLabel.value).Ok? && r.value.1 == MakeForwardingEntry(ParseOps(row.outLabel.value).value, row.outInterface.value,
                                                     if row.priority.Some? then Atoi(row.priority.value) else 0)
    ensures row.inLabel.None? ==> r == Err(MissingElement("inLabel"))
    ensures row.inLabel.Some? && row.inInterface.None? ==> r == Err(MissingElement("inInterface"))
    ensures row.inLabel.Some? && row.inInterface.Some? && row.outInterface.None? ==> r == Err(MissingElement("outInterface"))
    ensures row.inLabel.Some? && row.inInterface.Some? && row.outInterface.Some? && row.outLabel.None? ==>
      r == Err(MissingElement("outLabel"))
    ensures row.inLabel.Some? && row.inInterface.Some? && row.outInterface.Some? && row.outLabel.Some? ==>
      (r.Ok? <==> ParseOps(row.outLabel.value).Ok?)
  {
    if row.inLabel.None? then Err(MissingElement("inLabel"))
    else if row.inInterface.None? then Err(MissingElement("inInterface"))
    else if row.outInterface.None? then Err(MissingElement("outInterface"))
    else if row.outLabel.None? then Err(MissingElement("outLabel"))
    else
      var color := if row.color.Some? then Atoi(row.color.value) else 0;
      var priority := if row.priority.Some? then Atoi(row.priority.value) else 0;
      match ParseOps(row.outLabel.value)
      case Err(f) => Err(f)
      case Ok(ops) =>
        Ok((LibEntry(Atoi(row.inLabel.value), row.inInterface.value, [], color),
            MakeForwardingEntry(ops, row.outInterface.value, priority)))
  }

  /** The table after one row: its forwarding entry goes to the end of the
      entry with the same key, or a new entry is appended; then the label
      must be positive, and `maxLabel` rises to it. */
  function MergeRow(lib: seq<LibEntry>, maxLabel: int, row: XmlLibEntry): Result<(seq<LibEntry>, int), Fault> {
    match ParseRow(row)
    case Err(f) => Err(f)
    case Ok((newItem, fwe)) =>
      var lib' := match FindEntry(lib, newItem)
        case None => lib + [newItem.(entries := [fwe])]
        case Some(i) => lib[i := lib[i].(entries := lib[i].entries + [fwe])];
      if newItem.inLabel <= 0 then Err(AssertionFailure)
      else Ok((lib', if newItem.inLabel > maxLabel then newItem.inLabel else maxLabel))
  }

  /** `readTableFromXML` over its rows in document order. */
  function MergeRows(lib: seq<LibEntry>, maxLabel: int, rows: seq<XmlLibEntry>): Result<(seq<LibEntry>, int), Fault>
    decreases |rows|
  {
    if rows == [] then Ok((lib, maxLabel))
    else match MergeRow(lib, maxLabel, rows[0])
      case Err(f) => Err(f)
      case Ok((lib', maxLabel')) => MergeRows(lib', maxLabel', rows[1..])
  }

  function RowKey(row: XmlLibEntry): (int, string)
    requires row.inLabel.Some? && row.inInterface.Some?
  {
    (Atoi(row.inLabel.value), row.inInterface.value)
  }

  predicate HasKey(lib: seq<LibEntry>, key: (int, string)) {
    exists i :: 0 <= i < |lib| && lib[i].inLabel == key.0 && lib[i].inInterface == key.1
  }

  /** Appending an entry with a key not yet in the table keeps the keys
      unique, keeps every old key and adds the new one. */
  lemma AppendNewKey(lib: seq<LibEntry>, maxLabel: int, maxLabel': int, e: LibEntry)
    requires TableInvariant(lib, maxLabel) && maxLabel <= maxLabel' && e.inLabel <= maxLabel'
    requires forall j :: 0 <= j < |lib| ==> !SameEntry(lib[j], e)
    ensures TableInvariant(lib + [e], maxLabel')
    ensures HasKey(lib + [e], (e.inLabel, e.inInterface))
    ensures forall key :: HasKey(lib, key) ==> HasKey(lib + [e], key)
  {
    var lib' := lib + [e];
    assert lib'[|lib|] == e;
    forall key | HasKey(lib, key) ensures HasKey(lib', key) {
      var i :| 0 <= i < |lib| && lib[i].inLabel == key.0 && lib[i].inInterface == key.1;
      assert lib'[i] == lib[i];
    }
  }

  /** Replacing an entry by one with the same key keeps the keys unique and
      every key present. */
  lemma ReplaceSameKey(lib: seq<LibEntry>, maxLabel: int, maxLabel': int, k: nat, e: LibEntry)
    requires TableInvariant(lib, maxLabel) && maxLabel <= maxLabel'
    requires k < |lib| && SameEntry(lib[k], e)
    ensures TableInvariant(lib[k := e], maxLabel')
    ensures HasKey(lib[k := e], (e.inLabel, e.inInterface))
    ensures forall key :: HasKey(lib, key) ==> HasKey(lib[k := e], key)
  {
    var lib' := lib[k := e];
    assert lib'[k] == e;
    forall key | HasKey(lib, key) ensures HasKey(lib', key) {
      var i :| 0 <= i < |lib| && lib[i].inLabel == key.0 && lib[i].inInterface == key.1;
      assert lib'[i].inLabel == lib[i].inLabel && lib'[i].inInterface == lib[i].inInterface;
    }
  }

  /** One merged row keeps the keys unique and the labels at most `maxLabel`,
      never loses a key, and leaves its own key in the table. */
  lemma MergeRowProperties(lib: seq<LibEntry>, maxLabel: int, row: XmlLibEntry)
    requires TableInvariant(lib, maxLabel)
    requires MergeRow(lib, maxLabel, row).Ok?
    ensures var (lib', maxLabel') := MergeRow(lib, maxLabel, row).value;
      && TableInvariant(lib', maxLabel')
      && maxLabel' >= maxLabel
      && row.inLabel.Some? && row.inInterface.Some? && HasKey(lib', RowKey(row))
      && maxLabel' >= RowKey(row).0 > 0
      && (maxLabel' == maxLabel || maxLabel' == RowKey(row).0)
      && (forall key :: HasKey(lib, key) ==> HasKey(lib', key))
      && |lib| <= |lib'| <= |lib| + 1
  {
    var (newItem, fwe) := ParseRow(row).value;
    var maxLabel' := if newItem.inLabel > maxLabel then newItem.inLabel else maxLabel;
    match FindEntry(lib, newItem)
    case None =>
      AppendNewKey(lib, maxLabel, maxLabel', newItem.(entries := [fwe]));
    case Some(k) =>
      ReplaceSameKey(lib, maxLabel, maxLabel', k, lib[k].(entries := lib[k].entries + [fwe]));
  }

  /** After a successful load every row's key is in the table exactly once
      (keys stay unique), every label is at most the new `maxLabel`, and
      `maxLabel` is the largest of its old value and the row labels. */
  lemma {:induction false} MergeRowsProperties(lib: seq<LibEntry>, maxLabel: int, rows: seq<XmlLibEntry>)
    requires TableInvariant(lib, maxLabel)
    requires MergeRows(lib, maxLabel, rows).Ok?
    ensures var (lib', maxLabel') := MergeRows(lib, maxLabel, rows).value;
      && TableInvariant(lib', maxLabel')
      && maxLabel' >= maxLabel
      && (forall k :: 0 <= k < |rows| ==>
            rows[k].inLabel.Some? && rows[k].inInterface.Some? &&
            HasKey(lib', RowKey(rows[k])) && 0 < RowKey(rows[k]).0 <= maxLabel')
      && (maxLabel' == maxLabel || exists k :: 0 <= k < |rows| && rows[k].inLabel.Some? && maxLabel' == Atoi(rows[k].inLabel.value))
      && (forall key :: HasKey(lib, key) ==> HasKey(lib', key))
    decreases |rows|
  {
    if rows != [] {
      MergeRowProperties(lib, maxLabel, rows[0]);
      var (lib1, maxLabel1) := MergeRow(lib, maxLabel, rows[0]).value;
      MergeRowsProperties(lib1, maxLabel1, rows[1..]);
      var (lib', maxLabel') := MergeRows(lib, maxLabel, rows).value;
      assert MergeRows(lib, maxLabel, rows) == MergeRows(lib1, maxLabel1, rows[1..]);
      forall k | 0 <= k < |rows|
        ensures rows[k].inLabel.Some? && rows[k].inInterface.Some?
        ensures HasKey(lib', RowKey(rows[k])) && 0 < RowKey(rows[k]).0 <= maxLabel'
      {
        if k > 0 { assert rows[k] == rows[1..][k - 1]; }
      }
      if maxLabel' != maxLabel && maxLabel' != maxLabel1 {
        var k :| 0 <= k < |rows[1..]| && rows[1..][k].inLabel.Some? && maxLabel' == Atoi(rows[1..][k].inLabel.value);
        assert rows[k + 1] == rows[1..][k];
      }
    }
  }

  /** The forwarding entries of the first LIB entry with the key, or none
      when no entry has it. */
  function ForwardingOf(lib: seq<LibEntry>, key: (int, string)): seq<ForwardingEntry> {
    match FindEntry(lib, LibEntry(key.0, key.1, [], 0))
    case None => []
    case Some(i) => lib[i].entries
  }

  /** `find_if` with `operator==` sees only keys: tables with the same keys
      position by position give the same answer for the same key. */
  lemma FindEntryByKey(a: seq<LibEntry>, b: seq<LibEntry>, e1: LibEntry, e2: LibEntry)
    requires |a| == |b| && (forall j :: 0 <= j < |a| ==> SameEntry(a[j], b[j])) && SameEntry(e1, e2)
    ensures FindEntry(a, e1) == FindEntry(b, e2)
  {
    var ra, rb := FindEntry(a, e1), FindEntry(b, e2);
    assert ra.Some? ==> SameEntry(b[ra.value], e2);
    assert rb.Some? ==> SameEntry(a[rb.value], e1);
  }

  /** An entry appended at the end is found only when no earlier entry has its key. */
  lemma FindEntryAppend(lib: seq<LibEntry>, e: LibEntry, k: LibEntry)
    ensures FindEntry(lib + [e], k) ==
      if FindEntry(lib, k).Some? then FindEntry(lib, k)
      else if SameEntry(e, k) then Some(|lib|) else None
  {
    var lib' := lib + [e];
    var r, r' := FindEntry(lib, k), FindEntry(lib', k);
    assert forall j :: 0 <= j < |lib| ==> lib'[j] == lib[j];
    assert r.Some? ==> SameEntry(lib'[r.value], k);
    assert SameEntry(lib'[|lib|], k) == SameEntry(e, k);
  }

  /** One merged row changes the table only at its key: it appends its
      forwarding entry to the entry with that key, or adds a new last entry
      holding just that one, with the row's color. Every other entry keeps
      its position and contents, and the entry that grows keeps its color. */
  lemma MergeRowShape(lib: seq<LibEntry>, maxLabel: int, row: XmlLibEntry)
    requires MergeRow(lib, maxLabel, row).Ok?
    ensures ParseRow(row).Ok?
    ensures var (e, fwe) := ParseRow(row).value;
      var lib' := MergeRow(lib, maxLabel, row).value.0;
      && |lib| <= |lib'| <= |lib| + 1
      && (forall j :: 0 <= j < |lib| ==>
            SameEntry(lib'[j], lib[j]) && lib'[j].color == lib[j].color &&
            (!SameEntry(lib[j], e) ==> lib'[j] == lib[j]))
      && (|lib'| == |lib| + 1 <==> FindEntry(lib, e).None?)
      && (|lib'| == |lib| + 1 ==> lib'[|lib|] == e.(entries := [fwe]))
      && (FindEntry(lib, e).Some? ==>
            lib'[FindEntry(lib, e).value].entries == lib[FindEntry(lib, e).value].entries + [fwe])
  {
  }

  /** For every key, one merged row appends its forwarding entry to that
      key's entries when the key is the row's, and changes nothing otherwise. */
  lemma MergeRowForwarding(lib: seq<LibEntry>, maxLabel: int, row: XmlLibEntry, key: (int, string))
    requires MergeRow(lib, maxLabel, row).Ok?
    ensures ParseRow(row).Ok? && row.inLabel.Some? && row.inInterface.Some?
    ensures ForwardingOf(MergeRow(lib, maxLabel, row).value.0, key) ==
      ForwardingOf(lib, key) + (if key == RowKey(row) then [ParseRow(row).value.1] else [])
  {
    MergeRowShape(lib, maxLabel, row);
    var (e, fwe) := ParseRow(row).value;
    var lib' := MergeRow(lib, maxLabel, row).value.0;
    var k := LibEntry(key.0, key.1, [], 0);
    assert SameEntry(e, k) <==> key == RowKey(row);
    if key == RowKey(row) {
      FindEntryByKey(lib, lib, e, k);
    }
    if |lib'| == |lib| + 1 {
      assert lib' == lib + [e.(entries := [fwe])];
      FindEntryAppend(lib, e.(entries := [fwe]), k);
      assert FindEntry(lib, k).Some? ==> lib'[FindEntry(lib, k).value] == lib[FindEntry(lib, k).value];
    } else {
      FindEntryByKey(lib', lib, k, k);
      assert FindEntry(lib, k).Some? && key != RowKey(row) ==> !SameEntry(lib[FindEntry(lib, k).value], e);
    }
  }

  /** The forwarding entries the rows carry for `key`, in document order. */
  function RowsForwarding(rows: seq<XmlLibEntry>, key: (int, string)): seq<ForwardingEntry>
    decreases |rows|
  {
    if rows == [] then []
    else
      var parsed := ParseRow(rows[0]);
      var here := if parsed.Ok? && (parsed.value.0.inLabel, parsed.value.0.inInterface) == key then [parsed.value.1] else [];
      here + RowsForwarding(rows[1..], key)
  }

  /** A successful load appends, for every key, the forwarding entries of
      the rows with that key, in document order, to the ones already there. */
  lemma {:induction false} MergeRowsForwarding(lib: seq<LibEntry>, maxLabel: int, rows: seq<XmlLibEntry>, key: (int, string))
    requires MergeRows(lib, maxLabel, rows).Ok?
    ensures ForwardingOf(MergeRows(lib, maxLabel, rows).value.0, key) ==
      ForwardingOf(lib, key) + RowsForwarding(rows, key)
    decreases |rows|
  {
    if rows != [] {
      MergeRowForwarding(lib, maxLabel, rows[0], key);
      var (lib1, maxLabel1) := MergeRow(lib, maxLabel, rows[0]).value;
      assert MergeRows(lib, maxLabel, rows) == MergeRows(lib1, maxLabel1, rows[1..]);
      MergeRowsForwarding(lib1, maxLabel1, rows[1..], key);
      var here := if key == RowKey(rows[0]) then [ParseRow(rows[0]).value.1] else [];
      assert RowsForwarding(rows, key) == here + RowsForwarding(rows[1..], key);
      var before, after := ForwardingOf(lib, key), RowsForwarding(rows[1..], key);
      assert (before + here) + after == before + (here + after);
    }
  }

  // ---------------------------------------------------------------- table

  class LibTable {
    var maxLabel: int
    var lib: seq<LibEntry>

    ghost predicate Valid()
      reads this
    {
      TableInvariant(lib, maxLabel)
    }

    /** INITSTAGE_LOCAL: the counter starts at 0 and the table is empty. */
    constructor ()
      ensures Valid() && maxLabel == 0 && lib == []
    {
      maxLabel := 0;
      lib := [];
    }

    /** `installLibEntry`. With label -1 a fresh label `++maxLabel` gets a new
        entry holding exactly one forwarding entry. Otherwise the forwarding
        entry goes to the end of the first entry with that label, whose color
        is overwritten; a label that is not in the table fails the final
        `ASSERT(false)`. */
    method InstallLibEntry(inLabel: int, inInterface: string, outLabel: LabelOpVector,
                           outInterface: string, color: int, priority: int) returns (r: Result<int, Fault>)
      requires Valid()
      modifies this
      ensures Valid()
      ensures inLabel == -1 ==>
        && maxLabel == old(maxLabel) + 1
        && r == Ok(maxLabel)
        && lib == old(lib) + [LibEntry(maxLabel, inInterface, [MakeForwardingEntry(outLabel, outInterface, priority)], color)]
      ensures inLabel != -1 ==> maxLabel == old(maxLabel)
      ensures inLabel != -1 && FindLabel(old(lib), inLabel).None? ==>
        r == Err(AssertionFailure) && lib == old(lib)
      ensures inLabel != -1 && FindLabel(old(lib), inLabel).Some? ==>
        var i := FindLabel(old(lib), inLabel).value;
        && r == Ok(inLabel)
        && lib == old(lib)[i := AddForwarding(old(lib)[i], MakeForwardingEntry(outLabel, outInterface, priority), color)]
    {
      if inLabel == -1 {
        maxLabel := maxLabel + 1;
        var newItem := LibEntry(maxLabel, inInterface, [MakeForwardingEntry(outLabel, outInterface, priority)], color);
        lib := lib + [newItem];
        return Ok(newItem.inLabel);
      }
      var i := 0;
      while i < |lib|
        invariant 0 <= i <= |lib|
        invariant lib == old(lib) && maxLabel == old(maxLabel)
        invariant forall j :: 0 <= j < i ==> lib[j].inLabel != inLabel
      {
        if lib[i].inLabel == inLabel {
          var fwe := MakeForwardingEntry(outLabel, outInterface, priority);
          lib := lib[i := AddForwarding(lib[i], fwe, color)];
          return Ok(inLabel);
        }
        i := i + 1;
      }
      return Err(AssertionFailure);
    }

    /** `removeLibEntry`: erases the first entry with the label and keeps
        the others in order; an absent label fails `ASSERT(false)`. */
    method RemoveLibEntry(inLabel: int) returns (r: Result<(), Fault>)
      requires Valid()
      modifies this
      ensures Valid() && maxLabel == old(maxLabel)
      ensures FindLabel(old(lib), inLabel).None? ==> r == Err(AssertionFailure) && lib == old(lib)
      ensures FindLabel(old(lib), inLabel).Some? ==>
        var i := FindLabel(old(lib), inLabel).value;
        r == Ok(()) && lib == old(lib)[..i] + old(lib)[i + 1..]
    {
      var i := 0;
      while i < |lib|
        invariant 0 <= i <= |lib|
        invariant lib == old(lib)
        invariant forall j :: 0 <= j < i ==> lib[j].inLabel != inLabel
      {
        if lib[i].inLabel == inLabel {
          ghost var before := lib;
          lib := lib[..i] + lib[i + 1..];
          assert forall j :: 0 <= j < |lib| ==> lib[j] == before[if j < i then j else j + 1];
          return Ok(());
        }
        i := i + 1;
      }
      return Err(AssertionFailure);
    }

    /** `readTableFromXML`: merges the rows one after the other. On a fault
        the simulation stops, and nothing is promised about the table. */
    method ReadTableFromXml(rows: seq<XmlLibEntry>) returns (r: Result<(), Fault>)
      requires Valid()
      modifies this
      ensures r.Ok? <==> MergeRows(old(lib), old(maxLabel), rows).Ok?
      ensures r.Ok? ==> (lib, maxLabel) == MergeRows(old(lib), old(maxLabel), rows).value && Valid()
    {
      var k := 0;
      while k < |rows|
        invariant 0 <= k <= |rows|
        invariant Valid()
        invariant MergeRows(old(lib), old(maxLabel), rows) == MergeRows(lib, maxLabel, rows[k..])
      {
        assert rows[k..][1..] == rows[k + 1..];
        r := MergeRowInPlace(rows[k]);
        if r.Err? {
          return;
        }
        k := k + 1;
      }
      return Ok(());
    }

    /** One iteration of `readTableFromXML`: the row's forwarding entry goes
        to the end of the entry with its key, or a new entry is appended;
        then the label is checked and `maxLabel` raised to it. */
    method MergeRowInPlace(row: XmlLibEntry) returns (r: Result<(), Fault>)
      requires Valid()
      modifies this
      ensures r.Ok? <==> MergeRow(old(lib), old(maxLabel), row).Ok?
      ensures r.Ok? ==> (lib, maxLabel) == MergeRow(old(lib), old(maxLabel), row).value && Valid()
    {
      var parsed := ParseRow(row);
      if parsed.Err? {
        return Err(parsed.error);
      }
      var (newItem, fwe) := parsed.value;
      var old_entry := FindEntry(lib, newItem);
      if old_entry.None? {
        lib := lib + [newItem.(entries := [fwe])];
      } else {
        var i := old_entry.value;
        lib := lib[i := lib[i].(entries := lib[i].entries + [fwe])];
      }
      if newItem.inLabel <= 0 {
        return Err(AssertionFailure);
      }
      if newItem.inLabel > maxLabel {
        maxLabel := newItem.inLabel;
      }
      MergeRowProperties(old(lib), old(maxLabel), row);
      return Ok(());
    }
  }

  /** A label handed out by `installLibEntry(-1, ...)` was not in the table
      before, so the new entry is the only one with it. */
  lemma FreshLabelIsUnused(lib: seq<LibEntry>, maxLabel: int)
    requires TableInvariant(lib, maxLabel)
    ensures FindLabel(lib, maxLabel + 1).None?
  {
  }
}
