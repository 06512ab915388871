/** The value types of the MPLS Label Information Base (LIB): label operations,
    forwarding entries and LIB entries, the label-operation constructors
    `pushLabel`, `swapLabel`, `popLabel`, the key equality of LIB entries and
    the text form of a label-operation vector. */
module LibTypes {
  import opened Text

  /** The NHLFE label operations of section 3.10 of RFC 3031. */
  datatype LabelOpCode = PushOper | SwapOper | PopOper

  /** Every operation carries an `int` label; a pop carries 0. */
  datatype LabelOp = LabelOp(labelValue: int, optcode: LabelOpCode)

  type LabelOpVector = seq<LabelOp>

  /** One next-hop choice of a LIB entry. */
  datatype ForwardingEntry = ForwardingEntry(
    outLabel: LabelOpVector,
    outInterface: string,
    priority: int,
    preference: int)

  /** One incoming-label row of the LIB: the key (inLabel, inInterface), the
      forwarding entries it may choose from, and a display color. */
  datatype LibEntry = LibEntry(
    inLabel: int,
    inInterface: string,
    entries: seq<ForwardingEntry>,
    color: int)

  /** A forwarding entry built by aggregate initialisation from the out-label
      vector, the out interface and a priority: the preference keeps its
      default of 1. */
  function MakeForwardingEntry(outLabel: LabelOpVector, outInterface: string, priority: int): (e: ForwardingEntry)
    ensures e.outLabel == outLabel && e.outInterface == outInterface && e.priority == priority
    ensures e.preference == 1
  {
    ForwardingEntry(outLabel, outInterface, priority, 1)
  }

  /** A default-constructed forwarding entry: priority 0, preference 1. */
  function DefaultForwardingEntry(): (e: ForwardingEntry)
    ensures e.priority == 0 && e.preference == 1 && e.outLabel == [] && e.outInterface == ""
  {
    MakeForwardingEntry([], "", 0)
  }

  /** `operator==` on LIB entries: only the key is compared. */
  predicate SameEntry(lhs: LibEntry, rhs: LibEntry) {
    lhs.inLabel == rhs.inLabel && lhs.inInterface == rhs.inInterface
  }

  lemma SameEntryIgnoresForwardingAndColor(e: LibEntry, entries: seq<ForwardingEntry>, color: int)
    ensures SameEntry(e, e.(entries := entries, color := color))
  {
  }

  lemma SameEntryIsEquivalence(a: LibEntry, b: LibEntry, c: LibEntry)
    ensures SameEntry(a, a)
    ensures SameEntry(a, b) ==> SameEntry(b, a)
    ensures SameEntry(a, b) && SameEntry(b, c) ==> SameEntry(a, c)
  {
  }

  function PushLabel(value: int): (v: LabelOpVector)
    ensures |v| == 1 && v[0].optcode == PushOper && v[0].labelValue == value
  {
    [LabelOp(value, PushOper)]
  }

  function SwapLabel(value: int): (v: LabelOpVector)
    ensures |v| == 1 && v[0].optcode == SwapOper && v[0].labelValue == value
  {
    [LabelOp(value, SwapOper)]
  }

  function PopLabel(): (v: LabelOpVector)
    ensures |v| == 1 && v[0].optcode == PopOper && v[0].labelValue == 0
  {
    [LabelOp(0, PopOper)]
  }

  /** The text of one operation inside `operator<<(LabelOpVector)`. */
  function OpText(op: LabelOp): string {
    match op.optcode
    case PushOper => "PUSH " + IntToString(op.labelValue)
    case SwapOper => "SWAP " + IntToString(op.labelValue)
    case PopOper => "POP"
  }

  /** What the printing loop writes from position `i` on: each item, then
      "; " when another follows and "}" after the last one. */
  function FormatFrom(ops: LabelOpVector, i: nat): string
    decreases |ops| - i
  {
    if i >= |ops| then ""
    else OpText(ops[i]) + (if i < |ops| - 1 then "; " else "}") + FormatFrom(ops, i + 1)
  }

  /** `operator<<(std::ostream&, const LabelOpVector&)`. */
  function FormatLabelOps(ops: LabelOpVector): string {
    "{" + FormatFrom(ops, 0)
  }

  /** Reference definition: the items joined by a separator. */
  function Join(items: seq<string>, sep: string): string {
    if |items| == 0 then ""
    else if |items| == 1 then items[0]
    else items[0] + sep + Join(items[1..], sep)
  }

  function OpTexts(ops: LabelOpVector): (ts: seq<string>)
    ensures |ts| == |ops| && forall i :: 0 <= i < |ops| ==> ts[i] == OpText(ops[i])
  {
    seq(|ops|, i requires 0 <= i < |ops| => OpText(ops[i]))
  }

  lemma {:induction false} FormatFromIsJoin(ops: LabelOpVector, i: nat)
    requires i < |ops|
    ensures FormatFrom(ops, i) == Join(OpTexts(ops)[i..], "; ") + "}"
    decreases |ops| - i
  {
    var ts := OpTexts(ops)[i..];
    if i < |ops| - 1 {
      FormatFromIsJoin(ops, i + 1);
      assert ts[1..] == OpTexts(ops)[i + 1..];
    } else {
      assert FormatFrom(ops, i + 1) == "";
    }
  }

  /** An empty vector prints as a lone "{" (the closing brace is written only
      after the last item); otherwise the items are joined by "; " inside braces. */
  lemma FormatLabelOpsShape(ops: LabelOpVector)
    ensures ops == [] ==> FormatLabelOps(ops) == "{"
    ensures ops != [] ==> FormatLabelOps(ops) == "{" + Join(OpTexts(ops), "; ") + "}"
  {
    if ops != [] {
      FormatFromIsJoin(ops, 0);
      assert OpTexts(ops)[0..] == OpTexts(ops);
    }
  }

  lemma FormatSingleOps(n: int)
    ensures FormatLabelOps(PushLabel(n)) == "{PUSH " + IntToString(n) + "}"
    ensures FormatLabelOps(SwapLabel(n)) == "{SWAP " + IntToString(n) + "}"
    ensures FormatLabelOps(PopLabel()) == "{POP}"
  {
    FormatLabelOpsShape(PushLabel(n));
    FormatLabelOpsShape(SwapLabel(n));
    FormatLabelOpsShape(PopLabel());
  }
}
