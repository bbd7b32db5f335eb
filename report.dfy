/**
 * The structure of the monitoring report built from the list of detected
 * changes: a root element holding a summary status, the generation time and
 * one ChangeItem per event. The XML serialisation itself is not modelled; the
 * element tree is a value, and reader functions recover what it holds.
 */
module Report {

  import opened Monitor

  /** An element of the report tree: its tag, its text (if set) and its children. */
  datatype Element = Element(tag: string, text: Option<string>, children: seq<Element>)

  const NoChangesText := "No changes detected since the last run."
  const DetectedSuffix := " Change(s) or Initial Check(s) Detected."

  /** An element with text and no children. */
  function Leaf(tag: string, text: string): (el: Element) {
    Element(tag, Some(text), [])
  }

  // ---------------------------------------------------------------------------
  // Decimal rendering of the event count

  predicate IsDigit(c: char) {
    '0' <= c <= '9'
  }

  function DigitChar(d: nat): (c: char)
    requires d < 10
    ensures IsDigit(c) && c as int - '0' as int == d
  {
    ('0' as int + d) as char
  }

  function DigitValue(c: char): (d: nat)
    requires IsDigit(c)
  {
    c as int - '0' as int
  }

  /** The decimal text of a count, without leading zeros. */
  function Decimal(n: nat): (s: string)
    ensures |s| > 0 && forall k :: 0 <= k < |s| ==> IsDigit(s[k])
    ensures s[0] == '0' <==> n == 0
    ensures |s| == 1 <==> n < 10
    decreases n
  {
    if n < 10 then [DigitChar(n)] else Decimal(n / 10) + [DigitChar(n % 10)]
  }

  /** The value of a string of decimal digits. */
  function ParseDecimal(s: string): (n: nat)
    requires forall k :: 0 <= k < |s| ==> IsDigit(s[k])
    decreases |s|
  {
    if s == [] then 0
    else
      var n := |s| - 1;
      ParseDecimal(s[..n]) * 10 + DigitValue(s[n])
  }

  lemma {:induction false} DecimalRoundTrip(n: nat)
    ensures ParseDecimal(Decimal(n)) == n
    decreases n
  {
    if n >= 10 {
      var s := Decimal(n);
      DecimalRoundTrip(n / 10);
      assert s[..|s| - 1] == Decimal(n / 10);
    }
  }

  // ---------------------------------------------------------------------------
  // The summary status

  /** The root status line for a report of `count` events. */
  function StatusText(count: nat): (status: string) {
    if count > 0 then Decimal(count) + DetectedSuffix else NoChangesText
  }

  /** Reads the event count back out of a status line. */
  function ReadStatus(s: string): (count: Option<nat>) {
    if s == NoChangesText then Some(0)
    else if |s| > |DetectedSuffix| && s[|s| - |DetectedSuffix|..] == DetectedSuffix then
      var digits := s[..|s| - |DetectedSuffix|];
      if forall k :: 0 <= k < |digits| ==> IsDigit(digits[k]) then Some(ParseDecimal(digits))
      else None
    else None
  }

  /** The status line determines the number of events it summarises. */
  lemma StatusTextRoundTrip(count: nat)
    ensures ReadStatus(StatusText(count)) == Some(count)
  {
    if count > 0 {
      var s := StatusText(count);
      var d := Decimal(count);
      assert s[0] == d[0] && IsDigit(d[0]);
      assert s != NoChangesText by { assert NoChangesText[0] == 'N'; }
      assert s[..|s| - |DetectedSuffix|] == d;
      assert s[|s| - |DetectedSuffix|..] == DetectedSuffix;
      DecimalRoundTrip(count);
    }
  }

  // ---------------------------------------------------------------------------
  // Change items

  /** The element for one detected change: five leaves in a fixed order. */
  function ChangeItem(e: ChangeEvent): (item: Element) {
    Element("ChangeItem", None, [
      Leaf("Name", e.name),
      Leaf("URL", e.url),
      Leaf("Timestamp", e.timestamp),
      Leaf("Status", e.status),
      Leaf("HashDetails", e.hashChange)
    ])
  }

  predicate IsLeaf(el: Element, tag: string) {
    el.tag == tag && el.text.Some? && el.children == []
  }

  /** Reads a ChangeItem element back into the change it describes. */
  function ReadItem(el: Element): (e: Option<ChangeEvent>) {
    var c := el.children;
    if el.tag == "ChangeItem" && el.text.None? && |c| == 5
       && IsLeaf(c[0], "Name") && IsLeaf(c[1], "URL") && IsLeaf(c[2], "Timestamp")
       && IsLeaf(c[3], "Status") && IsLeaf(c[4], "HashDetails")
    then Some(ChangeEvent(c[0].text.value, c[1].text.value, c[2].text.value, c[3].text.value, c[4].text.value))
    else None
  }

  lemma ItemRoundTrip(e: ChangeEvent)
    ensures ReadItem(ChangeItem(e)) == Some(e)
  {
  }

  /** Reads a sequence of ChangeItem elements, failing if any is malformed. */
  function ReadItems(els: seq<Element>): (changes: Option<seq<ChangeEvent>>)
    decreases |els|
  {
    if els == [] then Some([])
    else
      match (ReadItem(els[0]), ReadItems(els[1..]))
      case (Some(e), Some(rest)) => Some([e] + rest)
      case _ => None
  }

  lemma {:induction false} ReadItemsRoundTrip(changes: seq<ChangeEvent>, els: seq<Element>)
    requires |els| == |changes|
    requires forall k :: 0 <= k < |els| ==> els[k] == ChangeItem(changes[k])
    ensures ReadItems(els) == Some(changes)
    decreases |els|
  {
    if els != [] {
      ItemRoundTrip(changes[0]);
      ReadItemsRoundTrip(changes[1..], els[1..]);
      assert [changes[0]] + changes[1..] == changes;
    }
  }

  // ---------------------------------------------------------------------------
  // The whole report

  /** `root` is the report of `changes` generated at time `generatedAt`. */
  ghost predicate Describes(root: Element, changes: seq<ChangeEvent>, generatedAt: string) {
    && root.tag == "MonitoringReport"
    && root.text.None?
    && |root.children| == 2 + |changes|
    && root.children[0] == Leaf("Status", StatusText(|changes|))
    && root.children[1] == Leaf("TimestampGenerated", generatedAt)
    && forall k :: 0 <= k < |changes| ==> root.children[2 + k] == ChangeItem(changes[k])
  }

  /** Builds the report tree: status, generation time, then one item per change. */
  method GenerateXmlReport(changes: seq<ChangeEvent>, generatedAt: string) returns (root: Element)
    ensures Describes(root, changes, generatedAt)
  {
    var children := [Leaf("Status", StatusText(|changes|)), Leaf("TimestampGenerated", generatedAt)];
    for k := 0 to |changes|
      invariant |children| == 2 + k
      invariant children[0] == Leaf("Status", StatusText(|changes|))
      invariant children[1] == Leaf("TimestampGenerated", generatedAt)
      invariant forall j :: 0 <= j < k ==> children[2 + j] == ChangeItem(changes[j])
    {
      children := children + [ChangeItem(changes[k])];
    }
    root := Element("MonitoringReport", None, children);
  }

  /** What a reader of the report recovers: the summarised count, the generation time and the changes. */
  function ReadReport(root: Element): (contents: Option<(nat, string, seq<ChangeEvent>)>) {
    if root.tag == "MonitoringReport" && |root.children| >= 2
       && IsLeaf(root.children[0], "Status") && IsLeaf(root.children[1], "TimestampGenerated")
    then
      match (ReadStatus(root.children[0].text.value), ReadItems(root.children[2..]))
      case (Some(n), Some(items)) => Some((n, root.children[1].text.value, items))
      case _ => None
    else None
  }

  /**
   * The report loses nothing: reading it back yields every change, in order,
   * the generation time, and a status count equal to the number of changes.
   */
  lemma ReportReadBack(root: Element, changes: seq<ChangeEvent>, generatedAt: string)
    requires Describes(root, changes, generatedAt)
    ensures ReadReport(root) == Some((|changes|, generatedAt, changes))
  {
    StatusTextRoundTrip(|changes|);
    ReadItemsRoundTrip(changes, root.children[2..]);
  }

  /** The status line says "no changes" exactly when there are none. */
  lemma NoChangesExactlyWhenEmpty(count: nat)
    ensures StatusText(count) == NoChangesText <==> count == 0
  {
    if count > 0 {
      StatusTextRoundTrip(count);
    }
  }
}
