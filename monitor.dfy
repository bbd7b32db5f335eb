/**
 * The change-detection step of the web monitor: load the last known content
 * digests, walk the configured targets in order, classify each fetch outcome
 * against the history, collect the reportable events and the digests to save.
 *
 * The network fetch, the MD5 computation and the clock are not modelled: each
 * target comes with a `Probe` that says what fetching and hashing it produced
 * and what time an event about it is stamped with.
 */
module Monitor {

  datatype Option<T> = None | Some(value: T)

  /** One configured (name, url) pair. */
  datatype Target = Target(name: string, url: string)

  /** The hex digest of the fetched body, or the text of the request exception. */
  datatype FetchOutcome = Fetched(digest: string) | Failed(message: string)

  /** What the outside world contributes for one target during a run. */
  datatype Probe = Probe(outcome: FetchOutcome, timestamp: string)

  /**
   * The hash storage file as found at the start of a run. `Undecodable` is a
   * file that exists but is not valid JSON (the only load error that is caught).
   */
  datatype StoreFile = Absent | Undecodable | Decoded(hashes: map<string, string>)

  /** The four ways a target can come out of one run. */
  datatype Classification =
    | Initial(digest: string)
    | Changed(previous: string, current: string)
    | Unchanged
    | Error(message: string)

  /** One entry of the list of detected changes, with the five fields the report shows. */
  datatype ChangeEvent = ChangeEvent(name: string, url: string, timestamp: string, status: string, hashChange: string)

  const InitialStatus := "Initial Check (No history recorded)"
  const ChangedStatus := "Content Changed"
  const ErrorPrefix := "Error: "
  const NoHashDetail := "N/A"

  /** The compiled-in configuration, in its declared order. */
  const MonitoredUrls: seq<Target> := [
    Target("Google_Homepage", "https://www.google.com"),
    Target("UWM Press Releases", "https://www.uwm.com/press-releases")
  ]

  /** The configured names are distinct (the configuration is a dictionary). */
  ghost predicate UniqueNames(targets: seq<Target>) {
    forall i, j :: 0 <= i < j < |targets| ==> targets[i].name != targets[j].name
  }

  ghost function Names(targets: seq<Target>): (names: set<string>) {
    set j | 0 <= j < |targets| :: targets[j].name
  }

  lemma MonitoredUrlsUnique()
    ensures UniqueNames(MonitoredUrls)
  {
  }

  /** The history a run starts from: a missing file, or one that is not valid JSON, means no history. */
  function LoadHashes(file: StoreFile): (hashes: map<string, string>)
    ensures file.Decoded? ==> hashes == file.hashes
    ensures !file.Decoded? ==> hashes == map[]
  {
    match file
    case Decoded(m) => m
    case _ => map[]
  }

  /** Python's `s[:8]`: the first eight characters, or all of a shorter string. */
  function Prefix8(s: string): (r: string)
    ensures |r| == (if |s| < 8 then |s| else 8)
    ensures r == s[..|r|]
  {
    if |s| < 8 then s else s[..8]
  }

  /** The detail of an initial check: the truncated digest stands after the 14-character label. */
  function InitialDetail(digest: string): (detail: string)
    ensures |detail| == 14 + |Prefix8(digest)| + 3
    ensures detail[..14] == "Initial Hash: "
    ensures detail[14..14 + |Prefix8(digest)|] == Prefix8(digest)
    ensures detail[14 + |Prefix8(digest)|..] == "..."
  {
    "Initial Hash: " + Prefix8(digest) + "..."
  }

  /** The detail of a change: both truncated digests can be read back from it. */
  function ChangedDetail(previous: string, current: string): (detail: string)
    ensures |detail| == 5 + |Prefix8(previous)| + 12 + |Prefix8(current)| + 3
    ensures detail[..5] == "Old: "
    ensures detail[5..5 + |Prefix8(previous)|] == Prefix8(previous)
    ensures detail[5 + |Prefix8(previous)|..5 + |Prefix8(previous)| + 12] == "... -> New: "
    ensures detail[5 + |Prefix8(previous)| + 12..|detail| - 3] == Prefix8(current)
    ensures detail[|detail| - 3..] == "..."
  {
    "Old: " + Prefix8(previous) + "... -> New: " + Prefix8(current) + "..."
  }

  /** Compares one fetch outcome with the history. */
  function Classify(last: map<string, string>, name: string, outcome: FetchOutcome): (c: Classification)
    ensures c.Error? <==> outcome.Failed?
    ensures c.Error? ==> c.message == outcome.message
    ensures c.Initial? <==> outcome.Fetched? && name !in last
    ensures c.Initial? ==> c.digest == outcome.digest
    ensures c.Changed? <==> outcome.Fetched? && name in last && last[name] != outcome.digest
    ensures c.Changed? ==> c.previous == last[name] && c.current == outcome.digest
    ensures c.Unchanged? <==> outcome.Fetched? && name in last && last[name] == outcome.digest
  {
    match outcome
    case Failed(msg) => Error(msg)
    case Fetched(d) =>
      if name in last && last[name] != d then Changed(last[name], d)
      else if name !in last then Initial(d)
      else Unchanged
  }

  /** The event a target contributes to the list of detected changes, if any. */
  function EventFor(last: map<string, string>, t: Target, p: Probe): (r: Option<ChangeEvent>)
    ensures r.None? <==> Classify(last, t.name, p.outcome).Unchanged?
    ensures r.Some? ==> r.value.name == t.name && r.value.url == t.url && r.value.timestamp == p.timestamp
  {
    match Classify(last, t.name, p.outcome)
    case Initial(d) => Some(ChangeEvent(t.name, t.url, p.timestamp, InitialStatus, InitialDetail(d)))
    case Changed(prev, d) => Some(ChangeEvent(t.name, t.url, p.timestamp, ChangedStatus, ChangedDetail(prev, d)))
    case Error(msg) => Some(ChangeEvent(t.name, t.url, p.timestamp, ErrorPrefix + msg, NoHashDetail))
    case Unchanged => None
  }

  function OptSeq<T>(o: Option<T>): (s: seq<T>) {
    if o.Some? then [o.value] else []
  }

  /** The events of a run: one per non-unchanged target, in configuration order. */
  function Events(last: map<string, string>, targets: seq<Target>, probes: seq<Probe>): (events: seq<ChangeEvent>)
    requires |probes| == |targets|
    decreases |targets|
  {
    if targets == [] then []
    else
      var n := |targets| - 1;
      Events(last, targets[..n], probes[..n]) + OptSeq(EventFor(last, targets[n], probes[n]))
  }

  /** The digests a run saves: the new digest of every successfully fetched target. */
  function CurrentHashes(targets: seq<Target>, probes: seq<Probe>): (hashes: map<string, string>)
    requires |probes| == |targets|
    decreases |targets|
  {
    if targets == [] then map[]
    else
      var n := |targets| - 1;
      var m := CurrentHashes(targets[..n], probes[..n]);
      if probes[n].outcome.Fetched? then m[targets[n].name := probes[n].outcome.digest] else m
  }

  /**
   * One run: load the history, process the targets in order, and return the
   * map written back to the store (in full) together with the detected changes.
   */
  method CheckForChanges(file: StoreFile, targets: seq<Target>, probes: seq<Probe>)
    returns (saved: map<string, string>, changes: seq<ChangeEvent>)
    requires |probes| == |targets|
    ensures saved == CurrentHashes(targets, probes)
    ensures changes == Events(LoadHashes(file), targets, probes)
  {
    var lastHashes := LoadHashes(file);
    var currentHashes: map<string, string> := map[];
    changes := [];
    var i := 0;
    while i < |targets|
      invariant 0 <= i <= |targets|
      invariant currentHashes == CurrentHashes(targets[..i], probes[..i])
      invariant changes == Events(lastHashes, targets[..i], probes[..i])
    {
      var t, p := targets[i], probes[i];
      assert targets[..i + 1][..i] == targets[..i];
      assert probes[..i + 1][..i] == probes[..i];
      match p.outcome {
        case Fetched(contentHash) =>
          currentHashes := currentHashes[t.name := contentHash];
          if t.name in lastHashes && lastHashes[t.name] != contentHash {
            changes := changes + [ChangeEvent(t.name, t.url, p.timestamp, ChangedStatus,
                                              ChangedDetail(lastHashes[t.name], contentHash))];
          } else if t.name !in lastHashes {
            changes := changes + [ChangeEvent(t.name, t.url, p.timestamp, InitialStatus, InitialDetail(contentHash))];
          }
        case Failed(e) =>
          changes := changes + [ChangeEvent(t.name, t.url, p.timestamp, ErrorPrefix + e, NoHashDetail)];
      }
      i := i + 1;
    }
    assert targets[..i] == targets && probes[..i] == probes;
    saved := currentHashes;
  }

  // ---------------------------------------------------------------------------
  // The list of detected changes

  /** Events restricted to those about one name. */
  function Named(events: seq<ChangeEvent>, name: string): (named: seq<ChangeEvent>)
    decreases |events|
  {
    if events == [] then []
    else
      var n := |events| - 1;
      Named(events[..n], name) + (if events[n].name == name then [events[n]] else [])
  }

  lemma {:induction false} NamedAppend(a: seq<ChangeEvent>, b: seq<ChangeEvent>, name: string)
    ensures Named(a + b, name) == Named(a, name) + Named(b, name)
    decreases |b|
  {
    if b == [] {
      assert a + b == a;
    } else {
      var n := |b| - 1;
      assert (a + b)[..|a + b| - 1] == a + b[..n];
      NamedAppend(a, b[..n], name);
    }
  }

  /** A run emits at most one event per configured target. */
  lemma {:induction false} EventsAtMostOnePerTarget(last: map<string, string>, targets: seq<Target>, probes: seq<Probe>)
    requires |probes| == |targets|
    ensures |Events(last, targets, probes)| <= |targets|
    decreases |targets|
  {
    if targets != [] {
      var n := |targets| - 1;
      EventsAtMostOnePerTarget(last, targets[..n], probes[..n]);
    }
  }

  /** The positions of the targets that yield an event, in configuration order. */
  ghost function ReportedTargets(last: map<string, string>, targets: seq<Target>, probes: seq<Probe>): (positions: seq<nat>)
    requires |probes| == |targets|
    decreases |targets|
  {
    if targets == [] then []
    else
      var n := |targets| - 1;
      ReportedTargets(last, targets[..n], probes[..n]) + (if EventFor(last, targets[n], probes[n]).Some? then [n] else [])
  }

  /**
   * The reported positions are strictly increasing and are exactly the
   * targets whose outcome is not unchanged.
   */
  lemma {:induction false} ReportedTargetsOrdered(last: map<string, string>, targets: seq<Target>, probes: seq<Probe>)
    requires |probes| == |targets|
    ensures forall k :: 0 <= k < |ReportedTargets(last, targets, probes)| ==> ReportedTargets(last, targets, probes)[k] < |targets|
    ensures forall p, q :: 0 <= p < q < |ReportedTargets(last, targets, probes)| ==>
      ReportedTargets(last, targets, probes)[p] < ReportedTargets(last, targets, probes)[q]
    ensures forall i :: 0 <= i < |targets| ==>
      (i in ReportedTargets(last, targets, probes) <==> !Classify(last, targets[i].name, probes[i].outcome).Unchanged?)
    decreases |targets|
  {
    if targets != [] {
      var n := |targets| - 1;
      var tp, pp := targets[..n], probes[..n];
      ReportedTargetsOrdered(last, tp, pp);
      var pre := ReportedTargets(last, tp, pp);
      forall j | 0 <= j < n ensures tp[j] == targets[j] && pp[j] == probes[j] { }
      assert n !in pre;
    }
  }

  /** Event k of a run is the event of the k-th reported target. */
  lemma {:induction false} ReportedTargetsEvents(last: map<string, string>, targets: seq<Target>, probes: seq<Probe>)
    requires |probes| == |targets|
    ensures |ReportedTargets(last, targets, probes)| == |Events(last, targets, probes)|
    ensures forall k :: 0 <= k < |Events(last, targets, probes)| ==>
      var i := ReportedTargets(last, targets, probes)[k];
      i < |targets| && EventFor(last, targets[i], probes[i]) == Some(Events(last, targets, probes)[k])
    decreases |targets|
  {
    if targets != [] {
      var n := |targets| - 1;
      var tp, pp := targets[..n], probes[..n];
      ReportedTargetsEvents(last, tp, pp);
      var pre, evs := ReportedTargets(last, tp, pp), Events(last, tp, pp);
      forall j | 0 <= j < n ensures tp[j] == targets[j] && pp[j] == probes[j] { }
      forall k | 0 <= k < |evs| ensures Events(last, targets, probes)[k] == evs[k] && ReportedTargets(last, targets, probes)[k] == pre[k] { }
    }
  }

  /** No event names a target that is not configured. */
  lemma {:induction false} NoEventNamed(last: map<string, string>, targets: seq<Target>, probes: seq<Probe>, name: string)
    requires |probes| == |targets|
    requires forall j :: 0 <= j < |targets| ==> targets[j].name != name
    ensures Named(Events(last, targets, probes), name) == []
    decreases |targets|
  {
    if targets != [] {
      var n := |targets| - 1;
      NoEventNamed(last, targets[..n], probes[..n], name);
      NamedAppend(Events(last, targets[..n], probes[..n]), OptSeq(EventFor(last, targets[n], probes[n])), name);
    }
  }

  /** The events about a configured target are exactly the one its own outcome yields, or none. */
  lemma {:induction false} EventsForName(last: map<string, string>, targets: seq<Target>, probes: seq<Probe>, i: nat)
    requires |probes| == |targets| && UniqueNames(targets) && i < |targets|
    ensures Named(Events(last, targets, probes), targets[i].name) == OptSeq(EventFor(last, targets[i], probes[i]))
    decreases |targets|
  {
    var n := |targets| - 1;
    var tp, pp := targets[..n], probes[..n];
    var tail := OptSeq(EventFor(last, targets[n], probes[n]));
    assert Events(last, targets, probes) == Events(last, tp, pp) + tail;
    NamedAppend(Events(last, tp, pp), tail, targets[i].name);
    forall j | 0 <= j < n ensures tp[j] == targets[j] && pp[j] == probes[j] { }
    if i == n {
      NoEventNamed(last, tp, pp, targets[n].name);
      assert Named(tail, targets[n].name) == tail;
    } else {
      assert UniqueNames(tp);
      EventsForName(last, tp, pp, i);
      assert Named(tail, targets[i].name) == [];
    }
  }

  /** A run in which every target is unchanged reports nothing. */
  lemma {:induction false} NoEventsWhenAllUnchanged(last: map<string, string>, targets: seq<Target>, probes: seq<Probe>)
    requires |probes| == |targets|
    requires forall i :: 0 <= i < |targets| ==> Classify(last, targets[i].name, probes[i].outcome).Unchanged?
    ensures Events(last, targets, probes) == []
    decreases |targets|
  {
    if targets != [] {
      var n := |targets| - 1;
      assert forall j :: 0 <= j < n ==> targets[..n][j] == targets[j] && probes[..n][j] == probes[j];
      NoEventsWhenAllUnchanged(last, targets[..n], probes[..n]);
    }
  }

  // ---------------------------------------------------------------------------
  // The saved map

  /**
   * The saved map holds exactly the successfully fetched names, each with its
   * new digest; nothing else, whatever the history held.
   */
  lemma {:induction false} CurrentHashesContents(targets: seq<Target>, probes: seq<Probe>)
    requires |probes| == |targets| && UniqueNames(targets)
    ensures forall i :: 0 <= i < |targets| ==>
      (targets[i].name in CurrentHashes(targets, probes) <==> probes[i].outcome.Fetched?)
    ensures forall i :: 0 <= i < |targets| && probes[i].outcome.Fetched? ==>
      CurrentHashes(targets, probes)[targets[i].name] == probes[i].outcome.digest
    ensures forall name :: name in CurrentHashes(targets, probes) ==> name in Names(targets)
    decreases |targets|
  {
    if targets != [] {
      var n := |targets| - 1;
      var tp, pp := targets[..n], probes[..n];
      assert forall j :: 0 <= j < n ==> tp[j] == targets[j] && pp[j] == probes[j];
      CurrentHashesContents(tp, pp);
      assert Names(tp) <= Names(targets);
    }
  }

  /** The saved map depends on the fetch outcomes only. */
  lemma {:induction false} CurrentHashesOutcomesOnly(targets: seq<Target>, first: seq<Probe>, second: seq<Probe>)
    requires |first| == |targets| && |second| == |targets|
    requires forall i :: 0 <= i < |targets| ==> first[i].outcome == second[i].outcome
    ensures CurrentHashes(targets, first) == CurrentHashes(targets, second)
    decreases |targets|
  {
    if targets != [] {
      var n := |targets| - 1;
      CurrentHashesOutcomesOnly(targets[..n], first[..n], second[..n]);
    }
  }

  /** A history entry for a name that is not configured does not survive a run. */
  lemma {:induction false} UnconfiguredDigestDropped(targets: seq<Target>, probes: seq<Probe>, name: string)
    requires |probes| == |targets| && UniqueNames(targets)
    requires forall j :: 0 <= j < |targets| ==> targets[j].name != name
    ensures name !in CurrentHashes(targets, probes)
  {
    CurrentHashesContents(targets, probes);
  }

  // ---------------------------------------------------------------------------
  // The four cases, stated over a whole run

  lemma {:induction false} InitialCheckReported(last: map<string, string>, targets: seq<Target>, probes: seq<Probe>, i: nat)
    requires |probes| == |targets| && UniqueNames(targets) && i < |targets|
    requires probes[i].outcome.Fetched? && targets[i].name !in last
    ensures Named(Events(last, targets, probes), targets[i].name) ==
      [ChangeEvent(targets[i].name, targets[i].url, probes[i].timestamp,
                   "Initial Check (No history recorded)",
                   "Initial Hash: " + Prefix8(probes[i].outcome.digest) + "...")]
    ensures targets[i].name in CurrentHashes(targets, probes)
         && CurrentHashes(targets, probes)[targets[i].name] == probes[i].outcome.digest
  {
    EventsForName(last, targets, probes, i);
    CurrentHashesContents(targets, probes);
  }

  lemma {:induction false} ContentChangeReported(last: map<string, string>, targets: seq<Target>, probes: seq<Probe>, i: nat)
    requires |probes| == |targets| && UniqueNames(targets) && i < |targets|
    requires probes[i].outcome.Fetched? && targets[i].name in last
    requires last[targets[i].name] != probes[i].outcome.digest
    ensures Named(Events(last, targets, probes), targets[i].name) ==
      [ChangeEvent(targets[i].name, targets[i].url, probes[i].timestamp, "Content Changed",
                   "Old: " + Prefix8(last[targets[i].name]) + "... -> New: " + Prefix8(probes[i].outcome.digest) + "...")]
    ensures targets[i].name in CurrentHashes(targets, probes)
         && CurrentHashes(targets, probes)[targets[i].name] == probes[i].outcome.digest
  {
    EventsForName(last, targets, probes, i);
    CurrentHashesContents(targets, probes);
  }

  lemma {:induction false} UnchangedNotReported(last: map<string, string>, targets: seq<Target>, probes: seq<Probe>, i: nat)
    requires |probes| == |targets| && UniqueNames(targets) && i < |targets|
    requires probes[i].outcome.Fetched? && targets[i].name in last
    requires last[targets[i].name] == probes[i].outcome.digest
    ensures Named(Events(last, targets, probes), targets[i].name) == []
    ensures targets[i].name in CurrentHashes(targets, probes)
         && CurrentHashes(targets, probes)[targets[i].name] == last[targets[i].name]
  {
    EventsForName(last, targets, probes, i);
    CurrentHashesContents(targets, probes);
  }

  /** A failed fetch is reported, and its target's previous digest is not saved. */
  lemma {:induction false} FetchErrorReported(last: map<string, string>, targets: seq<Target>, probes: seq<Probe>, i: nat)
    requires |probes| == |targets| && UniqueNames(targets) && i < |targets|
    requires probes[i].outcome.Failed?
    ensures Named(Events(last, targets, probes), targets[i].name) ==
      [ChangeEvent(targets[i].name, targets[i].url, probes[i].timestamp,
                   "Error: " + probes[i].outcome.message, "N/A")]
    ensures targets[i].name !in CurrentHashes(targets, probes)
  {
    EventsForName(last, targets, probes, i);
    CurrentHashesContents(targets, probes);
  }

  // ---------------------------------------------------------------------------
  // Two runs in succession

  /**
   * A run in which every fetch succeeds, followed by a run that starts from the
   * map it saved and fetches the same digests: the second run reports nothing
   * and saves the same map.
   */
  lemma {:induction false} IdempotentRerun(targets: seq<Target>, first: seq<Probe>, second: seq<Probe>)
    requires |first| == |targets| && |second| == |targets| && UniqueNames(targets)
    requires forall i :: 0 <= i < |targets| ==> first[i].outcome.Fetched? && second[i].outcome == first[i].outcome
    ensures Events(LoadHashes(Decoded(CurrentHashes(targets, first))), targets, second) == []
    ensures CurrentHashes(targets, second) == CurrentHashes(targets, first)
  {
    var saved := CurrentHashes(targets, first);
    CurrentHashesContents(targets, first);
    forall i | 0 <= i < |targets| ensures Classify(saved, targets[i].name, second[i].outcome).Unchanged? { }
    NoEventsWhenAllUnchanged(saved, targets, second);
    CurrentHashesOutcomesOnly(targets, first, second);
  }

  /**
   * A target whose fetch failed has no saved digest, so when a later run
   * fetches it successfully it is classified as an initial check, not as
   * changed or unchanged.
   */
  lemma {:induction false} RecoveryAfterErrorIsInitial(targets: seq<Target>, first: seq<Probe>, second: seq<Probe>, i: nat)
    requires |first| == |targets| && |second| == |targets| && UniqueNames(targets) && i < |targets|
    requires first[i].outcome.Failed? && second[i].outcome.Fetched?
    ensures Classify(LoadHashes(Decoded(CurrentHashes(targets, first))), targets[i].name, second[i].outcome)
            == Initial(second[i].outcome.digest)
  {
    CurrentHashesContents(targets, first);
  }
}
