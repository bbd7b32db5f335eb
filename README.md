# Web monitor: change detection and report structure

A Dafny model of the core of a small web monitor. On each run the monitor
loads the content digests it saved last time. It then walks a fixed, ordered
list of `(name, url)` targets. Each target gets one of four outcomes:

- **Initial**: the fetch succeeded and the name has no recorded digest.
- **Content Changed**: the fetch succeeded and the digest differs from the recorded one.
- **Unchanged**: the fetch succeeded and the digest is the recorded one.
- **Error**: the fetch failed.

Every outcome except Unchanged becomes an entry in the list of detected
changes. The run saves, in full, a new map holding the digest of every target
fetched successfully this run. A monitoring report is then built from the
list: a summary status line, the generation time and one `ChangeItem` per
entry. Each `ChangeItem` has five children, in this order: Name, URL,
Timestamp, Status, HashDetails.

Module `Monitor` (`monitor.dfy`) models `check_for_changes`:

- `LoadHashes` is the load fallback.
- `Classify` and `EventFor` are the per-target rule.
- `Events` and `CurrentHashes` are the specification functions of the loop.
- `CheckForChanges` is the loop itself, proved against those two functions.
- The lemmas state what a run reports and what it saves.

Module `Report` (`report.dfy`) models the tree that `generate_xml_report`
builds:

- `Describes` is the closed form of a report tree: the root, the status line, the generation time and one item per change, in order.
- `GenerateXmlReport` is the loop that adds one item per change, proved to build a tree that `Describes` the changes.
- `ReadReport`, `ReadItems`, `ReadItem` and `ReadStatus` read a tree back.
- The round-trip lemmas show the tree keeps every change, in order, and that its status line gives the right count.

Inputs from the outside world are values. Each target comes with a `Probe`:
the fetch outcome (`Fetched(digest)` or `Failed(message)`) and the timestamp
an event about that target gets. The store file is `Absent`, `Undecodable` (not valid
JSON) or `Decoded(map)`. The report's generation time is a parameter.

A failed fetch drops the target's previous digest: `current_hashes` gets an
entry only after a successful hash (monitor.py:39), and that map replaces the
store file wholesale (monitor.py:78-79). `FetchErrorReported` proves the
digest is gone after a failed fetch. `RecoveryAfterErrorIsInitial` proves the
next successful fetch is therefore classified as an initial check, not as a
change.

## Model

| member | source | states |
|---|---|---|
| `Monitor.LoadHashes` | monitor.py:20-26 | a decoded store file gives its map; a missing file or one that is not valid JSON gives the empty map |
| `Monitor.Prefix8` | monitor.py:49 | the `[:8]` slice: the first eight characters, or the whole string when it is shorter |
| `Monitor.InitialDetail` | monitor.py:58 | the initial-check detail is the label "Initial Hash: ", then the digest's first eight characters (readable back at position 14), then "...", and nothing else |
| `Monitor.ChangedDetail` | monitor.py:49 | the change detail is "Old: ", the old digest's first eight characters, "... -> New: ", the new digest's first eight characters, then "..."; each truncated digest is readable back at a fixed position |
| `Monitor.Classify` | monitor.py:42-72 | the four-way classification, each case as an if-and-only-if on the outcome and the history: Error iff the fetch failed; Initial iff fetched and the name is unrecorded; Changed iff fetched and the recorded digest differs; Unchanged iff fetched and it is equal. Each case carries the digests or message it is about |
| `Monitor.EventFor` | monitor.py:42-72 | a target yields no event exactly when it is unchanged; any event carries the target's name and URL and its timestamp |
| `Monitor.Events` | monitor.py:29-72 | the list of detected changes, built target by target in configuration order; what it contains is stated by `EventsAtMostOnePerTarget`, `ReportedTargetsOrdered`, `ReportedTargetsEvents`, `EventsForName` and the four per-case lemmas |
| `Monitor.CurrentHashes` | monitor.py:28-39 | the map saved at the end of the run, built target by target; what it contains is stated by `CurrentHashesContents`, `CurrentHashesOutcomesOnly` and `UnconfiguredDigestDropped` |
| `Monitor.CheckForChanges` | monitor.py:17-81 | the loop saves exactly `CurrentHashes` of the targets and outcomes, and returns exactly the events `Events` gives for the loaded history |
| `Monitor.EventsAtMostOnePerTarget` | monitor.py:31-72 | a run emits no more events than there are targets |
| `Monitor.ReportedTargetsOrdered` | monitor.py:31-72 | the targets behind the events are strictly increasing positions in the configuration, and are exactly the targets whose outcome is not Unchanged |
| `Monitor.ReportedTargetsEvents` | monitor.py:31-72 | event k of a run is the event of the k-th reported target, and there is one event per reported target |
| `Monitor.NoEventNamed` | monitor.py:31-72 | no event names a name that is not configured |
| `Monitor.EventsForName` | monitor.py:31-72 | with unique names, the events about a configured target are exactly the one event its own outcome yields, or none |
| `Monitor.NoEventsWhenAllUnchanged` | monitor.py:60-61 | a run in which every target is unchanged reports nothing |
| `Monitor.InitialCheckReported` | monitor.py:51-59 | a successful fetch of an unrecorded name gives exactly one event, with status "Initial Check (No history recorded)" and detail `"Initial Hash: " + digest[:8] + "..."`; the new digest is saved |
| `Monitor.ContentChangeReported` | monitor.py:42-50 | a successful fetch with a different digest gives exactly one "Content Changed" event, with detail `"Old: " + old[:8] + "... -> New: " + new[:8] + "..."`; the new digest is saved |
| `Monitor.UnchangedNotReported` | monitor.py:42-61 | a successful fetch with the recorded digest gives no event; the saved digest is the recorded one |
| `Monitor.FetchErrorReported` | monitor.py:63-72 | a failed fetch gives exactly one event, with status `"Error: " + message` and detail "N/A"; the saved map has no entry for that name, whatever the history held |
| `Monitor.CurrentHashesContents` | monitor.py:28-39 | with unique names, a configured name is in the saved map iff its fetch succeeded, where it maps to the new digest; no other name is in it |
| `Monitor.CurrentHashesOutcomesOnly` | monitor.py:38-39 | the saved map depends only on the fetch outcomes, not on timestamps |
| `Monitor.UnconfiguredDigestDropped` | monitor.py:28-39 | a recorded digest for a name that is not configured never reaches the saved map |
| `Monitor.IdempotentRerun` | monitor.py:39-61 | after a run in which every fetch succeeds, a run that starts from the saved map and fetches the same digests reports nothing and saves the same map |
| `Monitor.RecoveryAfterErrorIsInitial` | monitor.py:39-59 | a target whose fetch failed is classified Initial the next time its fetch succeeds |
| `Monitor.MonitoredUrlsUnique` | monitor.py:10-13 | the compiled-in configuration has distinct names |
| `Report.Decimal` | monitor.py:90 | the count is written as a non-empty string of decimal digits with no leading zero: it starts with '0' only for zero, and is a single digit exactly for counts below ten |
| `Report.DecimalRoundTrip` | monitor.py:90 | parsing the decimal text of a count gives back the count |
| `Report.StatusText` | monitor.py:89-92 | the summary status line; `StatusTextRoundTrip` and `NoChangesExactlyWhenEmpty` state what it says |
| `Report.StatusTextRoundTrip` | monitor.py:89-92 | the status line can be read back to the exact number of changes it summarises: "No changes detected since the last run." for none, `"<n> Change(s) or Initial Check(s) Detected."` otherwise |
| `Report.NoChangesExactlyWhenEmpty` | monitor.py:89-92 | the status says "No changes detected since the last run." if and only if the list of changes is empty |
| `Report.ChangeItem` | monitor.py:97-103 | the element for one change, with five leaves Name, URL, Timestamp, Status, HashDetails; `ItemRoundTrip` states that it holds exactly the change's five fields in that order |
| `Report.ItemRoundTrip` | monitor.py:97-103 | a ChangeItem is read back into the exact change it was built from; its children are Name, URL, Timestamp, Status, HashDetails in that order |
| `Report.ReadItemsRoundTrip` | monitor.py:96-103 | a sequence of ChangeItems is read back into exactly the changes, in order |
| `Report.GenerateXmlReport` | monitor.py:85-103 | the tree built satisfies `Describes`: the root is "MonitoringReport", its first child is the status line for the number of changes, its second is the generation time, and then there is one ChangeItem per change, in list order, and nothing else |
| `Report.ReportReadBack` | monitor.py:85-103 | reading a report back gives the count in its status, its generation time and every change in order |

## Left out

- The HTTP request, `raise_for_status` and the 15-second timeout (monitor.py:34-35) are network I/O. Each target's result is a given `FetchOutcome`, and `Failed(message)` stands for any `RequestException`, with the message being its text.
- The MD5 computation (monitor.py:38) is a library call. A digest is an opaque string.
- The existence check, `json.load` and `json.dump` (monitor.py:21-24, 78-79) are file I/O. The loaded history is a `StoreFile` value and the saved map is returned. A JSON document that is not an object of strings is not modelled. The lemmas about a second run take its store file to be `Decoded` of the map the first run saved, because `json.dump` of a dictionary from strings to strings followed by `json.load` gives back the same dictionary. Other load and save errors abort the run in the source and are not modelled either: a file that cannot be opened, a file whose bytes are not valid text in the locale encoding (`UnicodeDecodeError`, which the `except json.JSONDecodeError` at monitor.py:25 does not catch), and a failed write.
- `datetime.now()` (monitor.py:47, 56, 69, 94) is the clock. Event timestamps come with each `Probe`, and the report's generation time is a parameter.
- `time.sleep(1)` (monitor.py:75) is throttling and has no effect on the result.
- Console output (monitor.py:26, 43, 61, 65, 111, 114-117) is not modelled.
- The ElementTree objects, `ET.indent`, the XML declaration, the encoding and the file write (monitor.py:106-109) are library formatting and I/O. The report is the value `Element`. In it, each `ChangeItem` is built and then added to the root. The source adds the item first and then fills in its children, which ends in the same tree.
- The `__main__` block (monitor.py:113-117) only calls the two operations one after the other.
