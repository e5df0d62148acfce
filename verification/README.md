# Verified models of the repository's core logic

This project models, in Dafny, the parts of the repository whose correctness depends on more than one
function, and proves what they promise for every input, every run or every reachable state:

- the **ETW recording protocol**: an app with asynchronous save dialogs and one elevated subprocess per launch,
  connected by two queues (`EtwProtocol`, `EtwSafety`, `EtwReports`, `EtwOverlap`, `EtwDialogs`, and the handlers in
  `EtwRecorder`);
- the **consent string codecs** of the IAB Transparency and Consent Framework v2: fixed-width integers, the vendor
  vector with its choice between bit field and ranges, the publisher restriction vector, and the base64url segment
  (`TcBits`, `VendorVector`, `VendorRuns`, `VendorCodec`, `VendorLengths`, `RestrictionRanges`, `RestrictionCodec`,
  `TcSegment`), and where their bits lie (`WireLayout`, `WireReading`);
- the **duplicate magnets**: a Markdown index that one script prints and another parses back (`Magnets`,
  `MagnetsOrder`, `MagnetsRoundTrip`), the quota-based candidate selection (`Selection`, `SelectionOrder`) and the
  filter over a language model's answers (`MatchFilter`, `MatchOrder`);
- **skill files**: the frontmatter scan (`Frontmatter`), the slugifier (`Slug`, `SlugWords`) and share links
  (`ShareLink`);
- two **sweeps** whose only state is a log of timestamped comments: the guild board (`GuildBoard`, `GuildRules`) and
  the stale draft queue (`PrCleanup`, `PrSafety`, `PrWrites`, `PrTimestamps`);
- the **agent client protocol** adapters (`AcpV1`, `AcpV2`, `AcpContent`) and session patches (`SessionPatch`);
- the **triage window** and board synchronisation (`TriageWindow`), and the **release note converter**
  (`ReleaseNotes`, `ReleaseTexts`).

`Prelude`, `Text`, `Sorting`, `Utf8` and `Base64Url` hold shared definitions. Code that updates state or loops is a
class or a method, proved equal to a specification function (or to a declarative relation); the lemmas are about
those functions. Beside laws that name such a function stand descriptions of its result in terms of the input alone,
with literal constants. `dafny verify dfyconfig.toml` checks everything.

## How to read the results

Results about runs hold for every run of the model, except where the code leaves a gap. Each gap has a theorem for the
runs that avoid it and one that says exactly when the next event opens it:

- **Starting twice.** The start handler tests only an installed session, not a launch in progress. A recording that is
  waited for always has its session as long as no start overlaps a launch that can still succeed (`ReaderHasSession`),
  and a start is safe exactly when there is no such launch (`StartSafeIff`).
- **Stale dialogs.** A dialog that returns is matched only against the state of the installed session. Every path sent
  is the session's own as long as saves find no dialog of another session open (`PathsAreOwn`), and a save is safe
  exactly when every open dialog is the session's own (`SaveSafeIff`).
- **Two guild assignees.** Only the first is measured and all are cleared. The 21 quiet days hold with one guild
  assignee at a time (`ClearedOnlyAfterQuiet`), and assigning a guild member is safe exactly when no other is assigned
  (`AssignmentSafeIff`). Fixed membership, distinct event times, and that only the bot writes check-ins are assumed.
- **Commit timestamps.** A commit counts from its own timestamp, not from its push. `QuietIff` says exactly which quiet
  time a push is guaranteed when timestamps may lie back by a given lag; draft transitions keep their 28 days always.
  That only the bot writes markers is assumed.

Promises that turned out false, each with its exact condition:

- The vendor encoder does not succeed on every vector whose maximum id fits in 16 bits: 4096 pairwise non-adjacent ids
  that reach 65533 overflow the 12-bit entry count (`EncodeSucceedsIff`, `OverflowWitness`).
- It does not always choose the shorter form (`ChosenIsShortestIff`); the loss is bounded, and the bound is reached
  (`ExcessBounded`, `ExcessReached`).
- The channel quotas are honoured for all candidates exactly from a limit of six on (`HonouredIff`).
- Printing and parsing magnets recovers everything exactly when every area is non-empty, trimmed and on one line and
  the marker "(unlabeled)" never stands beside other areas (`MagnetRoundTripIff`).
- Release notes do not always nest properly. A stray is a line that is a bullet and a fence at once outside both. The
  tags nest exactly when there is one stray in a body that ends on a bullet inside an open fence and none in any other,
  and no line after a stray ends a list alone or leaves both list and fence (`WellNestedIff`).

Where code and comments disagree the code is followed: the slugifier's comment gives "no ASCII alphanumeric" as the
reason for no result, but an input with an `&` always has one (`NoSlugIff`).

## Model

| member | source | states |
|---|---|---|
| EtwSafety.NoSecondCommand | crates/etw_tracing/etw_tracing.rs:148-200 | In every run, overlapping launches included, once a command of a session has been sent successfully no second one is attempted in that session |
| EtwSafety.ChoosingHasDialog | crates/etw_tracing/etw_tracing.rs:114-146 | In every run, while a session waits for an output path, the dialog opened for that session is still open |
| EtwSafety.SavedNoticeIsTrue | crates/etw_tracing/etw_tracing.rs:62-92 | In every run, "saved to P" is shown only when some subprocess really saved to P and P is a path it had been sent |
| EtwReports.StatusIsTrue | crates/etw_tracing/etw_tracing.rs:450-533 | In every run, a final status sent or about to be sent is Stopped(P) exactly when the save to P was carried out and Cancelled exactly when the cancel was; a subprocess that exits after starting has tried to send one |
| EtwReports.NoticeIsTrue | crates/etw_tracing/etw_tracing.rs:62-92 | In every run, reading a final line adds one notice, and it says what the recorder did: saved to exactly this path, cancelled, or neither |
| EtwReports.AttemptedIff | crates/etw_tracing/etw_tracing.rs:148-200 | A command is attempted exactly by a path chosen while the session awaits one and by a cancel before stopping |
| EtwReports.StateAfterAttempt | crates/etw_tracing/etw_tracing.rs:114-211 | A delivered command leaves the session stopping; a failed one, and a dialog given up, leave it recording |
| EtwReports.ButtonNotices | crates/etw_tracing/etw_tracing.rs:114-146 | Which notice the save and record buttons add, by the state of the session |
| EtwReports.CancelNotices | crates/etw_tracing/etw_tracing.rs:180-200 | Which notice the cancel button adds, by state and outcome |
| EtwReports.ReturnNotices | crates/etw_tracing/etw_tracing.rs:148-178 | Which notice a returning dialog and a launch add |
| EtwSafety.NeverEndsUnexpectedly | crates/etw_tracing/etw_tracing.rs:78-88 | In no run is the branch for a second `Started` status taken |
| EtwSafety.RecorderReleased | crates/etw_tracing/etw_tracing.rs:450-533 | In every run, a subprocess starts at most one recording, never releases it twice and attempts at most one final status; one that exits after starting has released it exactly once, by a command exactly when the guard has not cancelled it |
| EtwOverlap.ReaderHasSession | crates/etw_tracing/etw_tracing.rs:202-238 | In every run in which no start overlaps a launch that can still succeed, the installed session is the one whose status is read, so the recording can still be stopped |
| EtwOverlap.OverlapLosesSession | crates/etw_tracing/etw_tracing.rs:202-238 | After any run that ends while a launch can still succeed, pressing start again has a continuation in which a recording is waited for without a session |
| EtwOverlap.StartSafeIff | crates/etw_tracing/etw_tracing.rs:202-238 | After a run without overlap, a start is safe (every continuation without overlap keeps every recording controlled) exactly when no launch in progress can still succeed |
| EtwOverlap.SecondLosesSession | crates/etw_tracing/etw_tracing.rs:216-238 | With no session installed, the second recording is still running at the end of that continuation, and no session of it is installed or to come |
| EtwOverlap.StaysUncontrolled | crates/etw_tracing/etw_tracing.rs:148-238 | From such a state on, no run ever attempts to send that recording a command, so it can no longer be stopped |
| EtwDialogs.PathsAreOwn | crates/etw_tracing/etw_tracing.rs:114-178 | In every run in which saves find no dialog of another session open, every path sent was chosen in a dialog of the session it is sent in |
| EtwDialogs.SaveSafeIff | crates/etw_tracing/etw_tracing.rs:114-178 | A save in a recording session is safe (every such continuation sends only own paths) exactly when every open dialog is the session's own |
| EtwDialogs.ForeignDialogSends | crates/etw_tracing/etw_tracing.rs:148-169 | A dialog of another session that is open when a save opens its own can return first, and its path is sent |
| EtwDialogs.StaleDialogWitness | crates/etw_tracing/etw_tracing.rs:148-160 | Even without overlapping launches, a run leads to a recording session with a dialog of an earlier session open |
| EtwSafety.SubStepKeepsDiscipline | crates/etw_tracing/etw_tracing.rs:474-533 | Every step of the subprocess keeps the recorder discipline, with counts: started once, not released while waiting or acting, released once afterwards, at most one final status |
| EtwSafety.StepKeeps | crates/etw_tracing/etw_tracing.rs:94-238 | Every event of app, dialogs, launches, readers and subprocesses keeps the invariant behind the results above |
| EtwSafety.RunKeeps | crates/etw_tracing/etw_tracing.rs:94-238 | So does every run |
| EtwRecorder.EtwApp.OnSaveTrace | crates/etw_tracing/etw_tracing.rs:114-146 | The handler moves a recording session to choosing a path and opens its dialog, and otherwise only notifies |
| EtwRecorder.EtwApp.Save | crates/etw_tracing/etw_tracing.rs:148-169 | Sends Save only from the choosing state; stopping on success, back to recording on failure |
| EtwRecorder.EtwApp.Resume | crates/etw_tracing/etw_tracing.rs:171-178 | A dismissed dialog returns a choosing session to recording and changes nothing else |
| EtwRecorder.EtwApp.OnDialogReturned | crates/etw_tracing/etw_tracing.rs:125-146 | Whatever the dialog returns, the new state is that of the protocol, which never looks at the dialog's session |
| EtwRecorder.EtwApp.OnCancelTrace | crates/etw_tracing/etw_tracing.rs:180-200 | Cancels in any state but stopping; a failed send puts the session back to recording |
| EtwRecorder.EtwApp.OnRecordTrace | crates/etw_tracing/etw_tracing.rs:202-212 | Refuses only while a session is installed |
| EtwRecorder.EtwApp.OnLaunched | crates/etw_tracing/etw_tracing.rs:212-238 | A launch that reported Started installs its session and starts its status reader; any other fails |
| EtwRecorder.EtwApp.OnStatus | crates/etw_tracing/etw_tracing.rs:222-238 | The end of the status reader drops whatever session is installed and shows the status |
| EtwRecorder.RecordInner | crates/etw_tracing/etw_tracing.rs:474-533 | The guarded body is a run of the subprocess machine; what it does and sends is given by the received command and the outcomes alone |
| EtwRecorder.RecordEtwTrace | crates/etw_tracing/etw_tracing.rs:450-472 | For every outcome of its operations the subprocess exits, releases a recording that it started exactly once, and sends as its one final status what the received command and the outcomes call for |
| EtwRecorder.SubRunKeepsDiscipline | crates/etw_tracing/etw_tracing.rs:450-533 | The recorder discipline holds after any inputs to a subprocess on its own |
| TcBits.FixedIntRoundTrip | docs/theme/c15t@2.0.0-rc.3.js:1 | A fixed-width integer encodes exactly when it is non-negative and fits, and then decodes to itself |
| TcBits.ReadIntBack | docs/theme/c15t@2.0.0-rc.3.js:1 | An encoded integer followed by anything is read back, leaving the rest |
| VendorVector.Vector.Set | docs/theme/c15t@2.0.0-rc.3.js:1 | Adds a positive id, keeps the maximum, forgets the bit length; rejects others without change |
| VendorVector.Vector.Unset | docs/theme/c15t@2.0.0-rc.3.js:1 | Removes an id and restores the maximum by rescanning the set |
| VendorVector.Vector.Empty | docs/theme/c15t@2.0.0-rc.3.js:1 | Clears ids and maximum but keeps the bit length |
| VendorRuns.RunsExact | docs/theme/c15t@2.0.0-rc.3.js:1 | The collected runs cover exactly the ids of the vector |
| VendorRuns.RunsMaximal | docs/theme/c15t@2.0.0-rc.3.js:1 | A run consists of ids and cannot be extended at either end |
| VendorCodec.DecisionClosedForm | docs/theme/c15t@2.0.0-rc.3.js:1 | The running cost compared at the last id, which leaves out that id and one bit of every single entry, amounts to a closed form over all runs |
| VendorLengths.EncodedLength | docs/theme/c15t@2.0.0-rc.3.js:1 | The real length of an encoding: 17 bits, then the field or 12 bits, 17 for every run and 16 more for every range |
| VendorLengths.ChosenIsShortestIff | docs/theme/c15t@2.0.0-rc.3.js:1 | Exactly when the chosen form is no longer than the other |
| VendorLengths.ExcessBounded | docs/theme/c15t@2.0.0-rc.3.js:1 | The chosen form is longer by at most 15 bits and one for every single entry |
| VendorLengths.ExcessReached | docs/theme/c15t@2.0.0-rc.3.js:1 | That bound is reached by any n non-adjacent ids, four or more, with maximum 16 * n - 3 |
| VendorLengths.ExcessInhabited | docs/theme/c15t@2.0.0-rc.3.js:1 | For every n from four on there are such ids |
| VendorCodec.Scan | docs/theme/c15t@2.0.0-rc.3.js:1 | One scan with a running cost yields the bit field, the decision and, when chosen, all runs |
| VendorCodec.Encode | docs/theme/c15t@2.0.0-rc.3.js:1 | The scanning encoder computes the reference encoding, errors included |
| VendorCodec.EncodeSucceedsIff | docs/theme/c15t@2.0.0-rc.3.js:1 | Encoding succeeds exactly when the maximum id fits in 16 bits and the ids are not 4096 non-adjacent ids reaching 65533 |
| VendorCodec.EncodeAlwaysFits | docs/theme/c15t@2.0.0-rc.3.js:1 | Every vector with maximum id at most 65532 encodes: the entry count fits 12 bits |
| VendorCodec.OverflowWitness | docs/theme/c15t@2.0.0-rc.3.js:1 | A vector with maximum id 65533 that is rejected |
| VendorCodec.Decode | docs/theme/c15t@2.0.0-rc.3.js:1 | The cursor-based decoder builds, for every input and version, the vector or the error of the reference decoding |
| VendorCodec.EntriesRoundTrip | docs/theme/c15t@2.0.0-rc.3.js:1 | Encoded runs followed by anything decode to exactly the ids they cover |
| VendorCodec.VendorRoundTrip | docs/theme/c15t@2.0.0-rc.3.js:1 | Version-2 decoding of an encoding followed by any tail returns the same ids and the encoded length, whichever form was chosen |
| RestrictionRanges.FilledAgreesOnGvl | docs/theme/c15t@2.0.0-rc.3.js:1 | Merging across ids missing from the global vendor list adds only such ids: a superset that agrees on the whole list |
| RestrictionRanges.FilledExact | docs/theme/c15t@2.0.0-rc.3.js:1 | When every id between the vendors is listed, nothing is added |
| RestrictionRanges.NeighboursShareIff | docs/theme/c15t@2.0.0-rc.3.js:1 | Neighbouring vendors share a range exactly when no listed vendor lies strictly between them and one lies from the second to the last |
| RestrictionCodec.RestrictionVector.Add | docs/theme/c15t@2.0.0-rc.3.js:1 | Under a valid key adds the vendor exactly when there is no list or the restriction changes the vendor's declared basis: forbidding needs a basis, requiring one needs a flexible purpose declared on the other; errors exactly on invalid keys that get past the list |
| RestrictionCodec.RestrictionVector.SetGvl | docs/theme/c15t@2.0.0-rc.3.js:1 | Only the first vendor list counts; of each restriction it keeps exactly the listed vendors whose declared basis the restriction changes |
| RestrictionCodec.OkToHaveIff | docs/theme/c15t@2.0.0-rc.3.js:1 | The test for a vendor passes exactly those vendors, and besides, for a type of restriction that does not exist, vendors with any flexible purpose |
| RestrictionCodec.RestrictionVector.RestrictPurposeToLegalBasis | docs/theme/c15t@2.0.0-rc.3.js:1 | Restricts every id up to the last one in the list's own order, keeping what was there; errors without a list or with an invalid key |
| RestrictionCodec.EncodeVendorRanges | docs/theme/c15t@2.0.0-rc.3.js:1 | The one-pass range collector writes the merged ranges, first failure first, and counts them; without a vendor list it fails at a second vendor |
| RestrictionCodec.Encode | docs/theme/c15t@2.0.0-rc.3.js:1 | The restriction encoder computes the reference encoding in insertion order, with or without a vendor list |
| RestrictionCodec.WithoutListIff | docs/theme/c15t@2.0.0-rc.3.js:1 | Without a vendor list, exactly the encodable vectors with at most one vendor for each restriction are encoded, as with any list |
| RestrictionCodec.ListNotMissed | docs/theme/c15t@2.0.0-rc.3.js:1 | With a list, or with at most one vendor for each restriction, the encoding is the one the round trip is about |
| RestrictionCodec.Decode | docs/theme/c15t@2.0.0-rc.3.js:1 | The cursor-based decoder builds the restrictions, or the error, of the reference decoding |
| RestrictionCodec.EncodeOneSucceedsIff | docs/theme/c15t@2.0.0-rc.3.js:1 | One restriction encodes exactly when its purpose fits 6 bits, its range count 12 bits and its vendors 16 bits |
| RestrictionCodec.EncodeSucceedsIff | docs/theme/c15t@2.0.0-rc.3.js:1 | A restriction vector encodes exactly when there are fewer than 4096 restrictions and every field of each fits its width |
| RestrictionCodec.ReadTableVendors | docs/theme/c15t@2.0.0-rc.3.js:1 | Reading all restrictions back gives each its own vendors, filled across unlisted ids, and nothing of the others |
| RestrictionCodec.RestrictionRoundTrip | docs/theme/c15t@2.0.0-rc.3.js:1 | Decoding an encoding followed by any tail gives each restriction a superset of its vendors equal to them on the vendor list, invents none, and reports the encoded length |
| RestrictionCodec.ExactRoundTrip | docs/theme/c15t@2.0.0-rc.3.js:1 | When the vendor list allows every restricted vendor, decoding an encoding and then installing the list gives back exactly the original vendors |
| TcSegment.TextRoundTrip | docs/theme/c15t@2.0.0-rc.3.js:1 | Text written for a bit string reads back as the bits and fewer than 24 zeros |
| TcSegment.WriteText | docs/theme/c15t@2.0.0-rc.3.js:1 | The digit-by-digit writer computes the padded base64url text |
| TcSegment.DisclosedRoundTrip | docs/theme/c15t@2.0.0-rc.3.js:1 | A disclosed-vendors segment survives encoding to text and back, for every encodable vector |
| WireLayout.IntegerBits | docs/theme/c15t@2.0.0-rc.3.js:1 | A fixed-width integer is written in binary, most significant bit first |
| WireLayout.VendorLayout | docs/theme/c15t@2.0.0-rc.3.js:1 | The bits of every encoded vendor vector: 16 for the maximum, the form, then one for every id, or 12 for the number of runs and 17 or 33 for each; no range form up to 45 ids |
| WireLayout.RestrictionsLayout | docs/theme/c15t@2.0.0-rc.3.js:1 | The bits of encoded restrictions: 12 for their number, and 6, 2, 12 and the ranges for each |
| WireLayout.DisclosedLayout | docs/theme/c15t@2.0.0-rc.3.js:1 | A disclosed-vendors segment begins with segment type 1 in three bits |
| WireLayout.SextetAt | docs/theme/c15t@2.0.0-rc.3.js:1 | Each digit of the text is the base64url digit of its six bits |
| WireLayout.Alphabet | docs/theme/c15t@2.0.0-rc.3.js:1 | The digits, in the order of their values, are those of section 5 of RFC 4648 |
| WireLayout.TextGroups | docs/theme/c15t@2.0.0-rc.3.js:1 | The text consists of whole groups of four digits and is no longer than needed |
| WireReading.RangeFormReads | docs/theme/c15t@2.0.0-rc.3.js:1 | Any list of entries, overlapping, empty or in any order, is read as the union of its entries whatever the maximum says; in version 1 the flag in front must be clear; an entry that begins with zero is refused |
| WireReading.FieldReads | docs/theme/c15t@2.0.0-rc.3.js:1 | Any complete bit field is read bit by bit in either version, and an incomplete one is refused |
| MagnetsOrder.BuildMarkdownBody | script/github-find-top-duplicated-bugs.py:148-178 | The printed body lists each area of any issue once, by falling total and then as first met, with the issues of the area by falling count, and prints each entry in the stated format |
| Magnets.ParseDuplicateMagnets | script/github-check-new-issue-for-duplicates.py:487-524 | The line loop computes the specified parse of any body |
| MagnetsRoundTrip.EntryRoundTrip | script/github-check-new-issue-for-duplicates.py:499-505 | An entry line, with its padded count and URL, parses back to its count and number |
| MagnetsRoundTrip.MagnetRoundTrip | script/github-find-top-duplicated-bugs.py:148-178 | Parsing the printed index gives one magnet per issue, by falling count, each with its count and, as a multiset, its areas without the "(unlabeled)" marker |
| MagnetsRoundTrip.MagnetRoundTripIff | script/github-check-new-issue-for-duplicates.py:487-524 | For distinct issues with areas, number, count and all areas are recovered exactly when every area is non-empty, trimmed and on one line and "(unlabeled)" never stands beside other areas |
| MagnetsRoundTrip.ParseBodyGood | script/github-check-new-issue-for-duplicates.py:487-524 | Whatever text is parsed, every area that comes out is non-empty, trimmed, on one line and not "(unlabeled)" |
| MagnetsRoundTrip.OtherLinesIgnored | script/github-check-new-issue-for-duplicates.py:487-524 | Lines in front of the first header, without a leading dash or without an issue path are passed over |
| MagnetsRoundTrip.ParenthesesStripped | script/github-check-new-issue-for-duplicates.py:499-505 | An issue number may be followed by the parenthesis of a link |
| Text.DecimalRoundTrip | script/github-find-top-duplicated-bugs.py:173-175 | A decimal numeral parses back to its number |
| Text.DecimalDigits | script/github-find-top-duplicated-bugs.py:173-175 | A numeral is in base ten, most significant digit first |
| Text.SignedNumeral | script/github-check-new-issue-for-duplicates.py:499-505 | A numeral may have a sign |
| Text.StripIs | script/github-check-new-issue-for-duplicates.py:487-498 | Stripping removes the spaces at both ends and nothing else |
| Text.FirstTokenIs | script/github-check-new-issue-for-duplicates.py:499-505 | The first token is the first longest stretch without spaces |
| Sorting.SortDescends | script/github-find-top-duplicated-bugs.py:166-167 | The sort orders by falling key |
| Sorting.SortStable | script/github-find-top-duplicated-bugs.py:166-167 | Sorting keeps the order of elements with equal keys |
| Sorting.SortRanks | script/github-find-top-duplicated-bugs.py:166 | Items in rising order of rank are sorted by falling key and, for equal keys, by rank |
| Selection.SelectSearchCandidates | script/github-check-new-issue-for-duplicates.py:613-638 | The loops over channels and candidates compute the specified selection |
| Selection.SelectionSize | script/github-check-new-issue-for-duplicates.py:628-638 | For any candidates and limit: no key twice, only candidates, as many as the limit and the distinct keys allow |
| Selection.QuotasFitIff | script/github-check-new-issue-for-duplicates.py:617-623 | The five quotas sum to at most the limit exactly from a limit of six on |
| Selection.ReservedPlaces | script/github-check-new-issue-for-duplicates.py:613-638 | From six on, the keys of every channel's first quota of matches are selected, whatever the candidates |
| Selection.ReservedSelected | script/github-check-new-issue-for-duplicates.py:613-638 | With distinct keys, those candidates themselves are selected |
| Selection.HonouredIff | script/github-check-new-issue-for-duplicates.py:613-638 | The reserved places are honoured for all candidate lists exactly from a limit of six on |
| SelectionOrder.SelectIs | script/github-check-new-issue-for-duplicates.py:613-638 | The selection is one list, the first finds of each channel in the stated shares and then all candidates, without repeated keys, cut at the limit |
| MatchFilter.ResolveMatches | script/github-check-new-issue-for-duplicates.py:1042-1059 | The loop keeps, in order, the first acceptable match for each key |
| MatchFilter.ResolveSound | script/github-check-new-issue-for-duplicates.py:1042-1059 | No key twice; each match was proposed, names an offered candidate in the expected state, and has a root cause where one is needed |
| MatchFilter.ResolveComplete | script/github-check-new-issue-for-duplicates.py:1042-1059 | A key gets through exactly when some proposed match for it is acceptable |
| MatchFilter.CritiqueProposedMatches | script/github-check-new-issue-for-duplicates.py:1129-1189 | The loop over verdicts splits the proposals as specified |
| MatchFilter.FinalDisjoint | script/github-check-new-issue-for-duplicates.py:1042-1189 | For arbitrary answers and verdicts the final likely and possible lists are duplicate-free and disjoint |
| MatchFilter.NeverPromoted | script/github-check-new-issue-for-duplicates.py:1172-1186 | A final likely match is exactly a likely proposal kept; a possible one a possible proposal kept or a likely one downgraded |
| MatchFilter.FinalSound | script/github-check-new-issue-for-duplicates.py:1042-1189 | Every final match was proposed, names an offered open candidate, and has a root cause when it is an issue |
| MatchOrder.ResolvePicks | script/github-check-new-issue-for-duplicates.py:1042-1059 | The resolved matches are, in order, exactly the first proposed match of each key that names a candidate in the expected state, with a root cause for an open issue |
| MatchOrder.AnalyzeIff | script/github-check-new-issue-for-duplicates.py:1042-1075 | Which keys each of the three lists has: likely and possible open ones, none in both, and related closed ones |
| MatchOrder.KeptPicks | script/github-check-new-issue-for-duplicates.py:1172-1186 | Each final list has, in order, exactly the proposals that were kept there or downgraded into it |
| Frontmatter.FindCandidates | crates/agent_skills/agent_skills.rs:351-387 | The byte loop records the candidates of the specification |
| Frontmatter.CandidatesExact | crates/agent_skills/agent_skills.rs:351-387 | The candidates are, in strictly increasing order, exactly the ends of lines after the first that equal `---` ended by LF, CRLF or the end of file |
| Frontmatter.CandidateIsBoundary | crates/agent_skills/agent_skills.rs:397-402 | Every candidate offset falls between two characters, so slicing the text there cannot panic |
| Frontmatter.ExtractFrontmatter | crates/agent_skills/agent_skills.rs:344-414 | The loop over candidates computes the specified extraction for any YAML parser |
| Frontmatter.ExtractOk | crates/agent_skills/agent_skills.rs:396-410 | Success cuts the trimmed content exactly at the first closing line whose prefix the YAML parser accepts, all earlier ones refused |
| Frontmatter.ExtractUndelimited | crates/agent_skills/agent_skills.rs:347-349 | The two delimiter errors are reported exactly when there is no opener, or no closing line |
| Frontmatter.ExtractInvalid | crates/agent_skills/agent_skills.rs:396-413 | Otherwise it fails exactly when the YAML parser refuses the prefix at every closing line |
| Frontmatter.DashesCrAtEofIsNoCloser | crates/agent_skills/agent_skills.rs:371-383 | A carriage return at the very end of the file does not close the frontmatter |
| Frontmatter.StrictIsLenientWithoutWarnings | crates/agent_skills/agent_skills.rs:290-342 | The strict parser accepts exactly what the loader accepts without warnings, with the same result; they fail alike except on a description that is only too long |
| Frontmatter.FileIsCut | crates/agent_skills/agent_skills.rs:344-414 | An extracted file consists of white space, frontmatter that begins with three dashes and ends with a closing line, and the body |
| Frontmatter.AsciiSpace | crates/agent_skills/agent_skills.rs:345 | The ASCII characters that are trimmed as white space |
| Frontmatter.DelimiterBytes | crates/agent_skills/agent_skills.rs:351-387 | The bytes that the scan compares are the encodings of dashes, line feed and carriage return |
| Frontmatter.StrictIff | crates/agent_skills/agent_skills.rs:290-342 | The strict parser accepts exactly files up to 102400 bytes with frontmatter, a valid name and a description that is not blank and has at most 1024 characters |
| Slug.SlugifySkillName | crates/agent_skills/agent_skills.rs:447-487 | The one-pass slugifier equals the seven documented steps applied one after the other |
| Slug.SlugIsValid | crates/agent_skills/agent_skills.rs:505-524 | Every slug passes `validate_name` and has no double hyphen |
| Slug.NoSlugIff | crates/agent_skills/agent_skills.rs:425-427 | There is no slug exactly when the input has no ASCII alphanumeric and no `&` |
| Slug.FixedPointIff | crates/agent_skills/agent_skills.rs:447-524 | The slugifier leaves a text unchanged exactly when it is a valid name without double hyphens |
| Slug.Idempotent | crates/agent_skills/agent_skills.rs:447-487 | Slugifying twice is the same as once |
| SlugWords.SlugIsWords | crates/agent_skills/agent_skills.rs:447-487 | Every slug consists of the words of the text, in small letters by a table of the alphabet, joined by single hyphens and cut to 64 characters |
| SlugWords.CaseDoesNotMatter | crates/agent_skills/agent_skills.rs:454-456 | Texts that differ only in the case of ASCII letters have the same slug |
| SlugWords.LettersKept | crates/agent_skills/agent_skills.rs:454-466 | Without `&`, up to the cut, the slug has the letters and digits of the text, in order |
| SlugWords.AndIsWord | crates/agent_skills/agent_skills.rs:448-451 | In any text, `&` reads as the word "and" |
| SlugWords.ValidNameIff | crates/agent_skills/agent_skills.rs:505-524 | A name is valid exactly with 1 to 64 small letters, digits and hyphens and no hyphen at either end |
| SlugWords.NameErrorIff | crates/agent_skills/agent_skills.rs:505-524 | Which of the four errors is reported for a refused name |
| ShareLink.Decode64Exact | crates/agent_skills/agent_skills.rs:819-820 | Strict unpadded base64url decoding accepts exactly the encodings and inverts them (sections 3.2 and 5 of RFC 4648) |
| ShareLink.SextetsValue | crates/agent_skills/agent_skills.rs:819-820 | Four digits carry the 24 bits of three bytes, in order |
| ShareLink.PayloadUnchanged | crates/agent_skills/agent_skills.rs:822-823 | Form-encoding and form-decoding leave a payload unchanged, since it uses base64url characters only |
| ShareLink.EncodedDigits | crates/agent_skills/agent_skills.rs:819-820 | The payload uses only base64url characters |
| ShareLink.ShareRoundTrip | crates/agent_skills/agent_skills.rs:817-852 | Under both schemes, decoding an encoded link returns the content when its UTF-8 size is within the limit, and the size error otherwise |
| ShareLink.DecodeLinkExact | crates/agent_skills/agent_skills.rs:829-852 | A link decodes to a content exactly when it parses, has an accepted scheme and host, carries the canonical payload of that content as its first data parameter, and the size is within the limit |
| ShareLink.LinksDistinguish | crates/agent_skills/agent_skills.rs:817-825 | Different contents never share a link |
| ShareLink.FindParamAt | crates/agent_skills/agent_skills.rs:839-842 | The parameter is the first piece of the query with that name, wherever it stands |
| ShareLink.NoParamIff | crates/agent_skills/agent_skills.rs:839-842 | There is no parameter exactly when no piece of the query has the name |
| ShareLink.FormRoundTrip | crates/agent_skills/agent_skills.rs:817-825 | Query decoding undoes query encoding on any bytes |
| ShareLink.NotBase64Iff | crates/agent_skills/agent_skills.rs:843-845 | Data is refused as no base64 exactly when it encodes no bytes |
| ShareLink.BytesErrorIff | crates/agent_skills/agent_skills.rs:846-851 | Decoded bytes are refused exactly when there are more than 102400 or when they encode no text |
| ShareLink.LinkErrorIff | crates/agent_skills/agent_skills.rs:831-842 | Which error is reported for a text that is no link, a link of another kind, and a link without data |
| Utf8.DecodeExact | crates/agent_skills/agent_skills.rs:850 | Strict UTF-8 decoding accepts exactly the encodings of texts |
| Utf8.EncodeExamples | crates/agent_skills/agent_skills.rs:850 | The encodings of one character of each length, as given in section 7 of RFC 3629 |
| Utf8.AfterAscii | crates/agent_skills/agent_skills.rs:397-402 | An offset just behind an ASCII byte is a character boundary |
| GuildBoard.ScanComments | script/github-guild-board.py:620-634 | One pass over the comments finds both the latest check-in and the latest activity of the assignee |
| GuildBoard.RunStale | script/github-guild-board.py:591-677 | The sweep decides each item as specified, in order, up to the first missing assignment event, and counts its check-ins and clears |
| GuildRules.SweepIff | script/github-guild-board.py:591-677 | On a watched item the first guild assignee is nudged exactly after 14 quiet days without an unanswered check-in; all guild assignees are cleared exactly when there is an unanswered one and all are 7 days old |
| GuildRules.OthersSkipped | script/github-guild-board.py:594-614 | Nothing happens to items that are archived, no issues, not in progress, on hold, with an open pull request or without a guild assignee |
| GuildRules.ClearingRemoves | script/github-guild-board.py:656 | A clearing removes the guild members, and nobody else |
| GuildBoard.MeasuredActivity | script/github-guild-board.py:172-186 | The measured time is the maximum over the person's assignments and comments |
| GuildBoard.RunBase | script/github-guild-board.py:591-677 | Every run, whoever is assigned, keeps the invariant behind the check-in result and the one-week result |
| GuildBoard.RunKeeps | script/github-guild-board.py:591-677 | Every run with one guild assignee at a time keeps the invariant behind `ClearedOnlyAfterQuiet` |
| GuildBoard.ClearedOnlyAfterQuiet | script/github-guild-board.py:591-677 | In every run with one guild assignee at a time, an assignment is cleared only 21 days or more after the assignee's last activity |
| GuildBoard.CheckInsFollowActivity | script/github-guild-board.py:636-656 | In every run, whoever is assigned, between two check-ins lies activity of the person nudged, 14 days or more before the second |
| GuildBoard.FirstClearedAfterWeek | script/github-guild-board.py:636-675 | In every run, whoever is assigned, the first of those cleared had been inactive for 7 days |
| GuildBoard.SilenceIsCleared | script/github-guild-board.py:636-675 | Silence is acted on: a sweep after 14 quiet days and one 7 days after its check-in clear the assignee |
| GuildBoard.SecondAssigneeUnprotected | script/github-guild-board.py:618-657 | After any run that ends with two guild assignees on an issue in progress, a continuation clears one of them less than 21 days after their last activity |
| GuildBoard.AssignmentSafeIff | script/github-guild-board.py:591-677 | After a run with one guild assignee at a time, assigning a guild member is safe (nobody is then cleared early) exactly when no other guild member is assigned |
| PrCleanup.LatestMarkerCommentAt | script/github-pr-cleanup.py:209-219 | The loop finds the latest comment with the marker that is not older than the bound |
| PrCleanup.DraftActivityIff | script/github-pr-cleanup.py:174-206 | A draft's activity is the later of its last commit and its beginning: the opening, or the first of the latest transitions when that was into draft |
| PrCleanup.CommitTime | script/github-pr-cleanup.py:174-180 | The last commit counts from its push where that is known, otherwise from its own date |
| PrCleanup.FindStaleDrafts | script/github-pr-cleanup.py:222-228 | In order, exactly the drafts without activity in the last 21 days, each with its last activity |
| PrCleanup.WarnOrClose | script/github-pr-cleanup.py:246-265 | The writes due by the marker comments since the last activity: a closing directly after its close comment, or alone when that is there; nothing in the week after a warning; otherwise a warning. A dry run writes nothing; the counts are those of the writes |
| PrWrites.Run | script/github-pr-cleanup.py:222-281 | For every pull request of a sweep, replaying its writes on its history is the step of the runs, all but a last closing the step that crashes, and less leaves it unchanged |
| PrSafety.LastAreLatest | script/github-pr-cleanup.py:199-206 | The last draft transition and the last push are the greatest of their kind |
| PrSafety.MeasuredActivity | script/github-pr-cleanup.py:183-206 | What the query shows, at most twenty transitions and one commit, is enough to measure the last activity of the whole history |
| PrSafety.RunKeeps | script/github-pr-cleanup.py:231-265 | Every run of pushes with any timestamps, transitions, comments, closings, reopenings and sweeps, crashing ones included, keeps the invariant |
| PrTimestamps.ClosedOnlyAfterQuiet | script/github-pr-cleanup.py:199-265 | In every run with commits stamped no earlier than their push, the sweep closes only 28 days or more after all activity |
| PrSafety.ClosedAfterDraftQuiet | script/github-pr-cleanup.py:183-265 | In every run, with any timestamps, the sweep closes only 28 days or more after opening and every draft transition |
| PrTimestamps.ClosedAfterPushQuiet | script/github-pr-cleanup.py:174-265 | With commits stamped at most a lag before their push, it closes only 21 days less the lag after every push, and a week later when no commit straddles a marker comment |
| PrTimestamps.QuietIff | script/github-pr-cleanup.py:174-265 | Exactly which quiet time is guaranteed after a push for a given lag: 28 days without any, otherwise 21 days less the lag, at least a second |
| PrTimestamps.UnstraddledQuietIff | script/github-pr-cleanup.py:174-265 | The same for runs in which no commit is stamped before a marker comment and pushed after it: a week more |
| PrTimestamps.OneClosePerPeriod | script/github-pr-cleanup.py:231-243 | In those runs two close comments are separated by measured activity 28 days before the later one |
| PrSafety.OneCommentPerPeriod | script/github-pr-cleanup.py:231-243 | In every run, with any timestamps, two warnings, or two close comments, are separated by measured activity 21 days before the later one |
| PrSafety.RetryClosesSilently | script/github-pr-cleanup.py:232-234 | After a crash between close comment and closing, and any quiet events since, the next sweep closes without commenting |
| PrSafety.SilenceIsClosed | script/github-pr-cleanup.py:231-265 | Silence is acted on: a sweep after 21 quiet days and one a week after its warning close the draft, with exactly those two comments |
| AcpContent.CanConvertIff | crates/acp_thread/src/content.rs:146-175 | The preflight check holds exactly when the conversion succeeds |
| AcpContent.ValidPromptIff | crates/acp_thread/src/content.rs:4-21 | Prompt validation succeeds exactly when the prompt converts, block by block in order, with session and metadata kept |
| AcpContent.FromThenTo | crates/acp_thread/src/content.rs:23-76 | Exactly the supported version 1 blocks convert to version 2, and converting back is the identity |
| AcpContent.ToThenFrom | crates/acp_thread/src/content.rs:78-144 | Converting to version 1 and back only turns an empty icon list into absence |
| AcpContent.SameInV1Iff | crates/acp_thread/src/content.rs:78-144 | Convertible blocks have the same version 1 form exactly when they differ at most in an empty icon list |
| AcpContent.ConversionKeeps | crates/acp_thread/src/content.rs:23-144 | In either direction a converted block is of the same kind and says the same field by field |
| SessionPatch.AgentSessionInfo.ApplyUpdate | crates/acp_thread/src/connection.rs:413-443 | Each field is cleared by null, replaced by a value and otherwise kept, as is the timestamp when its text does not parse; a change is reported exactly when a field differs |
| SessionPatch.ApplyAllMerges | crates/acp_thread/src/connection.rs:413-443 | Any sequence of updates has the effect of one merged update, invalid timestamps counting as undefined |
| SessionPatch.Idempotent | crates/acp_thread/src/connection.rs:413-443 | Applying an update again changes nothing |
| SessionPatch.NoEffectIff | crates/acp_thread/src/connection.rs:413-443 | An update has no effect on any state exactly when nothing but an invalid timestamp is defined |
| SessionPatch.V1KeepsMeta | crates/acp_thread/src/connection.rs:446-454 | Converted version 1 updates never clear metadata: it is the last that any of them carried, or unchanged |
| SessionPatch.V1Follows | crates/acp_thread/src/connection.rs:446-454 | A converted version 1 update sets and clears title and timestamp as before and only ever sets metadata |
| TriageWindow.WindowMonotone | script/github-triage-queue-board.py:87-100 | The window is never empty and neither end ever moves back |
| TriageWindow.FridaysPartition | script/github-triage-queue-board.py:87-100 | The Friday windows partition all calendar days |
| TriageWindow.EligibleInOneWeek | script/github-triage-queue-board.py:87-100 | A creation day is eligible in exactly one week |
| TriageWindow.EndMeansFullBusinessDay | script/github-triage-queue-board.py:97-99 | On a business day, a creation day is not behind the window exactly when a full business day lies strictly between, a weekend creation counting as the next Monday |
| TriageWindow.Board.SyncProject | script/github-triage-queue-board.py:182-201 | The board becomes the kept items followed by the missing issues, still with distinct identifiers; a dry run changes nothing |
| TriageWindow.SyncedIssues | script/github-triage-queue-board.py:182-201 | Afterwards the issues on the board are exactly the eligible ones; drafts, pull requests and staying issues keep their items, and new items are missing eligible issues |
| TriageWindow.SyncedTwice | script/github-triage-queue-board.py:182-201 | Synchronising again changes nothing |
| ReleaseNotes.ConvertBody | script/flatpak/convert-release-notes.py:18-54 | The line loop writes the text of the specified tags |
| ReleaseTexts.TextsKept | script/flatpak/convert-release-notes.py:24-49 | Every line that the cleaning keeps is said once, in order: a bullet as an item, a line of a fence as code, any other as a paragraph |
| ReleaseTexts.TextDepth | script/flatpak/convert-release-notes.py:34-51 | The text of a line stands in one list for a bullet and one for a fence, less the strays so far |
| ReleaseNotes.DepthAfter | script/flatpak/convert-release-notes.py:18-54 | After every line the open lists are one for the bullet list plus one for the fence, less the stray lines, those that are bullet and fence at once outside both |
| ReleaseNotes.BalancedIff | script/flatpak/convert-release-notes.py:52-53 | The final depth: one for a body ending on a bullet in an open fence, less the stray lines |
| ReleaseNotes.WellNestedIff | script/flatpak/convert-release-notes.py:18-54 | For every body, the tags nest properly exactly when the stray lines are one for a body ending on a bullet inside an open fence and none otherwise, and no line after a stray closes too much |
| ReleaseNotes.NeverBelowIff | script/flatpak/convert-release-notes.py:34-51 | The depth never falls below zero exactly when no line after a stray ends a list alone or leaves list and fence |
| ReleaseNotes.WithoutStrays | script/flatpak/convert-release-notes.py:52-53 | A body without strays never closes too much, and leaves one list open exactly when it ends on a bullet inside an open fence |
| ReleaseNotes.StrayWitness | script/flatpak/convert-release-notes.py:34-37 | One line that is bullet and fence at once nests properly; with a closing fence after it, one tag too many is closed |

## Left out

- HTTP, GraphQL, pagination, retries (a repeated POST after a lost answer can duplicate a comment) and the language-model
  calls: results are parameters, writes are returned or logged.
- The recorder API, process launch and socket mechanics: only the success or failure of each operation is kept.
- YAML, URL and timestamp parsers and percent-decoded text that is not UTF-8: parameters. `Faithful` states what is
  assumed of the URL library, and only for the links this code writes.
- What overlapping launches share: one socket path, so that a later launch unlinks the earlier socket, and one named
  recorder, whose leftover cancel ends the earlier recording. Each launch has its own queues and recorder in the model.
- EtwSafety.RecorderReleased: counts a subprocess's own calls on its own recorder, so for overlapping launches it says nothing about that leftover cancel.
- EtwOverlap.ReaderHasSession: proved for runs without overlapping launches, which the start handler does not rule out.
- EtwDialogs.PathsAreOwn: proved for runs in which no save finds a dialog of another session open, which nothing rules out.
- Event interleavings inside one ETW handler: handlers are atomic steps.
- The timeout of the subprocess connection and the heap-profile variants of a recording.
- VendorCodec.VendorRoundTrip: version 2 only, because the decoder consumes one bit more for version 1, which the encoder never writes.
- The core, publisher and allowed-vendors segments of the consent string, its dates and language codes: further fixed fields around the same codecs.
- Non-ASCII digits in Python's `int()`, and the tracking issue's text around the index.
- MagnetsRoundTrip.MagnetRoundTrip: areas come back as a multiset, because their order depends on the order of the printed sections.
- The ranking before the selection, and missing `matched_searches`.
- Sweeps read and act on an item in one step: activity between reading and writing is not seen (both scripts have that window).
- GuildBoard.ClearedOnlyAfterQuiet: proved for one guild assignee at a time, since only the first is measured.
- Guild board commands other than the stale sweep, and the status change and Slack message after a clearing.
- Cleaning of release note lines by regular expressions: a parameter that may drop a line.
- Time zones and seconds of the triage window; creation is taken as a calendar day in the board's time zone. The cap of ten result pages is not modelled.
- Fields of protocol messages unknown today are one placeholder variant each.
- File-system traversal and loading of skills, and built-in skills.
