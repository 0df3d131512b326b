# MAITRI pass verification: a Dafny model of the scan, suspend and dashboard logic

This project models the three pieces of decision logic behind the MAITRI event-entry verifier.
The database, the network and the clock are turned into plain data.

- **Report-and-suspend portal** (`verifyAndSuspend` in `ComplaintScanner.jsx`).
  - A typed or scanned code is trimmed and looked up in seven registration partitions, in the fixed `TABLES` order.
  - Each partition has its own key column, and the match ignores case. The first partition that answers wins.
  - A lookup error that names `mobile_number` earns one retry that projects `phone`. Any other error skips the partition.
  - A fresh match has `is_suspended` set on the matching rows. The scan ends as 'Pass Not Found', already suspended, update failed (the portal fails closed) or suspended.
  - Only a suspension emits a sync event. The event carries the spreadsheet payload with its `||` fallbacks.
- **Entry gate** (`onScanSuccess` in `Scanner.jsx`).
  - A decoded QR text is trimmed and looked up by `pin_number` in `maitri_registrations`.
  - A registered pass has `attended_fest` set.
  - A lookup error or an unknown pin denies entry and writes nothing.
  - A failed attendance write still grants entry, with a warning: the gate fails open.
- **Observer dashboard** (`fetchDashboardData` in `ObserverDashboard.jsx`).
  - Each partition's attended rows are folded into shared counters (total, VIP or student, today) and a log of dated entries. The fold runs in whatever order the fetches complete.
  - The log is sorted newest first and cut to 50 entries.
  - A partition whose fetch fails is skipped.

Modules:

- `Options`: a nullable value.
- `Counting`: a helper for counting positions one at a time, used to state the dashboard's counts with multiplicity.
- `Text`: JavaScript `trim`, ASCII case folding for a wildcard-free `ILIKE`, `includes`, and the `_`-to-space upper-cased fallback label.
- `Store`: `Record`, `Db` (table name to rows), the first-match point read and the match-all flag update.
- `Partitions`: `TABLES`, the key-column rule, `tableToBlock` and the VIP rule.
- `Suspension`, `CheckIn` and `Dashboard`: the three screens.

Modelling choices:

- The database is a map from table name to rows. A table the map does not hold reads as empty.
- A point read (`.ilike(...).maybeSingle()`) returns the first row whose key matches.
- An update (`.update(...).ilike(...)`) sets the flag on every matching row.
- What the database does to a call is a parameter:
  - `Suspension.Faults` gives each partition's first-lookup error message and the partitions whose `phone` retry finds nothing;
  - `CheckIn.LookupReply` is how the gate's lookup ends;
  - a boolean says that an update call fails;
  - `failed` is the set of partitions whose dashboard fetch fails.
- The dashboard's partition order is the fetch completion order, any rearrangement of `TABLES`.
- Timestamps are integers, and local midnight is the parameter `todayStart`.

Behaviour of the code that the model keeps, and that a reader might not expect:

- The portal's empty check looks at the raw input, before trimming. A code of only white space passes it, is trimmed to "", and is probed like any other code, as the empty string: probing stops at the first partition holding a row whose key is empty.
- The portal never reports a lookup failure as such. A partition whose lookup errors is skipped, so when every lookup fails the result is 'Pass Not Found' (`Suspension.FailedLookupsReadAsNotFound`).
- The gate writes `attended_fest` only. It never sets `entered_at`, and it never looks at `is_suspended`.
- The gate works on `maitri_registrations`, which is not one of the dashboard's partitions. So no check-in made at the gate ever changes the dashboard (`Dashboard.CheckInsInvisible`).
- The dashboard does not read `is_suspended`, so suspended passes stay counted (`Dashboard.SuspensionsInvisible`).

## Model

| member | source | states |
|---|---|---|
| `Text.TrimStartSpec` | src/components/ComplaintScanner.jsx:77 | leading `trim`: keeps a suffix of the input, drops only white space, and the kept part starts on a non-white character |
| `Text.TrimEndSpec` | src/components/ComplaintScanner.jsx:77 | trailing `trim`: keeps a prefix, drops only white space, and the kept part ends on a non-white character |
| `Text.TrimSpec` | src/components/Scanner.jsx:40 | the trimmed code is no longer than the input, starts and ends on non-white characters, and is empty exactly when the input was all white space |
| `Text.TrimIgnoresSurroundingSpace` | src/components/ComplaintScanner.jsx:77 | white space added around a code never changes what it trims to |
| `Text.FoldCaseSpec` | src/components/ComplaintScanner.jsx:91 | the case folding `ILIKE` compares by keeps the length, leaves no upper-case letter, moves no other character, and sends each character to one with the same upper case, so different letters stay different |
| `Text.UpperMatchesOriginal` | src/components/ComplaintScanner.jsx:260 | an upper-cased code matches the same keys as the code itself |
| `Text.ContainsSpec` | src/components/ComplaintScanner.jsx:94 | `includes` holds exactly when the part occurs at some index of the message |
| `Store.FindIndex` | src/components/ComplaintScanner.jsx:88-92 | a point read lands on a row whose key matches case-insensitively, with no matching row before it; it finds nothing exactly when no row matches |
| `Store.Find` | src/components/Scanner.jsx:46-50 | the row read is a stored row whose key matches; nothing is read exactly when no stored row matches |
| `Store.UpdateSetsOnlyFlag` | src/components/ComplaintScanner.jsx:136-139 | an update keeps every row in place, flags each matching row, leaves each other row untouched, and changes no field besides the flag |
| `Store.UpdateKeepsLookups` | src/components/ComplaintScanner.jsx:136-139 | after an update, every point read (on any code) lands on the same position as before |
| `Store.UpdateIdempotent` | src/components/Scanner.jsx:58-63 | issuing the same update twice leaves the rows as one update does |
| `Store.UpdateMonotone` | src/components/Scanner.jsx:58-63 | an update never clears a flag that was already set |
| `Store.FindIgnoresCase` | src/components/ComplaintScanner.jsx:91 | codes with the same case folding read the same row |
| `Store.UpdateIgnoresCase` | src/components/ComplaintScanner.jsx:139 | codes with the same case folding update the same rows |
| `Partitions.KeyColumnRule` | src/components/ComplaintScanner.jsx:84-86 | the key column is `vip_code` exactly for the VIP partition, `fac_code` exactly for the faculty partition, and `pin_number` for every other |
| `Partitions.KeyColumnsInProbeOrder` | src/components/ComplaintScanner.jsx:6-14 | over the probe order, the first five partitions use `pin_number`, then `vip_code`, then `fac_code` |
| `Partitions.BlockNamesIdentifyPartitions` | src/components/ComplaintScanner.jsx:123-131 | every probed partition has its own fixed label, the seven partitions are distinct, and no two share a label |
| `Partitions.FallbackLabel` | src/components/ComplaintScanner.jsx:133 | an unknown partition is labelled by its own name, with each `_` turned into a space, upper-cased, and of the same length |
| `Suspension.ProbePartition` | src/components/ComplaintScanner.jsx:88-114 | one partition yields a row exactly when some lookup on it returns data and a row matches; it issues one query, or two (the second projecting `phone`) when the error names `mobile_number`; a retry hit reports `phone` as `mobile_number` |
| `Suspension.Resolve` | src/components/ComplaintScanner.jsx:83-115 | resolution returns the first partition in probe order that yields the code's row, with the row it yields; every partition probed before it yielded nothing; no hit means no partition could answer and all seven were probed |
| `Suspension.EarlierPartitionWins` | src/components/ComplaintScanner.jsx:83-115 | when the partition at position i would answer, resolution hits and stops no later than position i |
| `Suspension.ResolveIgnoresCase` | src/components/ComplaintScanner.jsx:91 | resolution reads the code only through its case folding |
| `Suspension.ResolveFollowsVisibility` | src/components/ComplaintScanner.jsx:83-115 | two databases whose partitions answer the code alike resolve it to the same partition after the same number of probes |
| `Suspension.ResolveAfterOwnUpdate` | src/components/ComplaintScanner.jsx:136-139 | after the matched partition is updated on the code, the code resolves to the same partition and position, now with the flag set |
| `Suspension.MessagesDistinguishOutcomes` | src/components/ComplaintScanner.jsx:117-156 | the four outcomes show four different messages, so an invalid pass never reads like a failed update; a failed lookup is not distinguished and reads as 'Pass Not Found' |
| `Suspension.PayloadFallbacks` | src/components/ComplaintScanner.jsx:36-45 | no fallback field (`id`, `pin_number`, `mobile_number`, `block`) is empty: `id` falls back to the pin or VIP code, the code to 'N/A' (always so for faculty codes), the contact to `phone` when `mobile_number` is empty and to 'N/A' when both are, and an empty block label to 'UNKNOWN'; the name and the reason are passed through unchanged |
| `Suspension.PhoneFallbackUnused` | src/components/ComplaintScanner.jsx:41 | for a real match the `phone` fallback never supplies the contact: when the projected `mobile_number` is empty, so is `phone`, because a `mobile_number` lookup projects no `phone` and the retry copies `phone` into `mobile_number` |
| `Suspension.VerifyAndSuspend` | src/components/ComplaintScanner.jsx:62-157 | empty input does nothing; other input probes a non-empty prefix of `TABLES`; only a suspension writes or emits, and it emits exactly one 'Observer Report' event, never after a failed update |
| `Suspension.Settle` | src/components/ComplaintScanner.jsx:117-157 | after resolution, only a fresh (not yet suspended) match with a working update writes and emits one 'Observer Report' event; an already-suspended match always reads as already suspended; every other outcome leaves the database as it was |
| `Suspension.SuspendOutcomes` | src/components/ComplaintScanner.jsx:117-156 | a non-empty code ends 'Pass Not Found' exactly when no partition answers, already suspended exactly when the first answering row is suspended, update failed exactly when that row is fresh and the write fails, and suspended exactly when it is fresh and the write succeeds |
| `Suspension.SuspendEffect` | src/components/ComplaintScanner.jsx:136-153 | a suspension flags `is_suspended` on exactly the matching rows of the matched partition, touches no other partition, reports that partition's label and the VIP rule, and emits exactly the one event for that pass |
| `Suspension.SuspendWritesOneTable` | src/components/ComplaintScanner.jsx:136-139 | a suspension rewrites only the matched partition, with the flag update on the trimmed code |
| `Suspension.SameCodeSameScan` | src/components/ComplaintScanner.jsx:77-139 | non-empty codes that differ only in letter case or surrounding white space give the same outcome, database and events (the empty check looks at the raw input, so "" and " " differ) |
| `Suspension.SuspendTwice` | src/components/ComplaintScanner.jsx:117-121 | scanning a just-suspended code again, with the same lookups answering, reports it already suspended, writes nothing and emits nothing |
| `Suspension.FailedLookupsReadAsNotFound` | src/components/ComplaintScanner.jsx:94-156 | when every partition's lookup fails for a reason other than the contact column, the scan reads 'Pass Not Found' |
| `CheckIn.OnScanSuccess` | src/components/Scanner.jsx:39-79 | a denial never writes; only an answered lookup grants; the only write is a grant with no warning; a grant carries a warning exactly when the attendance write failed |
| `CheckIn.CheckInVerdicts` | src/components/Scanner.jsx:52-73 | a returned error reads 'DB Error: …', a thrown one 'Connection Error: …', an unknown pin 'Invalid Pass or Not Registered'; a known pin is granted under its first matching row's name and pin; a grant happens exactly when the lookup answered and some row matches |
| `CheckIn.CheckInEffect` | src/components/Scanner.jsx:58-63 | a successful write sets `attended_fest` on exactly the matching registration rows, changes no other field, and touches no other table |
| `CheckIn.CheckInWritesOneTable` | src/components/Scanner.jsx:58-63 | no table other than `maitri_registrations` is ever written |
| `CheckIn.CheckInMonotone` | src/components/Scanner.jsx:58-63 | no scan clears `attended_fest` |
| `CheckIn.RescanIdempotent` | src/components/Scanner.jsx:58-71 | scanning the same pass again, with the same lookup and write behaviour, gives the same verdict and leaves the database as the first scan left it |
| `CheckIn.SamePinSameCheckIn` | src/components/Scanner.jsx:40-63 | pins that differ only in letter case or surrounding white space get the same verdict and the same write |
| `Dashboard.FetchDashboardData` | src/components/ObserverDashboard.jsx:31-104 | the published log is newest first, holds min(50, candidates) entries, all taken from the candidates, and no left-out candidate is newer than a kept entry; `vip + student == total` and `today <= total` |
| `Dashboard.Publish` | src/components/ObserverDashboard.jsx:88-97 | counters are published as accumulated; the log is a sorted top-50 of the candidates |
| `Dashboard.CountSplits` | src/components/ObserverDashboard.jsx:53-58 | every fetched row counts as exactly one of VIP or student |
| `Dashboard.CountBounded` | src/components/ObserverDashboard.jsx:60-62 | a class of rows never outnumbers the rows |
| `Dashboard.CountRowsAdds` | src/components/ObserverDashboard.jsx:53-81 | the row loop adds exactly the partition's VIP, student and today counts and its dated rows' log lines to the counters it started from |
| `Dashboard.CountTableAdds` | src/components/ObserverDashboard.jsx:49-51 | a partition's callback adds its share, and nothing when its fetch failed |
| `Dashboard.CountTablesIsSum` | src/components/ObserverDashboard.jsx:43-86 | the callbacks, in completion order, add up the partitions' shares in that order |
| `Dashboard.ShareBalanced` | src/components/ObserverDashboard.jsx:53-62 | in each partition's share, VIP plus student equals total and today never exceeds total |
| `Dashboard.SumSharesBalanced` | src/components/ObserverDashboard.jsx:43-62 | the same balance holds summed over any order of partitions |
| `Dashboard.SumSharesRemove` | src/components/ObserverDashboard.jsx:43-86 | taking one partition out of the order and adding its share back changes no counter and no log line |
| `Dashboard.SumSharesOrderFree` | src/components/ObserverDashboard.jsx:43-86 | any two arrangements of the same partitions give equal counters and the same log lines |
| `Dashboard.DashboardSumsShares` | src/components/ObserverDashboard.jsx:43-97 | the published counters are the sums of the answering partitions' shares, and the log candidates are their log lines |
| `Dashboard.DashboardOrderFree` | src/components/ObserverDashboard.jsx:43-90 | the published counters and the collection of log candidates do not depend on the order the fetches complete in |
| `Dashboard.FetchMultiplicityFrom` | src/components/ObserverDashboard.jsx:45-48 | fetching from any position on returns each projected value once for every attended row from there on that projects to it |
| `Dashboard.FetchLengthFrom` | src/components/ObserverDashboard.jsx:45-48 | fetching from any position on returns one row per attended row from there on |
| `Dashboard.FetchSpec` | src/components/ObserverDashboard.jsx:45-48 | the fetch returns exactly the attended rows, projected to name, VIP flag and entry time: one row per attended row, each projected value as many times as attended rows project to it, and no other value |
| `Dashboard.CountFetchedFrom` | src/components/ObserverDashboard.jsx:53-62 | any class of fetched rows (VIP, student, entered since a time, dated) numbers exactly the attended stored rows of that class |
| `Dashboard.LoggedRowCons` | src/components/ObserverDashboard.jsx:64-81 | the log lines of a run of rows are the first row's line, when it is attended and dated, followed by the rest's lines |
| `Dashboard.LoggedRowsFrom` | src/components/ObserverDashboard.jsx:45-81 | each log line appears once for every attended dated stored row that it tags |
| `Dashboard.EntriesMultiplicityFrom` | src/components/ObserverDashboard.jsx:64-81 | each log line appears once for every dated fetched row that it tags |
| `Dashboard.EntriesSpec` | src/components/ObserverDashboard.jsx:64-81 | a partition's log lines are exactly its dated rows, tagged: one line per dated row, each line as many times as dated rows tag to it, and no other line |
| `Dashboard.ShareCounters` | src/components/ObserverDashboard.jsx:49-62 | on an answering partition's stored rows, `total` is the number of attended rows, `vip` and `student` split them by the VIP rule, and `today` counts those entered since midnight |
| `Dashboard.ShareLogLines` | src/components/ObserverDashboard.jsx:64-81 | an answering partition logs each line once for every attended dated stored row it tags with the partition and its label, and no other line |
| `Dashboard.ShareCounts` | src/components/ObserverDashboard.jsx:49-81 | a summary of `ShareCounters` and `ShareLogLines`: counters and log lines counted on the stored rows, with multiplicity |
| `Dashboard.FailedPartitionReadsEmpty` | src/components/ObserverDashboard.jsx:49-51 | a partition whose fetch fails gives the same snapshot as one that holds no rows, and the other partitions still count |
| `Dashboard.AllFailedIsEmpty` | src/components/ObserverDashboard.jsx:33-37 | when every fetch fails, the snapshot is all zeros with an empty log: nothing carries over from an earlier snapshot |
| `Dashboard.InsertSorted` | src/components/ObserverDashboard.jsx:89 | inserting one entry into a newest-first list keeps it newest first |
| `Dashboard.InsertPermutes` | src/components/ObserverDashboard.jsx:89 | inserting adds exactly the one entry |
| `Dashboard.SortSpec` | src/components/ObserverDashboard.jsx:89 | the sorted log is newest first and holds exactly the candidates |
| `Dashboard.TakeNewest` | src/components/ObserverDashboard.jsx:90 | cutting a newest-first list keeps it sorted, keeps only its own entries, and drops nothing newer than what it keeps |
| `Dashboard.SameFetchSameSnapshot` | src/components/ObserverDashboard.jsx:43-97 | the snapshot depends on the database only through what each partition's fetch returns |
| `Dashboard.CheckInsInvisible` | src/components/ObserverDashboard.jsx:4-12 | no gate check-in, of any outcome, changes the dashboard snapshot |
| `Dashboard.SuspendingKeepsFetch` | src/components/ObserverDashboard.jsx:45-48 | setting `is_suspended` never changes what a partition's fetch returns |
| `Dashboard.SuspendingKeepsSnapshot` | src/components/ObserverDashboard.jsx:45-48 | setting `is_suspended` on one partition's matching rows leaves the dashboard snapshot as it was |
| `Dashboard.SuspensionsInvisible` | src/components/ObserverDashboard.jsx:45-48 | no scan at the suspend portal changes the dashboard snapshot |

## Left out

- Supabase behaviour beyond the first-match read and the match-all update is not modelled. This covers `maybeSingle`'s error when several rows match, and the `%` and `_` wildcards of `ILIKE`. Keys are taken to be unique per partition, and codes to contain no wildcard.
- `Text.FoldCase`, `Text.UpperAscii`: only ASCII letters change case. Unicode case mapping is not modelled.
- The Google Sheets `fetch` is modelled only as an appended `SuspensionSync` event. That covers its no-cors transport, its swallowed errors, and its guard on a constant URL that is never empty. The payload's IST timestamp field (`entered_at_ist`) is omitted, because it is a formatted clock reading.
- Thrown exceptions in the portal are not modelled: the resolver's or the update's throw, which shows 'DB Error: …' (ComplaintScanner.jsx lines 158-160). A throw from the gate's update call is not modelled either. A throw from the gate's lookup is modelled as `CheckIn.Threw`. A failure of the whole dashboard call (ObserverDashboard.jsx lines 98-100) is not modelled; it would keep the previous snapshot on screen.
- Camera and QR decoding are device I/O and are not modelled. This covers `Html5Qrcode`, `Html5QrcodeScanner`, the global scanner handle, `setTimeout` and the effect cleanup.
- The UI state (`loading`, `isScanning`, `scanResult`, `manualPin`) is presentation and is not modelled.
- The static password gates in App.jsx and in ObserverDashboard.jsx (line 23) are a shared-secret UI check and are not modelled. App.jsx is UI routing and is not part of this model.
- FeedbackCard.jsx is pure presentation and is not part of this model.
- The Stop Camera button that calls `verifyAndSuspend(manualPin)` is UI wiring and is not modelled.
- Concurrency is not modelled. This covers the 10-second polling interval, the interleaving of the dashboard's callbacks, and the read-then-write race between two scanners. The callbacks are modelled as running one after another in a completion order given as a parameter. The counters and the collection of log candidates are proved not to depend on that order.
- `Dashboard.SortNewestFirst`: it is stable by construction, but no lemma states the order of ties. Which of several entries with equal timestamps survive the cut at 50 therefore depends on the completion order and on the order in which each partition's select returns its rows. The query (ObserverDashboard.jsx lines 45-48) has no `.order()`, so that row order is the database's choice. The model fixes it as the stored order.
- `Partitions.FallbackLabel`: both screens look up `tableToBlock` only with members of `TABLES`, all of which have a fixed label, so the fallback branch (ComplaintScanner.jsx line 133, ObserverDashboard.jsx line 79) is never reached. The lemma states the fallback for any other name as plain string logic. It does not model JavaScript's property lookup, under which a name such as `constructor` or `toString` yields an inherited `Object.prototype` member rather than the upper-cased name.
- `Date` parsing, the local-midnight computation and IST formatting are not modelled. Timestamps are integers and `todayStart` is a parameter.
