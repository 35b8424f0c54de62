# Closest vessel approach: a verified model

This project models the closest-approach search in `main.py` of the AIS
rendezvous finder. The program reads timestamped vessel position reports,
one shard per `.csv` file. It keeps the moving reports inside a circular
geofence. It then slides a time window over each shard and, in every window,
pairs each report with its nearest other report. It keeps the closest of
those nearest pairs whose two vessels differ; this is not always the closest
pair of two different vessels (see `ScanProperties.TwinReportsHideOtherVessel`).
Finally it takes the closest of the per-shard results.

The model has five modules:

- `Reports` (`reports.dfy`): the report record and the row filter. The row
  filter is a boolean-mask selection (`Filter`). The first mask keeps
  latitude in [-90, 90], longitude in [-90, 90] and SOG at least 1.0. The
  second mask is the geofence. `MinTimestamp` and `MaxTimestamp` give the
  scan's start and end times.
- `Nearest` (`nearest.dfy`): the per-window nearest-neighbour query. The
  program uses a haversine BallTree queried with `k=2`. Here the query is
  specified directly: the nearest index other than the query point, under a
  distance function `dist` given as a parameter.
- `Results` (`results.dfy`): the result record `Rendezvous`. `NoResult`
  stands for the default record, whose distance is +infinity. `Pick` is the
  strict-less update of the running best. `RunningBest` is the fold of `Pick`
  over candidates. `FirstMinimum` is an independent definition of "least
  distance, first among equals".
- `Scan` (`scan.dfy`) and `ScanProperties` (`scan_properties.dfy`): the
  sliding-window scan of `find_rendezvous_moment`.
  - `CandidatesFrom` lists, window by window and query point by query point,
    every pair the loop offers to the running best. `ShardRendezvous` is the
    running best of that list.
  - The imperative method `FindRendezvousMoment` (the outer `while` loop)
    is proved to return exactly `ShardRendezvous`. `UpdateWithWindow` (the
    inner `for` loop) is proved to return the running best after one
    window's pairs, starting from the best so far.
  - The lemmas then prove what that result means: minimality, first-wins
    ties, the window-start timestamp, distinct vessels and provenance.
- `Run` (`run.dfy`): `run`. It selects the `.csv` files, applies Python's
  `[:num_files]` slice, and reduces the per-shard results with Python's
  `min` by distance.

Distances and the geofence are parameters. `dist` is the haversine distance
already multiplied by 6371, and `inCircle` is the geofence test. Timestamps
are whole seconds. A window is the closed range `[t, t + window_size]`.

## Model

| member | source | states |
|---|---|---|
| Reports.Filter | main.py:49-57 | a boolean-mask selection only keeps rows of the frame that satisfy the mask, and never grows the frame |
| Reports.FilterAppend | main.py:49-57 | selection keeps row order: selecting from `a + b` is selecting from `a`, then from `b`, concatenated |
| Reports.FilterOne | main.py:49-57 | a single row is kept iff it satisfies the mask |
| Reports.FilterMembers | main.py:49-57 | a row is selected iff it is in the frame and satisfies the mask |
| Reports.FilterTwice | main.py:49-57 | applying two masks one after the other selects the same rows, in the same order, as one mask that is their conjunction |
| Reports.FilterIdempotent | main.py:49-57 | applying the same mask twice changes nothing |
| Reports.FilterAll | main.py:49-57 | a mask every row satisfies keeps the whole frame |
| Reports.FilterNone | main.py:49-57 | a mask no row satisfies leaves the empty frame |
| Reports.InBoxAndMoving | main.py:49-55 | the coordinate and speed mask: latitude and longitude both in [-90, 90] and SOG at least 1.0; `Reports.CleanKeepsExactly` and `Reports.LongitudeBoundIsNinety` state what it lets through |
| Reports.Keep | main.py:49-57 | the whole row filter: the mask above and the geofence; `Reports.CleanKeepsExactly` proves the two-stage filter keeps exactly the reports it accepts |
| Reports.Clean | main.py:49-57 | the two masks applied one after the other; what it keeps is stated by `Reports.CleanKeepsExactly` |
| Reports.CleanKeepsExactly | main.py:49-57 | the two-stage filter equals one filter by `Keep`: a report survives iff its latitude and longitude both lie in [-90, 90], its SOG is at least 1.0, and it is inside the geofence |
| Reports.LongitudeBoundIsNinety | main.py:52-53 | a moving report inside the geofence at longitude 100 is dropped and one at longitude -90 is kept: the bound is [-90, 90], not [-180, 180] |
| Reports.MinTimestamp | main.py:61 | the start time is the timestamp of some report and is at most every report's timestamp |
| Reports.MaxTimestamp | main.py:62 | the end time is the timestamp of some report and is at least every report's timestamp |
| Nearest.NearestBelow | main.py:79-83 | among the indices below `n`, the result is not the query point, no other index is strictly nearer, and every earlier index is strictly farther |
| Nearest.NearestOther | main.py:79-83 | the `index[1]` of the `k=2` query: a point other than the query point, nearest to it, and the lowest such index |
| Nearest.NearestOtherUnique | main.py:79-83 | any index that is nearest and earliest among equals is the one the query returns |
| Results.Pick | main.py:93-101 | the updated best is the old best or the candidate, is no farther than either, and is the candidate iff the candidate is strictly closer (or the same record) |
| Results.Closer | main.py:93 | `distance < rendezvous.distance`, with the default record as +infinity; stated by `Results.ComparisonsOrderByDistance` |
| Results.AtMost | main.py:116 | the key comparison of `min`, distance at most, with the default record as +infinity; stated by `Results.ComparisonsOrderByDistance` |
| Results.ComparisonsOrderByDistance | main.py:93 | between found records the comparisons are `<` and `<=` on distance; every record is at most the default one, which is at most only itself; `AtMost` is total and transitive and `Closer` is its strict part |
| Results.FirstMinimumUnique | main.py:93-101 | a list has only one first minimum |
| Results.RunningBest | main.py:93-101 | the running best after feeding candidates in order through `Pick`; `Results.RunningBestIsFirstMinimum` and `Results.RunningBestNeverIncreases` state what it is |
| Results.RunningBestAppend | main.py:66-103 | feeding candidates in two runs is feeding their concatenation |
| Results.RunningBestIsFirstMinimum | main.py:93-101 | the running best is the first minimum of the start value followed by the candidates: its distance is least, and every earlier entry is strictly farther |
| Results.RunningBestNeverIncreases | main.py:93-101 | the running best is never farther than its start value or any candidate fed in, and it is one of them |
| Results.SameElementsSameMinimum | main.py:116 | two lists with the same elements have first minima at the same distance |
| Scan.Window | main.py:68-69 | the rows of the window at `t`, in row order; its members are stated by `Scan.WindowMembers` |
| Scan.WindowMembers | main.py:68-69 | a report is in the window at `t` iff `t <= timestamp <= t + window_size` |
| Scan.WindowsOverlap | main.py:68-69 | when the window is at least as long as the step, a report timestamped in `[t + step, t + window_size]` is in two consecutive windows |
| Scan.WindowStarts | main.py:63-103 | the values `current_time` takes in the loop; stated by `Scan.WindowStartsBounds` and `Scan.WindowStartsAreSteps` |
| Scan.WindowStartsBounds | main.py:63-66 | every visited window start lies in [start, end], and some window is visited iff start <= end |
| Scan.WindowStartsAreSteps | main.py:63-103 | the k-th window starts at `start + k * step`, and the last start is within one step of the end time |
| Scan.PairAt | main.py:94-101 | the record built for query point `i` names point `i` as its first vessel and its nearest other point of the window as its second vessel: their distance is at most the distance from point `i` to every other point. It is stamped with the window start |
| Scan.SameVesselNearest | main.py:87-88 | `vessel_mmsi[index[0]] == vessel_mmsi[index[1]]`: a query point whose nearest other point is its own vessel offers nothing; stated by `Scan.PointCandidatesSound`, `Scan.PointCandidatesComplete` and `ScanProperties.TwinWindowHasNoCandidate` |
| Scan.PointCandidatesFrom | main.py:85-101 | the pairs the inner loop offers from query point `i` on, in query order; both directions are stated by `Scan.PointCandidatesSound` and `Scan.PointCandidatesComplete` |
| Scan.PointCandidatesSound | main.py:85-101 | every candidate of the inner loop is the pair of a query point whose nearest other point is another vessel |
| Scan.PointCandidatesComplete | main.py:85-101 | every query point whose nearest other point is another vessel offers its pair |
| Scan.WindowCandidates | main.py:71-101 | the pairs one window offers; stated by `Scan.WindowCandidatesShape`, `Scan.WindowCandidatesDrawn` and `Scan.WindowCandidatesComplete` |
| Scan.WindowCandidatesShape | main.py:71-101 | a window of fewer than two reports offers nothing; every pair offered is found, pairs two different vessels, and carries the window start as its timestamp |
| Scan.WindowCandidatesDrawn | main.py:94-99 | every pair offered by a window takes its vessels, coordinates and distance from two different rows of that window |
| Scan.WindowCandidatesComplete | main.py:85-101 | every distinct-vessel nearest pair of a window is offered |
| Scan.CandidatesFrom | main.py:66-103 | the pairs of all windows from `t` to `end`, window by window; stated by `Scan.CandidatesFromShape`, `Scan.CandidatesFromComplete`, `ScanProperties.CandidatesFromSound` and `Scan.CandidatesFromInTimeOrder` |
| Scan.ShardCandidates | main.py:60-66 | no candidates for an empty filtered frame, otherwise those of the scan from the earliest to the latest timestamp |
| Scan.ShardRendezvous | main.py:60-106 | the running best of the shard's candidates from the +infinity record; `Scan.FindRendezvousMoment` computes it and the `ScanProperties` lemmas state what it is |
| Scan.CandidatesFromShape | main.py:66-103 | every candidate of the scan from `t` to `end` pairs two different vessels and is stamped with a time in [t, end] |
| Scan.CandidatesFromComplete | main.py:66-103 | the pairs of every visited window are among the scan's candidates |
| Scan.CandidatesFromInTimeOrder | main.py:66-103 | the scan meets its candidates with non-decreasing timestamps |
| Scan.WindowFed | main.py:71-74 | a window of fewer than two reports leaves the running best unchanged; a larger one feeds it that window's pairs |
| Scan.ScanStep | main.py:66-103 | after one iteration, what remains to feed is exactly the windows from `t + step` on |
| Scan.UpdateWithWindow | main.py:76-101 | the inner loop returns the running best of the window's pairs, skipping same-vessel pairs and replacing the best only on a strictly smaller distance; a found result pairs two different vessels |
| Scan.FindRendezvousMoment | main.py:60-106 | the search returns exactly `ShardRendezvous`, the running best of all window candidates from the earliest to the latest timestamp; a found result pairs two different vessels |
| ScanProperties.CandidatesFromSound | main.py:66-103 | every candidate of the scan comes from the window at one of the visited starts |
| ScanProperties.ShardNoResultIff | main.py:60-106 | the result is the +infinity record iff no window offers a distinct-vessel pair |
| ScanProperties.EmptyShardNoResult | main.py:60-66 | a shard with no report surviving the row filter gives the +infinity record |
| ScanProperties.ShardResultShape | main.py:87-100 | a found result pairs two different vessels, and is stamped with a window start `start + k * step` in [start, end], not with a report's time. Its two rows are different rows of that window, and both passed the row filter |
| ScanProperties.ShardResultIsClosest | main.py:85-101 | for every visited window and every query point whose nearest other point is another vessel, a result is found and its distance is at most that pair's |
| ScanProperties.ShardResultIsNearestPair | main.py:81-101 | a found result is itself the record of a query point in a visited window of at least two reports, whose nearest other point is another vessel; with `ScanProperties.ShardResultIsClosest` its distance is the least of those pairs |
| ScanProperties.ShardResultEarliest | main.py:93-101 | among equal distances the earliest window wins: every candidate from an earlier window than the result's is strictly farther |
| ScanProperties.RunningBestEarliest | main.py:93-103 | over a time-ordered candidate list, the running best is strictly closer than every candidate with an earlier timestamp |
| ScanProperties.ShardResultIsFirstMinimum | main.py:93-101 | the result is the unique first minimum of the candidates in scan order (earliest window, then lowest query index) |
| ScanProperties.TwinWindowHasNoCandidate | main.py:83-88 | in the four-report example, every point's nearest other point is its own vessel's twin, so the window offers no pair |
| ScanProperties.TwinReportsHideOtherVessel | main.py:83-88 | a shard with two vessels 10 apart, both passing the filter, still gives the +infinity record, because each point's nearest neighbour is a report of the same vessel |
| Run.CsvFiles | main.py:111 | exactly the files whose name ends in `.csv` are kept; their order is stated by `Run.CsvFilesInOrder` |
| Run.IsCsv | main.py:111 | `filename.endswith(".csv")`: the name's last four characters are `.csv`; `Run.IsCsvExamples` shows the bare `.csv` passes while `.CSV` and `.csv.gz` do not |
| Run.IsCsvExamples | main.py:111 | a name ending in `.csv` is selected, and so is the bare `.csv`; `ais.CSV`, `ais.csv.gz` and `csv` are not |
| Run.CsvFilesInOrder | main.py:111 | the `.csv` files keep listing order: those listed before a file come before it, those listed after it come after |
| Run.Prefix | main.py:111 | Python's `[:num_files]`: a prefix of the list, all of it for `None`, `min(n, len)` elements for `n >= 0`, and all but the last `-n` (or none) for `n < 0` |
| Run.SelectFiles | main.py:111 | the `.csv` files in listing order cut by `[:num_files]`; stated by `Run.CsvFiles`, `Run.CsvFilesInOrder` and `Run.Prefix` |
| Run.ShardResults | main.py:113-114 | the per-file results, in file order, are each file's `ShardRendezvous` |
| Run.GlobalMin | main.py:116 | `min` by distance is nothing for an empty list; otherwise it is a member no farther than any, and the first minimum |
| Run.GlobalMinOrderIndependent | main.py:113-116 | reordering the shard results does not change whether there is an answer or its distance |
| Run.Run | main.py:110-116 | `run`'s answer; stated by `Run.RunIsClosestShard` |
| Run.RunIsClosestShard | main.py:110-116 | the answer is one selected `.csv` file's result, no farther than any selected file's result, and strictly closer than the results of all files before it; it is absent iff no file is selected |

## Left out

- CSV reading, column renaming and selection, and timestamp parsing (main.py:42-46, main.py:58). Reports come in as a parsed sequence with integer-second timestamps.
- The haversine geofence and distance. They are floating-point trigonometry, so they are the parameters `inCircle` and `dist`; `dist` includes the conversion to kilometres (main.py:57, main.py:91).
- The BallTree construction and query. The query is specified as the nearest other point. Among points at the same distance the lowest index is taken; BallTree's own order among equals is not specified. The model also assumes, as the program does, that `index[0]` is the query point itself; with two reports at the same position the real query may return the other one first.
- Floating-point semantics: distances are exact reals. NaN coordinates, a missing SOG (which the mask at main.py:48-54 drops, since a NaN comparison is false) and infinite distances other than the default record are not modelled; a report always has a speed.
- The parallel map over files with `ProcessPoolExecutor` and `tqdm`. `executor.map` keeps file order, so it is modelled as the list of per-file results (`Run.ShardResults`). Each file's result is `ShardRendezvous`, which `Scan.FindRendezvousMoment` is proved to return. `run` is therefore a function, not a method that calls the search.
- The directory listing is a parameter, and `listdir` order is not specified. That order decides which files `[:num_files]` keeps and, on exact ties, which record `min` returns. `Run.GlobalMinOrderIndependent` covers only the second: reordering the searched results keeps the answer's distance.
- A file that cannot be read raises an exception in the program and aborts the run; no per-shard error handling exists, so none is modelled.
- Plotting (`plot_vessel_trajectories`, main.py:105), the `timeit` decorator, `parse_args` and printing the answer (main.py:117-121). Plotting runs on every shard result before it is returned, including the default record; whether it raises there is not modelled, and the model lets the default record reach `min`.
- Run.GlobalMin: returns `None` for an empty list where Python's `min` raises ValueError.
- Scan.FindRendezvousMoment: requires `step_size > 0`. With a zero or negative step the program loops forever when at least one report passes the row filter. When none passes, the start time is NaT, the loop never runs and the program returns the default record for any step; the requires excludes that terminating case too. The only caller passes the default step of 5.
- The longitude bound is kept at [-90, 90] as the program writes it, not the geographic [-180, 180].
- The record's timestamp is the window start `current_time`, as the program sets it, not the time of either report.
