/** The driver `run` in main.py: pick the shard files, search each one, and
    keep the closest of the per-shard results. */
module Run {
  import opened Reports
  import opened Results
  import opened Scan

  datatype Option<T> = None | Some(value: T)

  /** One file of the data directory: its name and its parsed rows. */
  datatype ShardFile = ShardFile(name: string, reports: seq<Report>)

  /** `filename.endswith(".csv")`. */
  predicate IsCsv(name: string)
  {
    |name| >= 4 && name[|name| - 4..] == ".csv"
  }

  /** `endswith(".csv")` looks at the last four characters only: the bare name
      ".csv" passes, while an upper-case or compressed name does not. */
  lemma IsCsvExamples()
    ensures IsCsv("ais_2024-01-01.csv") && IsCsv(".csv")
    ensures !IsCsv("ais.CSV") && !IsCsv("ais.csv.gz") && !IsCsv("csv")
  {
    assert "ais_2024-01-01.csv"[14..] == ".csv";
    assert "ais.csv.gz"[6..] != ".csv";
    assert "ais.CSV"[3..] != ".csv";
  }

  /** The file passes `filename.endswith(".csv")`. */
  predicate IsCsvFile(f: ShardFile)
  {
    IsCsv(f.name)
  }

  /** The directory listing restricted to `.csv` files, in listing order. */
  function CsvFiles(files: seq<ShardFile>): (out: seq<ShardFile>)
    ensures |out| <= |files|
    ensures forall f :: f in out <==> f in files && IsCsv(f.name)
  {
    FilterMembers(files, IsCsvFile);
    Filter(files, IsCsvFile)
  }

  /** The selection keeps listing order: the `.csv` files listed before `f`
      come first, then `f` if it is one, then those listed after it. */
  lemma CsvFilesInOrder(a: seq<ShardFile>, f: ShardFile, b: seq<ShardFile>)
    ensures CsvFiles(a + [f] + b) == CsvFiles(a) + (if IsCsv(f.name) then [f] else []) + CsvFiles(b)
  {
    FilterAppend(a + [f], b, IsCsvFile);
    FilterAppend(a, [f], IsCsvFile);
    FilterOne(f, IsCsvFile);
  }

  /** Python's `xs[:stop]`: everything for `None`, the first `stop` elements
      for a non-negative stop, and all but the last `-stop` for a negative one. */
  function Prefix<T>(xs: seq<T>, stop: Option<int>): (out: seq<T>)
    ensures out <= xs
    ensures stop.None? ==> out == xs
    ensures stop.Some? && 0 <= stop.value ==>
              |out| == if stop.value <= |xs| then stop.value else |xs|
    ensures stop.Some? && stop.value < 0 ==>
              |out| == if -stop.value <= |xs| then |xs| + stop.value else 0
  {
    match stop
    case None => xs
    case Some(n) =>
      if 0 <= n then (if n <= |xs| then xs[..n] else xs)
      else if -n <= |xs| then xs[..|xs| + n]
      else []
  }

  /** The files the run searches: the `.csv` files, cut to `num_files`. */
  function SelectFiles(files: seq<ShardFile>, numFiles: Option<int>): seq<ShardFile>
  {
    Prefix(CsvFiles(files), numFiles)
  }

  /** The per-shard results in file order, each the record that
      find_rendezvous_moment returns for that file (Scan.FindRendezvousMoment
      is proved to return ShardRendezvous). */
  function ShardResults(files: seq<ShardFile>, cfg: Config, dist: (Position, Position) -> real,
                        inCircle: Position -> bool): (results: seq<Rendezvous>)
    requires cfg.stepSize > 0
    ensures |results| == |files|
    ensures forall i :: 0 <= i < |files| ==> results[i] == ShardRendezvous(files[i].reports, cfg, dist, inCircle)
  {
    if files == [] then []
    else [ShardRendezvous(files[0].reports, cfg, dist, inCircle)] + ShardResults(files[1..], cfg, dist, inCircle)
  }

  /** `min(results, key=lambda result: result.distance)`: nothing for an empty
      list (Python raises ValueError), otherwise one of the results, no
      farther than any of them, and the first of those at the least distance. */
  function GlobalMin(results: seq<Rendezvous>): (m: Option<Rendezvous>)
    ensures m.None? <==> results == []
    ensures m.Some? ==> m.value in results && forall r :: r in results ==> AtMost(m.value, r)
    ensures m.Some? ==> exists k :: FirstMinimum(results, k) && results[k] == m.value
  {
    if results == [] then None
    else
      RunningBestIsFirstMinimum(results[0], results[1..]);
      RunningBestNeverIncreases(results[0], results[1..]);
      assert [results[0]] + results[1..] == results;
      Some(RunningBest(results[0], results[1..]))
  }

  /** The order in which the shards are listed does not change the distance
      of the answer, only which of several equally close records is chosen. */
  lemma GlobalMinOrderIndependent(xs: seq<Rendezvous>, ys: seq<Rendezvous>)
    requires multiset(xs) == multiset(ys)
    ensures GlobalMin(xs).None? <==> GlobalMin(ys).None?
    ensures GlobalMin(xs).Some? ==>
              (GlobalMin(xs).value.Found? <==> GlobalMin(ys).value.Found?) &&
              (GlobalMin(xs).value.Found? ==> GlobalMin(xs).value.distance == GlobalMin(ys).value.distance)
  {
    assert |xs| == |multiset(xs)| && |ys| == |multiset(ys)|;
    var mx, my := GlobalMin(xs), GlobalMin(ys);
    if mx.Some? && my.Some? {
      var k1 :| FirstMinimum(xs, k1) && xs[k1] == mx.value;
      var k2 :| FirstMinimum(ys, k2) && ys[k2] == my.value;
      SameElementsSameMinimum(xs, ys, k1, k2);
    }
  }

  /** `run`: the closest record over the selected shards, or nothing when no
      file is selected. */
  function Run(files: seq<ShardFile>, numFiles: Option<int>, cfg: Config,
               dist: (Position, Position) -> real, inCircle: Position -> bool): Option<Rendezvous>
    requires cfg.stepSize > 0
  {
    GlobalMin(ShardResults(SelectFiles(files, numFiles), cfg, dist, inCircle))
  }

  /** The answer of `run` is the result of one of the selected `.csv` files,
      at most as far as every selected file's result, and the first such
      file's in list order; there is none exactly when no file is selected. */
  lemma RunIsClosestShard(files: seq<ShardFile>, numFiles: Option<int>, cfg: Config,
                          dist: (Position, Position) -> real, inCircle: Position -> bool)
    requires cfg.stepSize > 0
    ensures var selected := SelectFiles(files, numFiles);
            var answer := Run(files, numFiles, cfg, dist, inCircle);
            (answer.None? <==> selected == []) &&
            (answer.Some? ==>
              (exists i :: 0 <= i < |selected| && IsCsv(selected[i].name) && selected[i] in files &&
                 answer.value == ShardRendezvous(selected[i].reports, cfg, dist, inCircle) &&
                 (forall j :: 0 <= j < i ==>
                    Closer(answer.value, ShardRendezvous(selected[j].reports, cfg, dist, inCircle)))) &&
              (forall j :: 0 <= j < |selected| ==>
                 AtMost(answer.value, ShardRendezvous(selected[j].reports, cfg, dist, inCircle))))
  {
    var selected := SelectFiles(files, numFiles);
    var csv := CsvFiles(files);
    var results := ShardResults(selected, cfg, dist, inCircle);
    var answer := Run(files, numFiles, cfg, dist, inCircle);
    assert forall i :: 0 <= i < |selected| ==> selected[i] in csv by {
      forall i | 0 <= i < |selected| ensures selected[i] in csv {
        assert selected[i] == csv[i];
      }
    }
    if answer.Some? {
      var k :| FirstMinimum(results, k) && results[k] == answer.value;
      assert selected[k] in csv;
    }
  }
}
