/** `lst_scripts/onsite_mc_r0_to_dl1.py`, function `main`: the production id,
    the training/testing split of the shuffled DL0 files, the number of files
    per DL1 job, the chunking into `file_lists_<set>/<set>_<i>.list`, the job log
    names, queue and job name, the `sbatch` command lines and, in workflow mode,
    the `jobid2log` / `jobids_r0_dl1` records. The clock, `lstchain.__version__`,
    `os.stat`, `random.shuffle`, the order of `os.listdir` and the scheduler's
    answer are inputs. */
module R0ToDl1 {
  import opened Results
  import SeqFacts
  import opened PyText
  import opened PySeq
  import opened Commands
  import opened FileTree
  import opened DataManagement
  import JobLogs

  // ---------------------------------------------------------------------------
  // Production id

  datatype Date = Date(year: nat, month: nat, day: nat)

  /** `PROD_ID`: in standalone mode the date stamp `YYYYMMDD`, `_v` and the
      lstchain version, then `_v00` or `_<prod_id>`; in workflow mode the
      given id as it is, possibly `None`. */
  function ProdId(fullWorkflow: bool, prodId: Option<string>, today: Date, version: string): (r: Option<string>)
    ensures fullWorkflow ==> r == prodId
    ensures !fullWorkflow ==> r.Some?
  {
    if fullWorkflow then prodId
    else
      var base := ZeroPad(today.year, 4) + ZeroPad(today.month, 2) + ZeroPad(today.day, 2) + "_v" + version;
      var suffix := if prodId.None? then "_v00" else "_" + prodId.value;
      Some(base + suffix)
  }

  /** A standalone production id reads back field by field: year, month and
      day from the first eight digits, then `_v`, the version and the suffix. */
  lemma ProdIdFields(prodId: Option<string>, today: Date, version: string)
    requires today.year < 10000 && today.month < 100 && today.day < 100
    ensures var r := ProdId(false, prodId, today, version).value;
      && |r| >= 10 + |version|
      && AllDigits(r[..4]) && ParseNat(r[..4]) == today.year
      && AllDigits(r[4..6]) && ParseNat(r[4..6]) == today.month
      && AllDigits(r[6..8]) && ParseNat(r[6..8]) == today.day
      && r[8..10] == "_v"
      && r[10..10 + |version|] == version
      && r[10 + |version|..] == (if prodId.None? then "_v00" else "_" + prodId.value)
  {
    var y, m, d := ZeroPad(today.year, 4), ZeroPad(today.month, 2), ZeroPad(today.day, 2);
    var suffix := if prodId.None? then "_v00" else "_" + prodId.value;
    var r := ProdId(false, prodId, today, version).value;
    assert r == y + m + d + "_v" + version + suffix;
    assert |y| == 4 && |m| == 2 && |d| == 2 by {
      ZeroPadWidth(today.year, 4);
      ZeroPadWidth(today.month, 2);
      ZeroPadWidth(today.day, 2);
    }
    StampFields(y, m, d, version, suffix);
    assert ParseNat(y) == today.year by {
      ParseZeroPad(today.year, 4);
    }
    assert ParseNat(m) == today.month by {
      ParseZeroPad(today.month, 2);
    }
    assert ParseNat(d) == today.day by {
      ParseZeroPad(today.day, 2);
    }
  }

  /** Cutting a concatenation of fixed-width fields at the field boundaries. */
  lemma StampFields(y: string, m: string, d: string, version: string, suffix: string)
    requires |y| == 4 && |m| == 2 && |d| == 2
    ensures var r := y + m + d + "_v" + version + suffix;
      && |r| >= 10 + |version|
      && r[..8] == y + m + d
      && r[..4] == y && r[4..6] == m && r[6..8] == d
      && r[8..10] == "_v"
      && r[10..10 + |version|] == version
      && r[10 + |version|..] == suffix
  {
  }

  // ---------------------------------------------------------------------------
  // Training / testing split

  /** A training ratio: the float `num / den`, kept exact. */
  datatype Ratio = Ratio(num: int, den: nat)

  type Fraction = r: Ratio | r.den > 0 witness Ratio(1, 2)

  datatype Partition = Partition(training: seq<string>, testing: seq<string>)

  /** `ntrain = int(number_files * TRAIN_TEST_RATIO)`, then
      `raw_files_list[:ntrain]` and `raw_files_list[ntrain:]`. */
  function SplitTrainTest(files: seq<string>, ratio: Fraction): (p: Partition)
    ensures p.training + p.testing == files
    ensures 0 <= ratio.num <= ratio.den ==>
      |p.training| * ratio.den <= |files| * ratio.num < (|p.training| + 1) * ratio.den
    ensures 0 <= ratio.num <= ratio.den ==> |p.testing| == |files| - |p.training|
    ensures ratio.num >= ratio.den ==> p.testing == []
  {
    var ntrain := TruncDiv(|files| * ratio.num, ratio.den);
    TakeDrop(files, ntrain);
    TrainCountBounds(|files|, ratio);
    Partition(Take(files, ntrain), Drop(files, ntrain))
  }

  /** A ratio in `[0, 1]` gives a count between 0 and `n`; a ratio of at least 1 gives at least `n`. */
  lemma TrainCountBounds(n: nat, ratio: Fraction)
    ensures 0 <= ratio.num <= ratio.den ==> 0 <= TruncDiv(n * ratio.num, ratio.den) <= n
    ensures ratio.num >= ratio.den ==> TruncDiv(n * ratio.num, ratio.den) >= n
  {
    var num, den := ratio.num, ratio.den;
    var a := n * num;
    var q := TruncDiv(a, den);
    if 0 <= num <= den {
      MulLe(0, num, n);
      MulLe(num, den, n);
      if q > n {
        MulLe(n + 1, q, den);
        MulSucc(n, den);
        assert false;
      }
    }
    if num >= den {
      MulLe(0, den, n);
      MulLe(den, num, n);
      if q < n {
        MulLe(q + 1, n, den);
        MulSucc(q, den);
        assert false;
      }
    }
  }

  // ---------------------------------------------------------------------------
  // Files per DL1 job

  const DesiredDl1SizeMb: nat := 1000
  const ReductionDl0Dl1: nat := 5
  const BytesPerMb: nat := 1_000_000

  /** The largest input size, in bytes, whose DL1 output stays within the desired size. */
  const Dl0BytesPerDl1: nat := DesiredDl1SizeMb * ReductionDl0Dl1 * BytesPerMb

  /** `NFILES_PER_DL1`: a non-zero request is kept; zero asks for as many files of
      the first file's size as make a DL1 file of the desired size, at least
      one. An empty first file divides by zero. */
  function FilesPerDl1(requested: int, firstFileBytes: nat): (r: Result<int>)
    ensures requested != 0 ==> r == Ok(requested)
    ensures requested == 0 ==> (r.Ok? <==> firstFileBytes > 0)
    ensures r.Err? ==> r.error == ZeroDivisionError
    ensures requested == 0 && r.Ok? ==> r.value >= 1
    ensures requested == 0 && r.Ok? && r.value > 1 ==> r.value * firstFileBytes <= Dl0BytesPerDl1
    ensures requested == 0 && r.Ok? ==> Dl0BytesPerDl1 < (r.value + 1) * firstFileBytes
    ensures requested == 0 && r.Ok? && firstFileBytes <= Dl0BytesPerDl1 ==> r.value * firstFileBytes <= Dl0BytesPerDl1
    ensures requested == 0 && r.Ok? && firstFileBytes > Dl0BytesPerDl1 ==> r.value == 1
  {
    if requested != 0 then Ok(requested)
    else if firstFileBytes == 0 then Err(ZeroDivisionError)
    else
      var fit := TruncDiv(Dl0BytesPerDl1, firstFileBytes);
      Ok(if fit < 1 then 1 else fit)
  }

  // ---------------------------------------------------------------------------
  // Chunking into list files

  /** `len(list) // N + int(len(list) % N > 0)`. */
  function SublistCount(n: nat, size: int): (c: int)
    requires size != 0
    ensures size > 0 ==> c >= 0 && (c - 1) * size < n <= c * size
    ensures size < 0 ==> c <= 0
  {
    FloorDiv(n, size) + (if FloorMod(n, size) > 0 then 1 else 0)
  }

  /** The sublists written to the list files: `list[i * N:N * (i + 1)]` for each
      `i` in `range(number_of_sublists)` (an empty range when the count is not positive). */
  function Sublists(files: seq<string>, size: int): (r: seq<seq<string>>)
    requires size != 0
    ensures size > 0 ==> |r| == SublistCount(|files|, size)
    ensures size < 0 ==> r == []
  {
    var count := SublistCount(|files|, size);
    seq(if count > 0 then count else 0, i => Slice(files, i * size, size * (i + 1)))
  }

  /** Sublist `i` is the `i`-th run of `size` files, cut short at the end. */
  lemma SublistAt(files: seq<string>, size: int, i: nat)
    requires size >= 1 && i < |Sublists(files, size)|
    ensures i * size < |files|
    ensures i + 1 < |Sublists(files, size)| ==> (i + 1) * size <= |files|
    ensures Sublists(files, size)[i] == files[i * size..if (i + 1) * size <= |files| then (i + 1) * size else |files|]
  {
    SublistBounds(|files|, size, SublistCount(|files|, size), i);
    assert Sublists(files, size)[i] == Slice(files, i * size, size * (i + 1));
  }

  lemma SublistBounds(n: nat, size: int, c: int, i: nat)
    requires size >= 1 && (c - 1) * size < n <= c * size && i < c
    ensures 0 <= i * size < n
    ensures i + 1 < c ==> (i + 1) * size <= n
    ensures size * (i + 1) == i * size + size
  {
    MulLe(0, i, size);
    MulLe(i, c - 1, size);
    if i + 1 < c {
      MulLe(i + 1, c - 1, size);
    }
    MulSucc(i, size);
  }

  /** The first `k` sublists hold the first `k * size` files. */
  lemma {:induction false} SublistsPrefix(files: seq<string>, size: int, k: nat)
    requires size >= 1 && k <= |Sublists(files, size)|
    ensures Flatten(Sublists(files, size)[..k]) == files[..if k * size <= |files| then k * size else |files|]
  {
    var r := Sublists(files, size);
    if k > 0 {
      SublistsPrefix(files, size, k - 1);
      SublistAt(files, size, k - 1);
      FlattenSnoc(r, k);
      var lo := (k - 1) * size;
      MulSucc(k - 1, size);
      var hi := if k * size <= |files| then k * size else |files|;
      SliceConcat(files, lo, hi);
    }
  }

  lemma FlattenSnoc<T>(r: seq<seq<T>>, k: nat)
    requires 0 < k <= |r|
    ensures Flatten(r[..k]) == Flatten(r[..k - 1]) + r[k - 1]
  {
    assert r[..k][..k - 1] == r[..k - 1];
  }

  lemma SliceConcat<T>(s: seq<T>, lo: nat, hi: nat)
    requires lo <= hi <= |s|
    ensures s[..lo] + s[lo..hi] == s[..hi]
  {
  }

  /** The list files together hold the whole list, in order. */
  lemma SublistsCover(files: seq<string>, size: int)
    requires size >= 1
    ensures Flatten(Sublists(files, size)) == files
  {
    var r := Sublists(files, size);
    SublistsPrefix(files, size, |r|);
    assert r[..|r|] == r;
  }

  /** Every list file but the last holds exactly `size` files; the last holds at
      least one and at most `size`. */
  lemma SublistsSizes(files: seq<string>, size: int)
    requires size >= 1
    ensures var r := Sublists(files, size);
      && (forall i :: 0 <= i < |r| - 1 ==> |r[i]| == size)
      && (|r| > 0 ==> 1 <= |r[|r| - 1]| <= size)
      && (|r| == 0 <==> |files| == 0)
  {
    var r := Sublists(files, size);
    forall i | 0 <= i < |r| - 1
      ensures |r[i]| == size
    {
      SublistSize(files, size, i);
    }
    if |r| > 0 {
      SublistSize(files, size, |r| - 1);
    }
  }

  /** Sublist `i` holds `size` files, or between one and `size` when it is the last. */
  lemma SublistSize(files: seq<string>, size: int, i: nat)
    requires size >= 1 && i < |Sublists(files, size)|
    ensures 1 <= |Sublists(files, size)[i]| <= size
    ensures i + 1 < |Sublists(files, size)| ==> |Sublists(files, size)[i]| == size
  {
    SublistAt(files, size, i);
    MulSucc(i, size);
  }

  // ---------------------------------------------------------------------------
  // Names and commands

  datatype SetType = Training | Testing

  function SetName(t: SetType): string {
    match t
    case Training => "training"
    case Testing => "testing"
  }

  /** The tag of a set in the job log names. */
  function LogTag(t: SetType): string {
    match t
    case Training => "train"
    case Testing => "test"
  }

  /** `'{}_{}.list'.format(set_type, i)`. */
  function ListFileName(t: SetType, i: nat): string {
    SetName(t) + "_" + NatToString(i) + ".list"
  }

  /** The names of the list files of a set, in the order they are written. */
  function ListFileNames(t: SetType, count: nat): (r: seq<string>)
    ensures |r| == count
    ensures forall i :: 0 <= i < count ==> r[i] == ListFileName(t, i)
  {
    seq(count, i requires 0 <= i => ListFileName(t, i))
  }

  /** Each list file gets its own name. */
  lemma ListFileNamesDistinct(t: SetType, count: nat)
    ensures forall i, j :: 0 <= i < j < count ==> ListFileNames(t, count)[i] != ListFileNames(t, count)[j]
  {
    forall i, j | 0 <= i < j < count
      ensures ListFileName(t, i) != ListFileName(t, j)
    {
      var a, b := ListFileName(t, i), ListFileName(t, j);
      var pre := SetName(t) + "_";
      if a == b {
        var di, dj := NatToString(i), NatToString(j);
        assert a == pre + di + ".list" && b == pre + dj + ".list";
        assert |di| == |dj|;
        assert di == a[|pre|..|pre| + |di|];
        assert dj == b[|pre|..|pre| + |dj|];
        NatToStringInjective(i, j);
      }
    }
  }

  /** `job<k>_train.o`, `job<k>_test.e` and so on: `ext` is `o` or `e`. */
  function LogName(t: SetType, k: nat, ext: char): string {
    "job" + NatToString(k) + "_" + LogTag(t) + "." + [ext]
  }

  /** Different set, counter or stream give different log names. */
  lemma LogNameInjective(t1: SetType, k1: nat, e1: char, t2: SetType, k2: nat, e2: char)
    requires LogName(t1, k1, e1) == LogName(t2, k2, e2)
    ensures t1 == t2 && k1 == k2 && e1 == e2
  {
    var d1, d2 := NatToString(k1), NatToString(k2);
    var y1, y2 := "job" + d1 + "_", "job" + d2 + "_";
    var tag1, tag2 := LogTag(t1), LogTag(t2);
    SeqFacts.TailCancel(y1 + tag1 + ".", [e1], y2 + tag2 + ".", [e2]);
    SeqFacts.TailCancel(y1 + tag1, ".", y2 + tag2, ".");
    SeqFacts.LastOf(y1, tag1);
    SeqFacts.LastOf(y2, tag2);
    LogTagLast(t1, t2);
    SeqFacts.TailCancel(y1, tag1, y2, tag2);
    SeqFacts.TailCancel("job" + d1, "_", "job" + d2, "_");
    SeqFacts.HeadCancel("job", d1, d2);
    NatToStringInjective(k1, k2);
  }

  /** The two tags end differently: `train` in `n`, `test` in `t`. */
  lemma LogTagLast(t1: SetType, t2: SetType)
    ensures |LogTag(t1)| > 0
    ensures LogTag(t1)[|LogTag(t1)| - 1] == LogTag(t2)[|LogTag(t2)| - 1] ==> t1 == t2
  {
  }

  /** `os.path.join(RUNNING_DIR, 'file_lists_' + set_type)`. */
  function DirLists(runningDir: string, t: SetType): string {
    PathJoin(runningDir, "file_lists_" + SetName(t))
  }

  /** `os.path.join(os.path.join(RUNNING_DIR, 'DL1'), set_type)`. */
  function OutputDir(runningDir: string, t: SetType): string {
    PathJoin(PathJoin(runningDir, "DL1"), SetName(t))
  }

  /** `cc`: the configuration option, or a lone space. */
  function ConfigClause(config: Option<string>): string {
    if config.Some? then " -c " + config.value else " "
  }

  /** `base_cmd = 'core_list.sh "lstchain_mc_r0_to_dl1 -o {} {}"'.format(output_dir, cc)`:
      the spaces of the template separate its words. */
  function BaseCommand(outputDir: string, config: Option<string>): string {
    Render(["core_list.sh", "\"lstchain_mc_r0_to_dl1", "-o", outputDir, ConfigClause(config) + "\""])
  }

  /** Read back by fields, the base command shows the output directory and
      carries `-c <config>` exactly when a configuration file is given (the
      doubled space leaves an empty field). */
  lemma BaseCommandWords(outputDir: string, config: Option<string>)
    requires IsWord(outputDir)
    requires config.Some? ==> IsWord(config.value)
    ensures config.Some? ==> (Words(BaseCommand(outputDir, config)) ==
      ["core_list.sh", "\"lstchain_mc_r0_to_dl1", "-o", outputDir, "", "-c", config.value + "\""])
    ensures config.None? ==> (Words(BaseCommand(outputDir, config)) ==
      ["core_list.sh", "\"lstchain_mc_r0_to_dl1", "-o", outputDir, "", "\""])
    ensures |Words(BaseCommand(outputDir, config))| == 7 <==> config.Some?
  {
    var head := ["core_list.sh", "\"lstchain_mc_r0_to_dl1", "-o", outputDir];
    var last := ConfigClause(config) + "\"";
    assert AllWords(head);
    assert head + [last] == ["core_list.sh", "\"lstchain_mc_r0_to_dl1", "-o", outputDir, last];
    LeadingWords(head, [last]);
    ClauseWords(config);
  }

  /** The fields of the configuration clause and the closing quote. */
  lemma ClauseWords(config: Option<string>)
    requires config.Some? ==> IsWord(config.value)
    ensures config.Some? ==> Words(Render([ConfigClause(config) + "\""])) == ["", "-c", config.value + "\""]
    ensures config.None? ==> Words(Render([ConfigClause(config) + "\""])) == ["", "\""]
  {
    var last := ConfigClause(config) + "\"";
    if config.Some? {
      var v := config.value + "\"";
      assert last == "" + [' '] + ("-c" + [' '] + v);
      SplitAfterPiece("", ' ', "-c" + [' '] + v);
      SplitAfterPiece("-c", ' ', v);
      SplitNoSeparator(v, ' ');
    } else {
      assert last == "" + [' '] + "\"";
      SplitAfterPiece("", ' ', "\"");
      SplitNoSeparator("\"", ' ');
    }
  }

  /** The queue: protons take long, everything else is short. */
  function Queue(particle: string): string {
    if particle == "proton" then "long" else "short"
  }

  /** The job-name table of the workflow mode. */
  const JobNames: map<string, string> := map[
    "electron" := "r0dl1_e",
    "gamma" := "r0dl1_g",
    "gamma-diffuse" := "r0dl1_gd",
    "proton" := "r0dl1_p",
    "gamma_off0.0deg" := "g0.0_merge",
    "gamma_off0.4deg" := "g0.4_merge"
  ]

  /** The scheduler options of a standalone submission. */
  function StandaloneOptions(jobe: string, jobo: string): seq<string> {
    ["sbatch", "-p", "short", "-e", jobe, "-o", jobo]
  }

  /** The scheduler options of a workflow submission. */
  function WorkflowOptions(queue: string, name: string, jobe: string, jobo: string): seq<string> {
    ["sbatch", "--parsable", "-p", queue, "-J", name, "-e", jobe, "-o", jobo]
  }

  lemma QueueIsWord(particle: string)
    ensures IsWord(Queue(particle))
    ensures Queue(particle) == "long" <==> particle == "proton"
  {
  }

  lemma JobNameIsWord(particle: string)
    requires particle in JobNames
    ensures IsWord(JobNames[particle])
  {
  }

  lemma WorkflowOptionsAreWords(queue: string, name: string, jobe: string, jobo: string)
    requires IsWord(queue) && IsWord(name) && IsWord(jobe) && IsWord(jobo)
    ensures AllWords(WorkflowOptions(queue, name, jobe, jobo))
  {
  }

  lemma StandaloneOptionsAreWords(jobe: string, jobo: string)
    requires IsWord(jobe) && IsWord(jobo)
    ensures AllWords(StandaloneOptions(jobe, jobo))
  {
  }

  /** Standalone mode: `sbatch -p short -e {jobe} -o {jobo} {base_cmd} {list file}`. */
  function StandaloneCommand(jobe: string, jobo: string, base: string, listPath: string): string {
    Render(StandaloneOptions(jobe, jobo) + [base, listPath])
  }

  /** Workflow mode: `sbatch --parsable -p {queue} -J {name} -e {jobe} -o {jobo} {base_cmd} {list file}`. */
  function WorkflowCommand(queue: string, name: string, jobe: string, jobo: string, base: string, listPath: string): string {
    Render(WorkflowOptions(queue, name, jobe, jobo) + [base, listPath])
  }

  /** One submission: its set, its counter, the list file it reads, its logs and its command. */
  datatype Job = Job(setType: SetType, counter: nat, listPath: string, jobo: string, jobe: string, command: string)

  /** The job for the `k`-th list file `file` that `os.listdir` returns. */
  function JobFor(t: SetType, k: nat, file: string, runningDir: string, jobLogs: string,
                  config: Option<string>, particle: string, fullWorkflow: bool): Job
    requires fullWorkflow ==> particle in JobNames
  {
    var jobo := PathJoin(jobLogs, LogName(t, k, 'o'));
    var jobe := PathJoin(jobLogs, LogName(t, k, 'e'));
    var base := BaseCommand(OutputDir(runningDir, t), config);
    var listPath := PathJoin(DirLists(runningDir, t), file);
    var cmd :=
      if fullWorkflow then WorkflowCommand(Queue(particle), JobNames[particle], jobe, jobo, base, listPath)
      else StandaloneCommand(jobe, jobo, base, listPath);
    Job(t, k, listPath, jobo, jobe, cmd)
  }

  /** Read back by fields, a workflow command starts with its scheduler options:
      the queue (`long` exactly for protons), the job name from the table and
      the two log paths, whatever the rest of the line holds. */
  lemma WorkflowJobWords(t: SetType, k: nat, file: string, runningDir: string, jobLogs: string,
                         config: Option<string>, particle: string)
    requires particle in JobNames
    requires IsWord(jobLogs)
    ensures var job := JobFor(t, k, file, runningDir, jobLogs, config, particle, true);
      && |Words(job.command)| >= 10
      && Words(job.command)[..10] ==
        ["sbatch", "--parsable", "-p", Queue(particle), "-J", JobNames[particle], "-e", job.jobe, "-o", job.jobo]
      && (Words(job.command)[3] == "long" <==> particle == "proton")
  {
    var job := JobFor(t, k, file, runningDir, jobLogs, config, particle, true);
    LogPathIsWord(jobLogs, t, k, 'o');
    LogPathIsWord(jobLogs, t, k, 'e');
    var queue, name := Queue(particle), JobNames[particle];
    JobNameIsWord(particle);
    QueueIsWord(particle);
    WorkflowCommandWords(queue, name, job.jobe, job.jobo, BaseCommand(OutputDir(runningDir, t), config), job.listPath);
  }

  lemma WorkflowCommandWords(queue: string, name: string, jobe: string, jobo: string, base: string, listPath: string)
    requires IsWord(queue) && IsWord(name) && IsWord(jobe) && IsWord(jobo)
    ensures var w := Words(WorkflowCommand(queue, name, jobe, jobo, base, listPath));
      |w| >= 10 && w[..10] == ["sbatch", "--parsable", "-p", queue, "-J", name, "-e", jobe, "-o", jobo] && w[3] == queue
  {
    var head := WorkflowOptions(queue, name, jobe, jobo);
    WorkflowOptionsAreWords(queue, name, jobe, jobo);
    LeadingWords(head, [base, listPath]);
    var w := Words(WorkflowCommand(queue, name, jobe, jobo, base, listPath));
    assert w[3] == w[..10][3];
  }

  /** Read back by fields, a standalone command starts `sbatch -p short` and names its two logs. */
  lemma StandaloneJobWords(t: SetType, k: nat, file: string, runningDir: string, jobLogs: string,
                           config: Option<string>, particle: string)
    requires IsWord(jobLogs)
    ensures var job := JobFor(t, k, file, runningDir, jobLogs, config, particle, false);
      && |Words(job.command)| >= 7
      && Words(job.command)[..7] == ["sbatch", "-p", "short", "-e", job.jobe, "-o", job.jobo]
  {
    var job := JobFor(t, k, file, runningDir, jobLogs, config, particle, false);
    LogPathIsWord(jobLogs, t, k, 'o');
    LogPathIsWord(jobLogs, t, k, 'e');
    var head := StandaloneOptions(job.jobe, job.jobo);
    StandaloneOptionsAreWords(job.jobe, job.jobo);
    LeadingWords(head, [BaseCommand(OutputDir(runningDir, t), config), job.listPath]);
  }

  /** A log path under a space-free directory has no space in it. */
  lemma LogPathIsWord(jobLogs: string, t: SetType, k: nat, ext: char)
    requires IsWord(jobLogs) && ext != ' '
    ensures IsWord(PathJoin(jobLogs, LogName(t, k, ext)))
  {
    var d := NatToString(k);
    assert ' ' !in d by {
      assert forall i :: 0 <= i < |d| ==> d[i] != ' ' by {
        forall i | 0 <= i < |d| ensures d[i] != ' ' {
          assert IsDigit(d[i]);
        }
      }
    }
    assert ' ' !in LogTag(t);
    PathJoinNoSpace(jobLogs, LogName(t, k, ext));
  }

  /** Joining space-free names gives a space-free path. */
  lemma PathJoinNoSpace(a: string, b: string)
    requires IsWord(a) && IsWord(b)
    ensures IsWord(PathJoin(a, b))
  {
  }

  /** The jobs of one set, one per list file in the order `os.listdir` returns
      them, counted from 0. The job-name lookup fails on the first job when the
      particle is not in the table. */
  function SetJobs(t: SetType, listing: seq<string>, runningDir: string, jobLogs: string,
                   config: Option<string>, particle: string, fullWorkflow: bool): (r: Result<seq<Job>>)
    ensures r.Err? <==> fullWorkflow && |listing| > 0 && particle !in JobNames
    ensures r.Err? ==> r.error == KeyError(particle)
    ensures r.Ok? ==> |r.value| == |listing|
    ensures r.Ok? ==> forall k :: 0 <= k < |listing| ==>
      r.value[k] == JobFor(t, k, listing[k], runningDir, jobLogs, config, particle, fullWorkflow)
    ensures r.Ok? ==> forall k :: 0 <= k < |listing| ==> r.value[k].listPath == PathJoin(DirLists(runningDir, t), listing[k])
  {
    if fullWorkflow && |listing| > 0 && particle !in JobNames then Err(KeyError(particle))
    else if |listing| == 0 then Ok([])
    else Ok(seq(|listing|, k requires 0 <= k < |listing| =>
      JobFor(t, k, listing[k], runningDir, jobLogs, config, particle, fullWorkflow)))
  }

  /** No two jobs of a run share a log path: the set and the counter differ. */
  lemma JobLogsDistinct(jobLogs: string, t1: SetType, k1: nat, t2: SetType, k2: nat)
    requires t1 != t2 || k1 != k2
    ensures PathJoin(jobLogs, LogName(t1, k1, 'o')) != PathJoin(jobLogs, LogName(t2, k2, 'o'))
    ensures PathJoin(jobLogs, LogName(t1, k1, 'e')) != PathJoin(jobLogs, LogName(t2, k2, 'e'))
    ensures PathJoin(jobLogs, LogName(t1, k1, 'o')) != PathJoin(jobLogs, LogName(t2, k2, 'e'))
  {
    var names := [LogName(t1, k1, 'o'), LogName(t2, k2, 'o'), LogName(t1, k1, 'e'), LogName(t2, k2, 'e')];
    assert forall i :: 0 <= i < 4 ==> names[i][0] == 'j';
    if PathJoin(jobLogs, names[0]) == PathJoin(jobLogs, names[1]) {
      PathJoinInjective(jobLogs, names[0], names[1]);
      LogNameInjective(t1, k1, 'o', t2, k2, 'o');
    }
    if PathJoin(jobLogs, names[2]) == PathJoin(jobLogs, names[3]) {
      PathJoinInjective(jobLogs, names[2], names[3]);
      LogNameInjective(t1, k1, 'e', t2, k2, 'e');
    }
    if PathJoin(jobLogs, names[0]) == PathJoin(jobLogs, names[3]) {
      PathJoinInjective(jobLogs, names[0], names[3]);
      LogNameInjective(t1, k1, 'o', t2, k2, 'e');
    }
  }

  // ---------------------------------------------------------------------------
  // Directory preparation

  /** One directory of the run prepared: with the question in standalone mode,
      without it in workflow mode; the answer lines left over come back. */
  function PrepareDir(fs: Tree, dir: string, interactive: bool, answers: seq<string>): (r: Result<(Tree, seq<string>)>)
    requires WellFormed(fs)
    ensures r.Ok? ==> Prepared(fs, PathParts(dir), r.value.0)
    ensures r.Ok? ==> |r.value.1| <= |answers| && r.value.1 == answers[|answers| - |r.value.1|..]
    ensures !interactive ==> r.Ok? ==> r.value.1 == answers
  {
    var d := PathParts(dir);
    if interactive then
      match CheckAndMakeDir(fs, d, answers)
      case Err(e) => Err(e)
      case Ok(t) => Ok((t, Unused(answers, AnswersUsed(fs, d, answers))))
    else
      match CheckAndMakeDirWithoutVerification(fs, d)
      case Err(e) => Err(e)
      case Ok(t) => Ok((t, answers))
  }

  /** The answers left once the first `n` are read. */
  function Unused<T>(answers: seq<T>, n: nat): (r: seq<T>)
    requires n <= |answers|
    ensures |r| <= |answers| && r == answers[|answers| - |r|..]
  {
    answers[n..]
  }

  /** No directory prepared after `dirs[i]` lies strictly above it, so none removes it. */
  predicate Outlasts(dirs: seq<string>, i: int)
    requires 0 <= i < |dirs|
  {
    forall j :: i < j < |dirs| ==> !StrictlyUnder(PathParts(dirs[j]), PathParts(dirs[i]))
  }

  /** Nor does any lie strictly below it, so nothing is made inside it. */
  predicate StaysEmpty(dirs: seq<string>, i: int)
    requires 0 <= i < |dirs|
  {
    && Outlasts(dirs, i)
    && forall j :: i < j < |dirs| ==> !StrictlyUnder(PathParts(dirs[i]), PathParts(dirs[j]))
  }

  /** `p` is none of the directories and lies below none of them. */
  predicate OutsideAll(dirs: seq<string>, p: Path) {
    forall i :: 0 <= i < |dirs| ==> !Under(PathParts(dirs[i]), p)
  }

  /** What preparing `dirs` in turn promises of the tree `out` it leaves: each
      directory exists unless a later one contains it, and is empty unless a
      later one is made inside it; nothing outside them changes. */
  ghost predicate DirsPrepared(fs: Tree, dirs: seq<string>, out: Tree) {
    && (forall i :: 0 <= i < |dirs| && Outlasts(dirs, i) ==> IsDir(out, PathParts(dirs[i])))
    && (forall i :: 0 <= i < |dirs| && StaysEmpty(dirs, i) ==> !HasEntries(out, PathParts(dirs[i])))
    && (forall p :: p in fs && OutsideAll(dirs, p) ==> p in out && out[p] == fs[p])
  }

  /** The directories prepared in turn. */
  function PrepareDirs(fs: Tree, dirs: seq<string>, interactive: bool, answers: seq<string>): (r: Result<(Tree, seq<string>)>)
    requires WellFormed(fs)
    ensures r.Ok? ==> WellFormed(r.value.0)
    ensures r.Ok? && |dirs| > 0 ==> IsDir(r.value.0, PathParts(dirs[|dirs| - 1]))
    decreases |dirs|
  {
    if |dirs| == 0 then Ok((fs, answers))
    else
      match PrepareDirs(fs, dirs[..|dirs| - 1], interactive, answers)
      case Err(e) => Err(e)
      case Ok(before) => PrepareDir(before.0, dirs[|dirs| - 1], interactive, before.1)
  }

  /** Preparing directories in turn keeps the promise for every one of them. */
  lemma {:induction false} PreparedDirs(fs: Tree, dirs: seq<string>, interactive: bool, answers: seq<string>)
    requires WellFormed(fs)
    ensures var r := PrepareDirs(fs, dirs, interactive, answers);
      r.Ok? ==> DirsPrepared(fs, dirs, r.value.0)
    decreases |dirs|
  {
    if |dirs| > 0 {
      PreparedDirs(fs, dirs[..|dirs| - 1], interactive, answers);
      PreparedAfter(fs, dirs, interactive, answers);
    }
  }

  /** Preparing the last directory keeps what the earlier preparations promised
      for the directories it neither contains nor lies inside. */
  lemma PreparedAfter(fs: Tree, dirs: seq<string>, interactive: bool, answers: seq<string>)
    requires WellFormed(fs) && |dirs| > 0
    requires var before := PrepareDirs(fs, dirs[..|dirs| - 1], interactive, answers);
      before.Ok? ==> DirsPrepared(fs, dirs[..|dirs| - 1], before.value.0)
    ensures var r := PrepareDirs(fs, dirs, interactive, answers);
      r.Ok? ==> DirsPrepared(fs, dirs, r.value.0)
  {
    var before := PrepareDirs(fs, dirs[..|dirs| - 1], interactive, answers);
    if before.Ok? {
      var mid := before.value.0;
      var step := PrepareDir(mid, dirs[|dirs| - 1], interactive, before.value.1);
      PrepareDirsLast(fs, dirs, interactive, answers);
      if step.Ok? {
        PreparedStep(fs, mid, step.value.0, dirs, PathParts(dirs[|dirs| - 1]));
      }
    }
  }

  /** A run of preparations ends with the preparation of the last directory. */
  lemma PrepareDirsLast(fs: Tree, dirs: seq<string>, interactive: bool, answers: seq<string>)
    requires WellFormed(fs) && |dirs| > 0
    requires PrepareDirs(fs, dirs[..|dirs| - 1], interactive, answers).Ok?
    ensures var before := PrepareDirs(fs, dirs[..|dirs| - 1], interactive, answers).value;
      PrepareDirs(fs, dirs, interactive, answers) == PrepareDir(before.0, dirs[|dirs| - 1], interactive, before.1)
  {
  }

  /** The step itself, on the trees before and after the last preparation. */
  lemma PreparedStep(fs: Tree, mid: Tree, out: Tree, dirs: seq<string>, lastPath: Path)
    requires |dirs| > 0 && lastPath == PathParts(dirs[|dirs| - 1])
    requires Prepared(mid, lastPath, out)
    requires DirsPrepared(fs, dirs[..|dirs| - 1], mid)
    ensures DirsPrepared(fs, dirs, out)
  {
    var init := dirs[..|dirs| - 1];
    forall i | 0 <= i < |dirs| && Outlasts(dirs, i)
      ensures IsDir(out, PathParts(dirs[i]))
      ensures StaysEmpty(dirs, i) ==> !HasEntries(out, PathParts(dirs[i]))
    {
      if i < |init| {
        OutlastsPrefix(dirs, i);
        PreparedKeeps(mid, lastPath, out, PathParts(dirs[i]));
        if StaysEmpty(dirs, i) {
          StaysEmptyPrefix(dirs, i);
        }
      }
    }
    forall p | p in fs && OutsideAll(dirs, p)
      ensures p in out && out[p] == fs[p]
    {
      OutsideAllPrefix(dirs, p);
    }
  }

  lemma OutlastsPrefix(dirs: seq<string>, i: int)
    requires 0 <= i < |dirs| - 1 && Outlasts(dirs, i)
    ensures dirs[..|dirs| - 1][i] == dirs[i] && Outlasts(dirs[..|dirs| - 1], i)
    ensures !StrictlyUnder(PathParts(dirs[|dirs| - 1]), PathParts(dirs[i]))
  {
    var init := dirs[..|dirs| - 1];
    forall j | i < j < |init| ensures !StrictlyUnder(PathParts(init[j]), PathParts(init[i])) {
      assert init[j] == dirs[j];
    }
  }

  lemma StaysEmptyPrefix(dirs: seq<string>, i: int)
    requires 0 <= i < |dirs| - 1 && StaysEmpty(dirs, i)
    ensures StaysEmpty(dirs[..|dirs| - 1], i)
    ensures !StrictlyUnder(PathParts(dirs[i]), PathParts(dirs[|dirs| - 1]))
  {
    var init := dirs[..|dirs| - 1];
    OutlastsPrefix(dirs, i);
    forall j | i < j < |init| ensures !StrictlyUnder(PathParts(init[i]), PathParts(init[j])) {
      assert init[j] == dirs[j];
    }
  }

  lemma OutsideAllPrefix(dirs: seq<string>, p: Path)
    requires |dirs| > 0 && OutsideAll(dirs, p)
    ensures OutsideAll(dirs[..|dirs| - 1], p) && !Under(PathParts(dirs[|dirs| - 1]), p)
  {
    var init := dirs[..|dirs| - 1];
    forall i | 0 <= i < |init| ensures !Under(PathParts(init[i]), p) {
      assert init[i] == dirs[i];
    }
  }

  /** A directory that a preparation neither removes nor fills is still a
      directory afterwards, and still empty if it was. */
  lemma PreparedKeeps(fs: Tree, d: Path, r: Tree, e: Path)
    requires Prepared(fs, d, r)
    requires IsDir(fs, e) && !StrictlyUnder(d, e)
    ensures IsDir(r, e)
    ensures !HasEntries(fs, e) && !StrictlyUnder(e, d) ==> !HasEntries(r, e)
  {
    if !HasEntries(fs, e) && e != d {
      NewChildIsAbove(fs, d, r, e);
    }
  }

  /** An entry a preparation adds inside an empty directory other than the
      prepared one leads down to the prepared directory. */
  lemma NewChildIsAbove(fs: Tree, d: Path, r: Tree, e: Path)
    requires Prepared(fs, d, r) && !HasEntries(fs, e) && e != d
    ensures HasEntries(r, e) ==> StrictlyUnder(e, d)
  {
    if HasEntries(r, e) {
      var c :| c in r && IsChild(e, c);
      assert c !in fs;
      assert d[..|e|] == c[..|e|];
    }
  }

  // ---------------------------------------------------------------------------
  // main

  datatype Settings = Settings(
    inputDir: Path,
    configFile: Option<string>,
    ratio: Fraction,
    randomSeed: int,
    nFilesPerDl1: int,
    particle: Option<string>,
    prodId: Option<string>,
    fullWorkflow: bool,
    offset: Option<string>)

  /** What the script reads from the world: the file tree and the order
      `os.listdir` gives for the input directory, the date, the lstchain
      version, file sizes, the seeded shuffle, the order `os.listdir` gives for
      the list files of a set, the scheduler's reply to the `i`-th submission,
      and the answer lines typed at the prompts. */
  datatype Environment = Environment(
    fs: Tree,
    inputListing: seq<string>,
    today: Date,
    version: string,
    fileSize: string -> nat,
    shuffle: (int, seq<string>) -> seq<string>,
    listOrder: (SetType, seq<string>) -> seq<string>,
    submit: (nat, string) -> string,
    answers: seq<string>)

  /** `random.shuffle` only reorders: whatever the seed, the same files come back. */
  ghost predicate ShufflePermutes(shuffle: (int, seq<string>) -> seq<string>) {
    forall seed, xs :: multiset(shuffle(seed, xs)) == multiset(xs)
  }

  /** `os.listdir` of a directory holding exactly the given names returns
      those names, in some order. */
  ghost predicate ListingPermutes(listOrder: (SetType, seq<string>) -> seq<string>) {
    forall t, xs :: multiset(listOrder(t, xs)) == multiset(xs)
  }

  /** The entry recorded for a job in `jobid2log`. */
  datatype JobRecord = JobRecord(particle: string, setType: string, jobePath: string, joboPath: string, sbatchCommand: string)

  function RecordOf(particle: string, job: Job): JobRecord {
    JobRecord(particle, SetName(job.setType), job.jobe, job.jobo, job.command)
  }

  /** The workflow-mode return value `(jobid2log, jobids_r0_dl1)`. */
  datatype Returned = Returned(jobid2log: map<string, JobRecord>, jobids: seq<string>)

  /** A written list file: its path and its lines. */
  datatype ListFile = ListFile(path: string, lines: seq<string>)

  /** What one set of the loop produced. */
  datatype SetRun = SetRun(fs: Tree, answers: seq<string>, listFiles: seq<ListFile>, jobs: seq<Job>)

  /** What a run leaves behind: the file tree after the directory preparation,
      the list files written, the jobs submitted (by `os.system` in standalone
      mode, by `os.popen` in workflow mode) and the return value. */
  datatype Run = Run(fs: Tree, listFiles: seq<ListFile>, jobs: seq<Job>, returned: Option<Returned>)

  /** The list files of a set, sublist `i` in `<set>_<i>.list`. */
  function ListFilesOf(dirLists: string, t: SetType, lists: seq<seq<string>>): (r: seq<ListFile>)
    ensures |r| == |lists|
    ensures forall i :: 0 <= i < |lists| ==> r[i] == ListFile(PathJoin(dirLists, ListFileName(t, i)), lists[i])
  {
    seq(|lists|, i requires 0 <= i < |lists| => ListFile(PathJoin(dirLists, ListFileName(t, i)), lists[i]))
  }

  /** The lines of list files one after the other. */
  function ListedLines(lfs: seq<ListFile>): seq<string> {
    Flatten(seq(|lfs|, i requires 0 <= i < |lfs| => lfs[i].lines))
  }

  /** The list files of a set hold its sublists in order. */
  lemma ListedLinesOf(dirLists: string, t: SetType, lists: seq<seq<string>>)
    ensures ListedLines(ListFilesOf(dirLists, t, lists)) == Flatten(lists)
  {
    var lfs := ListFilesOf(dirLists, t, lists);
    assert seq(|lfs|, i requires 0 <= i < |lfs| => lfs[i].lines) == lists;
  }

  /** The lines of two runs of list files are those of the first, then those of the second. */
  lemma {:induction false} ListedLinesAppend(a: seq<ListFile>, b: seq<ListFile>)
    ensures ListedLines(a + b) == ListedLines(a) + ListedLines(b)
    decreases |b|
  {
    if |b| == 0 {
      assert a + b == a;
    } else {
      var n := |b| - 1;
      ListedLinesAppend(a, b[..n]);
      assert (a + b)[..|a + b| - 1] == a + b[..n];
      ListedLinesSnoc(a + b);
      ListedLinesSnoc(b);
    }
  }

  lemma ListedLinesSnoc(lfs: seq<ListFile>)
    requires |lfs| > 0
    ensures ListedLines(lfs) == ListedLines(lfs[..|lfs| - 1]) + lfs[|lfs| - 1].lines
  {
    var n := |lfs| - 1;
    var all := seq(|lfs|, i requires 0 <= i < |lfs| => lfs[i].lines);
    assert all[..n] == seq(n, i requires 0 <= i < n => lfs[..n][i].lines);
  }

  /** The list files of a set: sublist `i` of at most `perDl1` files in
      `<dirLists>/<set>_<i>.list`; together they hold the set's files in order. */
  function WriteLists(dirLists: string, t: SetType, files: seq<string>, perDl1: int): (r: seq<ListFile>)
    requires perDl1 != 0
    ensures |r| == |Sublists(files, perDl1)|
    ensures forall i :: 0 <= i < |r| ==> r[i].path == PathJoin(dirLists, ListFileName(t, i))
    ensures perDl1 > 0 ==> ListedLines(r) == files
    ensures perDl1 > 0 ==> forall i :: 0 <= i < |r| ==> 1 <= |r[i].lines| <= perDl1
    ensures perDl1 < 0 ==> r == []
  {
    var lists := Sublists(files, perDl1);
    if perDl1 > 0 then
      WrittenLines(dirLists, t, files, perDl1);
      ListFilesOf(dirLists, t, lists)
    else
      ListFilesOf(dirLists, t, lists)
  }

  lemma WrittenLines(dirLists: string, t: SetType, files: seq<string>, perDl1: int)
    requires perDl1 > 0
    ensures var r := ListFilesOf(dirLists, t, Sublists(files, perDl1));
      && ListedLines(r) == files
      && forall i :: 0 <= i < |r| ==> 1 <= |r[i].lines| <= perDl1
  {
    var lists := Sublists(files, perDl1);
    ListedLinesOf(dirLists, t, lists);
    SublistsCover(files, perDl1);
    ListSizes(dirLists, t, files, perDl1);
  }

  /** Every list file holds between one and `perDl1` lines. */
  lemma ListSizes(dirLists: string, t: SetType, files: seq<string>, perDl1: int)
    requires perDl1 > 0
    ensures var r := ListFilesOf(dirLists, t, Sublists(files, perDl1));
      forall i :: 0 <= i < |r| ==> 1 <= |r[i].lines| <= perDl1
  {
    var lists := Sublists(files, perDl1);
    var r := ListFilesOf(dirLists, t, lists);
    forall i | 0 <= i < |r|
      ensures 1 <= |r[i].lines| <= perDl1
    {
      SublistSize(files, perDl1, i);
      assert r[i].lines == lists[i];
    }
  }

  /** One pass of the `for set_type in 'training', 'testing'` loop. */
  function RunSet(fs: Tree, answers: seq<string>, t: SetType, files: seq<string>, perDl1: int,
                  runningDir: string, jobLogs: string, s: Settings, particle: string,
                  listOrder: (SetType, seq<string>) -> seq<string>): (r: Result<SetRun>)
    requires WellFormed(fs) && perDl1 != 0 && ListingPermutes(listOrder)
    ensures r.Ok? ==> WellFormed(r.value.fs)
    ensures r.Ok? ==> |r.value.jobs| == |Sublists(files, perDl1)|
    ensures r.Ok? ==> OneJobPerListFile(r.value.jobs, r.value.listFiles)
    ensures r.Ok? ==> NumberedJobs(r.value.jobs, t)
    ensures r.Ok? ==> r.value.listFiles == WriteLists(DirLists(runningDir, t), t, files, perDl1)
  {
    match PrepareDirs(fs, [DirLists(runningDir, t), OutputDir(runningDir, t)], !s.fullWorkflow, answers)
    case Err(e) => Err(e)
    case Ok(prepared) =>
      match ListJobs(t, files, perDl1, runningDir, jobLogs, s, particle, listOrder)
      case Err(e) => Err(e)
      case Ok(jobs) => Ok(SetRun(prepared.0, prepared.1, WriteLists(DirLists(runningDir, t), t, files, perDl1), jobs))
  }

  /** The jobs of one set, one per list file in the order the listing of the
      list directory gives. */
  function ListJobs(t: SetType, files: seq<string>, perDl1: int, runningDir: string, jobLogs: string,
                    s: Settings, particle: string, listOrder: (SetType, seq<string>) -> seq<string>): (r: Result<seq<Job>>)
    requires perDl1 != 0 && ListingPermutes(listOrder)
    ensures r.Ok? ==> |r.value| == |Sublists(files, perDl1)|
    ensures r.Ok? ==> OneJobPerListFile(r.value, WriteLists(DirLists(runningDir, t), t, files, perDl1))
    ensures r.Ok? ==> NumberedJobs(r.value, t)
  {
    var lists := Sublists(files, perDl1);
    var names := ListFileNames(t, |lists|);
    var listing := listOrder(t, names);
    match SetJobs(t, listing, runningDir, jobLogs, s.configFile, particle, s.fullWorkflow)
    case Err(e) => Err(e)
    case Ok(jobs) =>
      assert multiset(listing) == multiset(names);
      JobsCoverLists(listing, names, jobs, WriteLists(DirLists(runningDir, t), t, files, perDl1), DirLists(runningDir, t));
      Ok(jobs)
  }

  /** Every list file is submitted by one job, and every job submits a list file. */
  predicate OneJobPerListFile(jobs: seq<Job>, listFiles: seq<ListFile>) {
    |jobs| == |listFiles| && JobsRunLists(jobs, listFiles) && ListsRun(jobs, listFiles)
  }

  /** Every job submits one of the list files. */
  predicate JobsRunLists(jobs: seq<Job>, listFiles: seq<ListFile>) {
    forall k :: 0 <= k < |jobs| ==> jobs[k].listPath in ListFilePaths(listFiles)
  }

  /** Every list file is submitted by some job. */
  predicate ListsRun(jobs: seq<Job>, listFiles: seq<ListFile>) {
    forall i :: 0 <= i < |listFiles| ==> listFiles[i].path in JobListPaths(jobs)
  }

  /** The list file of each job, in job order. */
  function JobListPaths(jobs: seq<Job>): (r: seq<string>)
    ensures |r| == |jobs| && forall k :: 0 <= k < |jobs| ==> r[k] == jobs[k].listPath
  {
    seq(|jobs|, k requires 0 <= k < |jobs| => jobs[k].listPath)
  }

  /** The path of each list file, in order. */
  function ListFilePaths(listFiles: seq<ListFile>): (r: seq<string>)
    ensures |r| == |listFiles| && forall i :: 0 <= i < |listFiles| ==> r[i] == listFiles[i].path
  {
    seq(|listFiles|, i requires 0 <= i < |listFiles| => listFiles[i].path)
  }

  /** Jobs made for a listing of the written list files run those files, one each. */
  lemma JobsCoverLists(listing: seq<string>, names: seq<string>, jobs: seq<Job>, listFiles: seq<ListFile>, dirLists: string)
    requires multiset(listing) == multiset(names)
    requires |jobs| == |listing| && forall k :: 0 <= k < |jobs| ==> jobs[k].listPath == PathJoin(dirLists, listing[k])
    requires |listFiles| == |names| && forall i :: 0 <= i < |listFiles| ==> listFiles[i].path == PathJoin(dirLists, names[i])
    ensures OneJobPerListFile(jobs, listFiles)
  {
    assert |listing| == |multiset(listing)| == |multiset(names)| == |names|;
    JobsFindLists(listing, names, jobs, listFiles, dirLists);
    ListsFindJobs(listing, names, jobs, listFiles, dirLists);
  }

  lemma JobsFindLists(listing: seq<string>, names: seq<string>, jobs: seq<Job>, listFiles: seq<ListFile>, dirLists: string)
    requires multiset(listing) == multiset(names)
    requires |jobs| == |listing| && forall k :: 0 <= k < |jobs| ==> jobs[k].listPath == PathJoin(dirLists, listing[k])
    requires |listFiles| == |names| && forall i :: 0 <= i < |listFiles| ==> listFiles[i].path == PathJoin(dirLists, names[i])
    ensures JobsRunLists(jobs, listFiles)
  {
    var paths := ListFilePaths(listFiles);
    forall k | 0 <= k < |jobs|
      ensures jobs[k].listPath in paths
    {
      assert listing[k] in multiset(names);
      var i :| 0 <= i < |names| && names[i] == listing[k];
      assert paths[i] == jobs[k].listPath;
    }
  }

  lemma ListsFindJobs(listing: seq<string>, names: seq<string>, jobs: seq<Job>, listFiles: seq<ListFile>, dirLists: string)
    requires multiset(listing) == multiset(names)
    requires |jobs| == |listing| && forall k :: 0 <= k < |jobs| ==> jobs[k].listPath == PathJoin(dirLists, listing[k])
    requires |listFiles| == |names| && forall i :: 0 <= i < |listFiles| ==> listFiles[i].path == PathJoin(dirLists, names[i])
    ensures ListsRun(jobs, listFiles)
  {
    var paths := JobListPaths(jobs);
    forall i | 0 <= i < |listFiles|
      ensures listFiles[i].path in paths
    {
      assert names[i] in multiset(listing);
      var k :| 0 <= k < |listing| && listing[k] == names[i];
      assert paths[k] == listFiles[i].path;
    }
  }

  /** The jobs and list files of two sets together still match one to one. */
  lemma OneJobPerListFileAppend(j1: seq<Job>, l1: seq<ListFile>, j2: seq<Job>, l2: seq<ListFile>)
    requires OneJobPerListFile(j1, l1) && OneJobPerListFile(j2, l2)
    ensures OneJobPerListFile(j1 + j2, l1 + l2)
  {
    JobsRunListsAppend(j1, l1, j2, l2);
    ListsRunAppend(j1, l1, j2, l2);
  }

  lemma JobsRunListsAppend(j1: seq<Job>, l1: seq<ListFile>, j2: seq<Job>, l2: seq<ListFile>)
    requires JobsRunLists(j1, l1) && JobsRunLists(j2, l2)
    ensures JobsRunLists(j1 + j2, l1 + l2)
  {
    assert ListFilePaths(l1 + l2) == ListFilePaths(l1) + ListFilePaths(l2);
    forall k | 0 <= k < |j1 + j2|
      ensures (j1 + j2)[k].listPath in ListFilePaths(l1 + l2)
    {
      if k < |j1| {
        assert (j1 + j2)[k] == j1[k];
      } else {
        assert (j1 + j2)[k] == j2[k - |j1|];
      }
    }
  }

  lemma ListsRunAppend(j1: seq<Job>, l1: seq<ListFile>, j2: seq<Job>, l2: seq<ListFile>)
    requires ListsRun(j1, l1) && ListsRun(j2, l2)
    ensures ListsRun(j1 + j2, l1 + l2)
  {
    assert JobListPaths(j1 + j2) == JobListPaths(j1) + JobListPaths(j2);
    forall i | 0 <= i < |l1 + l2|
      ensures (l1 + l2)[i].path in JobListPaths(j1 + j2)
    {
      if i < |l1| {
        assert (l1 + l2)[i] == l1[i];
      } else {
        assert (l1 + l2)[i] == l2[i - |l1|];
      }
    }
  }

  /** The ids the scheduler prints for the commands, submitted in order, with `strip('\n')`. */
  function JobIds(commands: seq<string>, submit: (nat, string) -> string): (ids: seq<string>)
    ensures |ids| == |commands|
    ensures forall k :: 0 <= k < |ids| ==> ids[k] == Strip(submit(k, commands[k]), '\n')
  {
    seq(|commands|, k requires 0 <= k < |commands| => Strip(submit(k, commands[k]), '\n'))
  }

  /** Jobs told apart by set and counter. */
  predicate DistinctJobs(jobs: seq<Job>) {
    forall i, j :: 0 <= i < j < |jobs| ==> jobs[i].setType != jobs[j].setType || jobs[i].counter != jobs[j].counter
  }

  /** The jobs of a set, numbered from 0. */
  predicate NumberedJobs(jobs: seq<Job>, t: SetType) {
    forall k :: 0 <= k < |jobs| ==> jobs[k].setType == t && jobs[k].counter == k
  }

  /** The training jobs followed by the testing jobs are told apart. */
  lemma SetsDistinct(train: seq<Job>, test: seq<Job>)
    requires NumberedJobs(train, Training) && NumberedJobs(test, Testing)
    ensures DistinctJobs(train + test)
  {
    var jobs := train + test;
    forall i, j | 0 <= i < j < |jobs|
      ensures jobs[i].setType != jobs[j].setType || jobs[i].counter != jobs[j].counter
    {
      var n := |train|;
      if j < n {
        assert jobs[i] == train[i] && jobs[j] == train[j];
      } else if i < n {
        assert jobs[i] == train[i] && jobs[j] == test[j - n];
      } else {
        assert jobs[i] == test[i - n] && jobs[j] == test[j - n];
      }
    }
  }

  /** The training set, then the testing set. */
  function RunBothSets(fs: Tree, answers: seq<string>, part: Partition, perDl1: int,
                       runningDir: string, jobLogs: string, s: Settings, particle: string,
                       listOrder: (SetType, seq<string>) -> seq<string>): (r: Result<Run>)
    requires WellFormed(fs) && perDl1 != 0 && ListingPermutes(listOrder)
    ensures r.Ok? ==> WellFormed(r.value.fs) && r.value.returned.None?
    ensures r.Ok? ==> DistinctJobs(r.value.jobs)
    ensures r.Ok? ==> OneJobPerListFile(r.value.jobs, r.value.listFiles)
    ensures r.Ok? ==> |r.value.jobs| == |Sublists(part.training, perDl1)| + |Sublists(part.testing, perDl1)|
    ensures r.Ok? && perDl1 > 0 ==> ListedLines(r.value.listFiles) == part.training + part.testing
  {
    match RunSet(fs, answers, Training, part.training, perDl1, runningDir, jobLogs, s, particle, listOrder)
    case Err(e) => Err(e)
    case Ok(train) =>
      match RunSet(train.fs, train.answers, Testing, part.testing, perDl1, runningDir, jobLogs, s, particle, listOrder)
      case Err(e) => Err(e)
      case Ok(test) =>
        var jobs := train.jobs + test.jobs;
        SetsDistinct(train.jobs, test.jobs);
        ListedLinesAppend(train.listFiles, test.listFiles);
        OneJobPerListFileAppend(train.jobs, train.listFiles, test.jobs, test.listFiles);
        Ok(Run(test.fs, train.listFiles + test.listFiles, jobs, None))
  }

  /** The workflow-mode return value of a run: one id per job, the id printed
      by the scheduler for that job's command, and `jobid2log` keyed by exactly
      those ids, each holding the record of the last job submitted under it. */
  ghost predicate WorkflowReturn(ret: Returned, jobs: seq<Job>, particle: string, submit: (nat, string) -> string) {
    && |ret.jobids| == |jobs|
    && (forall k :: 0 <= k < |jobs| ==> ret.jobids[k] == Strip(submit(k, jobs[k].command), '\n'))
    && ret.jobid2log.Keys == (set k | 0 <= k < |jobs| :: ret.jobids[k])
    && (forall k :: 0 <= k < |jobs| && JobLogs.LastOccurrence(ret.jobids, k) ==>
          ret.jobid2log[ret.jobids[k]] == RecordOf(particle, jobs[k]))
  }

  /** The workflow mode's submissions: every command goes to the scheduler in
      turn, and `jobid2log` maps each returned id to its job's record, a later
      submission's record replacing an earlier one under the same id. */
  function Submitted(run: Run, particle: string, submit: (nat, string) -> string): (r: Run)
    ensures r == run.(returned := r.returned)
    ensures r.returned.Some?
    ensures WorkflowReturn(r.returned.value, run.jobs, particle, submit)
  {
    var jobs := run.jobs;
    var ids := JobIds(seq(|jobs|, k requires 0 <= k < |jobs| => jobs[k].command), submit);
    var records := seq(|jobs|, k requires 0 <= k < |jobs| => RecordOf(particle, jobs[k]));
    run.(returned := Some(Returned(JobLogs.Record(ids, records), ids)))
  }

  /** The inputs of a run: the files of the input directory, shuffled and
      split, and the number of files per DL1 job. */
  function SplitInputs(s: Settings, env: Environment): (r: Result<(Partition, int)>)
    requires WellFormed(env.fs)
    requires IsDir(env.fs, s.inputDir) ==> IsListing(env.fs, s.inputDir, env.inputListing)
    ensures !IsDir(env.fs, s.inputDir) ==> r.Err?
    ensures r.Ok? ==> r.value.1 != 0 && (s.nFilesPerDl1 >= 0 ==> r.value.1 > 0)
    ensures r.Ok? ==> IsDir(env.fs, s.inputDir)
    ensures r.Ok? ==>
      r.value.0.training + r.value.0.testing == env.shuffle(s.randomSeed, InputFiles(env.fs, s.inputDir, env.inputListing))
  {
    match CheckDataPath(env.fs, s.inputDir, env.inputListing)
    case Err(e) => Err(e)
    case Ok(_) => SplitFiles(s, env, InputFiles(env.fs, s.inputDir, env.inputListing))
  }

  /** `get_input_filelist(input_dir)` printed: the paths of the regular files
      directly in the input directory, in listing order. */
  function InputFiles(fs: Tree, d: Path, listing: seq<string>): (r: seq<string>)
    requires WellFormed(fs) && IsDir(fs, d) && IsListing(fs, d, listing)
    ensures |r| == |GetInputFilelist(fs, d, listing).value|
  {
    FileNames(GetInputFilelist(fs, d, listing).value)
  }

  /** The printed paths of a file list. */
  function FileNames(raw: seq<Path>): (r: seq<string>)
    ensures |r| == |raw| && forall k :: 0 <= k < |r| ==> r[k] == PathString(raw[k])
  {
    seq(|raw|, k requires 0 <= k < |raw| => PathString(raw[k]))
  }

  /** Size the DL1 jobs on the first file, then split the shuffled files. */
  function SplitFiles(s: Settings, env: Environment, files: seq<string>): (r: Result<(Partition, int)>)
    requires |files| > 0
    ensures r.Ok? ==> r.value.1 != 0 && (s.nFilesPerDl1 >= 0 ==> r.value.1 > 0)
    ensures r.Ok? ==> r.value.0.training + r.value.0.testing == env.shuffle(s.randomSeed, files)
  {
    match FilesPerDl1(s.nFilesPerDl1, env.fileSize(files[0]))
    case Err(e) => Err(e)
    case Ok(perDl1) => Ok((SplitTrainTest(env.shuffle(s.randomSeed, files), s.ratio), perDl1))
  }

  /** The run once the inputs are known: prepare the running directories,
      write the list files of both sets and, in the workflow, submit them. */
  function Launch(s: Settings, env: Environment, particle: string, prod: string, part: Partition, perDl1: int): (r: Result<Run>)
    requires WellFormed(env.fs) && perDl1 != 0 && ListingPermutes(env.listOrder)
    ensures r.Ok? ==> WellFormed(r.value.fs)
    ensures r.Ok? ==> (r.value.returned.Some? <==> s.fullWorkflow)
    ensures r.Ok? ==> DistinctJobs(r.value.jobs)
    ensures r.Ok? && s.fullWorkflow ==>
      WorkflowReturn(r.value.returned.value, r.value.jobs, particle, env.submit)
    ensures r.Ok? && perDl1 > 0 ==> ListedLines(r.value.listFiles) == part.training + part.testing
    ensures r.Ok? ==> OneJobPerListFile(r.value.jobs, r.value.listFiles)
  {
    var runningDir := PathJoin(Replace(PathString(s.inputDir), "DL0", "running_analysis"), prod);
    var jobLogs := PathJoin(runningDir, "job_logs");
    var dl1Dir := PathJoin(runningDir, "DL1");
    match PrepareDirs(env.fs, [runningDir, dl1Dir, jobLogs], !s.fullWorkflow, env.answers)
    case Err(e) => Err(e)
    case Ok(prepared) =>
      match RunBothSets(prepared.0, prepared.1, part, perDl1, runningDir, jobLogs, s, particle, env.listOrder)
      case Err(e) => Err(e)
      case Ok(run) =>
        if s.fullWorkflow then Ok(Submitted(run, particle, env.submit)) else Ok(run)
  }

  /** `main(...)`: check the input directory, size the list files, split the
      shuffled files, prepare the running directories, write the list files of
      both sets and submit one job per list file. */
  function ScriptMain(s: Settings, env: Environment): (r: Result<Run>)
    requires WellFormed(env.fs)
    requires IsDir(env.fs, s.inputDir) ==> IsListing(env.fs, s.inputDir, env.inputListing)
    requires ShufflePermutes(env.shuffle) && ListingPermutes(env.listOrder)
    ensures !IsDir(env.fs, s.inputDir) ==> r.Err?
    ensures s.particle.None? ==> r.Err?
    ensures s.particle.Some? && Contains(s.particle.value, "off") ==> r.Err?
    ensures s.fullWorkflow && s.prodId.None? ==> r.Err?
    ensures r.Ok? ==> WellFormed(r.value.fs)
    ensures r.Ok? ==> (r.value.returned.Some? <==> s.fullWorkflow)
    ensures r.Ok? ==> DistinctJobs(r.value.jobs)
    ensures r.Ok? && s.fullWorkflow ==>
      WorkflowReturn(r.value.returned.value, r.value.jobs, s.particle.value, env.submit)
    ensures r.Ok? ==> IsDir(env.fs, s.inputDir)
    ensures r.Ok? && s.nFilesPerDl1 >= 0 ==>
      ListedLines(r.value.listFiles) == env.shuffle(s.randomSeed, InputFiles(env.fs, s.inputDir, env.inputListing))
    ensures r.Ok? && s.nFilesPerDl1 >= 0 ==>
      multiset(ListedLines(r.value.listFiles)) == multiset(InputFiles(env.fs, s.inputDir, env.inputListing))
    ensures r.Ok? ==> OneJobPerListFile(r.value.jobs, r.value.listFiles)
  {
    var prod := ProdId(s.fullWorkflow, s.prodId, env.today, env.version);
    match SplitInputs(s, env)
    case Err(e) => Err(e)
    case Ok(inputs) =>
      if s.particle.None? then Err(TypeError)
      else if Contains(s.particle.value, "off") then Err(AttributeError)
      else if prod.None? then Err(TypeError)
      else Launch(s, env, s.particle.value, prod.value, inputs.0, inputs.1)
  }
}
