/** The DL1 merge stage: one `sbatch` submission per merge entry, each wrapping
    the merge tool of the workflow kind, and the comma-joined job ids handed on
    to the next stage as its dependency. */
module MergeDl1 {
  import opened Results
  import opened PyText
  import opened Commands
  import JobLogs
  import SeqFacts

  /** `batch_configuration`: the shell line that activates the environment, and
      the Slurm account (empty for none). */
  datatype BatchConfig = BatchConfig(sourceEnvironment: string, slurmAccount: string)

  /** `merging_options`. */
  datatype MergingOptions = MergingOptions(noImage: bool, smart: bool)

  /** The merge program a command runs, with the options it hands on. */
  datatype Tool = Lstchain | Hiperta(noImage: bool, smart: bool) | Ctapipe(skipImages: bool)

  /** The tool of a workflow kind: `lstchain` ignores both options, `hiperta`
      passes both, and every other kind is the ctapipe merge, which only sees
      `no_image`. */
  function ToolOf(kind: string, opts: MergingOptions): Tool {
    if kind == "lstchain" then Lstchain
    else if kind == "hiperta" then Hiperta(opts.noImage, opts.smart)
    else Ctapipe(opts.noImage)
  }

  const DependencyFlag: string := "--dependency=afterok:"

  /** `sbatch --parsable -p short`, then `-A <account>` for a non-empty account,
      then the dependency on `wait` for a non-empty `wait`. */
  function SchedulerOptions(account: string, wait: string): seq<string> {
    ["sbatch", "--parsable", "-p", "short"]
    + (if account != "" then ["-A", account] else [])
    + (if wait != "" then [DependencyFlag + wait] else [])
  }

  const OutputLogName: string := "merging-output.o"
  const ErrorLogName: string := "merging-error.e"

  /** `Path(output_file).parent.joinpath(name)`, printed. */
  function LogBeside(output: string, name: string): string
    requires IsPart(name)
  {
    JoinPath(PathParent(output), name)
  }

  /** The words of the merge program's invocation; the last one closes the
      `--wrap="` quote. */
  function ToolTokens(tool: Tool, input: string, output: string): seq<string> {
    match tool
    case Lstchain =>
      ["lstchain_merge_hdf5_files", "-d", input, "-o", output, "--no-image\""]
    case Hiperta(noImage, smart) =>
      ["lstchain_merge_hdf5_files", "-d", input, "-o", output, "--no-image", BoolText(noImage), "--smart", BoolText(smart) + "\""]
    case Ctapipe(skip) =>
      if skip then ["ctapipe-merge", "--input-dir", input, "--output", output, "--skip-images", "--skip-simu-images\""]
      else ["ctapipe-merge", "--input-dir", input, "--output", output + "\""]
  }

  /** The command `merge_dl1` submits: the scheduler options, the job name and
      logs, and the merge program wrapped after the environment line. */
  function MergeCommand(input: string, output: string, config: BatchConfig, wait: string,
                        opts: MergingOptions, kind: string): string
  {
    Render(MergeHead(output, config, wait) + ToolTokens(ToolOf(kind, opts), input, output))
  }

  /** The scheduler part of the merge command, up to the opening `--wrap="`. */
  function MergeHead(output: string, config: BatchConfig, wait: string): seq<string> {
    SchedulerOptions(config.slurmAccount, wait) + JobClause(output) + [WrapOpen(config.sourceEnvironment)]
  }

  /** The job name and the two log files, which sit next to the output. */
  function JobClause(output: string): seq<string> {
    ["-J", "merge", "-e", LogBeside(output, ErrorLogName), "-o", LogBeside(output, OutputLogName)]
  }

  /** The word opening the wrapped command, glued to the environment line. */
  function WrapOpen(sourceEnvironment: string): string {
    "--wrap=\"" + sourceEnvironment
  }

  /** What `merge_dl1` returns: the log `{jobid: cmd}` and the job id. */
  datatype Merged = Merged(log: map<string, string>, jobid: string)

  /** `merge_dl1(...)`: `submit` is what the scheduler prints for a command. */
  function MergeDl1(input: string, output: string, config: BatchConfig, wait: string,
                    opts: MergingOptions, kind: string, submit: string -> string): (r: Merged)
    ensures r.log.Keys == {r.jobid}
    ensures r.log[r.jobid] == MergeCommand(input, output, config, wait, opts, kind)
    ensures |r.jobid| == 0 || (r.jobid[0] != '\n' && r.jobid[|r.jobid| - 1] != '\n')
    ensures r.jobid == Strip(submit(MergeCommand(input, output, config, wait, opts, kind)), '\n')
  {
    var cmd := MergeCommand(input, output, config, wait, opts, kind);
    var jobid := Strip(submit(cmd), '\n');
    Merged(map[jobid := cmd], jobid)
  }

  // ---------------------------------------------------------------------------
  // Reading a merge command back

  /** The account and the dependency read back from the leading fields of a
      command (empty when absent). */
  function ReadOptions(w: seq<string>): Option<(string, string)> {
    if |w| < 4 || w[..4] != ["sbatch", "--parsable", "-p", "short"] then None
    else
      var next := if |w| >= 6 && w[4] == "-A" then 6 else 4;
      var account := if next == 6 then w[5] else "";
      var wait := if |w| > next && IsPrefix(DependencyFlag, w[next]) then w[next][|DependencyFlag|..] else "";
      Some((account, wait))
  }

  /** The scheduler options read back give the account and the dependency they
      were built from, when the job name follows them. */
  lemma OptionsReadBack(account: string, wait: string, rest: seq<string>)
    requires |rest| >= 1 && rest[0] == "-J"
    ensures ReadOptions(SchedulerOptions(account, wait) + rest) == Some((account, wait))
  {
    var w := SchedulerOptions(account, wait) + rest;
    var head := ["sbatch", "--parsable", "-p", "short"];
    var accountPart := if account != "" then ["-A", account] else [];
    var waitPart := if wait != "" then [DependencyFlag + wait] else [];
    assert w == head + (accountPart + (waitPart + rest));
    assert w[..4] == head;
    var next := |accountPart| + 4;
    assert w[next..] == waitPart + rest;
    assert !IsPrefix(DependencyFlag, "-J");
    if wait != "" {
      assert w[next] == DependencyFlag + wait;
      assert (DependencyFlag + wait)[|DependencyFlag|..] == wait;
    }
  }

  /** The merge program, its input and its output read back from the trailing
      fields of a command. */
  function ReadTool(w: seq<string>): Option<(Tool, string, string)> {
    var n := |w|;
    if n >= 6 && w[n - 1] == "--no-image\"" && w[n - 6] == "lstchain_merge_hdf5_files" then
      Some((Lstchain, w[n - 4], w[n - 2]))
    else if n >= 9 && w[n - 2] == "--smart" && w[n - 9] == "lstchain_merge_hdf5_files" then
      Some((Hiperta(w[n - 3] == "True", w[n - 1] == "True\""), w[n - 7], w[n - 5]))
    else if n >= 7 && w[n - 1] == "--skip-simu-images\"" && w[n - 7] == "ctapipe-merge" then
      Some((Ctapipe(true), w[n - 5], w[n - 3]))
    else if n >= 5 && w[n - 5] == "ctapipe-merge" && |w[n - 1]| >= 1 && w[n - 1][|w[n - 1]| - 1] == '"' then
      Some((Ctapipe(false), w[n - 3], w[n - 1][..|w[n - 1]| - 1]))
    else None
  }

  /** An output that reads like a closing flag makes the read-back ambiguous. */
  predicate PlainOutput(output: string) {
    output != "--no-image" && output != "--skip-simu-images"
  }

  lemma QuotedInjective(a: string, b: string)
    requires a + "\"" == b + "\""
    ensures a == b
  {
    assert a == (a + "\"")[..|a|];
    assert b == (b + "\"")[..|b|];
  }

  /** Whatever precedes them, the tool words read back as the tool, input and output. */
  lemma ToolReadBack(prefix: seq<string>, tool: Tool, input: string, output: string)
    requires PlainOutput(output)
    ensures ReadTool(prefix + ToolTokens(tool, input, output)) == Some((tool, input, output))
  {
    var t := ToolTokens(tool, input, output);
    var w := prefix + t;
    var n := |w|;
    assert forall i :: 0 <= i < |t| ==> w[|prefix| + i] == t[i];
    match tool
    case Lstchain =>
    case Hiperta(noImage, smart) =>
      assert w[n - 1] != "--no-image\"";
    case Ctapipe(skip) =>
      if skip {
        assert w[n - 1] != "--no-image\"";
      } else {
        assert w[n - 1] == output + "\"";
        if output + "\"" == "--no-image\"" {
          QuotedInjective(output, "--no-image");
        }
        if output + "\"" == "--skip-simu-images\"" {
          QuotedInjective(output, "--skip-simu-images");
        }
        assert w[n - 1][..|w[n - 1]| - 1] == output;
      }
  }

  /** The log files sit in the directory of the output file, under their own
      name, absolute exactly when the output path is. */
  lemma LogBesideOutput(output: string, name: string)
    requires IsPart(name)
    ensures var ps := PathParts(output);
      PathParts(LogBeside(output, name)) == (if |ps| == 0 then ps else ps[..|ps| - 1]) + [name]
    ensures PathName(LogBeside(output, name)) == name
    ensures IsAbsolute(LogBeside(output, name)) == IsAbsolute(output)
  {
    PathParentParts(output);
    JoinPathParts(PathParent(output), name);
  }

  /** A log path next to a space-free output path is space-free. */
  lemma LogBesideIsWord(output: string, name: string)
    requires IsPart(name) && IsWord(output) && IsWord(name)
    ensures IsWord(LogBeside(output, name))
  {
    var parent := PathParent(output);
    var ps := PathParts(output);
    PathPartsAvoid(output, ' ');
    PathParentParts(output);
    var parts := PathParts(parent) + [name];
    assert forall k :: 0 <= k < |parts| - 1 ==> parts[k] == ps[k];
    PathTextAvoids(IsAbsolute(parent), parts, ' ');
  }

  lemma ToolTokensAreWords(tool: Tool, input: string, output: string)
    requires IsWord(input) && IsWord(output)
    ensures AllWords(ToolTokens(tool, input, output))
  {
    match tool
    case Lstchain => LstchainTokensAreWords(input, output);
    case Hiperta(noImage, smart) => HipertaTokensAreWords(input, output, noImage, smart);
    case Ctapipe(skip) => CtapipeTokensAreWords(input, output, skip);
  }

  lemma LstchainTokensAreWords(input: string, output: string)
    requires IsWord(input) && IsWord(output)
    ensures AllWords(ToolTokens(Lstchain, input, output))
  {
  }

  lemma HipertaTokensAreWords(input: string, output: string, noImage: bool, smart: bool)
    requires IsWord(input) && IsWord(output)
    ensures AllWords(ToolTokens(Hiperta(noImage, smart), input, output))
  {
    ProgramWords();
    FlagWords();
    var ts := ToolTokens(Hiperta(noImage, smart), input, output);
    forall k | 0 <= k < |ts|
      ensures IsWord(ts[k])
    {
    }
  }

  /** The program names and their closing-quote forms contain no space. */
  lemma ProgramWords()
    ensures IsWord("lstchain_merge_hdf5_files") && IsWord("ctapipe-merge")
  {
  }

  /** The fixed flags of the merge tools contain no space. */
  lemma FlagWords()
    ensures IsWord("--no-image") && IsWord("--smart") && IsWord("True") && IsWord("False")
    ensures IsWord("True\"") && IsWord("False\"")
    ensures IsWord("--input-dir") && IsWord("--output") && IsWord("--skip-images") && IsWord("--skip-simu-images\"")
  {
  }

  lemma CtapipeTokensAreWords(input: string, output: string, skip: bool)
    requires IsWord(input) && IsWord(output)
    ensures AllWords(ToolTokens(Ctapipe(skip), input, output))
  {
    ProgramWords();
    FlagWords();
    assert IsWord(output + "\"");
    var ts := ToolTokens(Ctapipe(skip), input, output);
    forall k | 0 <= k < |ts|
      ensures IsWord(ts[k])
    {
    }
  }

  lemma SchedulerOptionsAreWords(account: string, wait: string)
    requires IsWord(account) && IsWord(wait)
    ensures AllWords(SchedulerOptions(account, wait))
  {
    var s := SchedulerOptions(account, wait);
    forall k | 0 <= k < |s|
      ensures IsWord(s[k])
    {
      if k >= 4 && s[k] != "-A" && s[k] != account {
        assert s[k] == DependencyFlag + wait;
      }
    }
  }

  /** A command whose words are space-free around one free-form token reads
      back as those words around the fields of that token. */
  lemma FieldsAround(opt: seq<string>, mid: seq<string>, wrap: string, tool: seq<string>)
    requires AllWords(opt) && AllWords(mid) && AllWords(tool) && |tool| >= 1
    ensures Words(Render(opt + mid + [wrap] + tool)) == opt + mid + Words(wrap) + tool
  {
    var head := opt + mid;
    assert AllWords(head) by {
      assert forall k :: 0 <= k < |head| ==> head[k] == if k < |opt| then opt[k] else mid[k - |opt|];
    }
    assert opt + mid + [wrap] + tool == head + ([wrap] + tool);
    LeadingWords(head, [wrap] + tool);
    RenderedAppend([wrap], tool);
    RenderedWords(tool);
    assert Render([wrap]) == wrap;
  }

  /** The fields of a merge command: its scheduler options, the job name and
      logs, the fields of the environment line and the merge program's words. */
  lemma MergeCommandFields(input: string, output: string, config: BatchConfig, wait: string,
                           opts: MergingOptions, kind: string)
    requires IsWord(config.slurmAccount) && IsWord(wait) && IsWord(input) && IsWord(output)
    ensures Words(MergeCommand(input, output, config, wait, opts, kind)) ==
      SchedulerOptions(config.slurmAccount, wait)
      + JobClause(output)
      + Words(WrapOpen(config.sourceEnvironment))
      + ToolTokens(ToolOf(kind, opts), input, output)
  {
    JobClauseWords(output);
    SchedulerOptionsAreWords(config.slurmAccount, wait);
    ToolTokensAreWords(ToolOf(kind, opts), input, output);
    FieldsAround(SchedulerOptions(config.slurmAccount, wait), JobClause(output),
      WrapOpen(config.sourceEnvironment), ToolTokens(ToolOf(kind, opts), input, output));
  }

  lemma JobClauseWords(output: string)
    requires IsWord(output)
    ensures AllWords(JobClause(output))
  {
    LogBesideIsWord(output, OutputLogName);
    LogBesideIsWord(output, ErrorLogName);
    var j := JobClause(output);
    forall k | 0 <= k < |j|
      ensures IsWord(j[k])
    {
    }
  }

  /** Read back by fields, a merge command gives the account, the dependency,
      the tool with the options it passes on, the input and the output it was
      built from, and names the two log files next to the output. */
  lemma MergeCommandReadsBack(input: string, output: string, config: BatchConfig, wait: string,
                              opts: MergingOptions, kind: string)
    requires IsWord(config.slurmAccount) && IsWord(wait) && IsWord(input) && IsWord(output)
    requires PlainOutput(output)
    ensures var w := Words(MergeCommand(input, output, config, wait, opts, kind));
      var k := |SchedulerOptions(config.slurmAccount, wait)|;
      && ReadOptions(w) == Some((config.slurmAccount, wait))
      && ReadTool(w) == Some((ToolOf(kind, opts), input, output))
      && k + 6 <= |w|
      && w[k..k + 6] == JobClause(output)
  {
    MergeCommandFields(input, output, config, wait, opts, kind);
    FieldsReadBack(config.slurmAccount, wait, JobClause(output),
      Words(WrapOpen(config.sourceEnvironment)), ToolOf(kind, opts), input, output);
  }

  /** Options, a job-name clause, anything, then tool words: both ends read back. */
  lemma FieldsReadBack(account: string, wait: string, mid: seq<string>, rest: seq<string>,
                       tool: Tool, input: string, output: string)
    requires |mid| >= 1 && mid[0] == "-J" && PlainOutput(output)
    ensures var opt := SchedulerOptions(account, wait);
      var w := opt + mid + rest + ToolTokens(tool, input, output);
      && ReadOptions(w) == Some((account, wait))
      && ReadTool(w) == Some((tool, input, output))
      && |opt| + |mid| <= |w|
      && w[|opt|..|opt| + |mid|] == mid
  {
    var opt := SchedulerOptions(account, wait);
    var t := ToolTokens(tool, input, output);
    var w := opt + mid + rest + t;
    assert w == opt + (mid + rest + t);
    OptionsReadBack(account, wait, mid + rest + t);
    ToolReadBack(opt + mid + rest, tool, input, output);
    SeqFacts.MiddleSlice(opt, mid, rest, t);
  }

  /** The last word of a rendering ends it. */
  lemma {:induction false} RenderEndsWith(tokens: seq<string>)
    requires |tokens| >= 1
    ensures IsSuffix(tokens[|tokens| - 1], Render(tokens))
    decreases |tokens|
  {
    if |tokens| > 1 {
      RenderEndsWith(tokens[1..]);
      JoinWithCons(" ", tokens[0], tokens[1..]);
      assert [tokens[0]] + tokens[1..] == tokens;
    }
  }

  /** Every kind closes the `--wrap="` quote: the command ends with `"`. */
  lemma MergeCommandClosesQuote(input: string, output: string, config: BatchConfig, wait: string,
                                opts: MergingOptions, kind: string)
    ensures var cmd := MergeCommand(input, output, config, wait, opts, kind);
      |cmd| >= 1 && cmd[|cmd| - 1] == '"'
  {
    ToolEndsWithQuote(ToolOf(kind, opts), input, output);
    ClosesQuote(MergeHead(output, config, wait), ToolTokens(ToolOf(kind, opts), input, output));
  }

  lemma ToolEndsWithQuote(tool: Tool, input: string, output: string)
    ensures var t := ToolTokens(tool, input, output);
      |t| >= 1 && |t[|t| - 1]| >= 1 && t[|t| - 1][|t[|t| - 1]| - 1] == '"'
  {
  }

  lemma ClosesQuote(head: seq<string>, tool: seq<string>)
    requires |tool| >= 1 && |tool[|tool| - 1]| >= 1 && tool[|tool| - 1][|tool[|tool| - 1]| - 1] == '"'
    ensures var cmd := Render(head + tool);
      |cmd| >= 1 && cmd[|cmd| - 1] == '"'
  {
    var tokens := head + tool;
    var last := tokens[|tokens| - 1];
    assert last == tool[|tool| - 1];
    RenderEndsWith(tokens);
    var cmd := Render(tokens);
    assert cmd[|cmd| - 1] == cmd[|cmd| - |last|..][|last| - 1];
  }

  // ---------------------------------------------------------------------------
  // batch_merge_dl1

  /** One entry of `dict_paths`: the merge options may be missing. */
  datatype MergeEntry = MergeEntry(input: string, output: string, noImage: Option<bool>, smart: Option<bool>)

  /** `no_image` defaults to True and `smart` to False. */
  function OptionsOf(e: MergeEntry): MergingOptions {
    MergingOptions(e.noImage.GetOr(true), e.smart.GetOr(false))
  }

  /** What `batch_merge_dl1` produces: the merged log it saves and the
      comma-joined job ids it returns. */
  datatype BatchMerged = BatchMerged(log: map<string, string>, jobids: string)

  /** The command of entry `k`. */
  function EntryCommand(e: MergeEntry, config: BatchConfig, wait: string, kind: string): string {
    MergeCommand(e.input, e.output, config, wait, OptionsOf(e), kind)
  }

  /** The ids of the submissions in order; `submit(k, cmd)` is what the
      scheduler prints for the `k`-th one. */
  function BatchIds(entries: seq<MergeEntry>, config: BatchConfig, wait: string, kind: string,
                    submit: (nat, string) -> string): (ids: seq<string>)
    ensures |ids| == |entries|
    ensures forall k :: 0 <= k < |entries| ==>
      ids[k] == MergeDl1(entries[k].input, entries[k].output, config, wait, OptionsOf(entries[k]), kind, c => submit(k, c)).jobid
  {
    seq(|entries|, k requires 0 <= k < |entries| =>
      MergeDl1(entries[k].input, entries[k].output, config, wait, OptionsOf(entries[k]), kind, c => submit(k, c)).jobid)
  }

  /** `batch_merge_dl1(...)`: one merge per entry, in order, all waiting on the
      same jobs; the one-entry logs are merged with later ids overriding. */
  function BatchMergeDl1(entries: seq<MergeEntry>, config: BatchConfig, wait: string, kind: string,
                         submit: (nat, string) -> string): (r: BatchMerged)
    ensures var ids := BatchIds(entries, config, wait, kind, submit);
      && r.log.Keys == (set k | 0 <= k < |entries| :: ids[k])
      && (forall k :: 0 <= k < |entries| && JobLogs.LastOccurrence(ids, k) ==>
            r.log[ids[k]] == EntryCommand(entries[k], config, wait, kind))
  {
    var ids := BatchIds(entries, config, wait, kind, submit);
    var cmds := seq(|entries|, k requires 0 <= k < |entries| => EntryCommand(entries[k], config, wait, kind));
    BatchMerged(JobLogs.Record(ids, cmds), JoinWith(",", ids))
  }

  /** The next stage recovers the ids by splitting at commas, when no id holds
      one; with no entry it receives the empty string, which means no
      dependency. */
  lemma BatchIdsReadBack(entries: seq<MergeEntry>, config: BatchConfig, wait: string, kind: string,
                         submit: (nat, string) -> string)
    ensures var ids := BatchIds(entries, config, wait, kind, submit);
      var r := BatchMergeDl1(entries, config, wait, kind, submit);
      && (|entries| >= 1 && (forall k :: 0 <= k < |ids| ==> ',' !in ids[k]) ==> Split(r.jobids, ',') == ids)
      && (|entries| == 0 ==> r.jobids == "")
  {
    var ids := BatchIds(entries, config, wait, kind, submit);
    if |entries| >= 1 && (forall k :: 0 <= k < |ids| ==> ',' !in ids[k]) {
      SplitJoin(ids, ',');
    }
  }

  /** Every merge of a batch waits on the jobs the batch was given and uses the
      entry's options, defaults filled in. */
  lemma BatchCommandsWait(entries: seq<MergeEntry>, config: BatchConfig, wait: string, kind: string, k: nat)
    requires k < |entries|
    requires IsWord(config.slurmAccount) && IsWord(wait)
    requires IsWord(entries[k].input) && IsWord(entries[k].output) && PlainOutput(entries[k].output)
    ensures var w := Words(EntryCommand(entries[k], config, wait, kind));
      && ReadOptions(w) == Some((config.slurmAccount, wait))
      && ReadTool(w) == Some((ToolOf(kind, OptionsOf(entries[k])), entries[k].input, entries[k].output))
    ensures entries[k].noImage.None? && kind == "hiperta" ==> ToolOf(kind, OptionsOf(entries[k])).noImage
    ensures entries[k].smart.None? && kind == "hiperta" ==> !ToolOf(kind, OptionsOf(entries[k])).smart
    ensures entries[k].noImage.None? && kind != "hiperta" && kind != "lstchain" ==> ToolOf(kind, OptionsOf(entries[k])).skipImages
  {
    var e := entries[k];
    MergeCommandReadsBack(e.input, e.output, config, wait, OptionsOf(e), kind);
  }
}
