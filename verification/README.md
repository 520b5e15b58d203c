# lstmcpipe bookkeeping, modelled in Dafny

lstmcpipe drives the Monte Carlo production of the LST telescope analysis on a
Slurm cluster. Every stage of its workflow builds `sbatch` command lines,
prepares directories and records the job ids the scheduler hands back. This
project models the deterministic bookkeeping around those submissions:

- **R0 to DL1** (`R0ToDl1`, the script `lst_scripts/onsite_mc_r0_to_dl1.py`):
  - the production id;
  - the training/testing split of the shuffled DL0 files;
  - the automatic number of files per DL1 job;
  - the chunking into `file_lists_<set>/<set>_<i>.list`;
  - per-job log names, queue and job name;
  - the standalone and workflow `sbatch` lines;
  - in workflow mode, the `jobid2log` / `jobids_r0_dl1` return value.
- **DL1 merging** (`MergeDl1`, `mc_merge_dl1.py`): the merge `sbatch` line with its optional account and `afterok` dependency clauses, the per-tool merge program, and the comma-joined id list of a batch.
- **DL2 to IRF** (`Dl2ToIrfs`, `onsite_mc_dl2_to_irfs.py`):
  - gamma-offset validation;
  - the search for the DL2 testing files;
  - the IRF output directory and file name;
  - the `lstchain_create_irf_files` and `sbatch` lines;
  - the one-job log.
- **Data management** (`DataManagement`, `data_management.py`):
  - the yes/no prompt interpreter;
  - directory clean-and-make;
  - input listing;
  - the missing-files check;
  - moving a directory's content.

Directory operations act on an abstract file tree (`FileTree.Tree`, a map from
a path, as a list of names, to `Dir` or `File`).

The Python library behaviour the scripts rely on is written out in `PyText` and
`PySeq`:

- `str.replace`, `split`, `join`, `strip` and `lower`;
- `os.path.join` and `basename`;
- `pathlib` parents;
- zero-padded `format`;
- floor and truncating division;
- clamped slices.

Everything the scripts read from the world is a parameter. This covers the
date, the lstchain version, file sizes, the seeded shuffle, the order of
`os.listdir`, the scheduler's reply to each submission and the lines typed at a
prompt. A scheduler reply is raw text, and the model keeps `strip('\n')` of it,
as the scripts do.

Python exceptions and `exit` become `Result.Err` values (`Results.Error`). A
run that fails is an `Err`; no partial effect is modelled.

## Model

| member | source | states |
|---|---|---|
| DataManagement.Prompt | lstmcpipe/io/data_management.py:26-34 | Only the defaults None, "yes" and "no" are accepted, any other is a ValueError. The choice shown is seven characters `' [y/n] '` up to case, and the capital letter marks the default: `Y` exactly for "yes", `N` exactly for "no". |
| DataManagement.QueryYesNo | lstmcpipe/io/data_management.py:10-47 | An invalid default fails before any answer is read. Otherwise the question plus prompt is shown, and the reply is the value of the first acceptable answer. All earlier answers were unacceptable. If none is acceptable the input runs out (EOFError). |
| DataManagement.FirstAccepted | lstmcpipe/io/data_management.py:36-47 | The re-prompt loop: it consumes answers up to and including the first one the interpreter accepts, and returns that answer's value. It fails with EOFError exactly when no remaining answer is acceptable. |
| DataManagement.QueryContinue | lstmcpipe/io/data_management.py:50-68 | Never returns False. It fails with "Program stopped by user" exactly when the yes/no query returned False; otherwise it returns the query's reply. |
| DataManagement.Recreate | lstmcpipe/io/data_management.py:121-126 | Removing a directory tree and making the directory again leaves it existing and empty. Every path outside its subtree keeps its node, and nothing else appears. |
| DataManagement.CheckAndMakeDirWithoutVerification | lstmcpipe/io/data_management.py:129-132 | On success the directory exists and is empty. Nothing outside its subtree changes, and new paths lie only inside it. An existing directory always succeeds, and an already-empty one is left untouched. Failure needs a missing path or a file. |
| DataManagement.CheckAndMakeDir | lstmcpipe/io/data_management.py:107-126 | For a non-empty directory, it succeeds exactly when the user agrees to clean it, and a refusal stops the program. On success the directory exists and is empty, and nothing outside it changes. An empty directory is left untouched. |
| DataManagement.AnswersUsed | lstmcpipe/io/data_management.py:117-119 | Answers are consumed only when a non-empty existing directory triggers the question. When the user agrees, the count is the number the query consumed. |
| DataManagement.GetInputFilelist | lstmcpipe/io/data_management.py:88-104 | Fails exactly when the path is not a directory. Otherwise it lists regular files directly inside the directory, and every such file appears. |
| DataManagement.CheckDataPath | lstmcpipe/io/data_management.py:71-85 | Succeeds exactly when the path is a directory holding a regular file. A missing path gives "The input directory must exist", and an existing directory without files gives "The input directory is empty". On success the file list is non-empty. |
| DataManagement.Absent | lstmcpipe/io/data_management.py:150-158 | The names kept are exactly those of the given names that are absent from the directory, none other. |
| DataManagement.AbsentAppend | lstmcpipe/io/data_management.py:150-158 | The absent names of a concatenation are the absent names of each part in turn, so file order and duplicates are kept. |
| DataManagement.CheckFilesInDirFromFile | lstmcpipe/io/data_management.py:135-158 | Fails exactly when the directory cannot be listed. Otherwise it returns the absent basenames of the newline-stripped lines, in file order. |
| DataManagement.ReadLinesFile | lstmcpipe/io/data_management.py:161-164 | One entry per line. Each entry is its line with the trailing newlines removed: a prefix of the line that does not end in a newline, and every character cut off is a newline. |
| DataManagement.MoveDirContent | lstmcpipe/io/data_management.py:167-171 | The result depends on the case. Success needs `src` to be a directory, and `src` is gone afterwards. Into a directory `dest`, or from an empty `src`: it succeeds exactly when `src` is not the root, no entry name is already in `dest`, and `dest` is not inside a non-empty `src`; every entry is then moved to the same place below `dest`, and nothing else changes. Otherwise the first listed entry is renamed to `dest`. For an all-file `src`, it succeeds exactly when `dest` is a file or has a directory above it and lies outside `src`; one file then remains at `dest`. When the first entry is a directory and `dest` is missing, it succeeds exactly when `dest` lies outside `src`, its parents can be made, and no other entry shares a name with something in that directory. That directory's subtree then sits at `dest`, and the other entries are moved into it. |
| DataManagement.MoveInto | lstmcpipe/io/data_management.py:168-171 | Moving every entry into an existing directory succeeds exactly when `src` is not the root, no name clashes and `dest` is not inside a non-empty `src`. The entries then sit at the same places below `dest`, `src` is gone, the tree stays well formed, and nothing outside `src` changes. |
| DataManagement.MoveOntoMissing | lstmcpipe/io/data_management.py:168-171 | The first entry, a directory, is renamed onto a missing `dest` and the rest are moved into it. This succeeds exactly when `dest`'s parents can be made and no other entry has the name of one of that directory's entries. Its subtree is then at `dest`, the other entries are below `dest`, nothing outside `src` changes, and each new path is a made parent of `dest`, `dest` or below it. |
| DataManagement.RenamedClash | lstmcpipe/io/data_management.py:169-170 | After the rename, moving an entry into `dest` hits an existing name exactly when that entry's name was already an entry of the renamed directory. |
| FileTree.Renamed | lstmcpipe/io/data_management.py:170 | `os.rename` onto a missing path: paths outside the renamed subtree keep their nodes, each path in it reappears at the same place below the new name, and no other path appears. |
| FileTree.RenamedWellFormed | lstmcpipe/io/data_management.py:170 | Renaming a path onto a missing one inside an existing directory, and not into itself, keeps the tree well formed. The new path has the old one's node. |
| DataManagement.MoveEntriesWellFormed | lstmcpipe/io/data_management.py:168-171 | Moving the entries keeps the tree well formed: every path's parent is still a directory. |
| DataManagement.RelocatedIsNew | lstmcpipe/io/data_management.py:169-170 | Without a name clash, no moved entry lands on an existing path, so `shutil.move` never overwrites. |
| FileTree.MakeDirs | lstmcpipe/io/data_management.py:126 | `os.makedirs(exist_ok=True)`: on success the directory exists, existing paths keep their nodes, and only the directory and its missing ancestors are added. An existing directory is left as it is; a file in its place is a FileExistsError. |
| FileTree.RemoveTree | lstmcpipe/io/data_management.py:125 | `shutil.rmtree`: exactly the subtree is removed. |
| R0ToDl1.ProdId | lst_scripts/onsite_mc_r0_to_dl1.py:123-133 | In workflow mode the given id is used unchanged; in standalone mode an id is always built. |
| R0ToDl1.ProdIdFields | lst_scripts/onsite_mc_r0_to_dl1.py:126-129 | The standalone id reads back field by field: 4, 2 and 2 digits parsing to the year, month and day, then `_v`, the version, then `_v00` without a prod id or `_<prod_id>` with one. |
| R0ToDl1.SplitTrainTest | lst_scripts/onsite_mc_r0_to_dl1.py:162-167 | Training followed by testing is the shuffled list. For a ratio in [0, 1] the training count is floor(n·ratio), by the bounds `ntrain·den <= n·num < (ntrain+1)·den`, and testing holds the other n − ntrain. A ratio of 1 or more leaves testing empty. |
| R0ToDl1.TrainCountBounds | lst_scripts/onsite_mc_r0_to_dl1.py:163 | The truncated training count lies between 0 and n for a ratio in [0, 1], and is at least n for a ratio of 1 or more. |
| R0ToDl1.FilesPerDl1 | lst_scripts/onsite_mc_r0_to_dl1.py:153-157 | A non-zero request is kept. A zero request succeeds exactly when the first file is non-empty. It then gives the largest count of such files within 5·1000 MB of DL0 input, and 1 when not even one file fits. One more file would always exceed the budget. An empty first file is a ZeroDivisionError. |
| R0ToDl1.SublistCount | lst_scripts/onsite_mc_r0_to_dl1.py:227 | For N ≥ 1 the count is ceil(len/N), by `(c−1)·N < len <= c·N`. A negative N gives no sublist. |
| R0ToDl1.SublistAt | lst_scripts/onsite_mc_r0_to_dl1.py:228-231 | Sublist i is the slice `[i·N : (i+1)·N]` of the list, clamped at its end. |
| R0ToDl1.SublistsPrefix | lst_scripts/onsite_mc_r0_to_dl1.py:228-233 | The first k sublists concatenate to the list's first k·N files. |
| R0ToDl1.SublistsCover | lst_scripts/onsite_mc_r0_to_dl1.py:228-233 | The sublists concatenate back to the whole list, in order. |
| R0ToDl1.SublistSize | lst_scripts/onsite_mc_r0_to_dl1.py:231 | Sublist i holds exactly N files unless it is the last, which holds between 1 and N. |
| R0ToDl1.SublistsSizes | lst_scripts/onsite_mc_r0_to_dl1.py:227-233 | Every sublist but the last has exactly N files, the last has between 1 and N, and there is none exactly when the list is empty. |
| R0ToDl1.ListFileNamesDistinct | lst_scripts/onsite_mc_r0_to_dl1.py:228-229 | The list-file names `<set>_<i>.list` of one set are pairwise different. |
| R0ToDl1.LogNameInjective | lst_scripts/onsite_mc_r0_to_dl1.py:240-245 | A log name `job<k>_train.<e>` / `job<k>_test.<e>` determines its set, counter and extension. |
| R0ToDl1.JobLogsDistinct | lst_scripts/onsite_mc_r0_to_dl1.py:237-290 | Two jobs differing in set or counter never share an `.o` or `.e` log path in the job-log directory, and no `.o` path is an `.e` path. |
| R0ToDl1.BaseCommandWords | lst_scripts/onsite_mc_r0_to_dl1.py:246-248 | The base command reads back as `core_list.sh "lstchain_mc_r0_to_dl1 -o <output_dir>`. It is followed by `-c <config>` exactly when a configuration file is given, and has seven fields exactly then. |
| R0ToDl1.ClauseWords | lst_scripts/onsite_mc_r0_to_dl1.py:246-248 | The closing `<cc>"` part of the base command gives the fields `"", -c, <config>"` with a configuration and `"", "` without. |
| R0ToDl1.WorkflowJobWords | lst_scripts/onsite_mc_r0_to_dl1.py:258-274 | A workflow job's command begins `sbatch --parsable -p <queue> -J <name> -e <jobe> -o <jobo>`. The name comes from the six-entry table, and the queue is `long` exactly for protons. |
| R0ToDl1.WorkflowCommandWords | lst_scripts/onsite_mc_r0_to_dl1.py:273-274 | The workflow command's first ten fields are its scheduler options, each read back unchanged. |
| R0ToDl1.StandaloneJobWords | lst_scripts/onsite_mc_r0_to_dl1.py:252 | A standalone job's command begins `sbatch -p short -e <jobe> -o <jobo>`. |
| R0ToDl1.LogPathIsWord | lst_scripts/onsite_mc_r0_to_dl1.py:241-245 | A log path is a single command-line field when the log directory is. |
| R0ToDl1.SetJobs | lst_scripts/onsite_mc_r0_to_dl1.py:239-290 | One job per listed file, in listing order: job k is numbered k and submits `<dir_lists>/<k-th listed name>`. It fails with a KeyError on the particle exactly when three things hold: workflow mode, a particle outside the job-name table, and at least one file. |
| R0ToDl1.PrepareDir | lst_scripts/onsite_mc_r0_to_dl1.py:200-204 | Preparing a directory leaves it existing and empty, with everything outside it unchanged. Only the prompt answers used are consumed, and workflow mode consumes none. |
| R0ToDl1.PrepareDirs | lst_scripts/onsite_mc_r0_to_dl1.py:200-224 | After preparing several directories the tree is well formed and the last one is a directory. What holds for the other directories is stated by `R0ToDl1.PreparedDirs`. |
| R0ToDl1.PreparedDirs | lst_scripts/onsite_mc_r0_to_dl1.py:200-224 | After the directories are prepared in turn, each exists unless a later one contains it, and each is empty unless a later one is made inside it. Every path outside all of them keeps its node. |
| R0ToDl1.PreparedStep | lst_scripts/onsite_mc_r0_to_dl1.py:200-224 | Preparing one more directory keeps what the earlier ones promised, for the directories it neither contains nor lies inside. |
| R0ToDl1.ListFilesOf | lst_scripts/onsite_mc_r0_to_dl1.py:228-233 | One list file per sublist, sublist i written to `<dir_lists>/<set>_<i>.list`. |
| R0ToDl1.ListedLinesAppend | lst_scripts/onsite_mc_r0_to_dl1.py:211-233 | The lines of two groups of list files are the lines of each in turn. |
| R0ToDl1.WriteLists | lst_scripts/onsite_mc_r0_to_dl1.py:227-233 | The list files of a set are named by their index. For N ≥ 1 their lines, read in order, are exactly the set's files, each file holding between 1 and N lines. A negative N writes none. |
| R0ToDl1.WrittenLines | lst_scripts/onsite_mc_r0_to_dl1.py:227-233 | For N ≥ 1, the list files' lines read in order are the set's files, and each list file holds between 1 and N lines. |
| R0ToDl1.RunSet | lst_scripts/onsite_mc_r0_to_dl1.py:211-290 | One set of the loop. The tree stays well formed, and the list files are those of the chunking. There are as many jobs as sublists, numbered from 0. Every job submits one of the written list files, and every written list file is submitted by a job, whatever order `os.listdir` gives. |
| R0ToDl1.ListJobs | lst_scripts/onsite_mc_r0_to_dl1.py:227-290 | The jobs of one set match its written list files one to one: same count, every job submits a written list file and every list file is submitted. |
| R0ToDl1.JobsCoverLists | lst_scripts/onsite_mc_r0_to_dl1.py:228-239 | When `os.listdir` returns the written names in any order, the jobs made from the listing and the list files match one to one. |
| R0ToDl1.OneJobPerListFileAppend | lst_scripts/onsite_mc_r0_to_dl1.py:211-290 | Training jobs and files followed by testing jobs and files still match one to one. |
| R0ToDl1.JobIds | lst_scripts/onsite_mc_r0_to_dl1.py:276-277 | The k-th id is the scheduler's reply to the k-th command with newlines stripped. |
| R0ToDl1.SetsDistinct | lst_scripts/onsite_mc_r0_to_dl1.py:211-290 | Training jobs followed by testing jobs, each numbered from 0, never repeat a log path. |
| R0ToDl1.RunBothSets | lst_scripts/onsite_mc_r0_to_dl1.py:200-290 | Both sets run in order. No two jobs share a log path, and there is one job per sublist of each set, each matched with its list file. For N ≥ 1 the list files' lines are the training files followed by the testing files. |
| R0ToDl1.Submitted | lst_scripts/onsite_mc_r0_to_dl1.py:276-305 | Workflow submission only adds a return value. It has one id per job, and `jobid2log` has exactly those ids as keys, each holding the record of the last job submitted under it. |
| R0ToDl1.Launch | lst_scripts/onsite_mc_r0_to_dl1.py:183-305 | A return value exists exactly in workflow mode, holding the ids and records of the jobs. Log paths are distinct, jobs and list files match one to one, and for N ≥ 1 the list files hold the split in order. |
| R0ToDl1.SplitInputs | lst_scripts/onsite_mc_r0_to_dl1.py:149-167 | Fails unless the input directory exists. On success files-per-DL1 is non-zero, and positive for a non-negative request. Training followed by testing is the shuffle of the input file paths. |
| R0ToDl1.SplitFiles | lst_scripts/onsite_mc_r0_to_dl1.py:153-167 | For a non-empty file list, training followed by testing is the shuffled list, and files-per-DL1 is non-zero. |
| R0ToDl1.FileNames | lst_scripts/onsite_mc_r0_to_dl1.py:151 | Each listed path becomes its absolute path string, in order. |
| R0ToDl1.ScriptMain | lst_scripts/onsite_mc_r0_to_dl1.py:63-308 | The run fails for a missing input directory, a missing particle, a particle containing `off`, or workflow mode without a prod id. A successful run returns a value exactly in workflow mode: the ids and records of all jobs. It never repeats a log path, and it matches jobs and list files one to one. For N ≥ 0 its list files hold the shuffled input files in order, which is a permutation of the input directory's files. |
| MergeDl1.MergeDl1 | lstmcpipe/stages/mc_merge_dl1.py:84-151 | The returned id is the scheduler's reply to this stage's merge command with newlines stripped. The log has exactly one entry, that id, holding the command. |
| MergeDl1.OptionsReadBack | lstmcpipe/stages/mc_merge_dl1.py:117-121 | The account and dependency read back from the options: `-A` is present exactly for a non-empty account and the dependency exactly for a non-empty wait string, in that order. |
| MergeDl1.ToolReadBack | lstmcpipe/stages/mc_merge_dl1.py:131-144 | The merge program's tokens determine the tool, the input and the output. lstchain always uses `--no-image`, hiperta passes both option values, and ctapipe adds the skip flags exactly when `no_image` is set. |
| MergeDl1.LogBesideOutput | lstmcpipe/stages/mc_merge_dl1.py:123-124 | A log path is the output file's parent joined with the log name. |
| MergeDl1.MergeCommandFields | lstmcpipe/stages/mc_merge_dl1.py:117-144 | The command's fields are the scheduler options, then `-J merge -e <error log> -o <output log>`, then the `--wrap="<environment>` fields, then the tool's tokens. |
| MergeDl1.MergeCommandReadsBack | lstmcpipe/stages/mc_merge_dl1.py:117-144 | From the command line alone one recovers the account, the dependency, the tool, the input, the output and the job clause with both log paths. |
| MergeDl1.FieldsReadBack | lstmcpipe/stages/mc_merge_dl1.py:117-144 | Options, middle fields and tool tokens rendered together read back to the same account, dependency, middle fields and tool. |
| MergeDl1.MergeCommandClosesQuote | lstmcpipe/stages/mc_merge_dl1.py:126-144 | Every workflow kind closes the `--wrap="` quote: the command ends with `"`. |
| MergeDl1.BatchIds | lstmcpipe/stages/mc_merge_dl1.py:58-72 | One id per entry, entry k's id being the id `merge_dl1` returns for it with the shared wait string and the defaulted options. |
| MergeDl1.BatchMergeDl1 | lstmcpipe/stages/mc_merge_dl1.py:58-74 | The merged log has exactly the returned ids as keys, each holding the command of the last entry submitted under it. |
| MergeDl1.BatchIdsReadBack | lstmcpipe/stages/mc_merge_dl1.py:74 | Splitting the comma-joined string at commas gives back the ids in order, when no id holds a comma. No entries give the empty string. |
| MergeDl1.BatchCommandsWait | lstmcpipe/stages/mc_merge_dl1.py:58-69 | Every entry's command waits on the same splitting jobs and merges its own input into its own output. Missing options default to `no_image` True and `smart` False. |
| JobLogs.Record | lstmcpipe/stages/mc_merge_dl1.py:71 | A dict filled in order has exactly the assigned keys, and each key holds the entry of its last assignment. |
| JobLogs.RecordDistinct | lst_scripts/onsite_mc_r0_to_dl1.py:280-285 | With distinct ids every entry is kept under its own id. |
| Dl2ToIrfs.ParticleDirShape | lstmcpipe/stages/onsite_mc_dl2_to_irfs.py:48-51 | Only the point-like gamma directory gets the offset appended, as one more path component after the filled-in template. |
| Dl2ToIrfs.Matching | lstmcpipe/stages/onsite_mc_dl2_to_irfs.py:55-57 | The glob `*testing.h5` keeps exactly the listed non-hidden names ending in `testing.h5`. |
| Dl2ToIrfs.TestingFile | lstmcpipe/stages/onsite_mc_dl2_to_irfs.py:53-57 | One match gives that file's path in the directory. No match is an IndexError, and several are refused as ambiguous. |
| Dl2ToIrfs.CheckFrom | lstmcpipe/stages/onsite_mc_dl2_to_irfs.py:44-62 | On success the result maps exactly the particles searched, each to the testing file in its existing directory. Success is guaranteed when every directory exists with one match, and a missing directory always fails. |
| Dl2ToIrfs.CheckDl2Files | lstmcpipe/stages/onsite_mc_dl2_to_irfs.py:17-62 | The keys are exactly electron, proton and `gamma` (point-like) or `gamma-diffuse` (diffuse). Each maps to the testing file of its directory, and a missing particle directory fails. |
| Dl2ToIrfs.FoundFileInTree | lstmcpipe/stages/onsite_mc_dl2_to_irfs.py:53-57 | The file found is in the file tree. |
| Dl2ToIrfs.GammaKeyUnique | lstmcpipe/stages/onsite_mc_dl2_to_irfs.py:120 | Among the three keys found, exactly the gamma one starts with `gamma`, so the first such key is the gamma entry. |
| Dl2ToIrfs.IrfOutputDirLeaf | lstmcpipe/stages/onsite_mc_dl2_to_irfs.py:103-108 | The output directory is the rewritten template with one more component, the offset (point-like) or `diffuse`, and that is its basename. |
| Dl2ToIrfs.OverwriteKeeps | lstmcpipe/stages/onsite_mc_dl2_to_irfs.py:104 | Replacing `/DL2/` by `/IRF/` keeps the length, and every character either stays or is one of the letters written in. |
| Dl2ToIrfs.IrfFileNameParts | lstmcpipe/stages/onsite_mc_dl2_to_irfs.py:148-160 | With a prod id the name is `irf_`, the id with every dot deleted, then `_gamma_point-like_<offset without dots>.fits.gz` or `_gamma_diffuse.fits.gz`. |
| Dl2ToIrfs.OffsetTagShape | lstmcpipe/stages/onsite_mc_dl2_to_irfs.py:154 | For an allowed offset the tag is the offset with its one dot removed: eight characters. |
| Dl2ToIrfs.ConfigurationSuffixesDiffer | lstmcpipe/stages/onsite_mc_dl2_to_irfs.py:151-160 | Different IRF kinds give different file-name suffixes. |
| Dl2ToIrfs.IrfFileNamesDiffer | lstmcpipe/stages/onsite_mc_dl2_to_irfs.py:148-160 | With one prod id, different IRF kinds never share a file name. |
| Dl2ToIrfs.CreateIrfCommandWords | lstmcpipe/stages/onsite_mc_dl2_to_irfs.py:142-165 | The command reads back as `lstchain_create_irf_files <flag> -g <gamma> -p <proton> -e <electron> -o <file>`. The flag is `--point-like` exactly when point-like, and a last field `--config=<file>` is present exactly when a configuration is given. |
| Dl2ToIrfs.IrfBatchCommandWords | lstmcpipe/stages/onsite_mc_dl2_to_irfs.py:175-179 | The batch command reads back its options: the verbatim `--dependency=afterok:<wait>`, `-J IRF_<kind>` and both log paths, then the wrapped command. |
| Dl2ToIrfs.IrfKindDependsOnLog | lstmcpipe/stages/onsite_mc_dl2_to_irfs.py:120-140 | As written, the same point-like run names its job `IRF_gamma` without an upstream log but `IRF_off0.0deg` with one. Only the latter matches the output directory. |
| Dl2ToIrfs.ConfigCopy | lstmcpipe/stages/onsite_mc_dl2_to_irfs.py:186-188 | The configuration is copied exactly when one is given and non-empty. The copy lies in the output directory under the configuration's basename. |
| Dl2ToIrfs.CopyPlace | lstmcpipe/stages/onsite_mc_dl2_to_irfs.py:188 | A plain name joined onto the output directory is that directory plus one component, and is its own basename. |
| Dl2ToIrfs.TestPath | lstmcpipe/stages/onsite_mc_dl2_to_irfs.py:129-139 | Reading `log[key]['dl2_test_path']` succeeds exactly when both keys exist. A missing particle entry is a KeyError. |
| Dl2ToIrfs.InputsFromLog | lstmcpipe/stages/onsite_mc_dl2_to_irfs.py:128-140 | The log branch succeeds exactly when the proton, electron and selected gamma entries exist, and takes each file from its entry. The gamma entry is `gamma_<offset>` for point-like and `gamma-diffuse` otherwise. |
| Dl2ToIrfs.InputsFromDisk | lstmcpipe/stages/onsite_mc_dl2_to_irfs.py:113-124 | The empty-log branch succeeds exactly when the DL2 search does, taking the gamma, proton and electron files it found. |
| Dl2ToIrfs.SelectedInputs | lstmcpipe/stages/onsite_mc_dl2_to_irfs.py:113-140 | An empty upstream log searches the disk; any other reads the log. |
| Dl2ToIrfs.Submitted | lstmcpipe/stages/onsite_mc_dl2_to_irfs.py:181-190 | Exactly one job: the log maps its id to the batch command, and the returned id string is that id. |
| Dl2ToIrfs.Dl2ToIrfs | lstmcpipe/stages/onsite_mc_dl2_to_irfs.py:65-192 | An offset other than `off0.0deg`/`off0.4deg` exits with -1 before anything else happens. For an allowed offset the run succeeds exactly when the selected inputs are found and the output directory can be prepared. A successful run has prepared that directory, leaving it empty with nothing else changed, and took its inputs from the disk or the log as selected. It submitted the one IRF job built from them, and its log maps the returned id to that command. |
| PyText.ReplaceOnly | lstmcpipe/stages/onsite_mc_dl2_to_irfs.py:104 | `str.replace` of a pattern found exactly once replaces it there and nowhere else. |
| PyText.ReplaceAbsent | lstmcpipe/stages/onsite_mc_dl2_to_irfs.py:104 | `str.replace` leaves a string without the pattern unchanged. |
| PyText.ReplaceCharByNothing | lstmcpipe/stages/onsite_mc_dl2_to_irfs.py:154 | `s.replace('.', '')` deletes exactly the dots. |
| PyText.StripIdempotent | lstmcpipe/stages/mc_merge_dl1.py:146 | Stripping newlines twice is stripping once. |
| PyText.SplitJoin | lstmcpipe/stages/mc_merge_dl1.py:74 | Joining parts that do not contain the separator and splitting again gives the parts back. |
| PyText.ParseZeroPad | lst_scripts/onsite_mc_r0_to_dl1.py:127 | A zero-padded decimal field reads back as its number. |
| PyText.PathJoinInjective | lst_scripts/onsite_mc_r0_to_dl1.py:229-245 | Joining different relative names onto one directory gives different paths. |
| PyText.BasenameOfJoin | lstmcpipe/io/data_management.py:154 | The basename of a directory joined with a plain name is that name. |
| PySeq.TakeDrop | lst_scripts/onsite_mc_r0_to_dl1.py:166-167 | `l[:k] + l[k:]` is `l` for every `k`, and the first part has the clamped length. |
| PySeq.TruncDiv | lst_scripts/onsite_mc_r0_to_dl1.py:157 | `int(a / b)` rounds toward zero. |
| PySeq.FloorMod | lst_scripts/onsite_mc_r0_to_dl1.py:227 | Python's `%`: the remainder has the sign of the divisor and completes the floor division. |

## Left out

- I/O is left out:
  - the `training.list`/`testing.list` files and their final move;
  - writing the list files into the file tree (they are returned as `ListFile` values instead);
  - the copies of the script and of the configuration into the running directory;
  - `manage_source_env_r0_dl1`;
  - `save_log_to_file`;
  - prints and logging.
- Real scheduler submission is left out. The scheduler is an oracle from the command to its raw reply. The job id is that reply with newlines stripped and is not checked further.
- The shuffle is left out. `random.seed`/`random.shuffle` are an oracle, which `ShufflePermutes` requires to return a permutation of its input. The split then holds whatever order it picks.
- Floats are left out. The train/test ratio is an exact fraction, and the DL0 size an integer byte count. `int()` of the exact quotient is used, so float rounding at the boundaries is not modelled.
- Filesystem orderings are left out. `os.listdir` and glob orderings are lists supplied as inputs. The listing of a directory the model wrote must hold its entries in some order: `IsListing` for the file tree and `ListingPermutes` for the list directory.
- `strtobool` is reduced to its documented word sets, and `str.lower` to ASCII letters.
- Paths are left out in part. `os.path.join` is modelled fully, but paths are not normalised (`..`, `.`, repeated `/`). The file tree is keyed by the components of absolute paths.
- Command-line parsing (`argparse` typing, the `__main__` block) is left out. `n_files_per_dl1` arrives as an integer.
- The point-like `'off' in particle` branch of the R0 script calls `remove` on a string. It is modelled as the AttributeError it raises, not as the running directory the comment describes.
- A missing particle in the R0 script is modelled as a TypeError; a workflow run without a prod id is a TypeError too.
- `wait_jobs_dl1dl2` is a string, so the `afterok:None` line produced by a missing value is excluded by the type.
- Several glob matches for a DL2 testing file are modelled as an error (`AmbiguousMatch`) instead of taking the first match in an unspecified order.
- DataManagement.MoveDirContent: file contents are not modelled. When several files are renamed onto one missing or file `dest`, the contract says a file is left there, not which one.
- DataManagement.MoveDirContent: when `dest` lies inside a non-empty `src`, or `shutil.move` hits an existing name, the contract promises only an error, not which exception Python raises.
- DataManagement.MoveDirContent: a failure part-way through the loop is an error with no tree. The entries already moved by then are not modelled.
- Dl2ToIrfs.Dl2ToIrfs: uses the corrected IRF kind (`IrfKind`, the offset or `diffuse` as with an upstream log) on the branch without a log. It also uses the corrected configuration-copy condition (`ConfigCopy`: no copy and no TypeError without a configuration file). Both are Findings below; the as-written behaviour is modelled by `IrfKindDependsOnLog` and `ConfigCopyAsWritten`.
- The merge stage is given one wait string for every entry, as the code does. It is not given a dependency per particle or per set.
- The file sizes oracle is consulted for the first listed file only, as `os.stat(raw_files_list[0])` is.
- R0ToDl1.ScriptMain: the list-file property is stated for N ≥ 0 only. A negative request writes no list file, which the contract of `WriteLists` states.
- R0ToDl1.WorkflowJobWords: states the scheduler options at the head of the command only. The base command and the list-file path after them are stated by `BaseCommandWords` on their own.
- MergeDl1.MergeCommandReadsBack: the fields are recovered only when the account, the wait string, the input and the output contain no space, and the output is not literally `--no-image` or `--skip-simu-images`.

## Findings

| source | as written | input that shows it | evidently intended | confidence | as-written member | corrected member |
|---|---|---|---|---|---|---|
| lstmcpipe/stages/onsite_mc_dl2_to_irfs.py:120-140 | `irf_kind` is the gamma key (`gamma` or `gamma-diffuse`) when no upstream log is given, but the offset or `diffuse` when one is | a point-like run with offset `off0.0deg` and an empty log: job name `IRF_gamma`, logs `job_dl2_to_irfs_gamma_gamma.e/.o`, while the output directory is `.../off0.0deg` | the IRF kind is the offset (point-like) or `diffuse` in both branches, matching the output directory | medium; not executed | Dl2ToIrfs.IrfKindDependsOnLog | Dl2ToIrfs.IrfOutputDirLeaf |
| lstmcpipe/stages/onsite_mc_dl2_to_irfs.py:187-188 | the condition `config_file is not None or config_file is not ''` is always true | `config_file=None`: `os.path.basename(None)` raises a TypeError after the job was already submitted | copy the configuration only when one is given and non-empty | high; not executed | Dl2ToIrfs.ConfigCopyAsWritten | Dl2ToIrfs.ConfigCopy |
