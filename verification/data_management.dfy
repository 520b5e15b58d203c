/** The helpers of `lstmcpipe/io/data_management.py`: the yes/no prompt, the
    clean-then-make directory preparation, the input-file listing and its
    checks, the missing-file report and the directory move. Reading standard
    input becomes a list of answer lines; reading a list file becomes its lines. */
module DataManagement {
  import opened Results
  import opened PyText
  import opened FileTree

  // ---------------------------------------------------------------------------
  // query_yes_no / query_continue

  /** The spellings `distutils.util.strtobool` reads as true and as false. */
  const YesWords: set<string> := {"y", "yes", "t", "true", "on", "1"}
  const NoWords: set<string> := {"n", "no", "f", "false", "off", "0"}

  /** `strtobool(s)`: `None` stands for its `ValueError`. */
  function StrToBool(s: string): Option<bool> {
    var v := Lower(s);
    if v in YesWords then Some(true) else if v in NoWords then Some(false) else None
  }

  /** The defaults `query_yes_no` accepts: none, "yes" or "no". */
  predicate ValidDefault(default: Option<string>) {
    default.None? || default.value == "yes" || default.value == "no"
  }

  /** The choices shown after the question; any other default is a
      `ValueError`. The capitalised choice is the default, and only it. */
  function Prompt(default: Option<string>): (r: Result<string>)
    ensures r.Ok? <==> ValidDefault(default)
    ensures r.Err? ==> r.error.ValueError?
    ensures r.Ok? ==> |r.value| == 7 && r.value[1] == '[' && r.value[3] == '/' && r.value[5] == ']'
    ensures r.Ok? ==> (IsUpper(r.value[2]) <==> default == Some("yes"))
    ensures r.Ok? ==> (IsUpper(r.value[4]) <==> default == Some("no"))
    ensures r.Ok? ==> Lower(r.value) == " [y/n] "
  {
    match default
    case None => Ok(" [y/n] ")
    case Some(d) =>
      if d == "yes" then Ok(" [Y/n] ")
      else if d == "no" then Ok(" [y/N] ")
      else Err(ValueError("invalid default answer: '" + d + "'"))
  }

  /** How one answer line is read: an empty line takes the default when there
      is one; otherwise the lower-cased line goes through `strtobool`, and
      `None` means the question is asked again. */
  function Interpret(default: Option<string>, answer: string): Option<bool>
    requires ValidDefault(default)
  {
    var choice := Lower(answer);
    if default.Some? && choice == "" then Some(default.value == "yes")
    else StrToBool(choice)
  }

  /** An answer: the text shown before each read, the boolean returned, and
      how many lines were read to get it. */
  datatype Reply = Reply(shown: string, value: bool, consumed: nat)

  /** `query_yes_no(question, default)` reading the lines `answers`; running out
      of input is the `EOFError` of `input()`. */
  function QueryYesNo(question: string, default: Option<string>, answers: seq<string>): (r: Result<Reply>)
    ensures !ValidDefault(default) ==> r.Err? && r.error.ValueError?
    ensures r.Ok? ==> r.value.shown == question + Prompt(default).value
    ensures r.Ok? ==> ValidDefault(default) && 1 <= r.value.consumed <= |answers|
    ensures r.Ok? ==> Interpret(default, answers[r.value.consumed - 1]) == Some(r.value.value)
    ensures r.Ok? ==> forall j :: 0 <= j < r.value.consumed - 1 ==> Interpret(default, answers[j]).None?
    ensures ValidDefault(default) && r.Err? ==>
      r.error == EOFError && forall j :: 0 <= j < |answers| ==> Interpret(default, answers[j]).None?
  {
    match Prompt(default)
    case Err(e) => Err(e)
    case Ok(prompt) =>
      match FirstAccepted(default, answers, 0)
      case Err(e) => Err(e)
      case Ok(found) => Ok(Reply(question + prompt, found.0, found.1))
  }

  /** The loop of `query_yes_no` from line `from` on: the value of the first line
      it accepts, with the number of lines read so far. */
  function FirstAccepted(default: Option<string>, answers: seq<string>, from: nat): (r: Result<(bool, nat)>)
    requires ValidDefault(default)
    requires from <= |answers|
    ensures r.Ok? ==> from < r.value.1 <= |answers|
    ensures r.Ok? ==> Interpret(default, answers[r.value.1 - 1]) == Some(r.value.0)
    ensures r.Ok? ==> forall j :: from <= j < r.value.1 - 1 ==> Interpret(default, answers[j]).None?
    ensures r.Err? ==> r.error == EOFError && forall j :: from <= j < |answers| ==> Interpret(default, answers[j]).None?
    decreases |answers| - from
  {
    if from == |answers| then Err(EOFError)
    else
      match Interpret(default, answers[from])
      case Some(b) => Ok((b, from + 1))
      case None => FirstAccepted(default, answers, from + 1)
  }

  /** `query_continue`: a "no" ends the program, so it never answers false. */
  function QueryContinue(question: string, default: Option<string>, answers: seq<string>): (r: Result<Reply>)
    ensures r.Ok? ==> r.value.value
    ensures r == Err(Stopped("Program stopped by user")) <==>
      QueryYesNo(question, default, answers).Ok? && !QueryYesNo(question, default, answers).value.value
    ensures r.Ok? ==> r == QueryYesNo(question, default, answers)
  {
    match QueryYesNo(question, default, answers)
    case Err(e) => Err(e)
    case Ok(reply) =>
      if !reply.value then Err(Stopped("Program stopped by user")) else Ok(reply)
  }

  // ---------------------------------------------------------------------------
  // check_and_make_dir / check_and_make_dir_without_verification

  /** The text of an absolute path. */
  function PathString(d: Path): string {
    "/" + JoinWith("/", d)
  }

  function CleanQuestion(d: Path): string {
    "The directory " + PathString(d) + " is not empty. Do you want to remove its content?"
  }

  /** `shutil.rmtree(d)` then `os.makedirs(d, exist_ok=True)` on an existing directory. */
  function Recreate(fs: Tree, d: Path): (r: Result<Tree>)
    requires WellFormed(fs) && IsDir(fs, d)
    ensures r.Ok? && WellFormed(r.value) && IsDir(r.value, d) && !HasEntries(r.value, d)
    ensures forall p :: p in r.value <==> (p in fs && !Under(d, p)) || p == d
    ensures forall p :: p in fs && !Under(d, p) ==> r.value[p] == fs[p]
  {
    if |d| == 0 then
      // Removing the root leaves nothing; makedirs creates the root again.
      Ok(map[[] := Dir])
    else
      var cleared := RemoveTree(fs, d);
      RemoveTreeWellFormed(fs, d);
      AncestorsAreDirs(fs, d, |d| - 1);
      assert !Under(d, d[..|d| - 1]);
      MakeDirs(cleared, d)
  }

  /** The promise both preparation helpers keep: `d` is an empty directory, every
      path outside `d` that existed is unchanged, and the only new paths are `d`
      and the ancestors `makedirs` had to create. */
  ghost predicate Prepared(fs: Tree, d: Path, r: Tree) {
    && WellFormed(r)
    && IsDir(r, d)
    && !HasEntries(r, d)
    && (forall p :: p in fs && !Under(d, p) ==> p in r && r[p] == fs[p])
    && (forall p :: p in r && p !in fs ==> Under(p, d))
  }

  /** `check_and_make_dir_without_verification(d)`. Listing a regular file is a
      `NotADirectoryError`. */
  function CheckAndMakeDirWithoutVerification(fs: Tree, d: Path): (r: Result<Tree>)
    requires WellFormed(fs)
    ensures r.Ok? ==> Prepared(fs, d, r.value)
    ensures r.Err? ==> d !in fs || IsFile(fs, d)
    ensures IsDir(fs, d) ==> r.Ok?
    ensures IsDir(fs, d) && !HasEntries(fs, d) ==> r == Ok(fs)
  {
    if IsFile(fs, d) then Err(NotADirectoryError)
    else if d in fs && HasEntries(fs, d) then Recreate(fs, d)
    else
      var r := MakeDirs(fs, d);
      if r.Ok? && d !in fs then MakeDirsFresh(fs, d); r else r
  }

  /** The user answers yes when asked whether to clean `d`. */
  predicate AgreesToClean(d: Path, answers: seq<string>) {
    var reply := QueryYesNo(CleanQuestion(d), Some("no"), answers);
    reply.Ok? && reply.value.value
  }

  /** `check_and_make_dir(d)`: a non-empty directory is only cleaned after the
      user agrees; declining stops the program. */
  function CheckAndMakeDir(fs: Tree, d: Path, answers: seq<string>): (r: Result<Tree>)
    requires WellFormed(fs)
    ensures r.Ok? ==> Prepared(fs, d, r.value)
    ensures r.Err? && r.error.Stopped? ==> IsDir(fs, d) && HasEntries(fs, d)
    ensures IsDir(fs, d) && HasEntries(fs, d) ==> (r.Ok? <==> AgreesToClean(d, answers))
    ensures IsDir(fs, d) && !HasEntries(fs, d) ==> r == Ok(fs)
  {
    if IsFile(fs, d) then Err(NotADirectoryError)
    else if d in fs && HasEntries(fs, d) then
      match QueryContinue(CleanQuestion(d), Some("no"), answers)
      case Err(e) => Err(e)
      case Ok(_) => Recreate(fs, d)
    else CheckAndMakeDirWithoutVerification(fs, d)
  }

  /** How many answer lines `check_and_make_dir(d)` reads: none unless `d` is a
      non-empty directory, then as many as the question needs. */
  function AnswersUsed(fs: Tree, d: Path, answers: seq<string>): (n: nat)
    ensures n <= |answers|
    ensures n > 0 ==> IsDir(fs, d) && HasEntries(fs, d)
    ensures AgreesToClean(d, answers) && IsDir(fs, d) && HasEntries(fs, d) ==>
      n == QueryYesNo(CleanQuestion(d), Some("no"), answers).value.consumed
  {
    if IsDir(fs, d) && HasEntries(fs, d) then
      match QueryYesNo(CleanQuestion(d), Some("no"), answers)
      case Ok(reply) => reply.consumed
      case Err(_) => 0
    else 0
  }

  // ---------------------------------------------------------------------------
  // get_input_filelist / check_data_path

  /** The regular files among the entries `names` of `d`, in that order. */
  function FilesAmong(fs: Tree, d: Path, names: seq<string>): (r: seq<Path>)
    ensures forall k :: 0 <= k < |r| ==> IsFile(fs, r[k]) && IsChild(d, r[k])
    ensures forall k :: 0 <= k < |names| && IsFile(fs, d + [names[k]]) ==> d + [names[k]] in r
  {
    if |names| == 0 then []
    else
      var rest := FilesAmong(fs, d, names[1..]);
      assert forall k :: 1 <= k < |names| ==> names[k] == names[1..][k - 1];
      if IsFile(fs, d + [names[0]]) then [d + [names[0]]] + rest else rest
  }

  /** `get_input_filelist(d)` given the order `os.listdir(d)` returns: the
      absolute paths of exactly the regular files directly in `d`. */
  function GetInputFilelist(fs: Tree, d: Path, listing: seq<string>): (r: Result<seq<Path>>)
    requires WellFormed(fs)
    requires IsDir(fs, d) ==> IsListing(fs, d, listing)
    ensures r.Ok? <==> IsDir(fs, d)
    ensures r.Ok? ==> forall k :: 0 <= k < |r.value| ==> IsFile(fs, r.value[k]) && IsChild(d, r.value[k])
    ensures r.Ok? ==> forall p :: IsFile(fs, p) && IsChild(d, p) ==> p in r.value
  {
    if d !in fs then Err(FileNotFoundError)
    else if fs[d] == File then Err(NotADirectoryError)
    else
      var r := FilesAmong(fs, d, listing);
      FilesAmongListing(fs, d, listing);
      Ok(r)
  }

  /** Filtering a complete listing misses no file of the directory. */
  lemma FilesAmongListing(fs: Tree, d: Path, listing: seq<string>)
    requires IsListing(fs, d, listing)
    ensures forall p :: IsFile(fs, p) && IsChild(d, p) ==> p in FilesAmong(fs, d, listing)
  {
    forall p | IsFile(fs, p) && IsChild(d, p)
      ensures p in FilesAmong(fs, d, listing)
    {
      var k :| 0 <= k < |listing| && listing[k] == p[|d|];
      assert p == d + [listing[k]];
    }
  }

  /** `check_data_path(d)`: the directory must exist and hold at least one regular file. */
  function CheckDataPath(fs: Tree, d: Path, listing: seq<string>): (r: Result<()>)
    requires WellFormed(fs)
    requires IsDir(fs, d) ==> IsListing(fs, d, listing)
    ensures r.Ok? <==> IsDir(fs, d) && exists p :: IsFile(fs, p) && IsChild(d, p)
    ensures d !in fs ==> r == Err(ValueError("The input directory must exist"))
    ensures IsDir(fs, d) && r.Err? ==> r.error == ValueError("The input directory is empty")
    ensures r.Ok? ==> |GetInputFilelist(fs, d, listing).value| > 0
  {
    if d !in fs then Err(ValueError("The input directory must exist"))
    else
      match GetInputFilelist(fs, d, listing)
      case Err(e) => Err(e)
      case Ok(files) =>
        if files == [] then Err(ValueError("The input directory is empty"))
        else
          assert IsFile(fs, files[0]) && IsChild(d, files[0]);
          Ok(())
  }

  // ---------------------------------------------------------------------------
  // check_files_in_dir_from_file / read_lines_file

  /** The file name a list line names: trailing newlines dropped, then the basename. */
  function EntryName(line: string): string {
    Basename(StripRight(line, '\n'))
  }

  /** The names the lines of a list file stand for. */
  function EntryNames(lines: seq<string>): (r: seq<string>)
    ensures |r| == |lines|
    ensures forall k :: 0 <= k < |lines| ==> r[k] == EntryName(lines[k])
  {
    seq(|lines|, k requires 0 <= k < |lines| => EntryName(lines[k]))
  }

  /** The names that are not entries of `dir`, in order, repeats kept. */
  function Absent(fs: Tree, dir: Path, names: seq<string>): (r: seq<string>)
    ensures |r| <= |names|
    ensures forall k :: 0 <= k < |r| ==> dir + [r[k]] !in fs && r[k] in names
    ensures forall k :: 0 <= k < |names| && dir + [names[k]] !in fs ==> names[k] in r
  {
    if |names| == 0 then []
    else
      var rest := Absent(fs, dir, names[1..]);
      assert forall k :: 1 <= k < |names| ==> names[k] == names[1..][k - 1];
      assert forall x :: x in names[1..] ==> x in names;
      if dir + [names[0]] !in fs then [names[0]] + rest else rest
  }

  /** The report on a list is the report on its first part followed by the
      report on the rest: names are checked one by one, in order. */
  lemma {:induction false} AbsentAppend(fs: Tree, dir: Path, a: seq<string>, b: seq<string>)
    ensures Absent(fs, dir, a + b) == Absent(fs, dir, a) + Absent(fs, dir, b)
    decreases |a|
  {
    if |a| > 0 {
      var head := if dir + [a[0]] !in fs then [a[0]] else [];
      var restA, restB := Absent(fs, dir, a[1..]), Absent(fs, dir, b);
      assert (a + b)[1..] == a[1..] + b;
      assert (a + b)[0] == a[0];
      AbsentAppend(fs, dir, a[1..], b);
      assert Absent(fs, dir, a + b) == head + (restA + restB);
      assert Absent(fs, dir, a) == head + restA;
      assert head + (restA + restB) == (head + restA) + restB;
    } else {
      assert a + b == b;
    }
  }

  /** `check_files_in_dir_from_file(dir, file)` given the lines of `file`. */
  function CheckFilesInDirFromFile(fs: Tree, dir: Path, lines: seq<string>): (r: Result<seq<string>>)
    ensures r.Ok? <==> IsDir(fs, dir)
    ensures r.Ok? ==> r.value == Absent(fs, dir, EntryNames(lines))
  {
    if dir !in fs then Err(FileNotFoundError)
    else if fs[dir] == File then Err(NotADirectoryError)
    else Ok(Absent(fs, dir, EntryNames(lines)))
  }

  /** `read_lines_file(file)` given the lines of `file`: each without its line end. */
  function ReadLinesFile(lines: seq<string>): (r: seq<string>)
    ensures |r| == |lines|
    ensures forall k :: 0 <= k < |r| ==> IsPrefix(r[k], lines[k]) && (|r[k]| == 0 || r[k][|r[k]| - 1] != '\n')
    ensures forall k, i :: 0 <= k < |r| && |r[k]| <= i < |lines[k]| ==> lines[k][i] == '\n'
  {
    seq(|lines|, k requires 0 <= k < |lines| => StripRight(lines[k], '\n'))
  }

  // ---------------------------------------------------------------------------
  // move_dir_content

  /** Some entry of `src` already exists under the same name in `dest`. */
  predicate NameTaken(fs: Tree, src: Path, dest: Path) {
    exists p :: p in fs && IsChild(src, p) && dest + [p[|src|]] in fs
  }

  /** Every entry of `d` is a file. */
  predicate OnlyFiles(fs: Tree, d: Path) {
    forall p :: p in fs && IsChild(d, p) ==> fs[p] == File
  }

  /** Some other entry of `src` has the name of an entry of the directory `a`. */
  predicate ClashesWith(fs: Tree, src: Path, a: Path) {
    exists p :: p in fs && IsChild(src, p) && p != a && a + [p[|src|]] in fs
  }

  /** `move_dir_content(src, dest)`, with `names` the order `os.listdir(src)`
      gives. `shutil.move(src/f, dest)` runs for each name in turn, then
      `os.rmdir(src)`:
      - into a directory `dest`, each entry moves to `dest/f`; an existing
        `dest/f` or a directory moved into itself fails;
      - otherwise the first entry is renamed to `dest`. A directory becomes
        `dest`, with its missing parents made as `copytree` does, and the
        other entries then move into it. A file becomes the file `dest`,
        each later file replaces it, and a later directory cannot be
        renamed onto it;
      - `os.rmdir` fails on the root and on a directory still holding an entry. */
  function MoveDirContent(fs: Tree, src: Path, dest: Path, names: seq<string>): (r: Result<Tree>)
    requires WellFormed(fs)
    requires IsDir(fs, src) ==> IsListing(fs, src, names)
    ensures r.Ok? ==> IsDir(fs, src) && src !in r.value && WellFormed(r.value)
    ensures r.Ok? ==> !(HasEntries(fs, src) && Under(src, dest))
    // into a directory
    ensures IsDir(fs, src) && (IsDir(fs, dest) || !HasEntries(fs, src)) ==>
      && (r.Ok? <==> |src| > 0 && !(HasEntries(fs, src) && Under(src, dest)) && !NameTaken(fs, src, dest))
      && (r.Ok? ==> MovedInto(fs, src, dest, r.value))
    // files onto a file or a missing path
    ensures IsDir(fs, src) && HasEntries(fs, src) && !IsDir(fs, dest) && OnlyFiles(fs, src) ==>
      && (r.Ok? <==> !Under(src, dest) && (IsFile(fs, dest) || HasParentDir(fs, dest)))
      && (r.Ok? ==> FilesOnto(fs, src, dest, r.value))
    // a directory renamed onto a missing path
    ensures IsDir(fs, src) && HasEntries(fs, src) && !IsDir(fs, dest) && !OnlyFiles(fs, src) ==>
      && (r.Ok? ==> dest !in fs && |names| > 0 && IsDir(fs, src + [names[0]]))
      && (r.Ok? ==> RenamedOnto(fs, src, dest, src + [names[0]], r.value))
      && (dest !in fs && |names| > 0 && IsDir(fs, src + [names[0]]) ==>
            (r.Ok? <==> && !Under(src, dest)
                        && MakeDirs(fs, dest[..|dest| - 1]).Ok?
                        && !ClashesWith(fs, src, src + [names[0]])))
  {
    if src !in fs then Err(FileNotFoundError)
    else if fs[src] == File then Err(NotADirectoryError)
    else if !HasEntries(fs, src) || IsDir(fs, dest) then MoveInto(fs, src, dest)
    else if Under(src, dest) then Err(MoveError("destination inside the source"))
    else if OnlyFiles(fs, src) then
      if IsFile(fs, dest) || HasParentDir(fs, dest) then
        FilesOntoFacts(fs, src, dest);
        Ok(RemoveTree(fs, src)[dest := File])
      else Err(FileNotFoundError)
    else if IsFile(fs, dest) then Err(FileExistsError)
    else
      ListingNotEmpty(fs, src, names);
      var a := src + [names[0]];
      if fs[a] == File then Err(FileExistsError)
      else MoveOntoMissing(fs, src, dest, a)
  }

  /** `r` is `fs` after every entry of `src` moved into `dest` and `src` was
      removed: what was below `src` is at the same place below `dest`, what
      was outside `src` is unchanged, and nothing else is there. */
  ghost predicate MovedInto(fs: Tree, src: Path, dest: Path, r: Tree) {
    && src !in r && WellFormed(r)
    && (forall p :: p in fs && StrictlyUnder(src, p) ==>
          Relocated(src, dest, p) in r && r[Relocated(src, dest, p)] == fs[p])
    && (forall p :: p in fs && !Under(src, p) ==> p in r && r[p] == fs[p])
    && (forall q :: q in r && !(q in fs && !Under(src, q)) ==>
          StrictlyUnder(dest, q) && Origin(src, dest, q) in fs && StrictlyUnder(src, Origin(src, dest, q)))
  }

  /** `r` is `fs` after the files of `src` were renamed in turn onto `dest`,
      the last one staying, and `src` was removed. */
  ghost predicate FilesOnto(fs: Tree, src: Path, dest: Path, r: Tree) {
    && src !in r && WellFormed(r) && IsFile(r, dest)
    && (forall q :: q in r <==> (q in fs && !Under(src, q)) || q == dest)
    && (forall q :: q in r && q != dest ==> r[q] == fs[q])
  }

  /** `r` is `fs` after the directory `a` of `src` became `dest`, with `dest`'s
      missing parents made, the other entries of `src` moved into it and
      `src` removed. */
  ghost predicate RenamedOnto(fs: Tree, src: Path, dest: Path, a: Path, r: Tree) {
    && src !in r && WellFormed(r) && IsDir(r, dest)
    && (forall p :: p in fs && Under(a, p) ==>
          Relocated(a, dest, p) in r && r[Relocated(a, dest, p)] == fs[p])
    && (forall p :: p in fs && StrictlyUnder(src, p) && !Under(a, p) ==>
          Relocated(src, dest, p) in r && r[Relocated(src, dest, p)] == fs[p])
    && (forall p :: p in fs && !Under(src, p) ==> p in r && r[p] == fs[p])
    && (forall q :: q in r && !(q in fs && !Under(src, q)) ==> Under(q, dest) || Under(dest, q))
  }

  /** The loop of `move_dir_content` when each entry moves into the directory
      `dest` (or there is none), then `os.rmdir(src)`. */
  function MoveInto(fs: Tree, src: Path, dest: Path): (r: Result<Tree>)
    requires WellFormed(fs) && IsDir(fs, src)
    requires HasEntries(fs, src) ==> IsDir(fs, dest)
    ensures r.Ok? <==> |src| > 0 && !(HasEntries(fs, src) && Under(src, dest)) && !NameTaken(fs, src, dest)
    ensures r.Ok? ==> MovedInto(fs, src, dest, r.value)
  {
    if HasEntries(fs, src) && Under(src, dest) then Err(MoveError("Cannot move a directory into itself"))
    else if NameTaken(fs, src, dest) then Err(MoveError("Destination path already exists"))
    else if |src| == 0 then Err(MoveError("the root directory cannot be removed"))
    else
      MoveEntriesKeys(fs, src, dest);
      MoveEntriesMoved(fs, src, dest);
      MoveEntriesRemovesSource(fs, src, dest);
      MoveEntriesWellFormed(fs, src, dest);
      Ok(MoveEntries(fs, src, dest))
  }

  /** A listing of a directory with an entry is not empty, and its first name is an entry. */
  lemma ListingNotEmpty(fs: Tree, d: Path, names: seq<string>)
    requires IsListing(fs, d, names) && HasEntries(fs, d)
    ensures |names| > 0 && d + [names[0]] in fs && IsChild(d, d + [names[0]])
  {
    var p :| p in fs && IsChild(d, p);
    assert p[|d|] in names;
  }

  /** Replacing the file `dest`, or making it in an existing directory, after
      removing `src` keeps the tree well formed. */
  lemma FilesOntoFacts(fs: Tree, src: Path, dest: Path)
    requires WellFormed(fs) && IsDir(fs, src) && !Under(src, dest)
    requires IsFile(fs, dest) || (dest !in fs && HasParentDir(fs, dest))
    ensures FilesOnto(fs, src, dest, RemoveTree(fs, src)[dest := File])
  {
    FilesOntoWellFormed(fs, src, dest);
    FilesOntoKeys(fs, src, dest, RemoveTree(fs, src));
  }

  lemma FilesOntoWellFormed(fs: Tree, src: Path, dest: Path)
    requires WellFormed(fs) && IsDir(fs, src) && !Under(src, dest)
    requires IsFile(fs, dest) || (dest !in fs && HasParentDir(fs, dest))
    ensures WellFormed(RemoveTree(fs, src)[dest := File])
  {
    assert |src| > 0;
    assert |dest| > 0;
    RemoveTreeWellFormed(fs, src);
    var up := dest[..|dest| - 1];
    if IsFile(fs, dest) {
      AncestorsAreDirs(fs, dest, |dest| - 1);
    }
    if |src| <= |up| {
      assert up[..|src|] == dest[..|src|];
    }
    AddFile(RemoveTree(fs, src), dest);
  }

  lemma FilesOntoKeys(fs: Tree, src: Path, dest: Path, t: Tree)
    requires forall p :: p in t <==> p in fs && !Under(src, p)
    requires forall p :: p in t ==> t[p] == fs[p]
    ensures src !in t[dest := File] || src == dest
    ensures forall q :: q in t[dest := File] <==> (q in fs && !Under(src, q)) || q == dest
    ensures forall q :: q in t[dest := File] && q != dest ==> t[dest := File][q] == fs[q]
  {
    assert Under(src, src);
  }

  /** The first entry `a` of `src`, a directory, is renamed to the missing
      `dest` (whose missing parents are made first), and the other entries
      move into it. */
  function MoveOntoMissing(fs: Tree, src: Path, dest: Path, a: Path): (r: Result<Tree>)
    requires WellFormed(fs) && IsDir(fs, src) && IsChild(src, a) && IsDir(fs, a)
    requires dest !in fs && !Under(src, dest)
    ensures r.Ok? <==> MakeDirs(fs, dest[..|dest| - 1]).Ok? && !ClashesWith(fs, src, a)
    ensures r.Ok? ==> RenamedOnto(fs, src, dest, a, r.value)
  {
    assert |dest| > 0 by {
      assert [] in fs;
    }
    var made := MakeDirs(fs, dest[..|dest| - 1]);
    if made.Err? then Err(made.error)
    else
      assert MadeFrom(fs, made.value, dest[..|dest| - 1]);
      RenameFirstFacts(fs, made.value, src, dest, a);
      RenamedClash(fs, made.value, src, dest, a);
      var t := Renamed(made.value, a, dest);
      var r := MoveInto(t, src, dest);
      if r.Ok? then
        MissingNotAbove(fs, src, dest);
        MovedFirstEntry(fs, made.value, t, r.value, src, dest, a);
        MovedOtherEntries(fs, made.value, t, r.value, src, dest, a);
        MovedFrame(fs, made.value, t, r.value, src, a);
        MovedNewPaths(fs, made.value, t, r.value, src, dest, a);
        r
      else r
  }

  /** A relocated entry sits in `dest` under the name of the top-level entry of `src` it came from. */
  lemma RelocatedShape(src: Path, dest: Path, p: Path)
    requires StrictlyUnder(src, p)
    ensures IsChild(src, p[..|src| + 1]) && p[..|src| + 1][|src|] == p[|src|]
    ensures Relocated(src, dest, p)[..|dest| + 1] == dest + [p[|src|]]
    ensures StrictlyUnder(dest, Relocated(src, dest, p))
    ensures Origin(src, dest, Relocated(src, dest, p)) == p
  {
    var q := Relocated(src, dest, p);
    assert q[|dest|..] == p[|src|..];
    assert p == p[..|src|] + p[|src|..];
  }

  /** When nothing in `dest` has the name of an entry of `src`, no moved path lands on an existing one. */
  lemma RelocatedIsNew(fs: Tree, src: Path, dest: Path, p: Path)
    requires WellFormed(fs) && !NameTaken(fs, src, dest)
    requires p in fs && StrictlyUnder(src, p)
    ensures Relocated(src, dest, p) !in fs
  {
    var top := p[..|src| + 1];
    RelocatedShape(src, dest, p);
    if |src| + 1 < |p| {
      AncestorsAreDirs(fs, p, |src| + 1);
    } else {
      assert top == p;
    }
    assert top in fs && IsChild(src, top);
    assert dest + [top[|src|]] !in fs;
    MissingBelow(fs, Relocated(src, dest, p), |dest| + 1);
  }

  /** Every path of the moved part is the relocation of an entry below `src`. */
  lemma MovedKeys(fs: Tree, src: Path, dest: Path)
    ensures forall q :: q in Moved(fs, src, dest) ==>
      StrictlyUnder(dest, q) && Origin(src, dest, q) in fs && StrictlyUnder(src, Origin(src, dest, q))
  {
    forall q | q in Moved(fs, src, dest)
      ensures StrictlyUnder(dest, q) && Origin(src, dest, q) in fs && StrictlyUnder(src, Origin(src, dest, q))
    {
      var p :| p in fs && StrictlyUnder(src, p) && q == Relocated(src, dest, p);
      RelocatedShape(src, dest, p);
    }
  }

  /** Which paths the move leaves: the old ones outside `src` and the relocated ones. */
  lemma MoveEntriesKeys(fs: Tree, src: Path, dest: Path)
    ensures forall q :: q in MoveEntries(fs, src, dest) && !(q in fs && !Under(src, q)) ==>
      StrictlyUnder(dest, q) && Origin(src, dest, q) in fs && StrictlyUnder(src, Origin(src, dest, q))
  {
    MovedKeys(fs, src, dest);
  }

  /** With no name clash every entry below `src` lands, with its kind, at its relocated path. */
  lemma MoveEntriesMoved(fs: Tree, src: Path, dest: Path)
    requires WellFormed(fs) && !NameTaken(fs, src, dest)
    ensures forall p :: p in fs && StrictlyUnder(src, p) ==>
      Relocated(src, dest, p) in MoveEntries(fs, src, dest) && MoveEntries(fs, src, dest)[Relocated(src, dest, p)] == fs[p]
  {
    forall p | p in fs && StrictlyUnder(src, p)
      ensures Relocated(src, dest, p) in MoveEntries(fs, src, dest) && MoveEntries(fs, src, dest)[Relocated(src, dest, p)] == fs[p]
    {
      RelocatedIsNew(fs, src, dest, p);
    }
  }

  /** `src` itself is gone after the move. */
  lemma MoveEntriesRemovesSource(fs: Tree, src: Path, dest: Path)
    requires WellFormed(fs) && !NameTaken(fs, src, dest) && src in fs
    ensures src !in MoveEntries(fs, src, dest)
  {
    MovedKeys(fs, src, dest);
    if src in Moved(fs, src, dest) {
      var p := Origin(src, dest, src);
      RelocatedShape(src, dest, p);
      RelocatedIsNew(fs, src, dest, p);
    }
  }

  /** Relocation commutes with taking the parent. */
  lemma RelocatedParent(src: Path, dest: Path, p: Path)
    requires |src| + 1 < |p| && p[..|src|] == src
    ensures p[..|p| - 1][..|src|] == src
    ensures Relocated(src, dest, p[..|p| - 1]) == Relocated(src, dest, p)[..|Relocated(src, dest, p)| - 1]
  {
    var pu := p[..|p| - 1];
    var tail := p[|src|..];
    assert pu[|src|..] == tail[..|tail| - 1];
    assert (dest + tail)[..|dest + tail| - 1] == dest + tail[..|tail| - 1];
  }

  /** The parent of a relocated entry is `dest` or itself a relocated directory. */
  lemma ParentOfMoved(fs: Tree, src: Path, dest: Path, p: Path, q: Path)
    requires WellFormed(fs) && IsDir(fs, dest) && !Under(src, dest) && !NameTaken(fs, src, dest)
    requires p in fs && StrictlyUnder(src, p) && q == Relocated(src, dest, p)
    ensures IsDir(MoveEntries(fs, src, dest), q[..|q| - 1])
  {
    if |p| == |src| + 1 {
      assert |q| == |dest| + 1 && q[..|dest|] == dest;
    } else {
      ParentOfMovedDeep(fs, src, dest, p, q);
    }
  }

  /** A relocated entry two or more levels below `src` sits in a relocated directory. */
  lemma ParentOfMovedDeep(fs: Tree, src: Path, dest: Path, p: Path, q: Path)
    requires WellFormed(fs) && !NameTaken(fs, src, dest)
    requires p in fs && |src| + 1 < |p| && p[..|src|] == src && q == Relocated(src, dest, p)
    ensures IsDir(MoveEntries(fs, src, dest), q[..|q| - 1])
  {
    var pu := p[..|p| - 1];
    RelocatedParent(src, dest, p);
    assert IsDir(fs, pu) && StrictlyUnder(src, pu);
    RelocatedIsNew(fs, src, dest, pu);
    assert q[..|q| - 1] == Relocated(src, dest, pu);
  }

  /** The parent of an entry outside `src` is outside `src` as well and stays. */
  lemma ParentOfKept(fs: Tree, src: Path, dest: Path, q: Path)
    requires WellFormed(fs)
    requires q in fs && !Under(src, q) && |q| > 0
    ensures IsDir(MoveEntries(fs, src, dest), q[..|q| - 1])
  {
    var up := q[..|q| - 1];
    if |src| <= |up| {
      assert up[..|src|] == q[..|src|];
    }
  }

  /** The parent of any path the move creates is a directory afterwards. */
  lemma ParentOfNew(fs: Tree, src: Path, dest: Path, q: Path)
    requires WellFormed(fs) && IsDir(fs, src)
    requires HasEntries(fs, src) ==> IsDir(fs, dest) && !Under(src, dest)
    requires !NameTaken(fs, src, dest)
    requires StrictlyUnder(dest, q) && Origin(src, dest, q) in fs && StrictlyUnder(src, Origin(src, dest, q))
    ensures IsDir(MoveEntries(fs, src, dest), q[..|q| - 1])
  {
    var p := Origin(src, dest, q);
    assert q == Relocated(src, dest, p) by {
      assert q == q[..|dest|] + q[|dest|..];
    }
    TopEntry(fs, src, p);
    assert IsDir(fs, dest) && !Under(src, dest);
    ParentOfMoved(fs, src, dest, p, q);
  }

  /** An entry below `src` means `src` is not empty. */
  lemma TopEntry(fs: Tree, src: Path, p: Path)
    requires WellFormed(fs) && p in fs && StrictlyUnder(src, p)
    ensures HasEntries(fs, src)
  {
    var top := p[..|src| + 1];
    if |src| + 1 < |p| {
      AncestorsAreDirs(fs, p, |src| + 1);
    } else {
      assert top == p;
    }
    assert top in fs && IsChild(src, top);
  }

  lemma MoveEntriesWellFormed(fs: Tree, src: Path, dest: Path)
    requires WellFormed(fs) && IsDir(fs, src) && |src| > 0
    requires HasEntries(fs, src) ==> IsDir(fs, dest) && !Under(src, dest)
    requires !NameTaken(fs, src, dest)
    ensures WellFormed(MoveEntries(fs, src, dest))
  {
    var r := MoveEntries(fs, src, dest);
    MoveEntriesKeys(fs, src, dest);
    forall q | q in r && |q| > 0
      ensures IsDir(r, q[..|q| - 1])
    {
      if q in fs && !Under(src, q) {
        ParentOfKept(fs, src, dest, q);
      } else {
        ParentOfNew(fs, src, dest, q);
      }
    }
    assert !Under(src, []);
  }

  /** `made` is `fs` after `os.makedirs(up)`: only ancestors of `up` are new. */
  ghost predicate MadeFrom(fs: Tree, made: Tree, up: Path) {
    && WellFormed(made) && IsDir(made, up)
    && (forall p :: p in fs ==> p in made && made[p] == fs[p])
    && (forall p :: p in made && p !in fs ==> Under(p, up))
  }

  /** A missing path is not above an existing one. */
  lemma MissingNotAbove(fs: Tree, p: Path, dest: Path)
    requires WellFormed(fs) && p in fs && dest !in fs
    ensures !Under(dest, p)
  {
    if Under(dest, p) && |dest| < |p| {
      AncestorsAreDirs(fs, p, |dest|);
    } else if |dest| == |p| {
      assert p[..|p|] == p;
    }
  }

  /** Below `src`, making the parents of a `dest` outside it adds nothing, and `dest`
      and what would be below it are still missing. */
  lemma MadeOutside(fs: Tree, made: Tree, src: Path, dest: Path)
    requires WellFormed(fs) && |dest| > 0 && dest !in fs && !Under(src, dest)
    requires MadeFrom(fs, made, dest[..|dest| - 1])
    ensures forall p :: p in made && Under(src, p) ==> p in fs
    ensures forall p :: Under(dest, p) ==> p !in made
  {
    forall p | Under(dest, p)
      ensures p !in made
    {
      MissingBelow(fs, p, |dest|);
      assert p[..|dest|] == dest;
    }
  }

  lemma RenameFirstFacts(fs: Tree, made: Tree, src: Path, dest: Path, a: Path)
    requires WellFormed(fs) && IsDir(fs, src) && IsChild(src, a) && IsDir(fs, a)
    requires |dest| > 0 && dest !in fs && !Under(src, dest)
    requires MadeFrom(fs, made, dest[..|dest| - 1])
    ensures forall p :: p in made && Under(src, p) ==> p in fs
    ensures forall p :: Under(dest, p) ==> p !in made
    ensures WellFormed(Renamed(made, a, dest)) && IsDir(Renamed(made, a, dest), src) && IsDir(Renamed(made, a, dest), dest)
  {
    MadeOutside(fs, made, src, dest);
    assert !Under(a, dest);
    assert dest !in made by {
      assert Under(dest, dest);
    }
    RenamedWellFormed(made, a, dest);
    assert !Under(a, src);
  }

  /** After the rename, an entry of `src` clashes with one in `dest` exactly
      when it has the name of an entry of `a`. */
  lemma RenamedClash(fs: Tree, made: Tree, src: Path, dest: Path, a: Path)
    requires WellFormed(fs) && IsDir(fs, src) && IsChild(src, a) && IsDir(fs, a)
    requires |dest| > 0 && dest !in fs && !Under(src, dest)
    requires forall p :: p in fs ==> p in made && made[p] == fs[p]
    requires forall p :: p in made && Under(src, p) ==> p in fs
    requires forall p :: Under(dest, p) ==> p !in made
    ensures |src| > 0
    ensures NameTaken(Renamed(made, a, dest), src, dest) <==> ClashesWith(fs, src, a)
  {
    var t := Renamed(made, a, dest);
    MissingNotAbove(fs, src, dest);
    if NameTaken(t, src, dest) {
      var p :| p in t && IsChild(src, p) && dest + [p[|src|]] in t;
      ClashFromRenamed(fs, made, t, src, dest, a, p);
    }
    if ClashesWith(fs, src, a) {
      var p :| p in fs && IsChild(src, p) && p != a && a + [p[|src|]] in fs;
      ClashToRenamed(fs, made, t, src, dest, a, p);
    }
  }

  lemma ClashFromRenamed(fs: Tree, made: Tree, t: Tree, src: Path, dest: Path, a: Path, p: Path)
    requires IsChild(src, a) && !Under(src, dest) && !Under(dest, src)
    requires forall p :: p in made && Under(src, p) ==> p in fs
    requires forall p :: Under(dest, p) ==> p !in made
    requires forall q :: q in t ==> (q in made && !Under(a, q)) || (Under(dest, q) && Origin(a, dest, q) in made && Under(a, Origin(a, dest, q)))
    requires p in t && IsChild(src, p) && dest + [p[|src|]] in t
    ensures p in fs && p != a && a + [p[|src|]] in fs
  {
    var n := p[|src|];
    var q := dest + [n];
    assert !Under(dest, p);
    assert Under(dest, q);
    var o := Origin(a, dest, q);
    assert o == a + [n];
  }

  lemma ClashToRenamed(fs: Tree, made: Tree, t: Tree, src: Path, dest: Path, a: Path, p: Path)
    requires IsChild(src, a)
    requires forall p :: p in fs ==> p in made && made[p] == fs[p]
    requires forall p :: Under(dest, p) ==> p !in made
    requires forall p :: p in made && !Under(a, p) ==> p in t && t[p] == made[p]
    requires forall p :: p in made && Under(a, p) && Relocated(a, dest, p) !in made ==>
      Relocated(a, dest, p) in t && t[Relocated(a, dest, p)] == made[p]
    requires p in fs && IsChild(src, p) && p != a && a + [p[|src|]] in fs
    ensures NameTaken(t, src, dest)
  {
    var n := p[|src|];
    var o := a + [n];
    assert !Under(a, p);
    assert Relocated(a, dest, o) == dest + [n];
    assert Under(dest, dest + [n]);
    assert p in t && dest + [p[|src|]] in t;
  }

  /** The first entry is at `dest` after the move, and `dest` is a directory. */
  lemma MovedFirstEntry(fs: Tree, made: Tree, t: Tree, r: Tree, src: Path, dest: Path, a: Path)
    requires IsChild(src, a) && IsDir(fs, a) && !Under(src, dest) && !Under(dest, src)
    requires forall p :: p in fs ==> p in made && made[p] == fs[p]
    requires forall p :: Under(dest, p) ==> p !in made
    requires forall p :: p in made && Under(a, p) && Relocated(a, dest, p) !in made ==>
      Relocated(a, dest, p) in t && t[Relocated(a, dest, p)] == made[p]
    requires forall p :: p in t && !Under(src, p) ==> p in r && r[p] == t[p]
    ensures IsDir(r, dest)
    ensures forall p :: p in fs && Under(a, p) ==> Relocated(a, dest, p) in r && r[Relocated(a, dest, p)] == fs[p]
  {
    forall p | p in fs && Under(a, p)
      ensures Relocated(a, dest, p) in r && r[Relocated(a, dest, p)] == fs[p]
    {
      var q := Relocated(a, dest, p);
      assert q[..|dest|] == dest;
      assert !Under(src, q);
    }
    assert Relocated(a, dest, a) == dest;
    assert Under(a, a);
  }

  /** The other entries below `src` are at their places below `dest`. */
  lemma MovedOtherEntries(fs: Tree, made: Tree, t: Tree, r: Tree, src: Path, dest: Path, a: Path)
    requires forall p :: p in fs ==> p in made && made[p] == fs[p]
    requires forall p :: p in made && !Under(a, p) ==> p in t && t[p] == made[p]
    requires forall p :: p in t && StrictlyUnder(src, p) ==> Relocated(src, dest, p) in r && r[Relocated(src, dest, p)] == t[p]
    ensures forall p :: p in fs && StrictlyUnder(src, p) && !Under(a, p) ==>
      Relocated(src, dest, p) in r && r[Relocated(src, dest, p)] == fs[p]
  {
  }

  /** Outside `src` nothing changes. */
  lemma MovedFrame(fs: Tree, made: Tree, t: Tree, r: Tree, src: Path, a: Path)
    requires IsChild(src, a)
    requires forall p :: p in fs ==> p in made && made[p] == fs[p]
    requires forall p :: p in made && !Under(a, p) ==> p in t && t[p] == made[p]
    requires forall p :: p in t && !Under(src, p) ==> p in r && r[p] == t[p]
    ensures forall p :: p in fs && !Under(src, p) ==> p in r && r[p] == fs[p]
  {
    forall p | p in fs && !Under(src, p)
      ensures p in r && r[p] == fs[p]
    {
      assert !Under(a, p);
    }
  }

  /** A new path is a made parent of `dest`, `dest`, or below it. */
  lemma MovedNewPaths(fs: Tree, made: Tree, t: Tree, r: Tree, src: Path, dest: Path, a: Path)
    requires |dest| > 0
    requires forall p :: p in made && p !in fs ==> Under(p, dest[..|dest| - 1])
    requires forall q :: q in t ==> (q in made && !Under(a, q)) || (Under(dest, q) && Origin(a, dest, q) in made && Under(a, Origin(a, dest, q)))
    requires forall q :: q in r && !(q in t && !Under(src, q)) ==>
      StrictlyUnder(dest, q) && Origin(src, dest, q) in t && StrictlyUnder(src, Origin(src, dest, q))
    ensures forall q :: q in r && !(q in fs && !Under(src, q)) ==> Under(q, dest) || Under(dest, q)
  {
    forall q | q in r && !(q in fs && !Under(src, q)) && !Under(dest, q)
      ensures Under(q, dest)
    {
      assert q in made && q !in fs;
      assert Under(q, dest[..|dest| - 1]);
      assert dest[..|q|] == dest[..|dest| - 1][..|q|];
    }
  }
}
