/** The DL2 to IRF stage: validate the gamma offset, find the DL2 test files of
    the three particles (on disk, or in the log of the previous stage), derive
    the IRF output directory and file name, and submit one
    `lstchain_create_irf_files` job. */
module Dl2ToIrfs {
  import opened Results
  import SeqFacts
  import opened PyText
  import opened Commands
  import opened FileTree
  import opened DataManagement

  const AllowedGammaOffsets: seq<string> := ["off0.0deg", "off0.4deg"]

  // ---------------------------------------------------------------------------
  // check_dl2_files

  /** The gamma sample of an IRF configuration. */
  function GammaParticle(pointlike: bool): string {
    if pointlike then "gamma" else "gamma-diffuse"
  }

  /** `particles_irfs`, in the order they are searched. */
  function IrfParticles(pointlike: bool): seq<string> {
    ["electron", "proton", GammaParticle(pointlike)]
  }

  /** The DL2 directory of a particle: the template filled in with the
      particle, with the offset directory below it for point-like gammas. */
  function ParticleDir(dl2Dir: string, particle: string, gammaOff: string): Result<string> {
    match Format(dl2Dir, particle)
    case Err(e) => Err(e)
    case Ok(d) => if particle == "gamma" then Ok(PathJoin(d, gammaOff)) else Ok(d)
  }

  /** Only the point-like gamma directory gets the offset: it is the offset
      directory inside the filled-in template. */
  lemma ParticleDirShape(dl2Dir: string, particle: string, gammaOff: string)
    requires IsPart(gammaOff)
    ensures ParticleDir(dl2Dir, particle, gammaOff).Ok? <==> Format(dl2Dir, particle).Ok?
    ensures particle != "gamma" ==> ParticleDir(dl2Dir, particle, gammaOff) == Format(dl2Dir, particle)
    ensures particle == "gamma" && Format(dl2Dir, particle).Ok? ==>
      PathParts(ParticleDir(dl2Dir, particle, gammaOff).value) == PathParts(Format(dl2Dir, particle).value) + [gammaOff]
  {
    if particle == "gamma" && Format(dl2Dir, particle).Ok? {
      PathPartsOfJoin(Format(dl2Dir, particle).value, gammaOff);
    }
  }

  /** A name `*testing.h5` matches: the wildcard never matches a leading dot. */
  predicate GlobTesting(name: string) {
    IsSuffix("testing.h5", name) && !(|name| > 0 && name[0] == '.')
  }

  /** The names of a listing that match, in listing order. */
  function Matching(names: seq<string>): (r: seq<string>)
    ensures forall x :: x in r <==> x in names && GlobTesting(x)
    ensures |r| <= |names|
  {
    if |names| == 0 then []
    else if GlobTesting(names[0]) then [names[0]] + Matching(names[1..])
    else Matching(names[1..])
  }

  /** `glob.glob(os.path.join(d, '*testing.h5'))[0]` where `listing` is the
      content of `d`: no match is an `IndexError`, and a second match is
      reported rather than resolved by listing order. */
  function TestingFile(dir: string, listing: seq<string>): (r: Result<string>)
    ensures r.Ok? <==> |Matching(listing)| == 1
    ensures |Matching(listing)| == 0 ==> r == Err(IndexError)
    ensures |Matching(listing)| > 1 ==> r == Err(AmbiguousMatch(dir))
    ensures r.Ok? ==> var name := Matching(listing)[0];
      name in listing && GlobTesting(name) && r.value == PathJoin(dir, name)
  {
    var names := Matching(listing);
    if |names| == 0 then Err(IndexError)
    else if |names| > 1 then Err(AmbiguousMatch(dir))
    else Ok(PathJoin(dir, names[0]))
  }

  /** The search loop from the given particle on. */
  function CheckFrom(particles: seq<string>, dl2Dir: string, gammaOff: string,
                     fs: Tree, listdir: Path -> seq<string>): (r: Result<map<string, string>>)
    ensures r.Ok? ==> r.value.Keys == set p | p in particles
    ensures r.Ok? ==> forall p :: p in particles ==>
      && ParticleDir(dl2Dir, p, gammaOff).Ok?
      && var d := ParticleDir(dl2Dir, p, gammaOff).value;
      && IsDir(fs, PathParts(d))
      && TestingFile(d, listdir(PathParts(d))) == Ok(r.value[p])
    ensures (forall p :: p in particles ==>
      && ParticleDir(dl2Dir, p, gammaOff).Ok?
      && var d := ParticleDir(dl2Dir, p, gammaOff).value;
      && IsDir(fs, PathParts(d))
      && TestingFile(d, listdir(PathParts(d))).Ok?) ==> r.Ok?
    ensures forall p :: (p in particles && ParticleDir(dl2Dir, p, gammaOff).Ok? &&
      !IsDir(fs, PathParts(ParticleDir(dl2Dir, p, gammaOff).value))) ==> r.Err?
    decreases |particles|
  {
    if |particles| == 0 then Ok(map[])
    else
      var p := particles[0];
      assert forall q :: q in particles <==> q == p || q in particles[1..];
      match ParticleDir(dl2Dir, p, gammaOff)
      case Err(e) => Err(e)
      case Ok(d) =>
        if !IsDir(fs, PathParts(d)) then Err(Exited(-1))
        else
          match TestingFile(d, listdir(PathParts(d)))
          case Err(e) => Err(e)
          case Ok(f) =>
            match CheckFrom(particles[1..], dl2Dir, gammaOff, fs, listdir)
            case Err(e) => Err(e)
            case Ok(rest) => Ok(rest[p := f])
  }

  /** `check_dl2_files(dl2_dir, pointlike, gamma_off)`: the DL2 test file of
      each particle; a missing particle directory ends the run (`exit(-1)`). */
  function CheckDl2Files(dl2Dir: string, pointlike: bool, gammaOff: string,
                         fs: Tree, listdir: Path -> seq<string>): (r: Result<map<string, string>>)
    ensures r.Ok? ==> r.value.Keys == set p | p in IrfParticles(pointlike)
    ensures r.Ok? ==> forall p :: p in r.value ==>
      && ParticleDir(dl2Dir, p, gammaOff).Ok?
      && var d := ParticleDir(dl2Dir, p, gammaOff).value;
      && IsDir(fs, PathParts(d))
      && TestingFile(d, listdir(PathParts(d))) == Ok(r.value[p])
    ensures forall p :: (p in IrfParticles(pointlike) && ParticleDir(dl2Dir, p, gammaOff).Ok? &&
      !IsDir(fs, PathParts(ParticleDir(dl2Dir, p, gammaOff).value))) ==> r.Err?
    ensures r.Ok? ==> "electron" in r.value && "proton" in r.value && GammaParticle(pointlike) in r.value
  {
    var r := CheckFrom(IrfParticles(pointlike), dl2Dir, gammaOff, fs, listdir);
    if r.Ok? then
      ParticleKeys(r.value, pointlike);
      r
    else r
  }

  /** The three particles searched: electrons, protons and the gamma sample
      of the configuration. */
  lemma IrfParticlesNamed(pointlike: bool)
    ensures (set p | p in IrfParticles(pointlike)) == {"electron", "proton", GammaParticle(pointlike)}
  {
  }

  lemma ParticleKeys(found: map<string, string>, pointlike: bool)
    requires found.Keys == set p | p in IrfParticles(pointlike)
    ensures "electron" in found && "proton" in found && GammaParticle(pointlike) in found
  {
    assert IrfParticles(pointlike)[0] == "electron";
    assert IrfParticles(pointlike)[1] == "proton";
    assert IrfParticles(pointlike)[2] == GammaParticle(pointlike);
  }

  /** A file found is an entry of its particle directory in the tree. */
  lemma FoundFileInTree(dir: string, listing: seq<string>, fs: Tree)
    requires IsListing(fs, PathParts(dir), listing)
    requires forall k :: 0 <= k < |listing| ==> IsPart(listing[k])
    requires TestingFile(dir, listing).Ok?
    ensures PathParts(TestingFile(dir, listing).value) in fs
  {
    var name := Matching(listing)[0];
    var k :| 0 <= k < |listing| && listing[k] == name;
    PathPartsOfJoin(dir, name);
  }

  /** Exactly one key of the search result starts with `gamma`, so the gamma
      sample the script picks is the one of the configuration. */
  lemma GammaKeyUnique(pointlike: bool, k: string)
    requires k in {"electron", "proton", GammaParticle(pointlike)}
    ensures IsPrefix("gamma", k) <==> k == GammaParticle(pointlike)
  {
    if IsPrefix("gamma", k) {
      assert k[0] == k[..5][0] == 'g';
    }
    if k == GammaParticle(pointlike) {
      assert k[..5] == "gamma";
    }
  }

  // ---------------------------------------------------------------------------
  // Output directory and file name

  /** The kind of IRF: the offset for point-like gammas, `diffuse` otherwise. */
  function IrfKind(pointlike: bool, gammaOff: string): string {
    if pointlike then gammaOff else "diffuse"
  }

  /** The DL2 template rewritten: `/DL2/` becomes `/IRF/` and the particle
      placeholder directory `/{}/` disappears. */
  function IrfBaseDir(dl2Directory: string): string {
    Replace(Replace(dl2Directory, "/DL2/", "/IRF/"), "/{}/", "/")
  }

  function IrfOutputDir(dl2Directory: string, pointlike: bool, gammaOff: string): string {
    PathJoin(IrfBaseDir(dl2Directory), IrfKind(pointlike, gammaOff))
  }

  /** The output directory is named after the IRF kind. */
  lemma IrfOutputDirLeaf(dl2Directory: string, pointlike: bool, gammaOff: string)
    requires gammaOff in AllowedGammaOffsets
    ensures PathParts(IrfOutputDir(dl2Directory, pointlike, gammaOff)) ==
      PathParts(IrfBaseDir(dl2Directory)) + [IrfKind(pointlike, gammaOff)]
    ensures Basename(IrfOutputDir(dl2Directory, pointlike, gammaOff)) == IrfKind(pointlike, gammaOff)
  {
    PathPartsOfJoin(IrfBaseDir(dl2Directory), IrfKind(pointlike, gammaOff));
    BasenameOfJoin(IrfBaseDir(dl2Directory), IrfKind(pointlike, gammaOff));
  }

  /** Where `/DL2/` and the placeholder each occur once, in that order, the
      output directory is the DL2 path with `IRF` in place of `DL2` and the
      placeholder directory dropped, followed by the kind. */
  lemma IrfOutputDirLayout(dl2Directory: string, i: nat, j: nat, pointlike: bool, gammaOff: string)
    requires OnlyOccurrence(dl2Directory, "/DL2/", i)
    requires OnlyOccurrence(dl2Directory, "/{}/", j)
    requires i + 5 <= j
    ensures IrfOutputDir(dl2Directory, pointlike, gammaOff) ==
      PathJoin(dl2Directory[..i] + "/IRF/" + dl2Directory[i + 5..j] + "/" + dl2Directory[j + 4..], IrfKind(pointlike, gammaOff))
  {
    IrfBaseDirLayout(dl2Directory, i, j);
  }

  lemma IrfBaseDirLayout(s: string, i: nat, j: nat)
    requires OnlyOccurrence(s, "/DL2/", i)
    requires OnlyOccurrence(s, "/{}/", j)
    requires i + 5 <= j
    ensures IrfBaseDir(s) == s[..i] + "/IRF/" + s[i + 5..j] + "/" + s[j + 4..]
  {
    ReplaceOnly(s, "/DL2/", "/IRF/", i);
    var t := s[..i] + "/IRF/" + s[i + 5..];
    PlaceholderSurvives(s, t, i, j);
    ReplaceOnly(t, "/{}/", "/", j);
    DropPlaceholder(s, t, i, j);
  }

  lemma DropPlaceholder(s: string, t: string, i: nat, j: nat)
    requires i + 5 <= j && j + 4 <= |s|
    requires t == s[..i] + "/IRF/" + s[i + 5..]
    ensures t[..j] + "/" + t[j + 4..] == s[..i] + "/IRF/" + s[i + 5..j] + "/" + s[j + 4..]
  {
    assert t[..j] == s[..i] + "/IRF/" + s[i + 5..j];
    assert t[j + 4..] == s[j + 4..];
  }

  /** Writing `/IRF/` over `/DL2/` changes only the three letters between the slashes. */
  lemma OverwriteKeeps(s: string, t: string, i: nat, p: nat)
    requires OccursAt(s, "/DL2/", i)
    requires t == s[..i] + "/IRF/" + s[i + 5..]
    requires p < |s|
    ensures |t| == |s|
    ensures t[p] == s[p] || t[p] in "IRF"
  {
    if p < i {
      assert t[p] == s[..i][p];
    } else if p >= i + 5 {
      assert t[p] == s[i + 5..][p - i - 5];
    } else {
      assert t[p] == "/IRF/"[p - i];
      assert s[p] == s[i..i + 5][p - i] == "/DL2/"[p - i];
    }
  }

  /** Writing `/IRF/` over `/DL2/` neither creates nor removes a placeholder. */
  lemma PlaceholderSurvives(s: string, t: string, i: nat, j: nat)
    requires OccursAt(s, "/DL2/", i)
    requires OnlyOccurrence(s, "/{}/", j)
    requires i + 5 <= j
    requires t == s[..i] + "/IRF/" + s[i + 5..]
    ensures OnlyOccurrence(t, "/{}/", j)
  {
    assert |t| == |s|;
    assert t[j..j + 4] == s[i + 5..][j - i - 5..j - i - 1] == s[j..j + 4];
    forall k | 0 <= k <= |t| && OccursAt(t, "/{}/", k)
      ensures k == j
    {
      WindowKept(s, t, i, k);
    }
  }

  lemma WindowKept(s: string, t: string, i: nat, k: nat)
    requires OccursAt(s, "/DL2/", i)
    requires t == s[..i] + "/IRF/" + s[i + 5..]
    requires OccursAt(t, "/{}/", k)
    ensures OccursAt(s, "/{}/", k)
  {
    forall p | k <= p < k + 4
      ensures t[p] == s[p]
    {
      OverwriteKeeps(s, t, i, p);
      assert t[p] == t[k..k + 4][p - k] == "/{}/"[p - k];
    }
    assert s[k..k + 4] == t[k..k + 4];
  }

  /** Without `/DL2/` or a placeholder, the output directory sits in the DL2 directory. */
  lemma IrfOutputDirPlain(dl2Directory: string, pointlike: bool, gammaOff: string)
    requires !Contains(dl2Directory, "/DL2/") && !Contains(dl2Directory, "/{}/")
    ensures IrfOutputDir(dl2Directory, pointlike, gammaOff) == PathJoin(dl2Directory, IrfKind(pointlike, gammaOff))
  {
    ReplaceAbsent(dl2Directory, "/DL2/", "/IRF/");
    ReplaceAbsent(dl2Directory, "/{}/", "/");
  }

  /** The offset as it appears in a file name: without its dots. */
  function OffsetTag(gammaOff: string): string {
    Replace(gammaOff, ".", "")
  }

  /** `irf.fits.gz` without a production id; otherwise the dot-free id and the
      configuration are part of the name. */
  function IrfFileName(prodId: Option<string>, pointlike: bool, gammaOff: string): string {
    match prodId
    case None => "irf.fits.gz"
    case Some(p) => "irf_" + Replace(p, ".", "") + ConfigurationSuffix(pointlike, gammaOff)
  }

  /** The part of the file name after the production id. */
  function ConfigurationSuffix(pointlike: bool, gammaOff: string): string {
    if pointlike then "_gamma_point-like_" + OffsetTag(gammaOff) + ".fits.gz" else "_gamma_diffuse.fits.gz"
  }

  /** With a production id the name is `irf_`, the id with every dot deleted,
      and the configuration, a point-like one naming the offset with its dot
      deleted. */
  lemma IrfFileNameParts(p: string, pointlike: bool, gammaOff: string)
    ensures IrfFileName(Some(p), pointlike, gammaOff) == "irf_" + RemoveChar(p, '.') + ConfigurationSuffix(pointlike, gammaOff)
    ensures pointlike ==> ConfigurationSuffix(pointlike, gammaOff) == "_gamma_point-like_" + RemoveChar(gammaOff, '.') + ".fits.gz"
  {
    ReplaceCharByNothing(p, '.');
    ReplaceCharByNothing(gammaOff, '.');
  }

  /** An allowed offset loses only its dot, at index 4, and keeps its
      distinguishing digit. */
  lemma OffsetTagShape(off: string)
    requires off in AllowedGammaOffsets
    ensures OffsetTag(off) == off[..4] + off[5..]
    ensures |OffsetTag(off)| == 8 && OffsetTag(off)[4] == off[5]
  {
    assert off[4] == '.';
    assert off == off[..4] + "." + off[5..];
    assert '.' !in off[..4] && '.' !in off[5..];
    DotRemoved(off[..4], off[5..]);
    ReplaceCharByNothing(off, '.');
  }

  lemma DotRemoved(a: string, b: string)
    requires '.' !in a && '.' !in b
    ensures RemoveChar(a + "." + b, '.') == a + b
  {
    var x := a + ".";
    RemoveCharAppend(x, b, '.');
    RemoveCharAppend(a, ".", '.');
    RemoveCharAbsent(a, '.');
    RemoveCharAbsent(b, '.');
    assert RemoveChar(".", '.') == "" by {
      assert "."[1..] == "";
    }
    assert RemoveChar(x, '.') == a;
  }

  /** The two allowed offsets differ in their sixth character. */
  lemma AllowedOffsetsDiffer(off1: string, off2: string)
    requires off1 in AllowedGammaOffsets && off2 in AllowedGammaOffsets && off1 != off2
    ensures off1[5] != off2[5]
  {
  }

  lemma ConfigurationSuffixesDiffer(pl1: bool, off1: string, pl2: bool, off2: string)
    requires off1 in AllowedGammaOffsets && off2 in AllowedGammaOffsets
    requires IrfKind(pl1, off1) != IrfKind(pl2, off2)
    ensures ConfigurationSuffix(pl1, off1) != ConfigurationSuffix(pl2, off2)
  {
    OffsetTagShape(off1);
    OffsetTagShape(off2);
    if pl1 && pl2 {
      AllowedOffsetsDiffer(off1, off2);
      SeqFacts.MiddleDiffers("_gamma_point-like_", OffsetTag(off1), OffsetTag(off2), ".fits.gz", 4);
    } else {
      assert |ConfigurationSuffix(pl1, off1)| != |ConfigurationSuffix(pl2, off2)|;
    }
  }

  lemma IrfFileNamesDiffer(p: string, pl1: bool, off1: string, pl2: bool, off2: string)
    requires off1 in AllowedGammaOffsets && off2 in AllowedGammaOffsets
    requires IrfKind(pl1, off1) != IrfKind(pl2, off2)
    ensures IrfFileName(Some(p), pl1, off1) != IrfFileName(Some(p), pl2, off2)
  {
    IrfFileNameParts(p, pl1, off1);
    IrfFileNameParts(p, pl2, off2);
    ConfigurationSuffixesDiffer(pl1, off1, pl2, off2);
    var pre := "irf_" + RemoveChar(p, '.');
    var a, b := ConfigurationSuffix(pl1, off1), ConfigurationSuffix(pl2, off2);
    assert (pre + a)[|pre|..] == a;
    assert (pre + b)[|pre|..] == b;
  }

  // ---------------------------------------------------------------------------
  // Commands

  function PointLikeFlag(pointlike: bool): string {
    if pointlike then "--point-like" else ""
  }

  /** `lstchain_create_irf_files {point_like} -g … -p … -e … -o …`, then
      `--config=<file>` when a configuration file is given. */
  function CreateIrfCommand(pointlike: bool, gamma: string, proton: string, electron: string,
                            outFile: string, config: Option<string>): string
  {
    Render(["lstchain_create_irf_files", PointLikeFlag(pointlike), "-g", gamma, "-p", proton, "-e", electron, "-o", outFile]
      + (if config.Some? then ["--config=" + config.value] else []))
  }

  /** Read back by fields, the IRF command carries `--point-like` exactly in
      point-like mode (an empty field otherwise), the three inputs and the
      output in their places, and ends with the configuration option exactly
      when a configuration file is given. */
  lemma CreateIrfCommandWords(pointlike: bool, gamma: string, proton: string, electron: string,
                              outFile: string, config: Option<string>)
    requires IsWord(gamma) && IsWord(proton) && IsWord(electron) && IsWord(outFile)
    requires config.Some? ==> IsWord(config.value)
    ensures var w := Words(CreateIrfCommand(pointlike, gamma, proton, electron, outFile, config));
      && |w| >= 10
      && w[..9] == ["lstchain_create_irf_files", PointLikeFlag(pointlike), "-g", gamma, "-p", proton, "-e", electron, "-o"]
      && (w[1] == "--point-like" <==> pointlike)
      && w[9] == outFile
      && (|w| == 11 <==> config.Some?)
      && (config.Some? ==> w[10] == "--config=" + config.value)
  {
    var tokens := ["lstchain_create_irf_files", PointLikeFlag(pointlike), "-g", gamma, "-p", proton, "-e", electron, "-o", outFile]
      + (if config.Some? then ["--config=" + config.value] else []);
    assert AllWords(tokens);
    RenderedWords(tokens);
  }

  /** `job_dl2_to_irfs_gamma_<kind>.<ext>` in the output directory. */
  function IrfLog(outputDir: string, kind: string, ext: string): string {
    PathJoin(outputDir, "job_dl2_to_irfs_gamma_" + kind + "." + ext)
  }

  const DependencyFlag: string := "--dependency=afterok:"

  /** The scheduler options of the IRF job. */
  function IrfJobOptions(wait: string, kind: string, jobe: string, jobo: string): seq<string> {
    ["sbatch", "--parsable", "-p", "short", DependencyFlag + wait, "-J", "IRF_" + kind, "-e", jobe, "-o", jobo]
  }

  /** `sbatch --parsable -p short --dependency=afterok:{wait} -J IRF_{kind} -e {jobe} -o {jobo} --wrap="{source_env} {cmd}"`. */
  function IrfBatchCommand(wait: string, kind: string, jobe: string, jobo: string,
                           sourceEnv: Option<string>, cmd: string): string
  {
    Render(IrfJobOptions(wait, kind, jobe, jobo) + ["--wrap=\"" + OptText(sourceEnv), cmd + "\""])
  }

  /** Read back by fields, the batch command always depends on the given jobs,
      verbatim, names the job after the IRF kind, and names its logs; the
      wrapped line follows. */
  lemma IrfBatchCommandWords(wait: string, kind: string, jobe: string, jobo: string,
                             sourceEnv: Option<string>, cmd: string)
    requires IsWord(wait) && IsWord(kind) && IsWord(jobe) && IsWord(jobo)
    ensures var w := Words(IrfBatchCommand(wait, kind, jobe, jobo, sourceEnv, cmd));
      && w == IrfJobOptions(wait, kind, jobe, jobo) + Words("--wrap=\"" + OptText(sourceEnv)) + Words(cmd + "\"")
      && w[4] == "--dependency=afterok:" + wait
      && w[6] == "IRF_" + kind
      && w[8] == jobe && w[10] == jobo
  {
    var head := IrfJobOptions(wait, kind, jobe, jobo);
    assert AllWords(head);
    var wrap := "--wrap=\"" + OptText(sourceEnv);
    LeadingWords(head, [wrap, cmd + "\""]);
    assert [wrap, cmd + "\""] == [wrap] + [cmd + "\""];
    RenderedAppend([wrap], [cmd + "\""]);
    assert Render([wrap]) == wrap;
    assert Render([cmd + "\""]) == cmd + "\"";
  }

  // ---------------------------------------------------------------------------
  // The IRF kind

  /** `irf_kind` as the script sets it: from the search result's gamma key when
      there is no upstream log, from the offset or `diffuse` otherwise. */
  function IrfKindAsWritten(fromLog: bool, pointlike: bool, gammaOff: string): string {
    if !fromLog then GammaParticle(pointlike)
    else if pointlike && gammaOff == "off0.0deg" then gammaOff
    else if pointlike && gammaOff == "off0.4deg" then gammaOff
    else "diffuse"
  }

  /** The same point-like configuration gets job name `IRF_gamma` and log
      `job_dl2_to_irfs_gamma_gamma.e` without an upstream log, but
      `IRF_off0.0deg` with one, and only the latter matches the name of the
      output directory. */
  lemma IrfKindDependsOnLog(dl2Directory: string)
    ensures IrfKindAsWritten(false, true, "off0.0deg") == "gamma"
    ensures IrfKindAsWritten(true, true, "off0.0deg") == "off0.0deg"
    ensures Basename(IrfOutputDir(dl2Directory, true, "off0.0deg")) != IrfKindAsWritten(false, true, "off0.0deg")
  {
    IrfOutputDirLeaf(dl2Directory, true, "off0.0deg");
  }

  /** The kind used here is the one the script uses when the inputs come from
      the upstream log; `IrfOutputDirLeaf` shows it names the output directory. */
  lemma IrfKindAgreesWithLog(pointlike: bool, gammaOff: string)
    requires gammaOff in AllowedGammaOffsets
    ensures IrfKind(pointlike, gammaOff) == IrfKindAsWritten(true, pointlike, gammaOff)
  {
  }

  // ---------------------------------------------------------------------------
  // The configuration copy

  /** `config_file is not None or config_file is not ''`, as written: true for
      every value, `None` included. */
  function CopiesConfigAsWritten(config: Option<string>): bool {
    config.Some? || config != Some("")
  }

  /** The copy the script attempts, as written: with no configuration file,
      `os.path.basename(None)` raises a `TypeError`. */
  function ConfigCopyAsWritten(config: Option<string>, outputDir: string): Result<Option<string>> {
    if !CopiesConfigAsWritten(config) then Ok(None)
    else match config
      case None => Err(TypeError)
      case Some(c) => Ok(Some(PathJoin(outputDir, Basename(c))))
  }

  /** A run without a configuration file fails after its job was submitted. */
  lemma ConfigCopyFailsWithoutConfig(outputDir: string)
    ensures CopiesConfigAsWritten(None)
    ensures ConfigCopyAsWritten(None, outputDir) == Err(TypeError)
  {
  }

  /** Where the configuration file is copied: into the output directory under
      its own name, and only when one is given. */
  function ConfigCopy(config: Option<string>, outputDir: string): (r: Option<string>)
    ensures r.Some? <==> config.Some? && config.value != ""
    ensures r.Some? && Basename(config.value) != "" && '/' !in Basename(config.value) ==>
      Basename(r.value) == Basename(config.value)
    ensures r.Some? && IsPart(Basename(config.value)) ==>
      PathParts(r.value) == PathParts(outputDir) + [Basename(config.value)]
  {
    if config.Some? && config.value != "" then
      var name := Basename(config.value);
      CopyPlace(outputDir, name);
      Some(PathJoin(outputDir, name))
    else None
  }

  lemma CopyPlace(outputDir: string, name: string)
    ensures name != "" && '/' !in name ==> Basename(PathJoin(outputDir, name)) == name
    ensures IsPart(name) ==> PathParts(PathJoin(outputDir, name)) == PathParts(outputDir) + [name]
  {
    if name != "" && '/' !in name {
      BasenameOfJoin(outputDir, name);
    }
    if IsPart(name) {
      PathPartsOfJoin(outputDir, name);
    }
  }

  /** Whenever the script's copy succeeds, it copies to the same place. */
  lemma ConfigCopyAgrees(config: Option<string>, outputDir: string)
    requires config.Some? && config.value != ""
    ensures ConfigCopyAsWritten(config, outputDir) == Ok(ConfigCopy(config, outputDir))
  {
  }

  // ---------------------------------------------------------------------------
  // dl2_to_irfs

  /** The three DL2 test files an IRF is computed from. */
  datatype IrfInputs = IrfInputs(gamma: string, proton: string, electron: string)

  /** `log[key]['dl2_test_path']`. */
  function TestPath(upstream: map<string, map<string, string>>, key: string): (r: Result<string>)
    ensures r.Ok? <==> key in upstream && "dl2_test_path" in upstream[key]
    ensures r.Ok? ==> r.value == upstream[key]["dl2_test_path"]
    ensures key !in upstream ==> r == Err(KeyError(key))
  {
    if key !in upstream then Err(KeyError(key))
    else if "dl2_test_path" !in upstream[key] then Err(KeyError("dl2_test_path"))
    else Ok(upstream[key]["dl2_test_path"])
  }

  /** The upstream log entry of the gamma sample. */
  function GammaEntry(pointlike: bool, gammaOff: string): string {
    if pointlike && gammaOff == "off0.0deg" then "gamma_off0.0deg"
    else if pointlike && gammaOff == "off0.4deg" then "gamma_off0.4deg"
    else "gamma-diffuse"
  }

  /** For a valid offset, point-like runs read the `gamma_<offset>` entry and
      diffuse runs the `gamma-diffuse` one. */
  lemma GammaEntryOfValidOffset(pointlike: bool, gammaOff: string)
    requires gammaOff in AllowedGammaOffsets
    ensures GammaEntry(pointlike, gammaOff) == if pointlike then "gamma_" + gammaOff else "gamma-diffuse"
  {
  }

  /** The inputs from the upstream log: proton, electron, then gamma. */
  function InputsFromLog(upstream: map<string, map<string, string>>, pointlike: bool, gammaOff: string): (r: Result<IrfInputs>)
    ensures r.Ok? <==> (TestPath(upstream, "proton").Ok? && TestPath(upstream, "electron").Ok? &&
      TestPath(upstream, GammaEntry(pointlike, gammaOff)).Ok?)
    ensures r.Ok? ==> r.value == IrfInputs(TestPath(upstream, GammaEntry(pointlike, gammaOff)).value,
      TestPath(upstream, "proton").value, TestPath(upstream, "electron").value)
  {
    match TestPath(upstream, "proton")
    case Err(e) => Err(e)
    case Ok(proton) =>
      match TestPath(upstream, "electron")
      case Err(e) => Err(e)
      case Ok(electron) =>
        match TestPath(upstream, GammaEntry(pointlike, gammaOff))
        case Err(e) => Err(e)
        case Ok(gamma) => Ok(IrfInputs(gamma, proton, electron))
  }

  /** The inputs found on disk by `check_dl2_files`. */
  function InputsFromDisk(dl2Directory: string, pointlike: bool, gammaOff: string,
                          fs: Tree, listdir: Path -> seq<string>): (r: Result<IrfInputs>)
    ensures r.Ok? <==> CheckDl2Files(dl2Directory, pointlike, gammaOff, fs, listdir).Ok?
    ensures r.Ok? ==> var found := CheckDl2Files(dl2Directory, pointlike, gammaOff, fs, listdir).value;
      r.value == IrfInputs(found[GammaParticle(pointlike)], found["proton"], found["electron"])
  {
    match CheckDl2Files(dl2Directory, pointlike, gammaOff, fs, listdir)
    case Err(e) => Err(e)
    case Ok(found) => Ok(IrfInputs(found[GammaParticle(pointlike)], found["proton"], found["electron"]))
  }

  datatype IrfSettings = IrfSettings(
    dl2Directory: string,
    configFile: Option<string>,
    pointLike: bool,
    gammaOffset: string,
    sourceEnv: Option<string>,
    wait: string,
    prodId: Option<string>)

  /** What a run leaves behind and returns: the tree with the output directory
      made empty, the inputs used, the submitted command, the log
      `{jobid: batch_cmd}`, the returned id string and the configuration copy. */
  datatype IrfRun = IrfRun(fs: Tree, outputDir: string, inputs: IrfInputs, command: string,
                           log: map<string, string>, jobids: string, configCopy: Option<string>)

  /** The inputs of a run: from the DL2 directories without an upstream log,
      from the log otherwise. */
  function SelectedInputs(s: IrfSettings, upstream: map<string, map<string, string>>, fs: Tree,
                          listdir: Path -> seq<string>): (r: Result<IrfInputs>)
    ensures upstream == map[] ==> r == InputsFromDisk(s.dl2Directory, s.pointLike, s.gammaOffset, fs, listdir)
    ensures upstream != map[] ==> r == InputsFromLog(upstream, s.pointLike, s.gammaOffset)
  {
    if upstream == map[] then InputsFromDisk(s.dl2Directory, s.pointLike, s.gammaOffset, fs, listdir)
    else InputsFromLog(upstream, s.pointLike, s.gammaOffset)
  }

  /** The batch command of a run: the IRF command wrapped in a job named after
      the kind, depending on `wait`, logging into the output directory. */
  function IrfJob(s: IrfSettings, outputDir: string, inputs: IrfInputs): string {
    var kind := IrfKind(s.pointLike, s.gammaOffset);
    IrfBatchCommand(s.wait, kind, IrfLog(outputDir, kind, "e"), IrfLog(outputDir, kind, "o"), s.sourceEnv,
      CreateIrfCommand(s.pointLike, inputs.gamma, inputs.proton, inputs.electron,
        PathJoin(outputDir, IrfFileName(s.prodId, s.pointLike, s.gammaOffset)), s.configFile))
  }

  /** Submitting the job: the log holds the one job under its id, and the id
      string returned is that id. */
  function Submitted(made: Tree, outputDir: string, inputs: IrfInputs, batch: string,
                     config: Option<string>, submit: string -> string): (r: IrfRun)
    ensures r.fs == made && r.outputDir == outputDir && r.inputs == inputs && r.command == batch
    ensures r.jobids == Strip(submit(batch), '\n')
    ensures r.log.Keys == {r.jobids} && r.log[r.jobids] == batch
    ensures r.configCopy == ConfigCopy(config, outputDir)
  {
    var jobid := Strip(submit(batch), '\n');
    assert JoinWith(",", [jobid]) == jobid;
    IrfRun(made, outputDir, inputs, batch, map[jobid := batch], JoinWith(",", [jobid]), ConfigCopy(config, outputDir))
  }

  /** `dl2_to_irfs(...)`; `submit` is what the scheduler prints for a command. */
  function Dl2ToIrfs(s: IrfSettings, upstream: map<string, map<string, string>>, fs: Tree,
                     listdir: Path -> seq<string>, submit: string -> string): (r: Result<IrfRun>)
    requires WellFormed(fs)
    ensures s.gammaOffset !in AllowedGammaOffsets ==> r == Err(Exited(-1))
    ensures r.Ok? ==> s.gammaOffset in AllowedGammaOffsets
    ensures s.gammaOffset in AllowedGammaOffsets ==>
      (r.Ok? <==> (&& SelectedInputs(s, upstream, fs, listdir).Ok?
                   && CheckAndMakeDirWithoutVerification(fs, PathParts(IrfOutputDir(s.dl2Directory, s.pointLike, s.gammaOffset))).Ok?))
    ensures r.Ok? ==> r.value.outputDir == IrfOutputDir(s.dl2Directory, s.pointLike, s.gammaOffset)
    ensures r.Ok? ==> Prepared(fs, PathParts(r.value.outputDir), r.value.fs)
    ensures r.Ok? && upstream == map[] ==>
      InputsFromDisk(s.dl2Directory, s.pointLike, s.gammaOffset, fs, listdir) == Ok(r.value.inputs)
    ensures r.Ok? && upstream != map[] ==>
      InputsFromLog(upstream, s.pointLike, s.gammaOffset) == Ok(r.value.inputs)
    ensures r.Ok? ==> r.value.command == IrfJob(s, r.value.outputDir, r.value.inputs)
    ensures r.Ok? ==> r.value.log.Keys == {r.value.jobids} && r.value.log[r.value.jobids] == r.value.command
    ensures r.Ok? ==> r.value.jobids == Strip(submit(r.value.command), '\n')
    ensures r.Ok? ==> r.value.configCopy == ConfigCopy(s.configFile, r.value.outputDir)
  {
    if s.gammaOffset !in AllowedGammaOffsets then Err(Exited(-1))
    else
      var outputDir := IrfOutputDir(s.dl2Directory, s.pointLike, s.gammaOffset);
      match SelectedInputs(s, upstream, fs, listdir)
      case Err(e) => Err(e)
      case Ok(inputs) =>
        match CheckAndMakeDirWithoutVerification(fs, PathParts(outputDir))
        case Err(e) => Err(e)
        case Ok(made) => Ok(Submitted(made, outputDir, inputs, IrfJob(s, outputDir, inputs), s.configFile, submit))
  }
}
