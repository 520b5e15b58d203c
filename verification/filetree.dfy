/** An abstract POSIX file system: a finite map from absolute paths (lists of
    components below `/`) to directories and regular files, and the `os` and
    `shutil` operations the data-management helpers use, as transitions on it. */
module FileTree {
  import opened Results

  type Path = seq<string>

  datatype Node = Dir | File

  type Tree = map<Path, Node>

  predicate IsDir(fs: Tree, p: Path) {
    p in fs && fs[p] == Dir
  }

  predicate IsFile(fs: Tree, p: Path) {
    p in fs && fs[p] == File
  }

  /** `p` is `d` or lies below it. */
  predicate Under(d: Path, p: Path) {
    |d| <= |p| && p[..|d|] == d
  }

  predicate StrictlyUnder(d: Path, p: Path) {
    |d| < |p| && p[..|d|] == d
  }

  predicate IsChild(d: Path, p: Path) {
    |p| == |d| + 1 && p[..|d|] == d
  }

  /** The root is a directory and every other entry sits in a directory. */
  predicate WellFormed(fs: Tree) {
    && IsDir(fs, [])
    && forall p :: p in fs && |p| > 0 ==> IsDir(fs, p[..|p| - 1])
  }

  /** `os.listdir(d) != []`. */
  predicate HasEntries(fs: Tree, d: Path) {
    exists p :: p in fs && IsChild(d, p)
  }

  /** `names` is what `os.listdir(d)` returns: every entry of `d`, once, in some order. */
  ghost predicate IsListing(fs: Tree, d: Path, names: seq<string>) {
    && (forall i, j :: 0 <= i < j < |names| ==> names[i] != names[j])
    && (forall i :: 0 <= i < |names| ==> d + [names[i]] in fs)
    && (forall p :: p in fs && IsChild(d, p) ==> p[|d|] in names)
  }

  /** Every ancestor of a path in a well-formed tree is a directory. */
  lemma {:induction false} AncestorsAreDirs(fs: Tree, p: Path, k: nat)
    requires WellFormed(fs) && p in fs && k < |p|
    ensures IsDir(fs, p[..k])
    decreases |p| - k
  {
    if k == |p| - 1 {
    } else {
      AncestorsAreDirs(fs, p[..|p| - 1], k);
      assert p[..|p| - 1][..k] == p[..k];
    }
  }

  /** A path whose prefix is missing is missing too. */
  lemma {:induction false} MissingBelow(fs: Tree, q: Path, k: nat)
    requires WellFormed(fs) && k <= |q|
    ensures q[..k] !in fs ==> q !in fs
    decreases |q| - k
  {
    if k < |q| {
      assert q[..|q| - 1][..k] == q[..k];
      MissingBelow(fs, q[..|q| - 1], k);
    } else {
      assert q[..k] == q;
    }
  }

  /** `makedirs` on a missing path creates it with nothing inside. */
  lemma MakeDirsFresh(fs: Tree, d: Path)
    requires WellFormed(fs) && d !in fs && MakeDirs(fs, d).Ok?
    ensures !HasEntries(MakeDirs(fs, d).value, d)
  {
    var r := MakeDirs(fs, d).value;
    forall p | p in r
      ensures !IsChild(d, p)
    {
      if |p| >= |d| {
        MissingBelow(fs, p, |d|);
      }
    }
  }

  /** `shutil.rmtree(d)`: `d` and everything below it disappear. */
  function RemoveTree(fs: Tree, d: Path): (r: Tree)
    ensures forall p :: p in r <==> p in fs && !Under(d, p)
    ensures forall p :: p in r ==> r[p] == fs[p]
  {
    map p | p in fs && !Under(d, p) :: fs[p]
  }

  lemma RemoveTreeWellFormed(fs: Tree, d: Path)
    requires WellFormed(fs) && |d| > 0
    ensures WellFormed(RemoveTree(fs, d))
  {
    var r := RemoveTree(fs, d);
    forall p | p in r && |p| > 0
      ensures IsDir(r, p[..|p| - 1])
    {
      var q := p[..|p| - 1];
      if |d| <= |q| {
        assert q[..|d|] == p[..|d|];
      }
    }
  }

  /** `os.makedirs(d, exist_ok=True)`: the missing directories down to `d` are
      created; a regular file on the way or at `d` itself is an error. */
  function MakeDirs(fs: Tree, d: Path): (r: Result<Tree>)
    requires WellFormed(fs)
    ensures r.Ok? ==> WellFormed(r.value) && IsDir(r.value, d)
    ensures r.Ok? ==> forall p :: p in fs ==> p in r.value && r.value[p] == fs[p]
    ensures r.Ok? ==> forall p :: p in r.value && p !in fs ==> Under(p, d)
    ensures IsDir(fs, d) ==> r == Ok(fs)
    ensures IsFile(fs, d) ==> r == Err(FileExistsError)
    ensures r.Err? ==> r.error == FileExistsError || r.error == NotADirectoryError
    decreases |d|
  {
    if d in fs then
      if fs[d] == Dir then Ok(fs) else Err(FileExistsError)
    else
      var parent := d[..|d| - 1];
      if parent in fs then
        if fs[parent] == Dir then
          AddDir(fs, d);
          Ok(fs[d := Dir])
        else Err(NotADirectoryError)
      else
        match MakeDirs(fs, parent)
        case Err(e) => Err(e)
        case Ok(up) =>
          AddDir(up, d);
          NewEntriesAbove(fs, up, d);
          Ok(up[d := Dir])
  }

  /** A directory added inside a directory keeps the tree well formed. */
  lemma AddDir(fs: Tree, d: Path)
    requires WellFormed(fs) && |d| > 0 && IsDir(fs, d[..|d| - 1])
    ensures WellFormed(fs[d := Dir]) && IsDir(fs[d := Dir], d)
    ensures forall p :: p in fs ==> p in fs[d := Dir]
  {
  }

  /** What `makedirs` adds for the parent lies above the child too. */
  /** Putting a file at a path whose parent is a directory, in place of a
      file or of nothing, keeps the tree well formed. */
  lemma AddFile(fs: Tree, d: Path)
    requires WellFormed(fs) && HasParentDir(fs, d) && !IsDir(fs, d)
    ensures WellFormed(fs[d := File])
  {
  }

  lemma NewEntriesAbove(fs: Tree, up: Tree, d: Path)
    requires |d| > 0
    requires forall p :: p in up && p !in fs ==> Under(p, d[..|d| - 1])
    ensures forall p :: p in up[d := Dir] && p !in fs ==> Under(p, d)
  {
    forall p | p in up[d := Dir] && p !in fs
      ensures Under(p, d)
    {
      if p != d {
        assert d[..|d| - 1][..|p|] == d[..|p|];
      }
    }
  }

  /** Where `shutil.move` puts an entry found at or below `src` when `src`'s
      contents move to `dest`: the part of its path below `src` is kept. */
  function Relocated(src: Path, dest: Path, p: Path): Path
    requires Under(src, p)
  {
    dest + p[|src|..]
  }

  lemma RelocatedInjective(src: Path, dest: Path, p: Path, q: Path)
    requires Under(src, p) && Under(src, q)
    requires Relocated(src, dest, p) == Relocated(src, dest, q)
    ensures p == q
  {
    var rp, rq := Relocated(src, dest, p), Relocated(src, dest, q);
    assert p[|src|..] == rp[|dest|..] == rq[|dest|..] == q[|src|..];
    assert p == p[..|src|] + p[|src|..];
    assert q == q[..|src|] + q[|src|..];
  }

  /** Where an entry now at `q` in `dest` came from in `src`. */
  function Origin(src: Path, dest: Path, q: Path): Path
    requires Under(dest, q)
  {
    src + q[|dest|..]
  }

  /** The entries below `src`, each at its relocated path. */
  function Moved(fs: Tree, src: Path, dest: Path): (r: Tree)
    ensures forall p :: p in fs && StrictlyUnder(src, p) ==> Relocated(src, dest, p) in r && r[Relocated(src, dest, p)] == fs[p]
  {
    assert forall p, q | p in fs && StrictlyUnder(src, p) && q in fs && StrictlyUnder(src, q) ::
        Relocated(src, dest, p) == Relocated(src, dest, q) ==> p == q by {
      forall p, q | p in fs && StrictlyUnder(src, p) && q in fs && StrictlyUnder(src, q) &&
          Relocated(src, dest, p) == Relocated(src, dest, q)
        ensures p == q
      {
        RelocatedInjective(src, dest, p, q);
      }
    }
    map p | p in fs && StrictlyUnder(src, p) :: Relocated(src, dest, p) := fs[p]
  }

  /** `for f in os.listdir(src): shutil.move(os.path.join(src, f), dest)` followed
      by `os.rmdir(src)`, on a tree where none of the moves can fail: what lies
      outside `src` stays, what lies below it is relocated. */
  function MoveEntries(fs: Tree, src: Path, dest: Path): (r: Tree)
    ensures forall p :: p in fs && !Under(src, p) ==> p in r && r[p] == fs[p]
    ensures forall p :: p in fs && StrictlyUnder(src, p) && Relocated(src, dest, p) !in fs ==>
      Relocated(src, dest, p) in r && r[Relocated(src, dest, p)] == fs[p]
  {
    Moved(fs, src, dest) + RemoveTree(fs, src)
  }

  /** `p` has a directory to be made in. */
  predicate HasParentDir(fs: Tree, p: Path) {
    |p| > 0 && IsDir(fs, p[..|p| - 1])
  }

  /** The entries at or below `a`, each carried to its place below `b`. */
  function Carried(fs: Tree, a: Path, b: Path): (r: Tree)
    ensures forall p :: p in fs && Under(a, p) ==> Relocated(a, b, p) in r && r[Relocated(a, b, p)] == fs[p]
    ensures forall q :: q in r ==> Under(b, q) && Origin(a, b, q) in fs && Under(a, Origin(a, b, q))
  {
    assert forall p, q | p in fs && Under(a, p) && q in fs && Under(a, q) ::
        Relocated(a, b, p) == Relocated(a, b, q) ==> p == q by {
      forall p, q | p in fs && Under(a, p) && q in fs && Under(a, q) &&
          Relocated(a, b, p) == Relocated(a, b, q)
        ensures p == q
      {
        RelocatedInjective(a, b, p, q);
      }
    }
    var r := map p | p in fs && Under(a, p) :: Relocated(a, b, p) := fs[p];
    forall q | q in r
      ensures Under(b, q) && Origin(a, b, q) in fs && Under(a, Origin(a, b, q))
    {
      var p :| p in fs && Under(a, p) && q == Relocated(a, b, p);
      assert q[|b|..] == p[|a|..];
      assert p == p[..|a|] + p[|a|..];
    }
    r
  }

  /** `os.rename(a, b)` onto a missing `b`: `a` and everything below it now
      sit at `b`, with the same kinds. */
  function Renamed(fs: Tree, a: Path, b: Path): (r: Tree)
    ensures forall p :: p in fs && !Under(a, p) ==> p in r && r[p] == fs[p]
    ensures forall p :: p in fs && Under(a, p) && Relocated(a, b, p) !in fs ==>
      Relocated(a, b, p) in r && r[Relocated(a, b, p)] == fs[p]
    ensures forall q :: q in r ==> (q in fs && !Under(a, q)) || (Under(b, q) && Origin(a, b, q) in fs && Under(a, Origin(a, b, q)))
  {
    Carried(fs, a, b) + RemoveTree(fs, a)
  }

  /** `t` holds what `Renamed(fs, a, b)` keeps and what it carries over. */
  ghost predicate Carries(fs: Tree, a: Path, b: Path, t: Tree) {
    && (forall p :: p in fs && !Under(a, p) ==> p in t && t[p] == fs[p])
    && (forall p :: p in fs && Under(a, p) && Relocated(a, b, p) !in fs ==>
          Relocated(a, b, p) in t && t[Relocated(a, b, p)] == fs[p])
  }

  /** Renaming a path onto a missing one in an existing directory, outside
      itself, keeps the tree well formed, and the new path has the old kind. */
  lemma RenamedWellFormed(fs: Tree, a: Path, b: Path)
    requires WellFormed(fs) && a in fs && |a| > 0
    requires b !in fs && HasParentDir(fs, b) && !Under(a, b)
    ensures WellFormed(Renamed(fs, a, b))
    ensures b in Renamed(fs, a, b) && Renamed(fs, a, b)[b] == fs[a]
  {
    var r := Renamed(fs, a, b);
    assert Relocated(a, b, a) == b;
    assert Carries(fs, a, b, r);
    forall q | q in r && |q| > 0
      ensures IsDir(r, q[..|q| - 1])
    {
      if q in fs && !Under(a, q) {
        KeptParent(fs, a, b, r, q);
      } else {
        CarriedParent(fs, a, b, r, q);
      }
    }
    assert !Under(a, []);
  }

  lemma KeptParent(fs: Tree, a: Path, b: Path, t: Tree, q: Path)
    requires WellFormed(fs) && Carries(fs, a, b, t)
    requires q in fs && !Under(a, q) && |q| > 0
    ensures IsDir(t, q[..|q| - 1])
  {
    var up := q[..|q| - 1];
    if |a| <= |up| {
      assert up[..|a|] == q[..|a|];
    }
  }

  lemma CarriedParent(fs: Tree, a: Path, b: Path, t: Tree, q: Path)
    requires WellFormed(fs) && Carries(fs, a, b, t)
    requires b !in fs && HasParentDir(fs, b) && !Under(a, b)
    requires Under(b, q) && Origin(a, b, q) in fs && Under(a, Origin(a, b, q)) && |q| > 0
    ensures IsDir(t, q[..|q| - 1])
  {
    var p := Origin(a, b, q);
    OriginRelocated(a, b, q);
    if |p| == |a| {
      assert q == b by {
        assert p[..|a|] == p;
        assert a[|a|..] == [];
      }
      RenamedRootParent(fs, a, b, t);
    } else {
      CarriedDirAbove(fs, a, b, t, p);
    }
  }

  lemma OriginRelocated(a: Path, b: Path, q: Path)
    requires Under(b, q)
    ensures Relocated(a, b, Origin(a, b, q)) == q
  {
    assert q == q[..|b|] + q[|b|..];
  }

  lemma RenamedRootParent(fs: Tree, a: Path, b: Path, t: Tree)
    requires Carries(fs, a, b, t) && HasParentDir(fs, b) && !Under(a, b)
    ensures IsDir(t, b[..|b| - 1])
  {
    var up := b[..|b| - 1];
    if |a| <= |up| {
      assert up[..|a|] == b[..|a|];
    }
  }

  lemma CarriedDirAbove(fs: Tree, a: Path, b: Path, t: Tree, p: Path)
    requires WellFormed(fs) && Carries(fs, a, b, t)
    requires b !in fs && p in fs && StrictlyUnder(a, p)
    ensures IsDir(t, Relocated(a, b, p)[..|Relocated(a, b, p)| - 1])
  {
    var pu := p[..|p| - 1];
    RelocatedUp(a, b, p);
    AncestorsAreDirs(fs, p, |p| - 1);
    assert pu[..|a|] == a;
    MissingBelow(fs, Relocated(a, b, pu), |b|);
    assert Relocated(a, b, pu)[..|b|] == b;
  }

  lemma RelocatedUp(a: Path, b: Path, p: Path)
    requires StrictlyUnder(a, p)
    ensures Relocated(a, b, p[..|p| - 1]) == Relocated(a, b, p)[..|Relocated(a, b, p)| - 1]
  {
    assert p[..|p| - 1][|a|..] == p[|a|..][..|p| - 1 - |a|];
  }
}
