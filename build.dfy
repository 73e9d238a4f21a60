/**
 * The GUI staging step of build.js: `copyDir`, the two drivers
 * `setupGuiFromNpm` and `setupGuiFromLocal`, and the choice between them
 * made by `main`. The disk is the FileSystem object; every operation states
 * its new filesystem and its report as a function of the old filesystem.
 */
module Build {
  import opened Tree
  import opened Fs
  import opened Whitelist

  /** Why a run stops early: `process.exit(1)` in build.js, or an exception thrown by `fs`. */
  datatype Failure =
    | SourceNotFound          // copyDir: the directory to copy is missing
    | GuiPackageNotFound      // setupGuiFromNpm: the installed package is missing
    | ReadFailed(cause: FsError)  // readdirSync threw

  /** What `copyDir` and the staging loop end with. */
  datatype Status = Done | Failed(failure: Failure)

  /** What a staging driver ends with: the count it logs, or the failure. */
  datatype Outcome = Staged(fileCount: nat) | Aborted(failure: Failure)

  /** `path.join(scriptDir, 'public')`. */
  function PublicDest(scriptDir: Path): (r: Path)
    ensures r != [] && Parent(r) == scriptDir && r[|r| - 1] == "public"
  {
    scriptDir + ["public"]
  }

  /** `path.join(scriptDir, 'node_modules', '@marineyachtradar', 'mayara-gui')`. */
  function NpmGuiPath(scriptDir: Path): (r: Path)
    ensures IsPrefix(scriptDir, r) && |r| == |scriptDir| + 3 && r[|scriptDir|] == "node_modules"
  {
    scriptDir + ["node_modules", "@marineyachtradar", "mayara-gui"]
  }

  /** `path.join(scriptDir, '..', 'mayara-gui')`; `..` of the filesystem root is the root. */
  function LocalGuiPath(scriptDir: Path): (r: Path)
    ensures r != [] && r[|r| - 1] == "mayara-gui"
    ensures scriptDir != [] ==> Parent(r) == Parent(scriptDir)
    ensures scriptDir == [] ==> r == ["mayara-gui"]
  {
    (if scriptDir == [] then [] else Parent(scriptDir)) + ["mayara-gui"]
  }

  /** The entries of `m` whose names are in `keys`. */
  function Restrict(m: map<string, Node>, keys: set<string>): map<string, Node> {
    map k | k in m && k in keys :: m[k]
  }

  /** The node at `p`, used only to measure how deep a copy can still recurse. */
  function SubtreeAt(n: Node, p: Path): Node {
    if Lookup(n, p).Some? then Lookup(n, p).value else File([])
  }

  // ---------------------------------------------------------------------------
  // Specification of the drivers

  /**
   * The filesystem and the report after `dest` is rebuilt from the directory
   * at `src`: `dest` is wiped and recreated first, then a missing or
   * non-directory source makes the listing throw, and otherwise `dest` ends
   * up holding exactly the whitelisted top-level entries of the source.
   * This describes a run only when neither of `src` and `dest` lies inside
   * the other (`Separate(src, dest)`), as RebuildPublic requires: were the
   * source below `dest`, the wipe would delete it before it is listed.
   */
  function StageFrom(root: Node, src: Path, dest: Path): (Node, Outcome) {
    match Lookup(root, src)
    case None => (Put(root, dest, Dir(map[])), Aborted(ReadFailed(NoEntry)))
    case Some(File(_)) => (Put(root, dest, Dir(map[])), Aborted(ReadFailed(NotADirectory)))
    case Some(Dir(m)) => (Put(root, dest, Dir(Stage(m))), Staged(|EntryPaths(Dir(Stage(m)))|))
  }

  /** npm mode: the package must exist before anything is touched. */
  function NpmStaging(root: Node, scriptDir: Path): (Node, Outcome) {
    if Lookup(root, NpmGuiPath(scriptDir)).None? then (root, Aborted(GuiPackageNotFound))
    else StageFrom(root, NpmGuiPath(scriptDir), PublicDest(scriptDir))
  }

  /** Local mode: no existence check, `public/` is rebuilt before the sibling directory is read. */
  function LocalStaging(root: Node, scriptDir: Path): (Node, Outcome) {
    StageFrom(root, LocalGuiPath(scriptDir), PublicDest(scriptDir))
  }

  // ---------------------------------------------------------------------------
  // Operations

  /**
   * `copyDir(src, dest)`: exits when `src` is missing; otherwise removes
   * `dest`, recreates it and mirrors every entry of `src` into it, recursing
   * into subdirectories, with no filtering at any depth.
   */
  method CopyDir(fs: FileSystem, src: Path, dest: Path) returns (status: Status)
    requires dest != [] && Separate(src, dest) && IsDirAt(fs.root, Parent(dest))
    modifies fs
    ensures match Lookup(old(fs.root), src)
      case None => status == Failed(SourceNotFound) && fs.root == old(fs.root)
      case Some(File(_)) =>
        status == Failed(ReadFailed(NotADirectory)) && fs.root == Put(old(fs.root), dest, Dir(map[]))
      case Some(Dir(m)) => status == Done && fs.root == Put(old(fs.root), dest, Dir(m))
    decreases SubtreeAt(fs.root, src)
  {
    var found := fs.Exists(src);
    if !found {
      return Failed(SourceNotFound);
    }
    ghost var r0 := fs.root;
    Recreate(fs, dest);
    LookupPutOther(r0, dest, Dir(map[]), src);
    var listing := fs.ReadDir(src);
    if listing.Err? {
      return Failed(ReadFailed(listing.error));
    }
    ghost var m := Lookup(r0, src).value.entries;
    var entries := listing.value;
    var todo := entries;
    ghost var done: set<string> := {};
    assert Restrict(m, done) == map[];
    while todo != {}
      invariant done <= m.Keys
      invariant forall e :: e in todo <==> e in entries && e.name !in done
      invariant fs.root == Put(r0, dest, Dir(Restrict(m, done)))
      decreases todo
    {
      var entry :| entry in todo;
      var name := entry.name;
      EntryStep(r0, src, dest, m, Restrict(m, done), name);
      if entry.isDirectory {
        var _ := CopyDir(fs, src + [name], dest + [name]);
      } else {
        fs.CopyFile(src + [name], dest + [name]);
      }
      PutChild(r0, dest, Restrict(m, done), name, m[name]);
      assert Restrict(m, done)[name := m[name]] == Restrict(m, done + {name});
      todo := todo - {entry};
      done := done + {name};
    }
    assert forall k | k in m :: Dirent(k, m[k].Dir?) in entries;
    assert Restrict(m, done) == m;
    status := Done;
  }

  /**
   * The `existsSync` / `rmSync` / `mkdirSync` preamble shared by `copyDir`
   * and both drivers: afterwards `dest` is an empty directory, whatever was
   * there before.
   */
  method Recreate(fs: FileSystem, dest: Path)
    requires dest != [] && IsDirAt(fs.root, Parent(dest))
    modifies fs
    ensures fs.root == Put(old(fs.root), dest, Dir(map[]))
  {
    ghost var r0 := fs.root;
    var stale := fs.Exists(dest);
    if stale {
      RemoveKeepsParent(fs.root, dest);
      fs.Rm(dest);
    }
    fs.Mkdir(dest);
    if stale {
      PutAfterRemove(r0, dest, Dir(map[]));
    }
  }

  /**
   * The staging loop of both drivers: lists `src`, then copies each
   * directory entry whose name is whitelisted with CopyDir and each other
   * entry whose name carries a whitelisted extension with `copyFileSync`,
   * skipping the rest. `dest` is the freshly recreated, empty `public/`.
   */
  method CopyWhitelisted(fs: FileSystem, src: Path, dest: Path) returns (status: Status)
    requires dest != [] && Separate(src, dest) && IsDirAt(fs.root, Parent(dest))
    requires Lookup(fs.root, dest) == Some(Dir(map[]))
    modifies fs
    ensures match Lookup(old(fs.root), src)
      case None => status == Failed(ReadFailed(NoEntry)) && fs.root == old(fs.root)
      case Some(File(_)) => status == Failed(ReadFailed(NotADirectory)) && fs.root == old(fs.root)
      case Some(Dir(m)) => status == Done && fs.root == Put(old(fs.root), dest, Dir(Stage(m)))
  {
    var listing := fs.ReadDir(src);
    if listing.Err? {
      return Failed(ReadFailed(listing.error));
    }
    ghost var r0 := fs.root;
    ghost var m := Lookup(r0, src).value.entries;
    var entries := listing.value;
    var todo := entries;
    ghost var done: set<string> := {};
    assert Stage(Restrict(m, done)) == map[];
    PutUnchanged(r0, dest, Dir(map[]));
    while todo != {}
      invariant done <= m.Keys
      invariant forall e :: e in todo <==> e in entries && e.name !in done
      invariant fs.root == Put(r0, dest, Dir(Stage(Restrict(m, done))))
      decreases todo
    {
      var entry :| entry in todo;
      var name := entry.name;
      ghost var staged := Stage(Restrict(m, done));
      EntryStep(r0, src, dest, m, staged, name);
      if entry.isDirectory {
        if Wanted(entry) {
          var _ := CopyDir(fs, src + [name], dest + [name]);
        }
      } else {
        if Wanted(entry) {
          fs.CopyFile(src + [name], dest + [name]);
        }
      }
      if Wanted(entry) {
        PutChild(r0, dest, staged, name, m[name]);
        assert staged[name := m[name]] == Stage(Restrict(m, done + {name}));
      } else {
        assert staged == Stage(Restrict(m, done + {name}));
      }
      todo := todo - {entry};
      done := done + {name};
    }
    assert forall k | k in m :: Dirent(k, m[k].Dir?) in entries;
    assert Restrict(m, done) == m;
    status := Done;
  }

  /** `setupGuiFromNpm()`: checks the installed package, rebuilds `public/`, reports the count. */
  method SetupGuiFromNpm(fs: FileSystem, scriptDir: Path) returns (outcome: Outcome)
    requires IsDirAt(fs.root, scriptDir)
    modifies fs
    ensures (fs.root, outcome) == NpmStaging(old(fs.root), scriptDir)
  {
    var guiSource := NpmGuiPath(scriptDir);
    var publicDest := PublicDest(scriptDir);
    var found := fs.Exists(guiSource);
    if !found {
      return Aborted(GuiPackageNotFound);
    }
    NpmSeparateFromPublic(scriptDir);
    outcome := RebuildPublic(fs, guiSource, publicDest);
  }

  /** `setupGuiFromLocal()`: rebuilds `public/` from the sibling checkout, reports the count. */
  method SetupGuiFromLocal(fs: FileSystem, scriptDir: Path) returns (outcome: Outcome)
    requires IsDirAt(fs.root, scriptDir)
    requires Separate(LocalGuiPath(scriptDir), PublicDest(scriptDir))
    modifies fs
    ensures (fs.root, outcome) == LocalStaging(old(fs.root), scriptDir)
  {
    var localGuiPath := LocalGuiPath(scriptDir);
    var publicDest := PublicDest(scriptDir);
    outcome := RebuildPublic(fs, localGuiPath, publicDest);
  }

  /**
   * The common body of both drivers once the source is chosen: recreate
   * `public/`, run the staging loop, then count every entry now below
   * `public/` with a recursive listing.
   */
  method RebuildPublic(fs: FileSystem, src: Path, publicDest: Path) returns (outcome: Outcome)
    requires publicDest != [] && Separate(src, publicDest) && IsDirAt(fs.root, Parent(publicDest))
    modifies fs
    ensures (fs.root, outcome) == StageFrom(old(fs.root), src, publicDest)
  {
    ghost var r0 := fs.root;
    Recreate(fs, publicDest);
    ghost var r1 := fs.root;
    LookupPutOther(r0, publicDest, Dir(map[]), src);
    LookupPutSame(r0, publicDest, Dir(map[]), []);
    assert publicDest + [] == publicDest;
    PutKeepsParent(r0, publicDest, Dir(map[]));
    var status := CopyWhitelisted(fs, src, publicDest);
    if status.Failed? {
      return Aborted(status.failure);
    }
    ghost var m := Lookup(r0, src).value.entries;
    PutPut(r0, publicDest, Dir(map[]), Dir(Stage(m)));
    LookupPutSame(r0, publicDest, Dir(Stage(m)), []);
    var listing := fs.ReadDirRecursive(publicDest);
    outcome := Staged(|listing.value|);
  }

  /** `main()`: `--local-gui` selects the sibling checkout, otherwise the installed package. */
  method RunBuild(fs: FileSystem, scriptDir: Path, useLocalGui: bool) returns (outcome: Outcome)
    requires IsDirAt(fs.root, scriptDir)
    requires useLocalGui ==> Separate(LocalGuiPath(scriptDir), PublicDest(scriptDir))
    modifies fs
    ensures useLocalGui ==> (fs.root, outcome) == LocalStaging(old(fs.root), scriptDir)
    ensures !useLocalGui ==> (fs.root, outcome) == NpmStaging(old(fs.root), scriptDir)
  {
    if useLocalGui {
      outcome := SetupGuiFromLocal(fs, scriptDir);
    } else {
      outcome := SetupGuiFromNpm(fs, scriptDir);
    }
  }

  // ---------------------------------------------------------------------------
  // Proof steps

  /**
   * What one loop iteration needs when `dest` currently holds `done` (a part
   * of the listing of `src`) and `k` is still to be copied.
   */
  lemma EntryStep(r0: Node, src: Path, dest: Path, m: map<string, Node>, done: map<string, Node>, k: string)
    requires dest != [] && Separate(src, dest) && IsDirAt(r0, Parent(dest))
    requires Lookup(r0, src) == Some(Dir(m)) && k in m && k !in done
    ensures var root := Put(r0, dest, Dir(done));
      && IsDirAt(root, Parent(dest + [k]))
      && Separate(src + [k], dest + [k])
      && Lookup(root, src + [k]) == Some(m[k])
      && Lookup(root, dest + [k]) == None
  {
    var root := Put(r0, dest, Dir(done));
    assert Parent(dest + [k]) == dest && dest + [] == dest;
    LookupPutSame(r0, dest, Dir(done), []);
    LookupPutSame(r0, dest, Dir(done), [k]);
    SeparateExtend(src, dest, k);
    SeparateDescend(src, dest, k);
    LookupPutOther(r0, dest, Dir(done), src + [k]);
    LookupAppend(r0, src, [k]);
  }

  /** `public/` never lies inside the installed package, nor the other way round. */
  lemma NpmSeparateFromPublic(scriptDir: Path)
    ensures Separate(NpmGuiPath(scriptDir), PublicDest(scriptDir))
  {
    var n := |scriptDir|;
    assert NpmGuiPath(scriptDir)[n] == "node_modules";
    assert PublicDest(scriptDir)[n] == "public";
  }
}
