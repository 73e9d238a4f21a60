/**
 * What a staging run guarantees, stated over the specification functions
 * that the drivers of build.js are proved to follow (StageFrom, NpmStaging,
 * LocalStaging): clean rebuild, the whitelist at the top level, an
 * unfiltered mirror below it, the reported count, the order in which
 * failures strike, and the identity of the two modes.
 */
module StagingProperties {
  import opened Tree
  import opened Fs
  import opened Whitelist
  import opened Build

  /**
   * Clean rebuild: after a successful run everything below `dest` is the
   * filtered source and nothing else, so no entry of an earlier `public/`
   * survives; the report is the number of those entries.
   */
  lemma PublicIsExactlyStaged(root: Node, src: Path, dest: Path, m: map<string, Node>, q: Path)
    requires dest != [] && IsDirAt(root, Parent(dest))
    requires Lookup(root, src) == Some(Dir(m))
    ensures Lookup(StageFrom(root, src, dest).0, dest + q) == Lookup(Dir(Stage(m)), q)
    ensures StageFrom(root, src, dest).1 == Staged(|EntryPaths(Dir(Stage(m)))|)
  {
    LookupPutSame(root, dest, Dir(Stage(m)), q);
  }

  /**
   * Two runs over the same source give the same `public/` and the same
   * report, whatever `public/` held before each of them (a file removed from
   * the source between runs is gone after the second).
   */
  lemma RebuildForgetsOldPublic(r1: Node, r2: Node, src: Path, dest: Path, q: Path)
    requires dest != [] && IsDirAt(r1, Parent(dest)) && IsDirAt(r2, Parent(dest))
    requires Lookup(r1, src) == Lookup(r2, src)
    ensures Lookup(StageFrom(r1, src, dest).0, dest + q) == Lookup(StageFrom(r2, src, dest).0, dest + q)
    ensures StageFrom(r1, src, dest).1 == StageFrom(r2, src, dest).1
  {
    var v := match Lookup(r1, src)
      case Some(Dir(m)) => Dir(Stage(m))
      case _ => Dir(map[]);
    LookupPutSame(r1, dest, v, q);
    LookupPutSame(r2, dest, v, q);
  }

  /** A run writes nowhere but below `dest`. */
  lemma StagingTouchesOnlyDest(root: Node, src: Path, dest: Path, q: Path)
    requires Separate(dest, q)
    ensures Lookup(StageFrom(root, src, dest).0, q) == Lookup(root, q)
  {
    match Lookup(root, src)
    case None => LookupPutOther(root, dest, Dir(map[]), q);
    case Some(File(_)) => LookupPutOther(root, dest, Dir(map[]), q);
    case Some(Dir(m)) => LookupPutOther(root, dest, Dir(Stage(m)), q);
  }

  /**
   * File filter: a top-level non-directory of the source is in `public/`,
   * with the same bytes, exactly when its name ends with `.html`, `.js`,
   * `.css`, `.ico` or `.svg`.
   */
  lemma PublicFileIff(root: Node, src: Path, dest: Path, m: map<string, Node>, name: string)
    requires dest != [] && IsDirAt(root, Parent(dest))
    requires Lookup(root, src) == Some(Dir(m)) && name in m && m[name].File?
    ensures Lookup(StageFrom(root, src, dest).0, dest + [name]) ==
      if HasGuiExtension(name) then Some(m[name]) else None
  {
    PublicIsExactlyStaged(root, src, dest, m, [name]);
    StageFileIff(m, name);
  }

  /**
   * Directory filter: a top-level directory of the source is in `public/`
   * exactly when it is named `assets`, `proto` or `protobuf`; any other,
   * such as `node_modules`, is absent.
   */
  lemma PublicDirIff(root: Node, src: Path, dest: Path, m: map<string, Node>, name: string)
    requires dest != [] && IsDirAt(root, Parent(dest))
    requires Lookup(root, src) == Some(Dir(m)) && name in m && m[name].Dir?
    ensures Lookup(StageFrom(root, src, dest).0, dest + [name]) ==
      if IsGuiDirName(name) then Some(m[name]) else None
  {
    PublicIsExactlyStaged(root, src, dest, m, [name]);
    StageDirIff(m, name);
  }

  /**
   * Unfiltered recursion: below a staged top-level entry, `public/` answers
   * every path, at any depth and whatever its extension, exactly as the
   * source does.
   */
  lemma PublicMirrorsSource(root: Node, src: Path, dest: Path, m: map<string, Node>, k: string, q: Path)
    requires dest != [] && IsDirAt(root, Parent(dest))
    requires Lookup(root, src) == Some(Dir(m)) && k in Stage(m)
    ensures Lookup(StageFrom(root, src, dest).0, dest + [k] + q) == Lookup(root, src + [k] + q)
  {
    assert dest + [k] + q == dest + ([k] + q);
    assert src + [k] + q == src + ([k] + q);
    PublicIsExactlyStaged(root, src, dest, m, [k] + q);
    StageMirrorsBelow(m, k, q);
    LookupAppend(root, src, [k] + q);
  }

  /**
   * Reported count: the number logged is the number of entries, files and
   * directories at every depth, found below `public/` after the run; it
   * never exceeds the number of entries in the source.
   */
  lemma ReportedCountIsEntries(root: Node, src: Path, dest: Path, m: map<string, Node>)
    requires dest != [] && IsDirAt(root, Parent(dest))
    requires Lookup(root, src) == Some(Dir(m))
    ensures var (after, outcome) := StageFrom(root, src, dest);
      && outcome.Staged?
      && (forall q :: q in EntryPaths(Dir(Stage(m))) <==> q != [] && Lookup(after, dest + q).Some?)
      && outcome.fileCount == |EntryPaths(Dir(Stage(m)))|
      && outcome.fileCount <= |EntryPaths(Dir(m))|
  {
    forall q ensures q in EntryPaths(Dir(Stage(m))) <==> q != [] && Lookup(StageFrom(root, src, dest).0, dest + q).Some? {
      PublicIsExactlyStaged(root, src, dest, m, q);
      EntryPathsResolve(Dir(Stage(m)), q);
    }
    StagedCountBound(m);
  }

  /** npm mode: a missing package stops the run before anything is written. */
  lemma NpmMissingStopsEarly(root: Node, scriptDir: Path)
    requires Lookup(root, NpmGuiPath(scriptDir)) == None
    ensures NpmStaging(root, scriptDir) == (root, Aborted(GuiPackageNotFound))
  {
  }

  /**
   * Local mode: there is no existence check, so `public/` has already been
   * wiped and recreated empty when the missing sibling directory makes the
   * listing throw.
   */
  lemma LocalMissingAfterWipe(root: Node, scriptDir: Path)
    requires IsDirAt(root, scriptDir)
    requires Lookup(root, LocalGuiPath(scriptDir)) == None
    ensures Lookup(LocalStaging(root, scriptDir).0, PublicDest(scriptDir)) == Some(Dir(map[]))
    ensures LocalStaging(root, scriptDir).1 == Aborted(ReadFailed(NoEntry))
  {
    var dest := PublicDest(scriptDir);
    assert Parent(dest) == scriptDir && dest + [] == dest;
    LookupPutSame(root, dest, Dir(map[]), []);
  }

  /**
   * Same filter in both modes: given the same source tree, the npm and the
   * local driver leave the same `public/` and report the same count.
   */
  lemma SameFilterBothModes(r1: Node, r2: Node, scriptDir: Path, m: map<string, Node>, q: Path)
    requires IsDirAt(r1, scriptDir) && IsDirAt(r2, scriptDir)
    requires Lookup(r1, NpmGuiPath(scriptDir)) == Some(Dir(m))
    requires Lookup(r2, LocalGuiPath(scriptDir)) == Some(Dir(m))
    ensures Lookup(NpmStaging(r1, scriptDir).0, PublicDest(scriptDir) + q) ==
            Lookup(LocalStaging(r2, scriptDir).0, PublicDest(scriptDir) + q)
    ensures NpmStaging(r1, scriptDir).1 == LocalStaging(r2, scriptDir).1
  {
    var dest := PublicDest(scriptDir);
    assert Parent(dest) == scriptDir;
    PublicIsExactlyStaged(r1, NpmGuiPath(scriptDir), dest, m, q);
    PublicIsExactlyStaged(r2, LocalGuiPath(scriptDir), dest, m, q);
  }

  // ---------------------------------------------------------------------------
  // A worked example: a GUI package holding `index.html`, `app.js`,
  // `readme.md`, `assets/logo.svg` and an empty `node_modules/`.

  /** The three entries of the example that pass the whitelist. */
  function ExampleStaged(html: Node, js: Node, logo: Node): map<string, Node> {
    map["index.html" := html, "app.js" := js, "assets" := Dir(map["logo.svg" := logo])]
  }

  /** The example GUI package: the staged entries plus `readme.md` and an empty `node_modules/`. */
  function ExamplePackage(html: Node, js: Node, readme: Node, logo: Node): map<string, Node> {
    ExampleStaged(html, js, logo)["readme.md" := readme]["node_modules" := Dir(map[])]
  }

  /** `readme.md` carries none of the five extensions. */
  lemma ReadmeNotGui()
    ensures !HasGuiExtension("readme.md")
  {
    var s := "readme.md";
    assert s[|s| - 5..] == "me.md" && s[|s| - 3..] == ".md" && s[|s| - 4..] == "e.md";
  }

  lemma ExampleKept(html: Node, js: Node, logo: Node)
    requires html.File? && js.File?
    ensures Stage(ExampleStaged(html, js, logo)) == ExampleStaged(html, js, logo)
  {
    assert Wanted(Dirent("index.html", false)) by {
      assert "index.html"[5..] == ".html";
      WantedFileIff("index.html");
    }
    assert Wanted(Dirent("app.js", false)) by {
      assert "app.js"[3..] == ".js";
      WantedFileIff("app.js");
    }
    WantedDirIff("assets");
    StageKeepsWanted(ExampleStaged(html, js, logo));
  }

  /** `node_modules/` and `readme.md` fail the whitelist, so leaving them out changes nothing. */
  lemma ExampleDropped(html: Node, js: Node, readme: Node, logo: Node)
    requires readme.File?
    ensures Stage(ExamplePackage(html, js, readme, logo)) == Stage(ExampleStaged(html, js, logo))
  {
    var staged := ExampleStaged(html, js, logo);
    var withReadme := staged["readme.md" := readme];
    DropNodeModules(withReadme);
    assert withReadme - {"node_modules"} == withReadme;
    DropReadme(staged, readme);
    assert staged - {"readme.md"} == staged;
  }

  lemma DropNodeModules(m: map<string, Node>)
    ensures Stage(m["node_modules" := Dir(map[])]) == Stage(m - {"node_modules"})
  {
    var n := m["node_modules" := Dir(map[])];
    WantedDirIff("node_modules");
    StageIgnoresUnwanted(n, "node_modules");
    assert n - {"node_modules"} == m - {"node_modules"};
  }

  lemma DropReadme(m: map<string, Node>, readme: Node)
    requires readme.File?
    ensures Stage(m["readme.md" := readme]) == Stage(m - {"readme.md"})
  {
    var n := m["readme.md" := readme];
    ReadmeNotGui();
    StageFileIff(n, "readme.md");
    StageIgnoresUnwanted(n, "readme.md");
    assert n - {"readme.md"} == m - {"readme.md"};
  }

  /**
   * Staging the example package keeps `index.html`, `app.js` and `assets/`
   * with its logo, and drops `readme.md` and `node_modules/`.
   */
  lemma ExampleStage(html: Node, js: Node, readme: Node, logo: Node)
    requires html.File? && js.File? && readme.File?
    ensures Stage(ExamplePackage(html, js, readme, logo)) == ExampleStaged(html, js, logo)
  {
    ExampleDropped(html, js, readme, logo);
    ExampleKept(html, js, logo);
  }

  /** The staged example's top-level names. */
  lemma ExampleTop(html: Node, js: Node, logo: Node)
    ensures (set k | k in ExampleStaged(html, js, logo) :: [k]) == {["index.html"], ["app.js"], ["assets"]}
  {
  }

  /** Below the staged example's top level there is only `assets/logo.svg`. */
  lemma ExampleBelow(html: Node, js: Node, logo: Node)
    requires html.File? && js.File? && logo.File?
    ensures var staged := ExampleStaged(html, js, logo);
      (set k, q | k in staged && q in EntryPaths(staged[k]) :: [k] + q) == {["assets", "logo.svg"]}
  {
    var staged := ExampleStaged(html, js, logo);
    assert EntryPaths(Dir(map["logo.svg" := logo])) == {["logo.svg"]} by {
      assert EntryPaths(logo) == {};
    }
    assert EntryPaths(html) == {} && EntryPaths(js) == {};
    assert ["assets"] + ["logo.svg"] == ["assets", "logo.svg"];
  }

  /** ... and reports four entries: two files, `assets` and `assets/logo.svg`. */
  lemma ExampleCount(html: Node, js: Node, logo: Node)
    requires html.File? && js.File? && logo.File?
    ensures |EntryPaths(Dir(ExampleStaged(html, js, logo)))| == 4
  {
    ExampleTop(html, js, logo);
    ExampleBelow(html, js, logo);
    assert EntryPaths(Dir(ExampleStaged(html, js, logo))) ==
      {["index.html"], ["app.js"], ["assets"], ["assets", "logo.svg"]};
  }

  /**
   * A whole npm-mode run over the example package: `public/` holds exactly
   * `index.html`, `app.js` and `assets/logo.svg`, and the logged count is 4.
   */
  lemma ExampleNpmRun(root: Node, scriptDir: Path, html: Node, js: Node, readme: Node, logo: Node)
    requires html.File? && js.File? && readme.File? && logo.File?
    requires IsDirAt(root, scriptDir)
    requires Lookup(root, NpmGuiPath(scriptDir)) == Some(Dir(ExamplePackage(html, js, readme, logo)))
    ensures Lookup(NpmStaging(root, scriptDir).0, PublicDest(scriptDir)) == Some(Dir(ExampleStaged(html, js, logo)))
    ensures NpmStaging(root, scriptDir).1 == Staged(4)
  {
    var dest := PublicDest(scriptDir);
    assert Parent(dest) == scriptDir && dest + [] == dest;
    PublicIsExactlyStaged(root, NpmGuiPath(scriptDir), dest, ExamplePackage(html, js, readme, logo), []);
    ExampleStage(html, js, readme, logo);
    ExampleCount(html, js, logo);
  }
}
