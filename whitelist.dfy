/**
 * The `guiPatterns` whitelist of build.js and the top-level selection it
 * makes: a non-directory entry is kept when its name ends with one of the
 * listed extensions, a directory when its name is one of the listed names.
 */
module Whitelist {
  import opened Tree
  import opened Fs

  /** `{ ext: '...' }` or `{ dir: '...' }`. */
  datatype Pattern = Ext(ext: string) | DirName(dir: string)

  const GuiPatterns: seq<Pattern> := [
    Ext(".html"), Ext(".js"), Ext(".css"), Ext(".ico"), Ext(".svg"),
    DirName("assets"), DirName("proto"), DirName("protobuf")
  ]

  /** JavaScript's `s.endsWith(suffix)`. */
  predicate EndsWith(s: string, suffix: string) {
    |suffix| <= |s| && s[|s| - |suffix|..] == suffix
  }

  /**
   * The test applied to one pattern: for a directory `p.dir === entry.name`
   * (an extension pattern has no `dir`), for anything else
   * `p.ext && entry.name.endsWith(p.ext)` (a directory-name pattern has no
   * `ext`, and an empty `ext` is falsy).
   */
  predicate Matches(p: Pattern, e: Dirent) {
    if e.isDirectory then p.DirName? && p.dir == e.name
    else p.Ext? && p.ext != "" && EndsWith(e.name, p.ext)
  }

  /** `patterns.some(...)`, scanning the patterns from the front. */
  function AnyMatches(patterns: seq<Pattern>, e: Dirent): bool {
    if patterns == [] then false
    else Matches(patterns[0], e) || AnyMatches(patterns[1..], e)
  }

  /** The staging decision for one top-level entry of the GUI source. */
  predicate Wanted(e: Dirent) {
    AnyMatches(GuiPatterns, e)
  }

  /** The top-level entries of a source directory that staging copies, each with its whole subtree. */
  function Stage(m: map<string, Node>): map<string, Node> {
    map k | k in m && Wanted(Dirent(k, m[k].Dir?)) :: m[k]
  }

  /** The five extensions a staged non-directory may end with. */
  predicate HasGuiExtension(name: string) {
    EndsWith(name, ".html") || EndsWith(name, ".js") || EndsWith(name, ".css") ||
    EndsWith(name, ".ico") || EndsWith(name, ".svg")
  }

  /** The three names a staged directory may have. */
  predicate IsGuiDirName(name: string) {
    name == "assets" || name == "proto" || name == "protobuf"
  }

  // ---------------------------------------------------------------------------
  // Lemmas

  /** `some` holds exactly when one of the patterns matches. */
  lemma {:induction false} AnyMatchesIff(patterns: seq<Pattern>, e: Dirent)
    ensures AnyMatches(patterns, e) <==> exists i :: 0 <= i < |patterns| && Matches(patterns[i], e)
  {
    if patterns != [] {
      AnyMatchesIff(patterns[1..], e);
      if AnyMatches(patterns[1..], e) {
        var i :| 0 <= i < |patterns| - 1 && Matches(patterns[1..][i], e);
        assert Matches(patterns[i + 1], e);
      }
      if exists i :: 0 <= i < |patterns| && Matches(patterns[i], e) {
        var i :| 0 <= i < |patterns| && Matches(patterns[i], e);
        if i > 0 {
          assert Matches(patterns[1..][i - 1], e);
        }
      }
    }
  }

  /** One matching pattern is enough for an entry to be wanted. */
  lemma WantedByPattern(e: Dirent, i: nat)
    requires i < |GuiPatterns| && Matches(GuiPatterns[i], e)
    ensures Wanted(e)
  {
    AnyMatchesIff(GuiPatterns, e);
  }

  lemma WantedByExtension(name: string, ext: string, i: nat)
    requires i < 5 && GuiPatterns[i] == Ext(ext) && EndsWith(name, ext)
    ensures Wanted(Dirent(name, false))
  {
    WantedByPattern(Dirent(name, false), i);
  }

  lemma WantedByDirName(name: string, i: nat)
    requires 5 <= i < |GuiPatterns| && GuiPatterns[i] == DirName(name)
    ensures Wanted(Dirent(name, true))
  {
    WantedByPattern(Dirent(name, true), i);
  }

  /** Only the five extensions make a non-directory wanted. */
  lemma WantedFileHasExtension(name: string)
    ensures Wanted(Dirent(name, false)) ==> HasGuiExtension(name)
  {
    var e := Dirent(name, false);
    AnyMatchesIff(GuiPatterns, e);
    if Wanted(e) {
      var i :| 0 <= i < |GuiPatterns| && Matches(GuiPatterns[i], e);
      assert i < 5 && EndsWith(name, GuiPatterns[i].ext);
    }
  }

  /** Each of the five extensions makes a non-directory wanted. */
  lemma ExtensionMakesFileWanted(name: string)
    ensures HasGuiExtension(name) ==> Wanted(Dirent(name, false))
  {
    if EndsWith(name, ".html") { WantedByExtension(name, ".html", 0); }
    if EndsWith(name, ".js") { WantedByExtension(name, ".js", 1); }
    if EndsWith(name, ".css") { WantedByExtension(name, ".css", 2); }
    if EndsWith(name, ".ico") { WantedByExtension(name, ".ico", 3); }
    if EndsWith(name, ".svg") { WantedByExtension(name, ".svg", 4); }
  }

  /** A non-directory is wanted exactly when its name ends with one of the five extensions. */
  lemma WantedFileIff(name: string)
    ensures Wanted(Dirent(name, false)) <==> HasGuiExtension(name)
  {
    WantedFileHasExtension(name);
    ExtensionMakesFileWanted(name);
  }

  /** A directory is wanted exactly when its name is `assets`, `proto` or `protobuf`. */
  lemma WantedDirIff(name: string)
    ensures Wanted(Dirent(name, true)) <==> IsGuiDirName(name)
  {
    var e := Dirent(name, true);
    AnyMatchesIff(GuiPatterns, e);
    if Wanted(e) {
      var i :| 0 <= i < |GuiPatterns| && Matches(GuiPatterns[i], e);
      assert 5 <= i && name == GuiPatterns[i].dir;
    }
    if name == "assets" { WantedByDirName(name, 5); }
    if name == "proto" { WantedByDirName(name, 6); }
    if name == "protobuf" { WantedByDirName(name, 7); }
  }

  /**
   * File filter: a top-level non-directory is staged, unchanged, exactly when
   * its name carries one of the five extensions; nothing is staged that the
   * source does not hold.
   */
  lemma StageFileIff(m: map<string, Node>, name: string)
    requires name in m && m[name].File?
    ensures name in Stage(m) <==> HasGuiExtension(name)
    ensures name in Stage(m) ==> Stage(m)[name] == m[name]
  {
    WantedFileIff(name);
  }

  /**
   * Directory filter: a top-level directory is staged, with its whole
   * subtree, exactly when its name is `assets`, `proto` or `protobuf`; any
   * other directory (`node_modules`, say) is absent.
   */
  lemma StageDirIff(m: map<string, Node>, name: string)
    requires name in m && m[name].Dir?
    ensures name in Stage(m) <==> IsGuiDirName(name)
    ensures name in Stage(m) ==> Stage(m)[name] == m[name]
  {
    WantedDirIff(name);
  }

  /**
   * Filtering happens only at the top level: below a staged entry every path
   * resolves to exactly what it resolves to in the source, whatever its name
   * or extension.
   */
  lemma {:induction false} StageMirrorsBelow(m: map<string, Node>, k: string, q: Path)
    requires k in Stage(m)
    ensures Lookup(Dir(Stage(m)), [k] + q) == Lookup(Dir(m), [k] + q)
    ensures Lookup(Dir(Stage(m)), [k] + q) == Lookup(m[k], q)
  {
    LookupAppend(Dir(Stage(m)), [k], q);
    LookupAppend(Dir(m), [k], q);
  }

  /**
   * The staged tree holds exactly the source entries, at any depth, whose
   * top-level ancestor passes the whitelist.
   */
  lemma StagedEntryPaths(m: map<string, Node>, p: Path)
    ensures p in EntryPaths(Dir(Stage(m))) <==>
      p != [] && p in EntryPaths(Dir(m)) && p[0] in m && Wanted(Dirent(p[0], m[p[0]].Dir?))
  {
    EntryPathsResolve(Dir(Stage(m)), p);
    EntryPathsResolve(Dir(m), p);
    if p != [] {
      LookupAppend(Dir(Stage(m)), [p[0]], p[1..]);
      LookupAppend(Dir(m), [p[0]], p[1..]);
      assert p == [p[0]] + p[1..];
    }
  }

  /** Staging never reports more entries than the source holds. */
  lemma StagedCountBound(m: map<string, Node>)
    ensures |EntryPaths(Dir(Stage(m)))| <= |EntryPaths(Dir(m))|
  {
    forall p | p in EntryPaths(Dir(Stage(m))) ensures p in EntryPaths(Dir(m)) {
      StagedEntryPaths(m, p);
    }
    SubsetCardinality(EntryPaths(Dir(Stage(m))), EntryPaths(Dir(m)));
  }

  /** Dropping an unwanted entry from the source does not change what is staged. */
  lemma StageIgnoresUnwanted(m: map<string, Node>, k: string)
    requires k in m && !Wanted(Dirent(k, m[k].Dir?))
    ensures Stage(m) == Stage(m - {k})
  {
  }

  /** A source whose every top-level entry is wanted is staged whole. */
  lemma StageKeepsWanted(m: map<string, Node>)
    requires forall k | k in m :: Wanted(Dirent(k, m[k].Dir?))
    ensures Stage(m) == m
  {
  }
}
