# Staging the MaYaRa GUI into `public/`

This project models the GUI-asset staging step of `build.js` in
mayara-server-signalk-plugin and proves what it guarantees. The step takes
the pre-built `@marineyachtradar/mayara-gui` bundle from one of two places:

- the npm package installed under `node_modules/`, or
- with `--local-gui`, a sibling checkout `../mayara-gui`.

It wipes and recreates `public/`. It copies only the whitelisted top-level
entries of the bundle:

- files ending in `.html`, `.js`, `.css`, `.ico` or `.svg`;
- the directories `assets`, `proto` and `protobuf`, each copied whole by the
  recursive `copyDir`.

It then reports how many entries `public/` holds at every depth.

The disk is an in-memory tree (`Tree.Node`: a file with opaque bytes, or a
directory mapping names to nodes), held by a mutable `Fs.FileSystem`
object. The Node `fs` calls the script makes are methods of that object:

- `existsSync`;
- `rmSync`;
- `mkdirSync`;
- `copyFileSync`;
- `readdirSync`, both plain and recursive.

Each driver of `build.js` is an imperative method over that object, with
loop invariants over the entries copied so far. Each is proved to leave
exactly the filesystem and the report described by a pure function
(`Build.StageFrom`, `Build.NpmStaging`, `Build.LocalStaging`). The
properties of staging are then lemmas about those functions (module
`StagingProperties`) and about the whitelist (module `Whitelist`).

Files:

- `tree.dfy`: the filesystem tree, path lookup and update, and their laws.
- `fs.dfy`: the `fs` calls.
- `whitelist.dfy`: `guiPatterns` and the top-level selection.
- `build.dfy`: `copyDir`, the staging loop, the two drivers and `main`.
- `properties.dfy`: the guarantees, and a worked example.

In npm mode a missing package stops the run before `public/` is touched.
Local mode has no existence check: `public/` is wiped and recreated before
listing the missing directory throws
(`StagingProperties.LocalMissingAfterWipe`).

## Model

| member | source | states |
|---|---|---|
| Fs.FileSystem.Exists | build.js:25 | true exactly when a file or a directory is at the path |
| Fs.FileSystem.Rm | build.js:31-33 | the path no longer resolves and the rest of the tree is the old tree with that subtree removed |
| Fs.FileSystem.Mkdir | build.js:36 | afterwards a directory is at the path; an existing directory is left as it is, a missing one is created empty |
| Fs.FileSystem.CopyFile | build.js:46 | the destination (new or overwritten) holds the source's bytes and nothing else changes |
| Fs.FileSystem.ReadDir | build.js:39 | ENOENT for a missing path, ENOTDIR for a file, otherwise one entry per name with its directory flag |
| Fs.FileSystem.ReadDirRecursive | build.js:103 | the listing is exactly the set of relative paths that resolve below the directory, at every depth |
| Whitelist.GuiPatterns | build.js:74-83 | the eight `guiPatterns` in order: extensions `.html`, `.js`, `.css`, `.ico`, `.svg`, then directory names `assets`, `proto`, `protobuf` (the same list as build.js:121-130) |
| Whitelist.EndsWith | build.js:97 | `name.endsWith(ext)`: the suffix is no longer than the name and equals its last characters |
| Whitelist.Matches | build.js:92-97 | the `.some` callback for one pattern: a directory matches a `dir` pattern with its exact name, anything else matches a non-empty `ext` it ends with |
| Whitelist.AnyMatches | build.js:92-97 | `guiPatterns.some(...)`, scanning the list from the front |
| Whitelist.Wanted | build.js:90-100 | the per-entry decision of the staging loop: `some` over `guiPatterns` for the entry's name and directory flag |
| Whitelist.Stage | build.js:86-101 | the top-level entries the loop copies: those of the source listing that are wanted, each with its node unchanged |
| Whitelist.AnyMatchesIff | build.js:92 | `some` holds exactly when one pattern of the list matches the entry |
| Whitelist.WantedFileIff | build.js:95-99 | a non-directory passes the whitelist exactly when its name ends with `.html`, `.js`, `.css`, `.ico` or `.svg` |
| Whitelist.WantedDirIff | build.js:90-94 | a directory passes the whitelist exactly when its name is `assets`, `proto` or `protobuf` |
| Whitelist.StageFileIff | build.js:74-83 | a top-level file is in the staged selection exactly when it has a whitelisted extension, with its bytes unchanged |
| Whitelist.StageDirIff | build.js:74-83 | a top-level directory is in the staged selection exactly when its name is whitelisted, with its whole subtree |
| Whitelist.StageMirrorsBelow | build.js:90-94 | below a selected entry every path resolves exactly as in the source |
| Whitelist.StagedEntryPaths | build.js:86-101 | the staged tree's entries at every depth are exactly the source entries whose top-level ancestor passes the whitelist |
| Whitelist.StagedCountBound | build.js:103 | staging never yields more entries than the source holds |
| Build.PublicDest | build.js:19 | `path.join(scriptDir, 'public')`: the entry `public` directly inside the script's directory |
| Build.NpmGuiPath | build.js:59 | `path.join(scriptDir, 'node_modules', '@marineyachtradar', 'mayara-gui')`: three names below the script's directory, the first `node_modules` |
| Build.LocalGuiPath | build.js:111 | `path.join(scriptDir, '..', 'mayara-gui')`: `mayara-gui` beside the script's directory; `..` of the filesystem root is the root |
| Build.StageFrom | build.js:67-104 | a rebuild of `dest` from `src`: `dest` recreated empty, then ENOENT or ENOTDIR if `src` is missing or a file, else `dest` holds the staged selection and the count is its number of entries at every depth |
| Build.NpmStaging | build.js:61-104 | npm mode: the old filesystem and `GuiPackageNotFound` when the package is missing, otherwise `StageFrom` from the package into `public/` |
| Build.LocalStaging | build.js:114-150 | local mode: `StageFrom` from `../mayara-gui` into `public/`, with no existence check first |
| Build.CopyDir | build.js:24-49 | missing source: fails with the filesystem untouched; otherwise the destination is wiped and ends up an exact copy of the source directory at every depth |
| Build.Recreate | build.js:67-71 | afterwards the destination is an empty directory whatever was there before, and nothing else changes |
| Build.CopyWhitelisted | build.js:85-101 | a failed listing changes nothing; otherwise the recreated destination ends up holding exactly the whitelisted top-level entries of the source |
| Build.RebuildPublic | build.js:67-104 | the new filesystem and the logged count are those of `StageFrom`: `public/` rebuilt from the source, count taken from a recursive listing |
| Build.SetupGuiFromNpm | build.js:54-105 | follows `NpmStaging`: a missing package aborts before anything is written, otherwise `public/` is rebuilt from it |
| Build.SetupGuiFromLocal | build.js:110-152 | follows `LocalStaging`: `public/` is rebuilt from `../mayara-gui` with no prior existence check |
| Build.RunBuild | build.js:159-163 | `--local-gui` runs the local driver, otherwise the npm driver |
| Build.NpmSeparateFromPublic | build.js:59 | the installed package and `public/` never contain one another |
| StagingProperties.PublicIsExactlyStaged | build.js:67-101 | after a run, `public/` holds the filtered source and nothing else; the count is its number of entries |
| StagingProperties.RebuildForgetsOldPublic | build.js:67-71 | two runs over the same source leave the same `public/` and count, whatever `public/` held before |
| StagingProperties.StagingTouchesOnlyDest | build.js:67-101 | a run changes nothing outside `public/` |
| StagingProperties.PublicFileIff | build.js:95-99 | a top-level source file is in `public/`, same bytes, exactly when its name has a whitelisted extension |
| StagingProperties.PublicDirIff | build.js:90-94 | a top-level source directory is in `public/` exactly when its name is `assets`, `proto` or `protobuf` |
| StagingProperties.PublicMirrorsSource | build.js:38-48 | below a staged entry, `public/` answers every path at any depth exactly as the source does |
| StagingProperties.ReportedCountIsEntries | build.js:103 | the count is the number of paths that resolve below `public/` after the run, and at most the source's |
| StagingProperties.NpmMissingStopsEarly | build.js:61-65 | npm mode: a missing package aborts with the filesystem untouched |
| StagingProperties.LocalMissingAfterWipe | build.js:114-132 | local mode: a missing sibling leaves `public/` empty and aborts with ENOENT |
| StagingProperties.SameFilterBothModes | build.js:121-148 | for the same source tree, both modes leave the same `public/` and the same count |
| StagingProperties.ExampleStage | build.js:74-101 | `index.html`, `app.js`, `readme.md`, `assets/logo.svg`, `node_modules/` stages `index.html`, `app.js` and `assets/` |
| StagingProperties.ExampleCount | build.js:103 | the staged example counts 4 entries |
| StagingProperties.ExampleNpmRun | build.js:54-105 | an npm run over the example leaves exactly that `public/` and logs 4 |

## Left out

- Console messages are not modelled. `process.exit(1)` and uncaught `fs` exceptions become the `Failure` value of an `Outcome` or `Status`.
- Build.CopyDir: a missing source returns `Failed(SourceNotFound)` instead of exiting the process. At its call sites the source always exists, so that exit is never reached there.
- Argument parsing is not modelled: `--local-gui` is the boolean parameter of `Build.RunBuild`.
- `path.join` string building is not modelled. Paths are sequences of names, and `..` takes the parent.
- Fs.FileSystem.Mkdir: only the case where the parent directory already exists, as at every call site in `build.js`. Creating missing ancestors is not modelled.
- Fs.FileSystem.Rm: only called on a path that exists, as in `build.js`.
- Node `fs` details are not modelled: permissions, timestamps, symbolic links (every non-directory goes through `copyFileSync`), and I/O failures such as EACCES or ENOSPC. Every call succeeds except a listing of a missing path or of a file.
- The order of `readdirSync` results is not modelled. Listings are sets: names are distinct, so the result does not depend on order.
- The recursive listing's `.length` is the size of a set of relative paths. These paths are distinct, so nothing is lost.
- Build.CopyDir: requires that the source and destination do not overlap, as holds at every call.
- Build.SetupGuiFromLocal: requires `../mayara-gui` and `public/` not to contain one another. This fails only when the plugin directory itself is named `mayara-gui`, which the model does not cover.
- The `npm install` that places the GUI package in `node_modules/` is not modelled. It is an external precondition.
