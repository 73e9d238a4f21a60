/**
 * The handful of Node `fs` calls the staging step of build.js relies on,
 * as operations of one mutable filesystem object. Each call is atomic and
 * exact: file bytes are copied unchanged, and permissions, timestamps and
 * symbolic links do not exist in this model.
 */
module Fs {
  import opened Tree

  /** The two error codes a directory read can raise here: ENOENT and ENOTDIR. */
  datatype FsError = NoEntry | NotADirectory

  datatype Result<T> = Ok(value: T) | Err(error: FsError)

  /** One entry of a `readdirSync(..., { withFileTypes: true })` listing. */
  datatype Dirent = Dirent(name: string, isDirectory: bool)

  /** The listing of a directory whose entries are `m`: one record per name. */
  function Listing(m: map<string, Node>): set<Dirent> {
    set k | k in m :: Dirent(k, m[k].Dir?)
  }

  class FileSystem {
    var root: Node

    constructor (root: Node)
      ensures this.root == root
    {
      this.root := root;
    }

    /** `existsSync(p)`: true for a file or a directory. */
    method Exists(p: Path) returns (b: bool)
      ensures b <==> Lookup(root, p).Some?
    {
      b := Lookup(root, p).Some?;
    }

    /** `rmSync(p, { recursive: true })`: build.js only calls it on a path it has just seen exist. */
    method Rm(p: Path)
      requires p != [] && Lookup(root, p).Some?
      modifies this
      ensures root == Remove(old(root), p)
      ensures Lookup(root, p) == None
    {
      LookupRemoveSame(root, p, []);
      assert p + [] == p;
      root := Remove(root, p);
    }

    /**
     * `mkdirSync(p, { recursive: true })` where the parent of `p` is already a
     * directory: an existing directory is left as it is, a missing one is
     * created empty.
     */
    method Mkdir(p: Path)
      requires p != [] && IsDirAt(root, Parent(p)) && !IsFileAt(root, p)
      modifies this
      ensures IsDirAt(old(root), p) ==> root == old(root)
      ensures !IsDirAt(old(root), p) ==> root == Put(old(root), p, Dir(map[]))
      ensures IsDirAt(root, p)
    {
      if !IsDirAt(root, p) {
        LookupPutSame(root, p, Dir(map[]), []);
        assert p + [] == p;
        root := Put(root, p, Dir(map[]));
      }
    }

    /** `copyFileSync(src, dst)`: the file at `dst` (new or overwritten) gets the bytes of `src`. */
    method CopyFile(src: Path, dst: Path)
      requires IsFileAt(root, src)
      requires dst != [] && IsDirAt(root, Parent(dst)) && !IsDirAt(root, dst)
      modifies this
      ensures root == Put(old(root), dst, Lookup(old(root), src).value)
    {
      root := Put(root, dst, Lookup(root, src).value);
    }

    /** `readdirSync(p, { withFileTypes: true })`: the immediate entries of a directory. */
    method ReadDir(p: Path) returns (r: Result<set<Dirent>>)
      ensures Lookup(root, p) == None ==> r == Err(NoEntry)
      ensures IsFileAt(root, p) ==> r == Err(NotADirectory)
      ensures IsDirAt(root, p) ==> r == Ok(Listing(Lookup(root, p).value.entries))
    {
      match Lookup(root, p)
      case None => r := Err(NoEntry);
      case Some(File(_)) => r := Err(NotADirectory);
      case Some(Dir(m)) => r := Ok(Listing(m));
    }

    /** `readdirSync(p, { recursive: true })`: the relative paths of all entries at every depth. */
    method ReadDirRecursive(p: Path) returns (r: Result<set<Path>>)
      ensures Lookup(root, p) == None ==> r == Err(NoEntry)
      ensures IsFileAt(root, p) ==> r == Err(NotADirectory)
      ensures IsDirAt(root, p) ==> r == Ok(EntryPaths(Lookup(root, p).value))
      ensures IsDirAt(root, p) ==> forall q :: q in r.value <==> q != [] && Lookup(root, p + q).Some?
    {
      match Lookup(root, p)
      case None => r := Err(NoEntry);
      case Some(File(_)) => r := Err(NotADirectory);
      case Some(Dir(m)) =>
        r := Ok(EntryPaths(Dir(m)));
        forall q ensures q in r.value <==> q != [] && Lookup(root, p + q).Some? {
          EntryPathsResolve(Dir(m), q);
          LookupAppend(root, p, q);
        }
    }
  }
}
