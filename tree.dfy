/**
 * An in-memory directory tree standing in for the part of the disk that the
 * GUI staging step of build.js reads and writes. A path is the list of entry
 * names below the filesystem root; a node is a regular file with opaque bytes
 * or a directory mapping each entry name to its node (names are unique within
 * a directory, which is why a map models a directory listing faithfully).
 */
module Tree {

  datatype Option<T> = None | Some(value: T)

  datatype Node = File(data: seq<bv8>) | Dir(entries: map<string, Node>)

  type Path = seq<string>

  /** The node found by walking `p` down from `n`, if every step exists. */
  function Lookup(n: Node, p: Path): Option<Node>
    decreases |p|
  {
    if p == [] then Some(n)
    else match n
      case File(_) => None
      case Dir(m) => if p[0] in m then Lookup(m[p[0]], p[1..]) else None
  }

  predicate IsDirAt(n: Node, p: Path) {
    Lookup(n, p).Some? && Lookup(n, p).value.Dir?
  }

  predicate IsFileAt(n: Node, p: Path) {
    Lookup(n, p).Some? && Lookup(n, p).value.File?
  }

  /** The directory that holds the entry `p`. */
  function Parent(p: Path): Path
    requires p != []
  {
    p[..|p| - 1]
  }

  predicate IsPrefix(a: Path, b: Path) {
    |a| <= |b| && b[..|a|] == a
  }

  /** Neither path lies inside the other: writing below one leaves the other alone. */
  predicate Separate(a: Path, b: Path) {
    !IsPrefix(a, b) && !IsPrefix(b, a)
  }

  /**
   * The tree with the entry at `p` set to `v` (created or replaced). When the
   * parent of `p` is not an existing directory nothing changes; every caller
   * in this model establishes that parent first.
   */
  function Put(n: Node, p: Path, v: Node): Node
    decreases |p|
  {
    if p == [] then v
    else match n
      case File(_) => n
      case Dir(m) =>
        if |p| == 1 then Dir(m[p[0] := v])
        else if p[0] in m then Dir(m[p[0] := Put(m[p[0]], p[1..], v)])
        else n
  }

  /** The tree with the entry at `p`, and everything below it, deleted. */
  function Remove(n: Node, p: Path): Node
    requires p != []
    decreases |p|
  {
    match n
    case File(_) => n
    case Dir(m) =>
      if |p| == 1 then Dir(m - {p[0]})
      else if p[0] in m then Dir(m[p[0] := Remove(m[p[0]], p[1..])])
      else n
  }

  /**
   * Every entry below `n`, files and directories at every depth, each given by
   * its path relative to `n`.
   */
  function EntryPaths(n: Node): set<Path>
    decreases n
  {
    match n
    case File(_) => {}
    case Dir(m) =>
      (set k | k in m :: [k]) + (set k, q | k in m && q in EntryPaths(m[k]) :: [k] + q)
  }

  // ---------------------------------------------------------------------------
  // Lemmas

  /** Walking `p + q` is walking `p`, then `q` from where `p` ends. */
  lemma {:induction false} LookupAppend(n: Node, p: Path, q: Path)
    ensures Lookup(n, p + q) == if Lookup(n, p).Some? then Lookup(Lookup(n, p).value, q) else None
    decreases |p|
  {
    if p == [] {
      assert p + q == q;
    } else {
      assert (p + q)[0] == p[0] && (p + q)[1..] == p[1..] + q;
      if n.Dir? && p[0] in n.entries {
        LookupAppend(n.entries[p[0]], p[1..], q);
      }
    }
  }

  /** Reading back what was put: below `p` the tree is exactly `v`, whatever was there before. */
  lemma {:induction false} LookupPutSame(n: Node, p: Path, v: Node, q: Path)
    requires p != [] && IsDirAt(n, Parent(p))
    ensures Lookup(Put(n, p, v), p + q) == Lookup(v, q)
    decreases |p|
  {
    var m := n.entries;
    assert (p + q)[0] == p[0] && (p + q)[1..] == p[1..] + q;
    if |p| == 1 {
      assert p[1..] + q == q;
    } else {
      assert Lookup(n, Parent(p)) == Lookup(m[p[0]], Parent(p)[1..]);
      assert Parent(p)[1..] == Parent(p[1..]);
      LookupPutSame(m[p[0]], p[1..], v, q);
    }
  }

  /** Putting at `p` leaves every path separate from `p` as it was. */
  lemma {:induction false} LookupPutOther(n: Node, p: Path, v: Node, q: Path)
    requires Separate(p, q)
    ensures Lookup(Put(n, p, v), q) == Lookup(n, q)
    decreases |p|
  {
    if n.Dir? && p[0] == q[0] {
      PrefixCons(p, q);
      PrefixCons(q, p);
      if p[0] in n.entries {
        LookupPutOther(n.entries[p[0]], p[1..], v, q[1..]);
      }
    }
  }

  /** After a removal nothing at or below `p` can be found. */
  lemma {:induction false} LookupRemoveSame(n: Node, p: Path, q: Path)
    requires p != []
    ensures Lookup(Remove(n, p), p + q) == None
    decreases |p|
  {
    assert (p + q)[0] == p[0] && (p + q)[1..] == p[1..] + q;
    if n.Dir? && |p| > 1 && p[0] in n.entries {
      LookupRemoveSame(n.entries[p[0]], p[1..], q);
    }
  }

  /** Removing at `p` leaves every path separate from `p` as it was. */
  lemma {:induction false} LookupRemoveOther(n: Node, p: Path, q: Path)
    requires p != [] && Separate(p, q)
    ensures Lookup(Remove(n, p), q) == Lookup(n, q)
    decreases |p|
  {
    if n.Dir? && p[0] == q[0] {
      PrefixCons(p, q);
      PrefixCons(q, p);
      if p[0] in n.entries {
        LookupRemoveOther(n.entries[p[0]], p[1..], q[1..]);
      }
    }
  }

  /** Removing an entry keeps the directory that held it. */
  lemma {:induction false} RemoveKeepsParent(n: Node, p: Path)
    requires p != [] && IsDirAt(n, Parent(p))
    ensures IsDirAt(Remove(n, p), Parent(p))
    decreases |p|
  {
    if |p| > 1 {
      var m := n.entries;
      assert Lookup(n, Parent(p)) == Lookup(m[p[0]], Parent(p)[1..]);
      assert Parent(p)[1..] == Parent(p[1..]);
      RemoveKeepsParent(m[p[0]], p[1..]);
      assert Lookup(Remove(n, p), Parent(p)) == Lookup(Remove(m[p[0]], p[1..]), Parent(p[1..]));
    }
  }

  /** Putting an entry keeps the directory that holds it. */
  lemma {:induction false} PutKeepsParent(n: Node, p: Path, v: Node)
    requires p != [] && IsDirAt(n, Parent(p))
    ensures IsDirAt(Put(n, p, v), Parent(p))
    decreases |p|
  {
    if |p| > 1 {
      var m := n.entries;
      assert Lookup(n, Parent(p)) == Lookup(m[p[0]], Parent(p)[1..]);
      assert Parent(p)[1..] == Parent(p[1..]);
      PutKeepsParent(m[p[0]], p[1..], v);
      assert Lookup(Put(n, p, v), Parent(p)) == Lookup(Put(m[p[0]], p[1..], v), Parent(p[1..]));
    }
  }

  /** Writing after a removal at the same path is the same as overwriting. */
  lemma {:induction false} PutAfterRemove(n: Node, p: Path, v: Node)
    requires p != []
    ensures Put(Remove(n, p), p, v) == Put(n, p, v)
    decreases |p|
  {
    if n.Dir? && |p| > 1 && p[0] in n.entries {
      PutAfterRemove(n.entries[p[0]], p[1..], v);
      var m := n.entries;
      assert Remove(n, p).entries[p[0]] == Remove(m[p[0]], p[1..]);
    } else if n.Dir? && |p| == 1 {
      assert n.entries - {p[0]} + map[p[0] := v] == n.entries[p[0] := v];
    }
  }

  /** Putting back what is already there changes nothing. */
  lemma {:induction false} PutUnchanged(n: Node, p: Path, v: Node)
    requires Lookup(n, p) == Some(v)
    ensures Put(n, p, v) == n
    decreases |p|
  {
    if p != [] {
      var m := n.entries;
      if |p| == 1 {
        assert m[p[0] := v] == m;
      } else {
        PutUnchanged(m[p[0]], p[1..], v);
        assert m[p[0] := m[p[0]]] == m;
      }
    }
  }

  /** A second put at the same path overwrites the first. */
  lemma {:induction false} PutPut(n: Node, p: Path, v: Node, w: Node)
    ensures Put(Put(n, p, v), p, w) == Put(n, p, w)
    decreases |p|
  {
    if p != [] && n.Dir? && |p| > 1 && p[0] in n.entries {
      PutPut(n.entries[p[0]], p[1..], v, w);
    }
  }

  /** Putting one more child into a directory that was just put. */
  lemma {:induction false} PutChild(n: Node, d: Path, kids: map<string, Node>, k: string, v: Node)
    requires d != [] && IsDirAt(n, Parent(d))
    ensures Put(Put(n, d, Dir(kids)), d + [k], v) == Put(n, d, Dir(kids[k := v]))
    decreases |d|
  {
    var m := n.entries;
    assert (d + [k])[0] == d[0] && (d + [k])[1..] == d[1..] + [k];
    if |d| > 1 {
      assert Lookup(n, Parent(d)) == Lookup(m[d[0]], Parent(d)[1..]);
      assert Parent(d)[1..] == Parent(d[1..]);
      PutChild(m[d[0]], d[1..], kids, k, v);
    }
  }

  /** Two paths that start with the same name are nested exactly when their tails are. */
  lemma PrefixCons(a: Path, b: Path)
    requires a != [] && b != [] && a[0] == b[0]
    ensures IsPrefix(a, b) <==> IsPrefix(a[1..], b[1..])
  {
    if |a| <= |b| {
      assert b[..|a|] == [b[0]] + b[1..][..|a| - 1];
    }
  }

  /** A path extended by a name is nested in another extended by it only if the originals are nested. */
  lemma PrefixSnoc(a: Path, b: Path, k: string)
    ensures IsPrefix(a + [k], b + [k]) ==> IsPrefix(a, b)
  {
    if IsPrefix(a + [k], b + [k]) {
      assert (b + [k])[..|a|] == b[..|a|];
    }
  }

  /** A path extended by a name lies inside another only if the original does. */
  lemma PrefixExtend(a: Path, b: Path, k: string)
    ensures IsPrefix(a + [k], b) ==> IsPrefix(a, b)
    ensures IsPrefix(b, a + [k]) ==> IsPrefix(b, a) || IsPrefix(a, b)
  {
    if IsPrefix(a + [k], b) {
      assert b[..|a|] == b[..|a| + 1][..|a|];
    }
    if IsPrefix(b, a + [k]) {
      if |b| <= |a| {
        assert (a + [k])[..|b|] == a[..|b|];
      } else {
        assert b[..|a|] == (a + [k])[..|a|];
      }
    }
  }

  /** Descending one level inside `a` stays separate from `b`. */
  lemma SeparateDescend(a: Path, b: Path, k: string)
    requires Separate(a, b)
    ensures Separate(a + [k], b) && Separate(b, a + [k])
  {
    PrefixExtend(a, b, k);
  }

  /** Extending two separate paths by the same name keeps them separate. */
  lemma SeparateExtend(a: Path, b: Path, k: string)
    requires Separate(a, b)
    ensures Separate(a + [k], b + [k])
  {
    PrefixSnoc(a, b, k);
    PrefixSnoc(b, a, k);
  }

  lemma SubsetCardinality<T>(a: set<T>, b: set<T>)
    requires a <= b
    ensures |a| <= |b|
  {
    assert b == a + (b - a);
  }

  /**
   * The entries counted by EntryPaths are exactly the non-empty paths that
   * resolve below `n`.
   */
  lemma {:induction false} EntryPathsResolve(n: Node, p: Path)
    ensures p in EntryPaths(n) <==> p != [] && Lookup(n, p).Some?
    decreases |p|
  {
    if p != [] && n.Dir? {
      var m := n.entries;
      if p[0] in m {
        EntryPathsResolve(m[p[0]], p[1..]);
        assert p == [p[0]] + p[1..];
        if |p| == 1 {
          assert p == [p[0]];
        } else {
          assert Lookup(m[p[0]], p[1..]).Some? ==> p in EntryPaths(n);
        }
      }
      if p in (set k | k in m :: [k]) {
        var k :| k in m && p == [k];
        assert p[0] == k;
      } else if p in EntryPaths(n) {
        var k, q :| k in m && q in EntryPaths(m[k]) && p == [k] + q;
        assert p[0] == k && p[1..] == q;
      }
    }
  }
}
