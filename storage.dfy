/** The storage implementations: `FileSystemStorage`
    (pkg/storage/filesystem.go), whose file tree is the only mutable state of
    the core, and the `PrefixedStorage` decorator (pkg/storage/prefixed.go)
    that gives each repository its own sub-directory of one shared base. */
module Storage {
  import opened Common
  import opened Paths
  import opened Text
  import opened FileTree

  class FileSystemStorage {
    /** The directory the tree hangs from; keys are relative to it. */
    const basePath: string
    /** The files and directories under `basePath`. */
    var tree: Tree

    ghost predicate Valid()
      reads this
    {
      Wf(tree)
    }

    /** `NewFileSystemStorage(basePath)` over whatever the disk already holds. */
    constructor (basePath: string, existing: Tree)
      requires Wf(existing)
      ensures Valid()
      ensures this.basePath == basePath && tree == existing
    {
      this.basePath := basePath;
      tree := existing;
    }

    /** `Read`: the stored bytes with status 200 and the path's content type,
        or status 404 when the path is not a file. */
    method Read(path: string) returns (r: Reply)
      ensures r == FileTree.Read(tree, path)
      ensures r.Hit? <==> KeyOf(path) in tree && tree[KeyOf(path)].File?
      ensures r.Hit? ==> r.data == tree[KeyOf(path)].data && r.status == 200
      ensures r.Hit? ==> r.headers == map["Content-Type" := [ContentType(path)]]
      ensures r.Miss? ==> r.status == 404
    {
      var k := KeyOf(path);
      if k in tree && tree[k].File? {
        r := Hit(tree[k].data, 200, ReadHeaders(path));
      } else if k in tree {
        r := Miss(404, IsADirectory);
      } else if AncestorIsFile(tree, k) {
        r := Miss(404, NotADirectory);
      } else {
        r := Miss(404, NoSuchFile);
      }
    }

    /** `Write`: `os.MkdirAll` on the parent, then `ioutil.WriteFile`, which
        overwrites unconditionally. */
    method Write(path: string, data: Bytes, now: Time) returns (o: Outcome)
      requires Valid()
      modifies this
      ensures Valid()
      ensures o == WriteOutcome(old(tree), path)
      ensures tree == AfterWrite(old(tree), path, data, now)
    {
      WriteKeepsWf(tree, path, data, now);
      var k := KeyOf(path);
      if AncestorIsFile(tree, k) {
        return Failed(NotADirectory);
      }
      var existed := k in tree && tree[k].Dir?;
      tree := tree + NewDirs(tree, k, now);
      if existed {
        return Failed(IsADirectory);
      }
      tree := tree[k := File(data, now)];
      o := Done;
    }

    /** `List`: the directory's entries, one per child, in the ascending name
        order `ioutil.ReadDir` produces; an error when the path is not a
        readable directory. */
    method List(path: string) returns (r: Listing)
      ensures r == FileTree.List(tree, path)
    {
      var k := KeyOf(path);
      if !(k in tree && tree[k].Dir?) {
        if k in tree || AncestorIsFile(tree, k) {
          return ListFailed(NotADirectory);
        }
        return ListFailed(NoSuchFile);
      }
      ChildrenAreKeys(tree, k);
      var names := SortNames(Children(tree, k));
      assert forall i :: 0 <= i < |names| ==> k + [names[i]] in tree;
      var fileInfos: seq<FileInfo> := [];
      for i := 0 to |names|
        invariant |fileInfos| == i
        invariant forall j :: 0 <= j < i ==> fileInfos[j] == Entry(names[j], tree[k + [names[j]]])
      {
        fileInfos := fileInfos + [Entry(names[i], tree[k + [names[i]]])];
      }
      assert fileInfos == Entries(tree, k, names);
      r := Listed(fileInfos);
    }

    /** `Exists`: the path names a file or a directory. */
    method Exists(path: string) returns (b: bool)
      ensures b <==> KeyOf(path) in tree
      ensures b == FileTree.Exists(tree, path)
    {
      b := KeyOf(path) in tree;
    }
  }

  /** `PrefixedStorage`: every path is rewritten to `Join(prefix, path)`
      before the base storage sees it. */
  class PrefixedStorage {
    const base: FileSystemStorage
    const prefix: string

    constructor (base: FileSystemStorage, prefix: string)
      ensures this.base == base && this.prefix == prefix
    {
      this.base := base;
      this.prefix := prefix;
    }

    method Read(path: string) returns (r: Reply)
      ensures r == FileTree.Read(base.tree, Join(prefix, path))
    {
      r := base.Read(Join(prefix, path));
    }

    method Write(path: string, data: Bytes, now: Time) returns (o: Outcome)
      requires base.Valid()
      modifies base
      ensures base.Valid()
      ensures o == WriteOutcome(old(base.tree), Join(prefix, path))
      ensures base.tree == AfterWrite(old(base.tree), Join(prefix, path), data, now)
    {
      o := base.Write(Join(prefix, path), data, now);
    }

    method List(path: string) returns (r: Listing)
      ensures r == FileTree.List(base.tree, Join(prefix, path))
    {
      r := base.List(Join(prefix, path));
    }

    method Exists(path: string) returns (b: bool)
      ensures b == FileTree.Exists(base.tree, Join(prefix, path))
    {
      b := base.Exists(Join(prefix, path));
    }
  }

  // ---------------------------------------------------------------------
  // What the prefix guarantees

  /** Writing through a prefix and reading back through it returns the data. */
  lemma PrefixedRoundTrip(t: Tree, prefix: string, p: string, data: Bytes, now: Time)
    requires WriteOutcome(t, Join(prefix, p)) == Done
    ensures FileTree.Read(AfterWrite(t, Join(prefix, p), data, now), Join(prefix, p))
         == Hit(data, 200, ReadHeaders(Join(prefix, p)))
  {
    WriteThenRead(t, Join(prefix, p), Join(prefix, p), data, now);
  }

  /** Apart from the written key, a write creates directories and nothing
      else, and no file appears or disappears. */
  lemma WriteKeepsFiles(t: Tree, p: string, data: Bytes, now: Time, x: Key)
    requires x != KeyOf(p)
    ensures (x in AfterWrite(t, p, data, now) && AfterWrite(t, p, data, now)[x].File?)
        <==> (x in t && t[x].File?)
    ensures x in t ==> x in AfterWrite(t, p, data, now) && AfterWrite(t, p, data, now)[x] == t[x]
  {
  }

  /** For a path without ".." segments, a prefixed write leaves every existing
      key outside the prefix as it was, and adds outside the prefix only the
      directories leading to it. */
  lemma PrefixedWriteStaysUnder(t: Tree, prefix: string, p: string, data: Bytes, now: Time, other: Key)
    requires ".." !in Split(p)
    requires !(KeyOf(prefix) <= other)
    ensures var t' := AfterWrite(t, Join(prefix, p), data, now);
      (other in t ==> other in t' && t'[other] == t[other]) &&
      (other !in t && other in t' ==> other < KeyOf(prefix) && t'[other].Dir?)
  {
    var k := KeyOf(Join(prefix, p));
    JoinStaysUnder(prefix, p);
    assert other != k;
    WriteKeepsFiles(t, Join(prefix, p), data, now, other);
    var t' := AfterWrite(t, Join(prefix, p), data, now);
    if other !in t && other in t' {
      if !(other <= k) {
        WriteFrame(t, Join(prefix, p), data, now, other);
      }
      PrefixesComparable(other, KeyOf(prefix), k);
    }
  }

  /** Two prefixes of one key are prefixes of each other. */
  lemma PrefixesComparable(x: Key, y: Key, k: Key)
    ensures x <= k && y <= k ==> x <= y || y <= x
  {
    if x <= k && y <= k {
      if |x| <= |y| {
        assert x == k[..|x|] == y[..|x|];
      } else {
        assert y == k[..|y|] == x[..|y|];
      }
    }
  }

  /** Neither key lies under the other. */
  predicate Apart(a: Key, b: Key) {
    !(a <= b) && !(b <= a)
  }

  lemma ApartExtensions(a: Key, b: Key, x: Key, y: Key)
    requires Apart(a, b) && a <= x && b <= y
    ensures !(x <= y) && !(y <= x)
  {
    PrefixesComparable(a, b, x);
    PrefixesComparable(a, b, y);
  }

  /** Two prefixed storages over one base whose prefixes are apart do not see
      each other's writes: after a write through the first, reading, listing
      and probing through the second give what they gave before (for paths
      without ".." segments). */
  lemma PrefixIsolation(t: Tree, prefix1: string, p: string, data: Bytes, now: Time, prefix2: string, q: string)
    requires Apart(KeyOf(prefix1), KeyOf(prefix2))
    requires ".." !in Split(p) && ".." !in Split(q)
    ensures var t' := AfterWrite(t, Join(prefix1, p), data, now);
      && FileTree.Read(t', Join(prefix2, q)) == FileTree.Read(t, Join(prefix2, q))
      && FileTree.Exists(t', Join(prefix2, q)) == FileTree.Exists(t, Join(prefix2, q))
      && FileTree.List(t', Join(prefix2, q)) == FileTree.List(t, Join(prefix2, q))
  {
    var w := Join(prefix1, p);
    var key := KeyOf(Join(prefix2, q));
    JoinStaysUnder(prefix1, p);
    JoinStaysUnder(prefix2, q);
    SubtreeKept(t, w, data, now, KeyOf(prefix1), KeyOf(prefix2), key);
    var t' := AfterWrite(t, w, data, now);
    ChildrenAreKeys(t, key);
    ChildrenAreKeys(t', key);
    assert Children(t', key) == Children(t, key);
    if key in t && t[key].Dir? {
      var names := SortedSeq(Children(t, key));
      assert Entries(t', key, names) == Entries(t, key, names);
    }
  }

  /** A write under one prefix keeps, at a key under a prefix apart from it,
      the key's node, its children's nodes and whether an ancestor is a file. */
  lemma SubtreeKept(t: Tree, w: string, data: Bytes, now: Time, a: Key, b: Key, key: Key)
    requires Apart(a, b) && a <= KeyOf(w) && b <= key
    ensures var t' := AfterWrite(t, w, data, now);
      && (key in t' <==> key in t)
      && (key in t ==> t'[key] == t[key])
      && AncestorIsFile(t', key) == AncestorIsFile(t, key)
      && (forall n :: key + [n] in t' <==> key + [n] in t)
      && (forall n :: key + [n] in t ==> t'[key + [n]] == t[key + [n]])
  {
    var t' := AfterWrite(t, w, data, now);
    var k := KeyOf(w);
    ApartExtensions(a, b, k, key);
    WriteFrame(t, w, data, now, key);
    // The ancestors of `key` keep their files.
    forall j | 0 <= j < |key|
      ensures (key[..j] in t' && t'[key[..j]].File?) <==> (key[..j] in t && t[key[..j]].File?)
    {
      assert key[..j] <= key;
      WriteKeepsFiles(t, w, data, now, key[..j]);
    }
    // The children of `key` keep their nodes.
    forall n
      ensures (key + [n] in t' <==> key + [n] in t)
      ensures key + [n] in t ==> t'[key + [n]] == t[key + [n]]
    {
      assert b <= key + [n];
      ApartExtensions(a, b, k, key + [n]);
      WriteFrame(t, w, data, now, key + [n]);
    }
  }
}
