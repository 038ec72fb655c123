/** The directory tree under a `FileSystemStorage`'s base path, and what the
    storage's `Read`, `Write`, `List` and `Exists` do to it
    (pkg/storage/filesystem.go). The tree maps the key of every file and
    directory to its node; the functions here are the specification the
    storage classes are proved against. */
module FileTree {
  import opened Common
  import opened Paths
  import opened Text

  datatype Node = File(data: Bytes, modTime: Time) | Dir(modTime: Time)

  type Tree = map<Key, Node>

  /** A tree in which every proper prefix of a stored key is a directory. */
  predicate Wf(t: Tree) {
    forall k, j | k in t && 0 <= j < |k| :: k[..j] in t && t[k[..j]].Dir?
  }

  /** Some directory on the way to `k` is a file (the operating system then
      answers "not a directory"). */
  predicate AncestorIsFile(t: Tree, k: Key) {
    exists j | 0 <= j < |k| :: k[..j] in t && t[k[..j]].File?
  }

  /** `getContentType`: the MIME type chosen by the path's last extension. */
  function ContentType(path: string): string {
    var ext := Ext(path);
    if ext == ".jar" then "application/java-archive"
    else if ext == ".pom" || ext == ".xml" then "application/xml"
    else if ext == ".sha1" || ext == ".md5" || ext == ".sha256" || ext == ".sha512" then "text/plain"
    else "application/octet-stream"
  }

  /** The headers a successful `Read` of `path` carries. */
  function ReadHeaders(path: string): Headers {
    map["Content-Type" := [ContentType(path)]]
  }

  /** `Read`: the file's bytes with status 200, or status 404 with the
      operating system's error. */
  function Read(t: Tree, path: string): Reply {
    var k := KeyOf(path);
    if k in t && t[k].File? then Hit(t[k].data, 200, ReadHeaders(path))
    else if k in t then Miss(404, IsADirectory)
    else if AncestorIsFile(t, k) then Miss(404, NotADirectory)
    else Miss(404, NoSuchFile)
  }

  /** `Exists`: `os.Stat` succeeds. */
  predicate Exists(t: Tree, path: string) {
    KeyOf(path) in t
  }

  function Ancestors(k: Key): set<Key> {
    set j | 0 <= j < |k| :: k[..j]
  }

  /** The directories `os.MkdirAll` adds on the way to `k`. */
  function NewDirs(t: Tree, k: Key, now: Time): Tree {
    map a | a in Ancestors(k) && a !in t :: Dir(now)
  }

  /** The error `Write` returns: `MkdirAll` fails on a file among the
      ancestors, `WriteFile` on a directory at the path itself. */
  function WriteOutcome(t: Tree, path: string): Outcome {
    var k := KeyOf(path);
    if AncestorIsFile(t, k) then Failed(NotADirectory)
    else if k in t && t[k].Dir? then Failed(IsADirectory)
    else Done
  }

  /** The tree after `Write(path, data)` at time `now`: missing ancestors
      become directories, then the file is created or overwritten. */
  function AfterWrite(t: Tree, path: string, data: Bytes, now: Time): Tree {
    var k := KeyOf(path);
    if AncestorIsFile(t, k) then t
    else
      var t1 := t + NewDirs(t, k, now);
      if k in t && t[k].Dir? then t1 else t1[k := File(data, now)]
  }

  /** The names directly below `k`. */
  function Children(t: Tree, k: Key): set<string> {
    set c | c in t && |c| == |k| + 1 && c[..|k|] == k :: c[|k|]
  }

  /** The listing entry of one node: name, size (0 for a directory), time
      and directory flag. */
  function Entry(name: string, n: Node): FileInfo {
    FileInfo(name, if n.File? then |n.data| else 0, n.modTime, n.Dir?)
  }

  function Entries(t: Tree, k: Key, names: seq<string>): (r: seq<FileInfo>)
    requires forall i :: 0 <= i < |names| ==> k + [names[i]] in t
    ensures |r| == |names|
  {
    seq(|names|, i requires 0 <= i < |names| => Entry(names[i], t[k + [names[i]]]))
  }

  lemma ChildrenAreKeys(t: Tree, k: Key)
    ensures forall n :: n in Children(t, k) <==> k + [n] in t
  {
    forall n
      ensures n in Children(t, k) <==> k + [n] in t
    {
      if k + [n] in t {
        var c := k + [n];
        assert |c| == |k| + 1 && c[..|k|] == k && c[|k|] == n;
      }
      if n in Children(t, k) {
        var c :| c in t && |c| == |k| + 1 && c[..|k|] == k && c[|k|] == n;
        assert c == k + [n];
      }
    }
  }

  /** `List`: one entry per child of the directory, in ascending name order
      (the order `ioutil.ReadDir` returns), or the error of reading something
      that is not a directory. */
  ghost function List(t: Tree, path: string): (r: Listing)
    ensures r.Listed? <==> KeyOf(path) in t && t[KeyOf(path)].Dir?
    ensures r.Listed? ==> StrictlyAscending(Names(r.entries))
    ensures r.Listed? ==> forall n :: n in Names(r.entries) <==> KeyOf(path) + [n] in t
    ensures r.Listed? ==> forall i :: 0 <= i < |r.entries| ==>
      KeyOf(path) + [r.entries[i].name] in t &&
      r.entries[i] == Entry(r.entries[i].name, t[KeyOf(path) + [r.entries[i].name]])
  {
    var k := KeyOf(path);
    if k in t && t[k].Dir? then
      ChildrenAreKeys(t, k);
      var names := SortedSeq(Children(t, k));
      var entries := Entries(t, k, names);
      assert Names(entries) == names;
      Listed(entries)
    else if k in t || AncestorIsFile(t, k) then ListFailed(NotADirectory)
    else ListFailed(NoSuchFile)
  }

  // ---------------------------------------------------------------------
  // What a write does

  /** A successful write is read back: the bytes, status 200 and the content
      type of the path read. */
  lemma WriteThenRead(t: Tree, p: string, q: string, data: Bytes, now: Time)
    requires WriteOutcome(t, p) == Done
    requires KeyOf(q) == KeyOf(p)
    ensures Read(AfterWrite(t, p, data, now), q) == Hit(data, 200, ReadHeaders(q))
  {
    var k := KeyOf(p);
    var t' := AfterWrite(t, p, data, now);
    assert t' == (t + NewDirs(t, k, now))[k := File(data, now)];
    assert k in t' && t'[k] == File(data, now);
  }

  /** A write touches only the written key and its ancestors: every other key
      keeps its presence and its node. */
  lemma WriteFrame(t: Tree, p: string, data: Bytes, now: Time, other: Key)
    requires !(other <= KeyOf(p))
    ensures other in AfterWrite(t, p, data, now) <==> other in t
    ensures other in t ==> AfterWrite(t, p, data, now)[other] == t[other]
  {
  }

  /** A write that fails changes nothing. */
  lemma WriteFailureKeepsTree(t: Tree, p: string, data: Bytes, now: Time)
    requires Wf(t)
    requires WriteOutcome(t, p).Failed?
    ensures AfterWrite(t, p, data, now) == t
  {
    var k := KeyOf(p);
    if !AncestorIsFile(t, k) {
      assert k in t && t[k].Dir?;
      assert NewDirs(t, k, now) == map[] by {
        forall a | a in Ancestors(k) ensures a in t {
          var j :| 0 <= j < |k| && a == k[..j];
        }
      }
      assert t + map[] == t;
    }
  }

  /** After a successful write every ancestor directory of the path exists,
      and the path is a file. */
  lemma WriteCreatesAncestors(t: Tree, p: string, data: Bytes, now: Time)
    requires WriteOutcome(t, p) == Done
    ensures var k, t' := KeyOf(p), AfterWrite(t, p, data, now);
      k in t' && t'[k] == File(data, now) &&
      forall j :: 0 <= j < |k| ==> k[..j] in t' && t'[k[..j]].Dir?
  {
    var k, t' := KeyOf(p), AfterWrite(t, p, data, now);
    forall j | 0 <= j < |k|
      ensures k[..j] in t' && t'[k[..j]].Dir?
    {
      assert k[..j] in Ancestors(k);
      assert k[..j] != k;
    }
  }

  /** A write keeps the tree well formed. */
  lemma WriteKeepsWf(t: Tree, p: string, data: Bytes, now: Time)
    requires Wf(t)
    ensures Wf(AfterWrite(t, p, data, now))
  {
    var k := KeyOf(p);
    var t' := AfterWrite(t, p, data, now);
    if WriteOutcome(t, p) == Done {
      WriteCreatesAncestors(t, p, data, now);
      forall c, j | c in t' && 0 <= j < |c|
        ensures c[..j] in t' && t'[c[..j]].Dir?
      {
        if c in t {
          assert c[..j] in t && t[c[..j]].Dir?;
          if c[..j] == k {
            assert false;
          }
          assert c[..j] !in NewDirs(t, k, now);
        } else if c == k {
          assert c[..j] == k[..j];
        } else {
          assert c in Ancestors(k);
          var i :| 0 <= i < |k| && c == k[..i];
          assert c[..j] == k[..j];
        }
      }
    } else {
      WriteFailureKeepsTree(t, p, data, now);
    }
  }

  // ---------------------------------------------------------------------
  // Content types

  /** An archive is served as `application/java-archive`. */
  lemma ArchiveContentType(s: string)
    ensures ContentType(s + ".jar") == "application/java-archive"
  {
    ExtOfSuffix(s, ".jar");
  }

  /** A descriptor or any XML file is served as `application/xml`. */
  lemma XmlContentType(s: string)
    ensures ContentType(s + ".pom") == "application/xml"
    ensures ContentType(s + ".xml") == "application/xml"
  {
    ExtOfSuffix(s, ".pom");
    ExtOfSuffix(s, ".xml");
  }

  /** Checksum files are served as `text/plain`. */
  lemma ChecksumContentType(s: string, ext: string)
    requires ext == ".sha1" || ext == ".md5" || ext == ".sha256" || ext == ".sha512"
    ensures ContentType(s + ext) == "text/plain"
  {
    ExtOfSuffix(s, ext);
    ChecksumExt(s + ext);
  }

  /** Any path whose extension is a checksum extension is `text/plain`. */
  lemma ChecksumExt(path: string)
    requires var ext := Ext(path); ext == ".sha1" || ext == ".md5" || ext == ".sha256" || ext == ".sha512"
    ensures ContentType(path) == "text/plain"
  {
  }

  lemma {:induction false} NoExtension(dir: string, name: string)
    requires '.' !in name && '/' !in name
    ensures Ext(dir + "/" + name) == ""
    decreases |name|
  {
    var p := dir + "/" + name;
    if name != [] {
      assert p[..|p| - 1] == dir + "/" + name[..|name| - 1];
      assert p[|p| - 1] == name[|name| - 1];
      NoExtension(dir, name[..|name| - 1]);
    }
  }

  /** A last element without a dot is served as a generic byte stream. */
  lemma ContentTypeWithoutExtension(dir: string, name: string)
    requires '.' !in name && '/' !in name
    ensures ContentType(dir + "/" + name) == "application/octet-stream"
  {
    NoExtension(dir, name);
  }
}
