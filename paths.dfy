/** Slash-separated paths as `path/filepath` treats them on a Unix system:
    splitting into segments, `filepath.Clean`, `filepath.Join` and
    `filepath.Ext`. Storage is addressed by the cleaned segments of a path
    (its key), taken relative to the storage's base directory. */
module Paths {

  /** The cleaned segments of a path. */
  type Key = seq<string>

  /** The segments between slashes, empty ones included:
      "/a//b" gives ["", "a", "", "b"]. */
  function Split(s: string): (r: seq<string>)
    ensures |r| >= 1
    ensures forall i :: 0 <= i < |r| ==> '/' !in r[i]
  {
    if s == [] then [""]
    else
      var rest := Split(s[1..]);
      if s[0] == '/' then [""] + rest
      else [[s[0]] + rest[0]] + rest[1..]
  }

  /** `filepath.Clean` on segments, left to right: "" and "." vanish; ".."
      removes the segment before it, or stays when only ".." segments (or
      none) precede it. The result is relative to the storage's base
      directory, so a path that climbs above it keeps its leading "..". */
  function Resolve(acc: Key, segs: seq<string>): Key
    decreases |segs|
  {
    if segs == [] then acc
    else
      var s := segs[0];
      if s == "" || s == "." then Resolve(acc, segs[1..])
      else if s == ".." then
        if |acc| > 0 && acc[|acc| - 1] != ".." then Resolve(acc[..|acc| - 1], segs[1..])
        else Resolve(acc + [".."], segs[1..])
      else Resolve(acc + [s], segs[1..])
  }

  function Clean(segs: seq<string>): Key {
    Resolve([], segs)
  }

  /** The key under which storage files the path. */
  function KeyOf(path: string): Key {
    Clean(Split(path))
  }

  /** A cleaned key: no empty or "." segment, no slash inside a segment, and
      ".." only in a leading run. */
  predicate IsClean(k: Key) {
    forall i :: 0 <= i < |k| ==>
      k[i] != "" && k[i] != "." && '/' !in k[i] && (k[i] == ".." ==> forall j :: 0 <= j < i ==> k[j] == "..")
  }

  /** The segments joined by slashes. */
  function Render(k: Key): string
    decreases |k|
  {
    if k == [] then ""
    else if |k| == 1 then k[0]
    else k[0] + "/" + Render(k[1..])
  }

  /** `filepath.Join(a, b)`: the cleaned concatenation. (Go renders an empty
      result as "."; that names the same key as "" here.) */
  function Join(a: string, b: string): string {
    Render(Clean(Split(a) + Split(b)))
  }

  /** `filepath.Ext`: from the last '.' of the last element to the end, or ""
      when that element has no '.'. */
  function Ext(path: string): (e: string)
    ensures |e| <= |path| && e == path[|path| - |e|..]
    ensures e != [] ==> e[0] == '.' && '/' !in e && '.' !in e[1..]
    decreases |path|
  {
    if path == [] || path[|path| - 1] == '/' then ""
    else if path[|path| - 1] == '.' then "."
    else
      var e := Ext(path[..|path| - 1]);
      if e == "" then "" else e + [path[|path| - 1]]
  }

  // ---------------------------------------------------------------------
  // Lemmas

  lemma {:induction false} ResolveAppend(acc: Key, x: seq<string>, y: seq<string>)
    ensures Resolve(acc, x + y) == Resolve(Resolve(acc, x), y)
    decreases |x|
  {
    if x != [] {
      assert (x + y)[1..] == x[1..] + y;
      var s := x[0];
      if s == "" || s == "." {
        ResolveAppend(acc, x[1..], y);
      } else if s == ".." {
        if |acc| > 0 && acc[|acc| - 1] != ".." {
          ResolveAppend(acc[..|acc| - 1], x[1..], y);
        } else {
          ResolveAppend(acc + [".."], x[1..], y);
        }
      } else {
        ResolveAppend(acc + [s], x[1..], y);
      }
    } else {
      assert x + y == y;
    }
  }

  lemma {:induction false} ResolveIsClean(acc: Key, segs: seq<string>)
    requires IsClean(acc)
    requires forall i :: 0 <= i < |segs| ==> '/' !in segs[i]
    ensures IsClean(Resolve(acc, segs))
    decreases |segs|
  {
    if segs != [] {
      var s := segs[0];
      if s == "" || s == "." {
        ResolveIsClean(acc, segs[1..]);
      } else if s == ".." {
        if |acc| > 0 && acc[|acc| - 1] != ".." {
          ResolveIsClean(acc[..|acc| - 1], segs[1..]);
        } else {
          ResolveIsClean(acc + [".."], segs[1..]);
        }
      } else {
        ResolveIsClean(acc + [s], segs[1..]);
      }
    }
  }

  /** Cleaning an already clean remainder only appends it. */
  lemma {:induction false} ResolveOfClean(acc: Key, segs: seq<string>)
    requires IsClean(acc + segs)
    ensures Resolve(acc, segs) == acc + segs
    decreases |segs|
  {
    if segs != [] {
      assert (acc + segs)[|acc|] == segs[0];
      assert acc + segs == (acc + [segs[0]]) + segs[1..];
      if segs[0] == ".." && |acc| > 0 {
        assert acc[|acc| - 1] == (acc + segs)[|acc| - 1];
      }
      ResolveOfClean(acc + [segs[0]], segs[1..]);
    }
  }

  lemma {:induction false} SplitPlain(c: string)
    requires '/' !in c
    ensures Split(c) == [c]
    decreases |c|
  {
    if c != [] {
      SplitPlain(c[1..]);
      assert [c[0]] + c[1..] == c;
    }
  }

  lemma {:induction false} SplitCons(c: string, x: string)
    requires '/' !in c
    ensures Split(c + "/" + x) == [c] + Split(x)
    decreases |c|
  {
    if c == [] {
      assert c + "/" + x == "/" + x;
      assert ("/" + x)[1..] == x;
    } else {
      assert (c + "/" + x)[1..] == c[1..] + "/" + x;
      SplitCons(c[1..], x);
      assert [c[0]] + c[1..] == c;
    }
  }

  lemma {:induction false} SplitRender(k: Key)
    requires k != []
    requires forall i :: 0 <= i < |k| ==> '/' !in k[i]
    ensures Split(Render(k)) == k
    decreases |k|
  {
    if |k| == 1 {
      SplitPlain(k[0]);
    } else {
      SplitRender(k[1..]);
      SplitCons(k[0], Render(k[1..]));
      assert [k[0]] + k[1..] == k;
    }
  }

  /** The key of a joined path: the prefix's key, extended by the second
      path's segments. */
  lemma KeyOfJoin(a: string, b: string)
    ensures KeyOf(Join(a, b)) == Resolve(KeyOf(a), Split(b))
  {
    var segs := Split(a) + Split(b);
    var c := Clean(segs);
    ResolveAppend([], Split(a), Split(b));
    assert forall i :: 0 <= i < |segs| ==> '/' !in segs[i] by {
      forall i | 0 <= i < |segs| ensures '/' !in segs[i] {
        if i < |Split(a)| { assert segs[i] == Split(a)[i]; }
        else { assert segs[i] == Split(b)[i - |Split(a)|]; }
      }
    }
    ResolveIsClean([], segs);
    if c == [] {
      assert Render(c) == "";
    } else {
      SplitRender(c);
      ResolveOfClean([], c);
      assert [] + c == c;
    }
  }

  /** Without ".." segments, resolving only extends what is already there. */
  lemma {:induction false} ResolveExtends(acc: Key, segs: seq<string>)
    requires ".." !in segs
    ensures acc <= Resolve(acc, segs)
    decreases |segs|
  {
    if segs != [] {
      var s := segs[0];
      if s == "" || s == "." {
        ResolveExtends(acc, segs[1..]);
      } else {
        ResolveExtends(acc + [s], segs[1..]);
      }
    }
  }

  /** A path without ".." segments, joined under a prefix, stays under the
      prefix's key. */
  lemma JoinStaysUnder(prefix: string, p: string)
    requires ".." !in Split(p)
    ensures KeyOf(prefix) <= KeyOf(Join(prefix, p))
  {
    KeyOfJoin(prefix, p);
    ResolveExtends(KeyOf(prefix), Split(p));
  }

  /** A name that ends in an extension without further dots or slashes has
      exactly that extension. */
  lemma {:induction false} ExtOfSuffix(s: string, e: string)
    requires |e| >= 1 && e[0] == '.' && '.' !in e[1..] && '/' !in e
    ensures Ext(s + e) == e
    decreases |e|
  {
    var p := s + e;
    if |e| > 1 {
      assert p[..|p| - 1] == s + e[..|e| - 1];
      assert '.' !in e[1..|e| - 1] by {
        assert e[1..|e| - 1] == e[1..][..|e| - 2];
      }
      assert e[|e| - 1] in e[1..];
      ExtOfSuffix(s, e[..|e| - 1]);
      assert e[..|e| - 1] + [e[|e| - 1]] == e;
    }
  }
}
