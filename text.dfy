/** String helpers the repositories rely on: Go's `strings.HasPrefix`,
    `strings.Contains`, `strings.ToLower`, `strings.TrimSpace`, and Go's
    ordering of strings with the sort that `ioutil.ReadDir` and `sort.Slice`
    perform on names. */
module Text {

  /** `strings.HasPrefix(s, prefix)`. */
  predicate HasPrefix(s: string, prefix: string) {
    |prefix| <= |s| && s[..|prefix|] == prefix
  }

  /** `strings.Contains(s, sub)`: `sub` occurs at some offset of `s`. */
  predicate Contains(s: string, sub: string) {
    exists i | 0 <= i <= |s| - |sub| :: HasPrefix(s[i..], sub)
  }

  /** Lower-cases an ASCII capital letter and leaves every other character
      alone. Go's `unicode.ToLower` also maps other runes, but the only ones
      it maps onto an ASCII letter are U+0130 (onto 'i') and U+212A (onto 'k'). */
  function LowerChar(c: char): char {
    if 'A' <= c <= 'Z' then (c as int + 32) as char else c
  }

  /** `strings.ToLower`, rune by rune. It is exact for every test of the form
      `Contains(ToLower(s), needle)` whose needle holds no 'i' and no 'k'. */
  function ToLower(s: string): (r: string)
    ensures |r| == |s|
    ensures forall i :: 0 <= i < |r| ==> !('A' <= r[i] <= 'Z')
    ensures forall i :: 0 <= i < |s| && !('A' <= s[i] <= 'Z') ==> r[i] == s[i]
    ensures forall i :: 0 <= i < |s| && 'A' <= s[i] <= 'Z' ==> r[i] as int == s[i] as int + 32
  {
    seq(|s|, i requires 0 <= i < |s| => LowerChar(s[i]))
  }

  /** Lowering twice is lowering once. */
  lemma ToLowerIdempotent(s: string)
    ensures ToLower(ToLower(s)) == ToLower(s)
  {
    var l := ToLower(s);
    assert forall i :: 0 <= i < |l| ==> ToLower(l)[i] == l[i];
  }

  /** Lowering commutes with taking a slice. */
  lemma ToLowerSlice(s: string, i: nat, j: nat)
    requires i <= j <= |s|
    ensures ToLower(s)[i..j] == ToLower(s[i..j])
  {
    var l, m := ToLower(s)[i..j], ToLower(s[i..j]);
    assert forall k :: 0 <= k < |m| ==> l[k] == m[k] by {
      forall k | 0 <= k < |m| ensures l[k] == m[k] {
        assert s[i..j][k] == s[i + k];
      }
    }
  }

  /** `strings.Contains(strings.ToLower(s), needle)`. */
  predicate ContainsFolded(s: string, needle: string) {
    Contains(ToLower(s), needle)
  }

  /** A needle folded into the middle of a string is found there. */
  lemma FoldedInfix(a: string, x: string, b: string, needle: string)
    requires ToLower(x) == needle
    ensures ContainsFolded(a + x + b, needle)
  {
    var p := a + x + b;
    assert p[|a|..|a| + |x|] == x;
    ToLowerSlice(p, |a|, |a| + |x|);
    var s := ToLower(p);
    assert s[|a|..][..|needle|] == ToLower(x);
    assert HasPrefix(s[|a|..], needle);
  }

  /** The slice of `s` at offset `i` as long as `needle`, lowered, is the
      needle. */
  predicate FoldsAt(s: string, needle: string, i: int) {
    0 <= i <= |s| - |needle| && ToLower(s[i..i + |needle|]) == needle
  }

  /** The folded containment test finds the needle exactly when some slice
      of the string, lowered, is the needle. */
  lemma FoldedAt(s: string, needle: string)
    ensures ContainsFolded(s, needle) <==> exists i :: FoldsAt(s, needle, i)
  {
    var l := ToLower(s);
    forall i | 0 <= i <= |s| - |needle|
      ensures HasPrefix(l[i..], needle) <==> FoldsAt(s, needle, i)
    {
      ToLowerSlice(s, i, i + |needle|);
      assert l[i..][..|needle|] == l[i..i + |needle|];
    }
  }

  /** A needle that starts with a character other than a lower-case letter
      is not found in a string that lacks that character. */
  lemma FoldedMissingStart(s: string, needle: string)
    requires needle != [] && !('a' <= needle[0] <= 'z') && needle[0] !in s
    ensures !ContainsFolded(s, needle)
  {
    var l := ToLower(s);
    forall i | 0 <= i <= |l| - |needle|
      ensures !HasPrefix(l[i..], needle)
    {
      assert l[i..][0] == l[i] != needle[0];
    }
  }

  /** `unicode.IsSpace`: the Latin-1 spaces and the other White_Space runes. */
  predicate IsSpace(c: char) {
    var n := c as int;
    (9 <= n <= 13) || n == 0x20 || n == 0x85 || n == 0xA0 || n == 0x1680
    || (0x2000 <= n <= 0x200A) || n == 0x2028 || n == 0x2029 || n == 0x202F
    || n == 0x205F || n == 0x3000
  }

  function TrimLeft(s: string): (r: string)
    ensures |r| <= |s| && r == s[|s| - |r|..]
    ensures r == [] || !IsSpace(r[0])
    ensures forall i :: 0 <= i < |s| - |r| ==> IsSpace(s[i])
  {
    if |s| > 0 && IsSpace(s[0]) then TrimLeft(s[1..]) else s
  }

  function TrimRight(s: string): (r: string)
    ensures |r| <= |s| && r == s[..|r|]
    ensures r == [] || !IsSpace(r[|r| - 1])
    ensures forall i :: |r| <= i < |s| ==> IsSpace(s[i])
  {
    if |s| > 0 && IsSpace(s[|s| - 1]) then TrimRight(s[..|s| - 1]) else s
  }

  /** `strings.TrimSpace`: drops leading and trailing white space. */
  function TrimSpace(s: string): string {
    TrimRight(TrimLeft(s))
  }

  /** A string without white space is its own trimmed form. */
  lemma TrimSpaceKeeps(s: string)
    requires forall i :: 0 <= i < |s| ==> !IsSpace(s[i])
    ensures TrimSpace(s) == s
  {
  }

  // ---------------------------------------------------------------------
  // Order on names.

  /** Go's `a < b` on strings. Go compares UTF-8 bytes; on well-formed UTF-8
      that is the lexicographic order of the code points, which is this. */
  predicate Below(a: string, b: string)
    decreases |a|
  {
    if a == [] then b != []
    else if b == [] then false
    else a[0] < b[0] || (a[0] == b[0] && Below(a[1..], b[1..]))
  }

  lemma {:induction false} BelowIrreflexive(a: string)
    ensures !Below(a, a)
    decreases |a|
  {
    if a != [] {
      BelowIrreflexive(a[1..]);
    }
  }

  lemma {:induction false} BelowTransitive(a: string, b: string, c: string)
    requires Below(a, b) && Below(b, c)
    ensures Below(a, c)
    decreases |a|
  {
    if a != [] && a[0] == b[0] && b[0] == c[0] {
      BelowTransitive(a[1..], b[1..], c[1..]);
    }
  }

  lemma {:induction false} BelowTotal(a: string, b: string)
    requires a != b
    ensures Below(a, b) || Below(b, a)
    decreases |a|
  {
    if a != [] && b != [] && a[0] == b[0] {
      assert a[1..] != b[1..] by {
        assert a == [a[0]] + a[1..] && b == [b[0]] + b[1..];
      }
      BelowTotal(a[1..], b[1..]);
    }
  }

  predicate StrictlyAscending(s: seq<string>) {
    forall i, j :: 0 <= i < j < |s| ==> Below(s[i], s[j])
  }

  predicate IsMinimum(m: string, s: set<string>) {
    m in s && forall x :: x in s && x != m ==> Below(m, x)
  }

  lemma {:induction false} MinimumExists(s: set<string>)
    requires s != {}
    ensures exists m :: IsMinimum(m, s)
    decreases |s|
  {
    var y :| y in s;
    if s == {y} {
      assert IsMinimum(y, s);
    } else {
      MinimumExists(s - {y});
      var m :| IsMinimum(m, s - {y});
      BelowTotal(m, y);
      if Below(m, y) {
        assert IsMinimum(m, s);
      } else {
        forall x | x in s && x != y
          ensures Below(y, x)
        {
          if x != m {
            BelowTransitive(y, m, x);
          }
        }
        assert IsMinimum(y, s);
      }
    }
  }

  /** The elements of a finite set of names in ascending order: what
      `ioutil.ReadDir` yields for a directory and `sort.Slice` makes of a
      slice with distinct names. */
  ghost function SortedSeq(s: set<string>): (r: seq<string>)
    ensures StrictlyAscending(r)
    ensures forall x :: x in r <==> x in s
    ensures |r| == |s|
    decreases |s|
  {
    if s == {} then []
    else
      MinimumExists(s);
      var m :| IsMinimum(m, s);
      var rest := SortedSeq(s - {m});
      assert forall j :: 0 <= j < |rest| ==> Below(m, rest[j]) by {
        forall j | 0 <= j < |rest| ensures Below(m, rest[j]) {
          assert rest[j] in s - {m};
        }
      }
      [m] + rest
  }

  /** An ascending sequence without repetitions is determined by its elements. */
  lemma {:induction false} AscendingUnique(a: seq<string>, b: seq<string>)
    requires StrictlyAscending(a) && StrictlyAscending(b)
    requires forall x :: x in a <==> x in b
    ensures a == b
    decreases |a|
  {
    assert a != [] ==> a[0] in b;
    assert b != [] ==> b[0] in a;
    if a != [] {
      assert a[0] in a && b[0] in b;
      var i :| 0 <= i < |b| && b[i] == a[0];
      var j :| 0 <= j < |a| && a[j] == b[0];
      assert a[0] == b[0] by {
        if i > 0 && j > 0 {
          BelowTransitive(a[0], a[j], a[0]);
          BelowIrreflexive(a[0]);
        }
      }
      forall x
        ensures x in a[1..] <==> x in b[1..]
      {
        if x in a[1..] {
          var k :| 1 <= k < |a| && a[k] == x;
          assert Below(a[0], x);
          BelowIrreflexive(x);
          assert x in b;
          var l :| 0 <= l < |b| && b[l] == x;
          assert l != 0;
          assert b[1..][l - 1] == x;
        }
        if x in b[1..] {
          var k :| 1 <= k < |b| && b[k] == x;
          assert Below(b[0], x);
          BelowIrreflexive(x);
          assert x in a;
          var l :| 0 <= l < |a| && a[l] == x;
          assert l != 0;
          assert a[1..][l - 1] == x;
        }
      }
      AscendingUnique(a[1..], b[1..]);
    }
  }

  /** Sorts a set of names by repeatedly taking the smallest remaining one. */
  method SortNames(s: set<string>) returns (r: seq<string>)
    ensures r == SortedSeq(s)
  {
    r := [];
    var rest := s;
    while rest != {}
      invariant rest <= s
      invariant StrictlyAscending(r)
      invariant forall x :: x in r <==> x in s && x !in rest
      invariant forall i, y :: 0 <= i < |r| && y in rest ==> Below(r[i], y)
      decreases |rest|
    {
      MinimumExists(rest);
      var m :| IsMinimum(m, rest);
      r := r + [m];
      rest := rest - {m};
    }
    AscendingUnique(r, SortedSeq(s));
  }
}
