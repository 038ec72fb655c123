/** The two encodings a basic-auth credential goes through
    (pkg/auth/auth.go): a Go string becomes its UTF-8 bytes, and the bytes
    become text in the base 64 encoding of section 4 of RFC 4648 (standard
    alphabet, '=' padding), as `base64.StdEncoding.EncodeToString` writes it. */
module Encoding {
  import opened Common
  import opened Text

  // ---------------------------------------------------------------------
  // UTF-8 (section 3 of RFC 3629)

  /** The one to four bytes of one code point. */
  function Utf8Char(c: char): (r: Bytes)
    ensures 1 <= |r| <= 4
    ensures (c as int < 0x80) == (|r| == 1)
  {
    var n := c as int;
    if n < 0x80 then [n]
    else if n < 0x800 then [0xC0 + n / 64, 0x80 + n % 64]
    else if n < 0x10000 then [0xE0 + n / 4096, 0x80 + n / 64 % 64, 0x80 + n % 64]
    else [0xF0 + n / 262144, 0x80 + n / 4096 % 64, 0x80 + n / 64 % 64, 0x80 + n % 64]
  }

  /** `[]byte(s)`: the UTF-8 bytes of a string, code point by code point. */
  function Utf8(s: string): (r: Bytes)
    decreases |s|
  {
    if s == [] then [] else Utf8Char(s[0]) + Utf8(s[1..])
  }

  /** Encoding a concatenation concatenates the encodings. */
  lemma {:induction false} Utf8Append(a: string, b: string)
    ensures Utf8(a + b) == Utf8(a) + Utf8(b)
    decreases |a|
  {
    if a == [] {
      assert a + b == b;
    } else {
      assert (a + b)[0] == a[0] && (a + b)[1..] == a[1..] + b;
      Utf8Append(a[1..], b);
      calc {
        Utf8(a + b);
        Utf8Char(a[0]) + Utf8(a[1..] + b);
        Utf8Char(a[0]) + (Utf8(a[1..]) + Utf8(b));
        (Utf8Char(a[0]) + Utf8(a[1..])) + Utf8(b);
      }
    }
  }

  /** An ASCII string is encoded as its character codes, one byte each. */
  lemma {:induction false} Utf8Ascii(s: string)
    requires forall i :: 0 <= i < |s| ==> s[i] as int < 0x80
    ensures |Utf8(s)| == |s| && forall i :: 0 <= i < |s| ==> Utf8(s)[i] == s[i] as int
    decreases |s|
  {
    if s != [] {
      Utf8Ascii(s[1..]);
      assert Utf8(s) == [s[0] as int] + Utf8(s[1..]);
    }
  }

  // ---------------------------------------------------------------------
  // Base 64 (section 4 of RFC 4648)

  /** The character of a 6-bit value in the standard alphabet. */
  function Digit(k: nat): (c: char)
    requires k < 64
  {
    if k < 26 then ('A' as int + k) as char
    else if k < 52 then ('a' as int + k - 26) as char
    else if k < 62 then ('0' as int + k - 52) as char
    else if k == 62 then '+'
    else '/'
  }

  /** The 6-bit value of a character of the standard alphabet. */
  function Sextet(c: char): (r: Option<nat>)
    ensures r.Some? ==> r.value < 64
  {
    if 'A' <= c <= 'Z' then Some(c as int - 'A' as int)
    else if 'a' <= c <= 'z' then Some(c as int - 'a' as int + 26)
    else if '0' <= c <= '9' then Some(c as int - '0' as int + 52)
    else if c == '+' then Some(62)
    else if c == '/' then Some(63)
    else None
  }

  /** Four characters of the encoding: the three bytes `x`, `y`, `z`
      cut into four 6-bit values. */
  function Quad(x: byte, y: byte, z: byte): (q: string)
    ensures |q| == 4
  {
    [Digit(x / 4), Digit(x % 4 * 16 + y / 16), Digit(y % 16 * 4 + z / 64), Digit(z % 64)]
  }

  /** `EncodeToString`: each three bytes become four characters; a final
      one or two bytes become four characters ending in "==" or "=". */
  function Base64(b: Bytes): (r: string)
    ensures |r| == if |b| % 3 == 0 then |b| / 3 * 4 else |b| / 3 * 4 + 4
    decreases |b|
  {
    if |b| == 0 then []
    else if |b| == 1 then Quad(b[0], 0, 0)[..2] + "=="
    else if |b| == 2 then Quad(b[0], b[1], 0)[..3] + "="
    else Quad(b[0], b[1], b[2]) + Base64(b[3..])
  }

  /** The three bytes that four 6-bit values spell. */
  function Join(a: nat, b: nat, c: nat, d: nat): (r: Bytes)
    requires a < 64 && b < 64 && c < 64 && d < 64
    ensures |r| == 3
  {
    [a * 4 + b / 16, b % 16 * 16 + c / 4, c % 4 * 64 + d]
  }

  /** Four characters of the alphabet read as three bytes. */
  function Unquad(q: string): (r: Option<Bytes>)
    requires |q| == 4
  {
    var a, b, c, d := Sextet(q[0]), Sextet(q[1]), Sextet(q[2]), Sextet(q[3]);
    if a.Some? && b.Some? && c.Some? && d.Some? then Some(Join(a.value, b.value, c.value, d.value)) else None
  }

  /** The decoder of the same encoding: `None` for text that is not
      padded base 64. */
  function Unbase64(s: string): (r: Option<Bytes>)
    decreases |s|
  {
    if s == [] then Some([])
    else if |s| < 4 then None
    else if |s| == 4 && s[2..] == "==" then
      match Unquad(s[..2] + "AA")
      case None => None
      case Some(t) => Some(t[..1])
    else if |s| == 4 && s[3] == '=' then
      match Unquad(s[..3] + "A")
      case None => None
      case Some(t) => Some(t[..2])
    else
      match Unquad(s[..4])
      case None => None
      case Some(t) =>
        match Unbase64(s[4..])
        case None => None
        case Some(rest) => Some(t + rest)
  }

  lemma SextetOfDigit(k: nat)
    requires k < 64
    ensures Digit(k) != '=' && Sextet(Digit(k)) == Some(k)
  {
  }

  /** The four characters of three bytes read back as those bytes. */
  lemma QuadDecodes(x: byte, y: byte, z: byte)
    ensures Quad(x, y, z)[3] != '=' && Unquad(Quad(x, y, z)) == Some([x, y, z])
  {
    var a, b, c, d := x / 4, x % 4 * 16 + y / 16, y % 16 * 4 + z / 64, z % 64;
    var q := Quad(x, y, z);
    assert q == [Digit(a), Digit(b), Digit(c), Digit(d)];
    SextetOfDigit(a);
    SextetOfDigit(b);
    SextetOfDigit(c);
    SextetOfDigit(d);
    JoinSplits(x, y, z);
  }

  /** Joining the four 6-bit values cut from three bytes gives the bytes. */
  lemma JoinSplits(x: byte, y: byte, z: byte)
    ensures Join(x / 4, x % 4 * 16 + y / 16, y % 16 * 4 + z / 64, z % 64) == [x, y, z]
  {
    assert (x % 4 * 16 + y / 16) / 16 == x % 4;
    assert (x % 4 * 16 + y / 16) % 16 == y / 16;
    assert (y % 16 * 4 + z / 64) / 4 == y % 16;
    assert (y % 16 * 4 + z / 64) % 4 == z / 64;
  }

  /** One byte comes back from its four characters ending in "==". */
  lemma Base64One(b: Bytes)
    requires |b| == 1
    ensures Unbase64(Base64(b)) == Some(b)
  {
    var x := b[0];
    var s := Base64(b);
    assert Digit(0) == 'A';
    assert s == Quad(x, 0, 0)[..2] + "==";
    assert |s| == 4;
    assert s[2..] == "==";
    assert s[..2] + "AA" == Quad(x, 0, 0);
    QuadDecodes(x, 0, 0);
    assert Unquad(s[..2] + "AA") == Some([x, 0, 0]);
    assert [x, 0, 0][..1] == b;
  }

  /** Two bytes come back from their four characters ending in "=". */
  lemma Base64Two(b: Bytes)
    requires |b| == 2
    ensures Unbase64(Base64(b)) == Some(b)
  {
    var x, y := b[0], b[1];
    var s := Base64(b);
    assert Digit(0) == 'A';
    assert s == Quad(x, y, 0)[..3] + "=";
    assert s[..3] + "A" == Quad(x, y, 0);
    QuadDecodes(x, y, 0);
    assert s[2..] != "==" by { SextetOfDigit(y % 16 * 4); assert s[2] != '='; }
    assert Unquad(s[..3] + "A") == Some([x, y, 0]);
    assert [x, y, 0][..2] == b;
  }

  /** A full group of four characters in front of more text decodes to
      its three bytes in front of what that text decodes to. */
  lemma UnbaseGroup(q: string, rest: string, t: Bytes, r: Bytes)
    requires |q| == 4 && q[3] != '=' && Unquad(q) == Some(t) && Unbase64(rest) == Some(r)
    ensures Unbase64(q + rest) == Some(t + r)
  {
    var s := q + rest;
    assert s[3] == q[3] && s[..4] == q && s[4..] == rest;
  }

  /** Three bytes and more: the first four characters give the first three
      bytes back, and the rest decode as they did alone. */
  lemma Base64Step(b: Bytes)
    requires |b| >= 3 && Unbase64(Base64(b[3..])) == Some(b[3..])
    ensures Unbase64(Base64(b)) == Some([b[0], b[1], b[2]] + b[3..])
  {
    assert Base64(b) == Quad(b[0], b[1], b[2]) + Base64(b[3..]);
    GroupDecodes(b);
  }

  /** The same, with the first group written out. */
  lemma GroupDecodes(b: Bytes)
    requires |b| >= 3 && Unbase64(Base64(b[3..])) == Some(b[3..])
    ensures Unbase64(Quad(b[0], b[1], b[2]) + Base64(b[3..])) == Some([b[0], b[1], b[2]] + b[3..])
  {
    QuadDecodes(b[0], b[1], b[2]);
    UnbaseGroup(Quad(b[0], b[1], b[2]), Base64(b[3..]), [b[0], b[1], b[2]], b[3..]);
  }

  /** Decoding undoes encoding, so different bytes never share an encoding. */
  lemma {:induction false} Base64RoundTrip(b: Bytes)
    ensures Unbase64(Base64(b)) == Some(b)
    decreases |b|
  {
    if |b| >= 3 {
      Base64RoundTrip(b[3..]);
      Base64Step(b);
      HeadAndTail(b);
    } else if |b| == 2 {
      Base64Two(b);
    } else if |b| == 1 {
      Base64One(b);
    }
  }

  /** Three leading bytes and the rest make up the whole. */
  lemma HeadAndTail(b: Bytes)
    requires |b| >= 3
    ensures [b[0], b[1], b[2]] + b[3..] == b
  {
  }

  lemma Base64Injective(a: Bytes, b: Bytes)
    requires Base64(a) == Base64(b)
    ensures a == b
  {
    Base64RoundTrip(a);
    Base64RoundTrip(b);
  }

  /** Encoded text holds only alphabet characters and '=', all of them
      between '+' and 'z'. */
  lemma {:induction false} Base64Printable(b: Bytes)
    ensures forall i :: 0 <= i < |Base64(b)| ==> '+' <= Base64(b)[i] <= 'z'
    decreases |b|
  {
    if |b| >= 3 {
      Base64Printable(b[3..]);
      QuadPrintable(b[0], b[1], b[2]);
      assert Base64(b) == Quad(b[0], b[1], b[2]) + Base64(b[3..]);
    } else if |b| > 0 {
      QuadPrintable(b[0], if |b| == 2 then b[1] else 0, 0);
    }
  }

  lemma QuadPrintable(x: byte, y: byte, z: byte)
    ensures forall i :: 0 <= i < 4 ==> '+' <= Quad(x, y, z)[i] <= 'z'
  {
  }

  /** Encoded text holds no white space. */
  lemma Base64NoSpace(b: Bytes)
    ensures forall i :: 0 <= i < |Base64(b)| ==> !IsSpace(Base64(b)[i])
  {
    Base64Printable(b);
  }
}
