/**
 * Base 64 as the role extractor uses it: `atob`, which runs the "forgiving-base64
 * decode" of the WHATWG Infra standard over the standard alphabet of section 4 of
 * RFC 4648, and, as its partner, the unpadded encoder a JWS compact serialisation
 * uses for its segments (section 2 of RFC 7515), in both the standard alphabet and
 * the URL-safe alphabet of section 5 of RFC 4648.
 */
module Base64 {
  import opened Wrappers
  import opened JsText

  type Byte = x: int | 0 <= x < 256

  type Sextet = x: int | 0 <= x < 64

  /** The character for a 6-bit value: standard alphabet, or URL-safe when `url`. */
  function AlphabetChar(v: Sextet, url: bool): (c: char)
    ensures c != '.' && c != '='
    ensures !IsAsciiWhitespace(c)
    ensures url ==> c != '+' && c != '/'
    ensures !url ==> c != '-' && c != '_'
  {
    if v < 26 then ('A' as int + v) as char
    else if v < 52 then ('a' as int + v - 26) as char
    else if v < 62 then ('0' as int + v - 52) as char
    else if v == 62 then (if url then '-' else '+')
    else (if url then '_' else '/')
  }

  predicate IsStdChar(c: char)
  {
    ('A' <= c <= 'Z') || ('a' <= c <= 'z') || ('0' <= c <= '9') || c == '+' || c == '/'
  }

  predicate AllStd(s: string)
  {
    forall i :: 0 <= i < |s| ==> IsStdChar(s[i])
  }

  /** The 6-bit value of a standard-alphabet character. */
  function StdValue(c: char): (v: Sextet)
    requires IsStdChar(c)
    ensures AlphabetChar(v, false) == c
  {
    if 'A' <= c <= 'Z' then c as int - 'A' as int
    else if 'a' <= c <= 'z' then c as int - 'a' as int + 26
    else if '0' <= c <= '9' then c as int - '0' as int + 52
    else if c == '+' then 62
    else 63
  }

  lemma StdValueOfChar(v: Sextet)
    ensures IsStdChar(AlphabetChar(v, false)) && StdValue(AlphabetChar(v, false)) == v
  {
  }

  /** The ASCII whitespace that forgiving-base64 decode strips: TAB, LF, FF, CR, SPACE. */
  predicate IsAsciiWhitespace(c: char)
  {
    c == '\t' || c == '\n' || c == '\U{000C}' || c == '\r' || c == ' '
  }

  function RemoveWhitespace(s: string): (r: string)
    ensures forall i :: 0 <= i < |r| ==> !IsAsciiWhitespace(r[i])
    ensures (forall i :: 0 <= i < |s| ==> !IsAsciiWhitespace(s[i])) ==> r == s
  {
    if s == [] then []
    else (if IsAsciiWhitespace(s[0]) then [] else [s[0]]) + RemoveWhitespace(s[1..])
  }

  /** Removes one or two trailing `=`. */
  function StripPadding(s: string): (r: string)
    ensures |r| <= |s| && r == s[..|r|]
    ensures forall i :: |r| <= i < |s| ==> s[i] == '='
    ensures |s| == 0 || s[|s| - 1] != '=' ==> r == s
  {
    if |s| >= 2 && s[|s| - 1] == '=' && s[|s| - 2] == '=' then s[..|s| - 2]
    else if |s| >= 1 && s[|s| - 1] == '=' then s[..|s| - 1]
    else s
  }

  /** Decodes groups of four characters into three bytes; a final group of two or three
   *  characters gives one or two bytes, its leftover bits discarded. */
  function DecodeGroups(t: string): (b: seq<Byte>)
    requires AllStd(t) && |t| % 4 != 1
    decreases |t|
  {
    if |t| == 0 then []
    else if |t| == 2 then
      [FirstByte(StdValue(t[0]), StdValue(t[1]))]
    else if |t| == 3 then
      [FirstByte(StdValue(t[0]), StdValue(t[1])), SecondByte(StdValue(t[1]), StdValue(t[2]))]
    else
      [FirstByte(StdValue(t[0]), StdValue(t[1])), SecondByte(StdValue(t[1]), StdValue(t[2])),
       ThirdByte(StdValue(t[2]), StdValue(t[3]))]
      + DecodeGroups(t[4..])
  }

  /** The byte made of all six bits of the first sextet and the top two of the second. */
  function FirstByte(a: Sextet, b: Sextet): Byte
  {
    a * 4 + b / 16
  }

  /** The byte made of the low four bits of the second sextet and the top four of the third. */
  function SecondByte(b: Sextet, c: Sextet): Byte
  {
    (b % 16) * 16 + c / 4
  }

  /** The byte made of the low two bits of the third sextet and all six of the fourth. */
  function ThirdByte(c: Sextet, d: Sextet): Byte
  {
    (c % 4) * 64 + d
  }

  /** `atob(s)`: the decoded bytes, or `None` where `atob` throws. */
  function Atob(s: string): (r: Option<seq<Byte>>)
    ensures r.Some? ==> |r.value| <= |s|
  {
    var t := RemoveWhitespace(s);
    var u := if |t| % 4 == 0 then StripPadding(t) else t;
    if |u| % 4 == 1 || !AllStd(u) then None
    else
      DecodeGroupsLength(u);
      RemoveWhitespaceLength(s);
      Some(DecodeGroups(u))
  }

  lemma {:induction false} DecodeGroupsLength(t: string)
    requires AllStd(t) && |t| % 4 != 1
    ensures |DecodeGroups(t)| <= |t|
    decreases |t|
  {
    if |t| >= 4 {
      AddGroupKeepsRemainder(|t| - 4);
      DecodeGroupsLength(t[4..]);
    }
  }

  lemma {:induction false} RemoveWhitespaceLength(s: string)
    ensures |RemoveWhitespace(s)| <= |s|
  {
    if s != [] {
      RemoveWhitespaceLength(s[1..]);
    }
  }

  /** Unpadded base 64 encoding, three bytes to four characters. */
  function Encode(b: seq<Byte>, url: bool): (s: string)
    ensures |s| % 4 != 1
    decreases |b|
  {
    if |b| == 0 then []
    else if |b| == 1 then
      [AlphabetChar(b[0] / 4, url), AlphabetChar((b[0] % 4) * 16, url)]
    else if |b| == 2 then
      [AlphabetChar(b[0] / 4, url), AlphabetChar((b[0] % 4) * 16 + b[1] / 16, url),
       AlphabetChar((b[1] % 16) * 4, url)]
    else
      var rest := Encode(b[3..], url);
      AddGroupKeepsRemainder(|rest|);
      EncodeGroup(b[0], b[1], b[2], url) + rest
  }

  /**
   * The four characters of three bytes; in the standard alphabet their values
   * give the bytes back.
   */
  function EncodeGroup(x: Byte, y: Byte, z: Byte, url: bool): (g: string)
    ensures |g| == 4
    ensures !url ==> (AllStd(g) &&
      FirstByte(StdValue(g[0]), StdValue(g[1])) == x &&
      SecondByte(StdValue(g[1]), StdValue(g[2])) == y &&
      ThirdByte(StdValue(g[2]), StdValue(g[3])) == z)
  {
    GroupArithmetic(x, y, z);
    var a, b, c, d := x / 4, (x % 4) * 16 + y / 16, (y % 16) * 4 + z / 64, z % 64;
    StdValueOfChar(a);
    StdValueOfChar(b);
    StdValueOfChar(c);
    StdValueOfChar(d);
    [AlphabetChar(a, url), AlphabetChar(b, url), AlphabetChar(c, url), AlphabetChar(d, url)]
  }

  lemma {:induction false} EncodeAlphabet(b: seq<Byte>, url: bool)
    ensures forall i :: 0 <= i < |Encode(b, url)| ==>
      var c := Encode(b, url)[i];
      c != '.' && c != '=' && !IsAsciiWhitespace(c) &&
      (url ==> c != '+' && c != '/') && (!url ==> c != '-' && c != '_' && IsStdChar(c))
    decreases |b|
  {
    if |b| >= 3 {
      EncodeAlphabet(b[3..], url);
    }
  }

  /** Decoding the groups of an encoding gives back the bytes. */
  lemma {:induction false} DecodeEncode(b: seq<Byte>)
    ensures AllStd(Encode(b, false))
    ensures DecodeGroups(Encode(b, false)) == b
    decreases |b|
  {
    if |b| < 3 {
      DecodeEncodeShort(b);
    } else {
      DecodeEncode(b[3..]);
      DecodeEncodeStep(b);
    }
  }

  lemma DecodeEncodeShort(b: seq<Byte>)
    requires |b| < 3
    ensures AllStd(Encode(b, false)) && DecodeGroups(Encode(b, false)) == b
  {
    ShortSeq(b);
    if |b| == 1 {
      DecodeTail(b[0], 0, 1);
    } else if |b| == 2 {
      DecodeTail(b[0], b[1], 2);
    }
  }

  lemma DecodeEncodeStep(b: seq<Byte>)
    requires |b| >= 3
    requires AllStd(Encode(b[3..], false)) && DecodeGroups(Encode(b[3..], false)) == b[3..]
    ensures AllStd(Encode(b, false)) && DecodeGroups(Encode(b, false)) == b
  {
    var g, rest := EncodeGroup(b[0], b[1], b[2], false), Encode(b[3..], false);
    DecodeFirstGroup(g, rest);
    HeadAndTail(b);
  }

  lemma ShortSeq<T>(s: seq<T>)
    requires |s| < 3
    ensures |s| == 1 ==> s == [s[0]]
    ensures |s| == 2 ==> s == [s[0], s[1]]
  {
  }

  lemma HeadAndTail<T>(s: seq<T>)
    requires |s| >= 3
    ensures s == [s[0], s[1], s[2]] + s[3..]
  {
  }

  /** A whole first group decodes to three bytes, followed by what the rest decodes to. */
  lemma DecodeFirstGroup(g: string, rest: string)
    requires |g| == 4 && AllStd(g) && AllStd(rest) && |rest| % 4 != 1
    ensures AllStd(g + rest)
    ensures DecodeGroups(g + rest) ==
      [FirstByte(StdValue(g[0]), StdValue(g[1])), SecondByte(StdValue(g[1]), StdValue(g[2])),
       ThirdByte(StdValue(g[2]), StdValue(g[3]))] + DecodeGroups(rest)
  {
    var t := g + rest;
    forall i | 0 <= i < |t|
      ensures IsStdChar(t[i])
    {
      if i >= 4 {
        assert t[i] == rest[i - 4];
      } else {
        assert t[i] == g[i];
      }
    }
    AddGroupKeepsRemainder(|rest|);
    assert t[4..] == rest;
    assert t[0] == g[0] && t[1] == g[1] && t[2] == g[2] && t[3] == g[3];
  }

  lemma AddGroupKeepsRemainder(n: nat)
    ensures (n + 4) % 4 == n % 4
  {
  }

  /** Cutting three bytes into four sextets and joining them again gives the bytes back. */
  lemma GroupArithmetic(x: Byte, y: Byte, z: Byte)
    ensures var a, b, c, d := x / 4, (x % 4) * 16 + y / 16, (y % 16) * 4 + z / 64, z % 64;
      0 <= b < 64 && 0 <= c < 64 &&
      a * 4 + b / 16 == x && (b % 16) * 16 + c / 4 == y && (c % 4) * 64 + d == z
  {
    var b := (x % 4) * 16 + y / 16;
    var c := (y % 16) * 4 + z / 64;
    assert b / 16 == x % 4 && b % 16 == y / 16;
    assert c / 4 == y % 16 && c % 4 == z / 64;
  }

  /** A final group of two or three characters decodes to the one or two bytes it encodes. */
  lemma DecodeTail(x: Byte, y: Byte, n: nat)
    requires n == 1 || n == 2
    ensures n == 1 ==>
      var t := [AlphabetChar(x / 4, false), AlphabetChar((x % 4) * 16, false)];
      AllStd(t) && DecodeGroups(t) == [x]
    ensures n == 2 ==>
      var t := [AlphabetChar(x / 4, false), AlphabetChar((x % 4) * 16 + y / 16, false), AlphabetChar((y % 16) * 4, false)];
      AllStd(t) && DecodeGroups(t) == [x, y]
  {
    TailArithmetic(x, y);
    StdValueOfChar(x / 4);
    if n == 1 {
      StdValueOfChar((x % 4) * 16);
    } else {
      StdValueOfChar((x % 4) * 16 + y / 16);
      StdValueOfChar((y % 16) * 4);
    }
  }

  /** The bytes of a final group of two or three characters come back from their sextets. */
  lemma TailArithmetic(x: Byte, y: Byte)
    ensures 0 <= (x % 4) * 16 + y / 16 < 64 && 0 <= (y % 16) * 4 < 64
    ensures FirstByte(x / 4, (x % 4) * 16) == x
    ensures FirstByte(x / 4, (x % 4) * 16 + y / 16) == x
    ensures SecondByte((x % 4) * 16 + y / 16, (y % 16) * 4) == y
  {
    var b := (x % 4) * 16 + y / 16;
    assert b / 16 == x % 4 && b % 16 == y / 16;
  }


  /** `atob` inverts the unpadded standard encoding. */
  lemma AtobEncode(b: seq<Byte>)
    ensures Atob(Encode(b, false)) == Some(b)
  {
    EncodeAlphabet(b, false);
    DecodeEncode(b);
  }

  /** Whitespace is kept out of the stripped text only; every other character survives, in order. */
  lemma {:induction false} RemoveWhitespaceKeeps(s: string, c: char)
    requires c in s && !IsAsciiWhitespace(c)
    ensures c in RemoveWhitespace(s)
  {
    if s[0] != c {
      RemoveWhitespaceKeeps(s[1..], c);
    }
  }

  /** `atob` refuses the URL-safe characters `-` and `_`, which is why the segment is mapped first. */
  lemma AtobRefusesUrlSafe(s: string)
    requires '-' in s || '_' in s
    ensures Atob(s) == None
  {
    var c := if '-' in s then '-' else '_';
    RemoveWhitespaceKeeps(s, c);
    var t := RemoveWhitespace(s);
    var u := if |t| % 4 == 0 then StripPadding(t) else t;
    var k :| 0 <= k < |t| && t[k] == c;
    assert k < |u| && u[k] == c;
    assert !IsStdChar(u[k]);
  }

  /** Padding a well-formed unpadded text with `=` does not change what `atob` gives. */
  lemma AtobIgnoresPadding(s: string)
    requires AllStd(s) && |s| % 4 != 1
    ensures Atob(s + Padding(|s|)) == Some(DecodeGroups(s))
  {
    var padded := s + Padding(|s|);
    PaddingStripped(s);
    AtobOfCanonical(padded, s);
  }

  /** `atob` on a whitespace-free text of whole groups whose padding leaves `s`. */
  lemma AtobOfCanonical(t: string, s: string)
    requires RemoveWhitespace(t) == t && |t| % 4 == 0 && StripPadding(t) == s
    requires AllStd(s) && |s| % 4 != 1
    ensures Atob(t) == Some(DecodeGroups(s))
  {
  }

  /** Whitespace removal and padding removal undo the padding. */
  lemma PaddingStripped(s: string)
    requires AllStd(s) && |s| % 4 != 1
    ensures var padded := s + Padding(|s|);
      |padded| % 4 == 0 && RemoveWhitespace(padded) == padded && StripPadding(padded) == s
  {
    var pad := Padding(|s|);
    var padded := s + pad;
    PaddedHasNoWhitespace(s);
    PaddingFillsGroup(|s|);
    if |s| % 4 == 0 {
      assert padded == s;
      assert s == [] || IsStdChar(s[|s| - 1]);
    } else if |s| % 4 == 2 {
      assert padded[..|padded| - 2] == s;
    } else {
      assert s == [] || IsStdChar(s[|s| - 1]);
      assert padded[..|padded| - 1] == s;
    }
  }

  lemma PaddedHasNoWhitespace(s: string)
    requires AllStd(s) && |s| % 4 != 1
    ensures forall i :: 0 <= i < |s + Padding(|s|)| ==> !IsAsciiWhitespace((s + Padding(|s|))[i])
  {
    var pad := Padding(|s|);
    var padded := s + pad;
    forall i | 0 <= i < |padded|
      ensures !IsAsciiWhitespace(padded[i])
    {
      if i >= |s| {
        assert padded[i] == pad[i - |s|];
      } else {
        assert padded[i] == s[i];
      }
    }
  }

  /** The `=` that pad an encoding of length `n` to a multiple of four. */
  function Padding(n: nat): (pad: string)
    requires n % 4 != 1
    ensures |pad| <= 2
    ensures forall i :: 0 <= i < |pad| ==> pad[i] == '='
  {
    if n % 4 == 2 then "==" else if n % 4 == 3 then "=" else ""
  }

  lemma PaddingFillsGroup(n: nat)
    requires n % 4 != 1
    ensures (n + |Padding(n)|) % 4 == 0
  {
    var q := n / 4;
    assert n == 4 * q + n % 4;
    assert n + |Padding(n)| == 4 * q + (if n % 4 == 0 then 0 else 4);
  }

  /** Mapping `-` to `+` and `_` to `/` turns the URL-safe encoding into the standard one. */
  lemma UrlToStandard(b: seq<Byte>)
    ensures ReplaceAll(ReplaceAll(Encode(b, true), '-', '+'), '_', '/') == Encode(b, false)
  {
    var u := Encode(b, true);
    var s := Encode(b, false);
    SameShape(b);
    var r := ReplaceAll(ReplaceAll(u, '-', '+'), '_', '/');
    assert |r| == |s|;
    forall i | 0 <= i < |s|
      ensures r[i] == s[i]
    {
      assert SameChar(u[i], s[i]);
    }
  }

  /** A URL-safe character and the standard one in its place: equal, except `-` for `+` and `_` for `/`. */
  predicate SameChar(u: char, s: char)
  {
    (u == s && u != '-' && u != '_') || (u == '-' && s == '+') || (u == '_' && s == '/')
  }

  predicate Corresponds(u: string, s: string)
  {
    |u| == |s| && forall i :: 0 <= i < |s| ==> SameChar(u[i], s[i])
  }

  lemma CorrespondsConcat(u1: string, s1: string, u2: string, s2: string)
    requires Corresponds(u1, s1) && Corresponds(u2, s2)
    ensures Corresponds(u1 + u2, s1 + s2)
  {
    forall i | 0 <= i < |s1 + s2|
      ensures SameChar((u1 + u2)[i], (s1 + s2)[i])
    {
      if i < |s1| {
        assert (u1 + u2)[i] == u1[i] && (s1 + s2)[i] == s1[i];
      } else {
        assert (u1 + u2)[i] == u2[i - |s1|] && (s1 + s2)[i] == s2[i - |s1|];
      }
    }
  }

  /** The two alphabets agree except at the values 62 and 63. */
  lemma {:induction false} SameShape(b: seq<Byte>)
    ensures Corresponds(Encode(b, true), Encode(b, false))
    decreases |b|
  {
    if |b| < 3 {
      ShortSameShape(b);
    } else {
      SameShape(b[3..]);
      GroupSameShape(b[0], b[1], b[2]);
      CorrespondsConcat(EncodeGroup(b[0], b[1], b[2], true), EncodeGroup(b[0], b[1], b[2], false),
                        Encode(b[3..], true), Encode(b[3..], false));
    }
  }

  lemma AlphabetSameChar(v: Sextet)
    ensures SameChar(AlphabetChar(v, true), AlphabetChar(v, false))
  {
  }

  lemma GroupSameShape(x: Byte, y: Byte, z: Byte)
    ensures Corresponds(EncodeGroup(x, y, z, true), EncodeGroup(x, y, z, false))
  {
    AlphabetSameChar(x / 4);
    AlphabetSameChar((x % 4) * 16 + y / 16);
    AlphabetSameChar((y % 16) * 4 + z / 64);
    AlphabetSameChar(z % 64);
  }

  lemma ShortSameShape(b: seq<Byte>)
    requires |b| < 3
    ensures Corresponds(Encode(b, true), Encode(b, false))
  {
    if |b| == 1 {
      AlphabetSameChar(b[0] / 4);
      AlphabetSameChar((b[0] % 4) * 16);
    } else if |b| == 2 {
      AlphabetSameChar(b[0] / 4);
      AlphabetSameChar((b[0] % 4) * 16 + b[1] / 16);
      AlphabetSameChar((b[1] % 16) * 4);
    }
  }
}
