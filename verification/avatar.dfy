/**
 * The default-avatar helpers that both profile routes define identically:
 * `getInitials` and `getAvatarColor`, a 31-multiplier string hash turned
 * into a hue.
 */
module Avatar {
  import opened Wrappers
  import opened JsText

  /**
   * `(firstName.charAt(0) + lastName.charAt(0)).toUpperCase()`: one upper-cased
   * character per non-empty name.
   */
  function GetInitials(firstName: string, lastName: string): (r: string)
    ensures |r| == (if firstName == "" then 0 else 1) + (if lastName == "" then 0 else 1)
    ensures firstName != "" ==> r[0] == AsciiUpper(firstName[0])
    ensures lastName != "" ==> r[|r| - 1] == AsciiUpper(lastName[0])
    ensures forall i :: 0 <= i < |r| ==> !IsAsciiLower(r[i])
  {
    ToUpperCase(CharAt0(firstName) + CharAt0(lastName))
  }

  /** JavaScript `x << 5` on an integral Number. */
  function ShiftLeft5(x: int): (r: int)
    ensures -Two31 <= r < Two31
    ensures (r - 32 * x) % Two32 == 0
    ensures -0x400_0000 <= x < 0x400_0000 ==> r == 32 * x
  {
    var t := ToInt32(x);
    var r := ToInt32(t * 32);
    ScaledCongruence(x, t, r);
    r
  }

  /** Multiplying by 32 keeps two numbers congruent modulo 2^32. */
  lemma ScaledCongruence(x: int, t: int, r: int)
    requires (x - t) % Two32 == 0 && (t * 32 - r) % Two32 == 0
    ensures (r - 32 * x) % Two32 == 0
  {
    var k := (x - t) / Two32;
    var m := (t * 32 - r) / Two32;
    assert x - t == k * Two32;
    assert t * 32 - r == m * Two32;
    assert r - 32 * x == (-(m + 32 * k)) * Two32;
  }

  /** One round of the loop: `hash = c + ((hash << 5) - hash)`. */
  function HashStep(hash: int, c: char): int
  {
    c as int + (ShiftLeft5(hash) - hash)
  }

  /** The hash of a string: the loop's value after every code unit, starting from 0. */
  function Hash(s: string): int
  {
    if s == [] then 0 else HashStep(Hash(s[..|s| - 1]), s[|s| - 1])
  }

  /** `` `hsl(${hue}, 70%, 60%)` `` */
  function HslColor(hue: int): string
  {
    "hsl(" + IntToDecimal(hue) + ", 70%, 60%)"
  }

  /** `getAvatarColor(initials)`. */
  method GetAvatarColor(initials: string) returns (color: string)
    ensures color == HslColor(JsRem(Hash(initials), 360))
  {
    var hash := 0;
    for i := 0 to |initials|
      invariant hash == Hash(initials[..i])
    {
      assert initials[..i + 1][..i] == initials[..i];
      hash := initials[i] as int + (ShiftLeft5(hash) - hash);
    }
    assert initials[..|initials|] == initials;
    var hue := JsRem(hash, 360);
    color := "hsl(" + IntToDecimal(hue) + ", 70%, 60%)";
  }

  /** Two code units hash to `31 * c0 + c1`; no 32-bit wrap-around can occur. */
  lemma HashOfTwo(c0: char, c1: char)
    ensures Hash([c0]) == c0 as int
    ensures Hash([c0, c1]) == 31 * (c0 as int) + c1 as int
  {
    assert [c0, c1][..1] == [c0];
    assert [c0][..0] == [];
  }

  /**
   * The hue of the initials of any two names lies in [0, 359]. This rests on
   * `ToUpperCase` giving one code unit per character, which full Unicode
   * upper-casing does not: see `ExpandedInitialsGiveNegativeHue`.
   */
  lemma InitialsHueInRange(firstName: string, lastName: string)
    ensures var h := Hash(GetInitials(firstName, lastName));
      h >= 0 && 0 <= JsRem(h, 360) < 360
  {
    var s := GetInitials(firstName, lastName);
    if |s| == 1 {
      assert s == [s[0]];
      HashOfTwo(s[0], s[0]);
    } else if |s| == 2 {
      assert s == [s[0], s[1]];
      HashOfTwo(s[0], s[1]);
    }
  }

  /**
   * Full Unicode upper-casing turns U+0390 into the three code units U+0399
   * U+0308 U+0301, so the initials of two names starting with it are six code
   * units long. Those six already push the hash below zero, and the hue to -160.
   */
  lemma ExpandedInitialsGiveNegativeHue()
    ensures var s := ['\U{399}', '\U{308}', '\U{301}', '\U{399}', '\U{308}', '\U{301}'];
      Hash(s) == -2956851520 && JsRem(Hash(s), 360) == -160
  {
    var s := ['\U{399}', '\U{308}', '\U{301}', '\U{399}', '\U{308}', '\U{301}'];
    assert s[..0] == [];
    assert Hash(s[..1]) == 921 by { assert s[..1][..0] == s[..0]; }
    assert Hash(s[..2]) == 29327 by { assert s[..2][..1] == s[..1]; }
    assert Hash(s[..3]) == 909906 by { assert s[..3][..2] == s[..2]; }
    assert Hash(s[..4]) == 28208007 by { assert s[..4][..3] == s[..3]; }
    assert Hash(s[..5]) == 874448993 by { assert s[..5][..4] == s[..4]; }
    assert Hash(s) == -2956851520 by { assert s[..5] == s[..|s| - 1]; }
  }

  /** Any hue lies strictly between -360 and 360, the sign being that of the hash. */
  lemma HueBounds(s: string)
    ensures -360 < JsRem(Hash(s), 360) < 360
    ensures Hash(s) >= 0 ==> 0 <= JsRem(Hash(s), 360) <= 359
    ensures Hash(s) < 0 ==> JsRem(Hash(s), 360) <= 0
  {
  }

  /** Reads the hue back out of an `hsl(<hue>, 70%, 60%)` string. */
  function ParseHsl(color: string): (r: Option<int>)
  {
    var prefix := "hsl(";
    var suffix := ", 70%, 60%)";
    if |color| > |prefix| + |suffix| && color[..|prefix|] == prefix && color[|color| - |suffix|..] == suffix then
      var digits := color[|prefix|..|color| - |suffix|];
      if (digits[0] == '-' && AllDigits(digits[1..])) || (digits[0] != '-' && AllDigits(digits)) then
        Some(ParseDecimal(digits))
      else None
    else None
  }

  /** The colour string carries exactly the hue: reading it back gives the hue. */
  lemma HslColorRoundTrip(hue: int)
    ensures ParseHsl(HslColor(hue)) == Some(hue)
  {
    var color := HslColor(hue);
    var d := IntToDecimal(hue);
    IntToDecimalRoundTrip(hue);
    assert color[..4] == "hsl(";
    assert color[|color| - 11..] == ", 70%, 60%)";
    assert color[4..|color| - 11] == d;
  }
}
