/**
 * `generateAvatar`: a 100x100 SVG badge, a filled circle with the initials in
 * the middle, wrapped into a file named `avatar.svg`.
 */
module AvatarSvg {
  import opened Wrappers

  /** A `File`: its name, its MIME type and its text. */
  datatype File = File(name: string, mimeType: string, content: string)

  /** The template text before the fill colour: the 100x100 view box and the circle of radius 50 at (50, 50). */
  const SvgOpen: string :=
    "\n    <svg xmlns=\"http://www.w3.org/2000/svg\" width=\"100\" height=\"100\" viewBox=\"0 0 100 100\">"
    + "\n      <circle cx=\"50\" cy=\"50\" r=\"50\" fill=\""

  /** The template text between the fill colour and the initials. */
  const SvgMiddle: string :=
    "\" />"
    + "\n      <text x=\"50\" y=\"50\" font-family=\"Arial\" font-size=\"36\" font-weight=\"bold\" fill=\"white\" text-anchor=\"middle\" dominant-baseline=\"central\">"
    + "\n        "

  /** The template text after the initials. */
  const SvgClose: string := "\n      </text>\n    </svg>\n  "

  /**
   * `generateAvatar(initials, avatarColor)`. Both arguments are spliced in as
   * they are: nothing is escaped.
   */
  function GenerateAvatar(initials: string, avatarColor: string): (f: File)
    ensures f.name == "avatar.svg" && f.mimeType == "image/svg+xml"
    ensures |f.content| == |SvgOpen| + |avatarColor| + |SvgMiddle| + |initials| + |SvgClose|
    ensures f.content[..|SvgOpen|] == SvgOpen
    ensures f.content[|SvgOpen|..|SvgOpen| + |avatarColor|] == avatarColor
    ensures f.content[|f.content| - |SvgClose| - |initials|..|f.content| - |SvgClose|] == initials
  {
    TemplateSlices(SvgOpen, avatarColor, SvgMiddle, initials, SvgClose);
    File("avatar.svg", "image/svg+xml", SvgOpen + avatarColor + SvgMiddle + initials + SvgClose)
  }

  /** Where each piece of a five-piece concatenation sits. */
  lemma TemplateSlices(a: string, b: string, c: string, d: string, e: string)
    ensures var s := a + b + c + d + e;
      |s| == |a| + |b| + |c| + |d| + |e| &&
      s[..|a|] == a && s[|a|..|a| + |b|] == b &&
      s[|s| - |e| - |d|..|s| - |e|] == d && s[|s| - |e|..] == e &&
      s[|a|..|s| - |e|] == b + c + d
  {
    var s := a + b + c + d + e;
    assert s == a + (b + c + d) + e;
    assert s == (a + b + c) + d + e;
  }

  /** The index of the first `"` in `s`, or `|s|` when there is none. */
  function FirstQuote(s: string): (k: nat)
    ensures k <= |s|
    ensures forall i :: 0 <= i < k ==> s[i] != '"'
    ensures k < |s| ==> s[k] == '"'
  {
    if s == [] || s[0] == '"' then 0 else 1 + FirstQuote(s[1..])
  }

  lemma {:induction false} FirstQuoteOfConcat(a: string, b: string)
    requires '"' !in a && b != [] && b[0] == '"'
    ensures FirstQuote(a + b) == |a|
  {
    if a != [] {
      assert (a + b)[1..] == a[1..] + b;
      FirstQuoteOfConcat(a[1..], b);
    }
  }

  /**
   * Reads an avatar back: the fill colour (up to the first `"`) and the text of
   * the initials, or `None` when the text is not an instance of the template.
   */
  function ParseAvatarSvg(svg: string): Option<(string, string)>
  {
    if |svg| >= |SvgOpen| + |SvgClose| && svg[..|SvgOpen|] == SvgOpen && svg[|svg| - |SvgClose|..] == SvgClose then
      var body := svg[|SvgOpen|..|svg| - |SvgClose|];
      var k := FirstQuote(body);
      if k + |SvgMiddle| <= |body| && body[k..k + |SvgMiddle|] == SvgMiddle then
        Some((body[..k], body[k + |SvgMiddle|..]))
      else None
    else None
  }

  /**
   * The fill attribute carries the colour and the text element the initials,
   * verbatim: a colour without `"` and any initials at all are read back exactly.
   */
  lemma AvatarRoundTrip(initials: string, avatarColor: string)
    requires '"' !in avatarColor
    ensures ParseAvatarSvg(GenerateAvatar(initials, avatarColor).content) == Some((avatarColor, initials))
  {
    var svg := GenerateAvatar(initials, avatarColor).content;
    TemplateSlices(SvgOpen, avatarColor, SvgMiddle, initials, SvgClose);
    BodySlices(avatarColor, SvgMiddle, initials);
  }

  lemma BodySlices(color: string, middle: string, initials: string)
    requires '"' !in color && middle != [] && middle[0] == '"'
    ensures var body := color + middle + initials;
      FirstQuote(body) == |color| &&
      body[|color|..|color| + |middle|] == middle &&
      body[..|color|] == color && body[|color| + |middle|..] == initials
  {
    var body := color + middle + initials;
    assert body == color + (middle + initials);
    FirstQuoteOfConcat(color, middle + initials);
  }

  /** Markup in the initials reaches the SVG as markup: a `<` is not turned into `&lt;`. */
  lemma InitialsNotEscaped(initials: string, avatarColor: string)
    requires '<' in initials
    ensures var svg := GenerateAvatar(initials, avatarColor).content;
      exists i :: |SvgOpen| + |avatarColor| + |SvgMiddle| <= i < |svg| - |SvgClose| && svg[i] == '<'
  {
    var svg := GenerateAvatar(initials, avatarColor).content;
    var j :| 0 <= j < |initials| && initials[j] == '<';
    var start := |svg| - |SvgClose| - |initials|;
    assert svg[start..|svg| - |SvgClose|][j] == svg[start + j];
  }
}
