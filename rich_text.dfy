/**
 * `richTextToHtml` of api/notion-page.js: each run's text is escaped,
 * wrapped in its annotation tags, its colour span and its link, and then
 * its `[[label]]` markers are turned into in-page anchors; the runs'
 * outputs are joined in order.
 */
module RichTextRender {
  import opened Text
  import opened WikiLinks
  import opened NotionBlocks

  /** `s.replace(/c/g, by)` for a single character `c`. */
  function ReplaceChar(s: string, c: char, rep: string): (r: string)
    ensures forall x :: x in r ==> (x in s && x != c) || x in rep
  {
    if s == [] then "" else (if s[0] == c then rep else [s[0]]) + ReplaceChar(s[1..], c, rep)
  }

  lemma {:induction false} ReplaceCharAppend(a: string, b: string, c: char, rep: string)
    ensures ReplaceChar(a + b, c, rep) == ReplaceChar(a, c, rep) + ReplaceChar(b, c, rep)
    decreases |a|
  {
    if a == [] {
      assert a + b == b;
    } else {
      assert (a + b)[0] == a[0] && (a + b)[1..] == a[1..] + b;
      ReplaceCharAppend(a[1..], b, c, rep);
    }
  }

  /**
   * The escaping step: `&` first, then `<`, then `>`. No raw angle bracket
   * survives, and every other character of the result comes from the input
   * or from an entity.
   */
  function Escape(s: string): (r: string)
    ensures '<' !in r && '>' !in r
    ensures forall x :: x in r ==> x in s || x in "&amp;lt;gt"
  {
    ReplaceChar(ReplaceChar(ReplaceChar(s, '&', "&amp;"), '<', "&lt;"), '>', "&gt;")
  }

  lemma {:induction false} ReplaceAbsent(s: string, c: char, rep: string)
    requires c !in s
    ensures ReplaceChar(s, c, rep) == s
    decreases |s|
  {
    if s != [] {
      assert c !in s[1..] by {
        forall k | 0 <= k < |s[1..]| ensures s[1..][k] == s[k + 1] { }
      }
      ReplaceAbsent(s[1..], c, rep);
    }
  }

  /** The entity a single character escapes to. */
  function EscapeChar(c: char): string {
    if c == '&' then "&amp;" else if c == '<' then "&lt;" else if c == '>' then "&gt;" else [c]
  }

  lemma EscapeOne(c: char)
    ensures Escape([c]) == EscapeChar(c)
  {
    var r1 := ReplaceChar([c], '&', "&amp;");
    assert [c][0] == c && [c][1..] == [];
    assert r1 == (if c == '&' then "&amp;" else [c]) + ReplaceChar([], '&', "&amp;");
    var r2 := ReplaceChar(r1, '<', "&lt;");
    if c == '&' {
      ReplaceAbsent(r1, '<', "&lt;");
      ReplaceAbsent(r2, '>', "&gt;");
    } else {
      assert r2 == (if c == '<' then "&lt;" else [c]) + ReplaceChar([], '<', "&lt;");
      if c == '<' {
        ReplaceAbsent(r2, '>', "&gt;");
      } else {
        assert ReplaceChar(r2, '>', "&gt;") == (if c == '>' then "&gt;" else [c]) + ReplaceChar([], '>', "&gt;");
      }
    }
  }

  /** Escaping works character by character. */
  lemma EscapeAppend(a: string, b: string)
    ensures Escape(a + b) == Escape(a) + Escape(b)
  {
    var a1, b1 := ReplaceChar(a, '&', "&amp;"), ReplaceChar(b, '&', "&amp;");
    ReplaceCharAppend(a, b, '&', "&amp;");
    var a2, b2 := ReplaceChar(a1, '<', "&lt;"), ReplaceChar(b1, '<', "&lt;");
    ReplaceCharAppend(a1, b1, '<', "&lt;");
    ReplaceCharAppend(a2, b2, '>', "&gt;");
  }

  /** Decoding of the three entities the escaping step produces. */
  function Unescape(t: string): string {
    if t == [] then ""
    else if |t| >= 5 && t[..5] == "&amp;" then "&" + Unescape(t[5..])
    else if |t| >= 4 && t[..4] == "&lt;" then "<" + Unescape(t[4..])
    else if |t| >= 4 && t[..4] == "&gt;" then ">" + Unescape(t[4..])
    else [t[0]] + Unescape(t[1..])
  }

  /**
   * Escaping loses nothing: decoding the entities gives the text back. This
   * holds because `&` is replaced before the entities for `<` and `>` are
   * introduced.
   */
  lemma {:induction false} EscapeRoundTrip(s: string)
    ensures Unescape(Escape(s)) == s
    decreases |s|
  {
    if s != [] {
      var c, rest := s[0], s[1..];
      assert s == [c] + rest;
      EscapeAppend([c], rest);
      EscapeOne(c);
      EscapeRoundTrip(rest);
      UnescapeFirst(c, Escape(rest));
    }
  }

  /** Decoding an escaped character followed by more escaped text. */
  lemma UnescapeFirst(c: char, e: string)
    ensures Unescape(EscapeChar(c) + e) == [c] + Unescape(e)
  {
    if c == '&' {
      UnescapeAmp(e);
    } else if c == '<' || c == '>' {
      UnescapeAngle(c, e);
    } else {
      UnescapePlain(c, e);
    }
  }

  lemma UnescapeAmp(e: string)
    ensures Unescape("&amp;" + e) == "&" + Unescape(e)
  {
    var t := "&amp;" + e;
    assert t[..5] == "&amp;" && t[5..] == e;
  }

  /** Decoding `&lt;` or `&gt;` at the front gives back the angle bracket. */
  lemma UnescapeAngle(c: char, e: string)
    requires c == '<' || c == '>'
    ensures Unescape(EscapeChar(c) + e) == [c] + Unescape(e)
  {
    var t := EscapeChar(c) + e;
    if c == '<' {
      assert t[..4] == "&lt;" && t[4..] == e;
    } else {
      assert t[1] == 'g';
      assert t[..4] == "&gt;" && t[4..] == e;
    }
  }

  lemma UnescapePlain(c: char, e: string)
    requires c != '&'
    ensures Unescape([c] + e) == [c] + Unescape(e)
  {
    var t := [c] + e;
    assert t[0] == c && t[1..] == e;
  }

  /** `<tag>t</tag>`. */
  function Wrap(tag: string, t: string): string {
    "<" + tag + ">" + t + "</" + tag + ">"
  }

  /** The annotation step, in the source's fixed order: code innermost, then bold, italic, strikethrough, underline. */
  function Annotate(t: string, a: Annotations): string {
    var t1 := if a.code then Wrap("code", t) else t;
    var t2 := if a.bold then Wrap("strong", t1) else t1;
    var t3 := if a.italic then Wrap("em", t2) else t2;
    var t4 := if a.strikethrough then Wrap("s", t3) else t3;
    if a.underline then Wrap("u", t4) else t4
  }

  /** The tags a run's flags select, innermost first. */
  function ActiveTags(a: Annotations): seq<string> {
    OptTag(a.code, "code") + OptTag(a.bold, "strong") + OptTag(a.italic, "em")
    + OptTag(a.strikethrough, "s") + OptTag(a.underline, "u")
  }

  function Reverse(xs: seq<string>): seq<string> {
    if xs == [] then [] else Reverse(xs[1..]) + [xs[0]]
  }

  /** Opening tags, in the order given. */
  function OpenTags(tags: seq<string>): string {
    if tags == [] then "" else "<" + tags[0] + ">" + OpenTags(tags[1..])
  }

  /** Closing tags, in the order given. */
  function CloseTags(tags: seq<string>): string {
    if tags == [] then "" else "</" + tags[0] + ">" + CloseTags(tags[1..])
  }

  /** Wrapping in `tags` one after the other, the first innermost. */
  function WrapAll(t: string, tags: seq<string>): string
    decreases tags
  {
    if tags == [] then t else WrapAll(Wrap(tags[0], t), tags[1..])
  }

  lemma {:induction false} OpenTagsAppend(a: seq<string>, b: seq<string>)
    ensures OpenTags(a + b) == OpenTags(a) + OpenTags(b)
    decreases |a|
  {
    if a == [] {
      assert a + b == b;
    } else {
      assert (a + b)[0] == a[0] && (a + b)[1..] == a[1..] + b;
      OpenTagsAppend(a[1..], b);
    }
  }

  lemma {:induction false} WrapAllAppend(t: string, a: seq<string>, b: seq<string>)
    ensures WrapAll(t, a + b) == WrapAll(WrapAll(t, a), b)
    decreases |a|
  {
    if a == [] {
      assert a + b == b;
    } else {
      assert (a + b)[0] == a[0] && (a + b)[1..] == a[1..] + b;
      WrapAllAppend(Wrap(a[0], t), a[1..], b);
    }
  }

  /** Successive wrapping opens the tags outermost first and closes them innermost first. */
  lemma {:induction false} WrapAllNesting(t: string, tags: seq<string>)
    ensures WrapAll(t, tags) == OpenTags(Reverse(tags)) + t + CloseTags(tags)
    decreases |tags|
  {
    if tags != [] {
      var x, rest := tags[0], tags[1..];
      WrapAllNesting(Wrap(x, t), rest);
      OpenTagsAppend(Reverse(rest), [x]);
      assert OpenTags([x]) == "<" + x + ">" by {
        assert [x][1..] == [];
      }
      Regroup(OpenTags(Reverse(rest)), "<" + x + ">", t, "</" + x + ">", CloseTags(rest));
    }
  }

  /** An optional tag: wrapping in none or in one. */
  function OptTag(flag: bool, tag: string): seq<string> {
    if flag then [tag] else []
  }

  /** Wrapping in the tags of one more flag: in its tag when set, not at all otherwise. */
  lemma WrapOpt(t: string, tags: seq<string>, flag: bool, tag: string)
    ensures WrapAll(t, tags + OptTag(flag, tag)) == if flag then Wrap(tag, WrapAll(t, tags)) else WrapAll(t, tags)
  {
    WrapAllAppend(t, tags, OptTag(flag, tag));
    if flag {
      assert [tag][1..] == [];
    }
  }

  /** The annotation step wraps in the active tags one after the other, innermost first. */
  lemma AnnotateWrapAll(t: string, a: Annotations)
    ensures Annotate(t, a) == WrapAll(t, ActiveTags(a))
  {
    var c := OptTag(a.code, "code");
    var b := OptTag(a.bold, "strong");
    var i := OptTag(a.italic, "em");
    var s := OptTag(a.strikethrough, "s");
    var u := OptTag(a.underline, "u");
    assert c == [] + c;
    WrapOpt(t, [], a.code, "code");
    WrapOpt(t, c, a.bold, "strong");
    WrapOpt(t, c + b, a.italic, "em");
    WrapOpt(t, c + b + i, a.strikethrough, "s");
    WrapOpt(t, c + b + i + s, a.underline, "u");
    assert ActiveTags(a) == c + b + i + s + u;
  }

  lemma Regroup(o: string, p: string, t: string, q: string, c: string)
    ensures o + (p + t + q) + c == (o + p) + t + (q + c)
  {
  }

  /**
   * Whatever flags are set, the annotation tags nest in one fixed order:
   * a run that is bold and italic becomes `<em><strong>t</strong></em>`.
   */
  lemma AnnotateNesting(t: string, a: Annotations)
    ensures Annotate(t, a) == OpenTags(Reverse(ActiveTags(a))) + t + CloseTags(ActiveTags(a))
  {
    AnnotateWrapAll(t, a);
    WrapAllNesting(t, ActiveTags(a));
  }

  /** The nine base colours of the palette. */
  const BaseColors: set<string> := {"gray", "brown", "orange", "yellow", "green", "blue", "purple", "pink", "red"}

  /** `colorMap`: a foreground value for each base colour and a tint for its `_background` variant. */
  const Palette: map<string, string> := map[
    "gray" := "#9ca3af",
    "brown" := "#a8a29e",
    "orange" := "#fb923c",
    "yellow" := "#fbbf24",
    "green" := "#4ade80",
    "blue" := "#60a5fa",
    "purple" := "#a78bfa",
    "pink" := "#f472b6",
    "red" := "#f87171",
    "gray_background" := "rgba(156, 163, 175, 0.2)",
    "brown_background" := "rgba(168, 162, 158, 0.2)",
    "orange_background" := "rgba(251, 146, 60, 0.2)",
    "yellow_background" := "rgba(251, 191, 36, 0.2)",
    "green_background" := "rgba(74, 222, 128, 0.2)",
    "blue_background" := "rgba(96, 165, 250, 0.2)",
    "purple_background" := "rgba(167, 139, 250, 0.2)",
    "pink_background" := "rgba(244, 114, 182, 0.2)",
    "red_background" := "rgba(248, 113, 113, 0.2)"
  ]

  function ForegroundSpan(css: string, t: string): string {
    "<span style=\"color: " + css + "\">" + t + "</span>"
  }

  function BackgroundSpan(css: string, t: string): string {
    "<span style=\"background-color: " + css + "; padding: 0 4px; border-radius: 3px;\">" + t + "</span>"
  }

  /** The colour step: a span only for a name in the palette, a background style when the name contains `background`. */
  function ColorWrap(t: string, color: string): string {
    if color != "" && color != "default" && color in Palette then
      if Includes(color, "background") then BackgroundSpan(Palette[color], t) else ForegroundSpan(Palette[color], t)
    else
      t
  }

  /** Exactly the colours outside the palette leave the text unstyled. */
  lemma ColorWrapIdentity(t: string, color: string)
    ensures color !in Palette <==> ColorWrap(t, color) == t
  {
    if color in Palette {
      assert |ColorWrap(t, color)| > |t|;
    }
  }

  /** A base colour gets a foreground span with its palette value. */
  lemma ColorWrapBase(t: string, b: string)
    requires b in BaseColors
    ensures b in Palette && ColorWrap(t, b) == ForegroundSpan(Palette[b], t)
  {
    assert !OccursAt("background", b, 0);
  }

  /** Each base colour has a `_background` variant in the palette. */
  lemma BackgroundInPalette(b: string)
    requires b in BaseColors
    ensures b + "_background" in Palette
  {
    var v := b + "_background";
    if b == "gray" { assert v == "gray_background"; }
    else if b == "brown" { assert v == "brown_background"; }
    else if b == "orange" { assert v == "orange_background"; }
    else if b == "yellow" { assert v == "yellow_background"; }
    else if b == "green" { assert v == "green_background"; }
    else if b == "blue" { assert v == "blue_background"; }
    else if b == "purple" { assert v == "purple_background"; }
    else if b == "pink" { assert v == "pink_background"; }
    else { assert v == "red_background"; }
  }

  /** The `_background` variant of a base colour gets a background span with its palette value. */
  lemma ColorWrapBackground(t: string, b: string)
    requires b in BaseColors
    ensures b + "_background" in Palette
    ensures ColorWrap(t, b + "_background") == BackgroundSpan(Palette[b + "_background"], t)
  {
    BackgroundInPalette(b);
    var v, p := b + "_background", b + "_";
    assert v == p + "background";
    OccursAtEnd(p, "background");
    assert Includes(v, "background");
  }

  /** The opening tag of an external link: a new browsing context, without `opener` or referrer. */
  function AnchorOpen(href: string): string {
    "<a href=\"" + href + "\" target=\"_blank\" rel=\"noopener noreferrer\">"
  }

  /** An `href` without `[` gives an opening tag without `[`. */
  lemma AnchorOpenNoBracket(href: string)
    requires '[' !in href
    ensures '[' !in AnchorOpen(href)
  {
    assert '[' !in "<a href=\"" && '[' !in "\" target=\"_blank\" rel=\"noopener noreferrer\">";
  }

  /** The link step: an anchor opening in a new context when `href` is set. */
  function LinkWrap(t: string, href: string): string {
    if href != "" then AnchorOpen(href) + t + "</a>" else t
  }

  /** One run's markup: escape, annotate and colour (only when `annotations` is present), link, then rewrite `[[label]]`. */
  function RenderRun(rt: RichText): string {
    var escaped := Escape(rt.plainText);
    var styled := match rt.annotations
      case None => escaped
      case Some(a) => ColorWrap(Annotate(escaped, a), a.color);
    RewriteWikiLinks(LinkWrap(styled, rt.href))
  }

  /** `xs.map(f).join('')`. */
  function JoinMap(xs: seq<RichText>, f: RichText -> string): string {
    if xs == [] then "" else f(xs[0]) + JoinMap(xs[1..], f)
  }

  lemma {:induction false} JoinMapAppend(a: seq<RichText>, b: seq<RichText>, f: RichText -> string)
    ensures JoinMap(a + b, f) == JoinMap(a, f) + JoinMap(b, f)
    decreases |a|
  {
    if a == [] {
      assert a + b == b;
    } else {
      assert (a + b)[0] == a[0] && (a + b)[1..] == a[1..] + b;
      JoinMapAppend(a[1..], b, f);
    }
  }

  /** `richTextToHtml`: `''` for a missing or empty array, otherwise the runs' markup joined in order. */
  function RichTextToHtml(runs: seq<RichText>): string {
    if |runs| == 0 then "" else JoinMap(runs, RenderRun)
  }

  /** Rendering distributes over concatenation of run arrays: the runs are rendered independently and in order. */
  lemma RichTextAppend(a: seq<RichText>, b: seq<RichText>)
    ensures RichTextToHtml(a + b) == RichTextToHtml(a) + RichTextToHtml(b)
  {
    JoinMapAppend(a, b, RenderRun);
  }

  /** A single run renders as that run's markup. */
  lemma RichTextSingle(rt: RichText)
    ensures RichTextToHtml([rt]) == RenderRun(rt)
  {
    assert [rt][0] == rt && [rt][1..] == [];
    assert JoinMap([rt], RenderRun) == RenderRun(rt) + JoinMap([], RenderRun);
  }

  /**
   * A plain run (no annotations, no link, no `[`) renders as its escaped
   * text, which decodes back to the text.
   */
  lemma PlainRun(text: string)
    requires '[' !in text
    ensures RenderRun(RichText(text, None, "")) == Escape(text)
    ensures Unescape(RenderRun(RichText(text, None, ""))) == text
  {
    NoBracketNoLinks(Escape(text));
    RewriteWithoutLinks(Escape(text));
    EscapeRoundTrip(text);
  }

  /** A run with annotations and no link is its escaped text, annotated, coloured, then rewritten. */
  lemma StyledRun(rt: RichText, a: Annotations)
    requires rt.annotations == Some(a) && rt.href == ""
    ensures RenderRun(rt) == RewriteWikiLinks(ColorWrap(Annotate(Escape(rt.plainText), a), a.color))
  {
  }

  /**
   * A run with a link: the styled text (when there are annotations) goes
   * inside the anchor, and the rewrite runs over the whole anchor.
   */
  lemma LinkedStyledRun(rt: RichText, a: Annotations)
    requires rt.annotations == Some(a) && rt.href != ""
    ensures RenderRun(rt) == RewriteWikiLinks(AnchorOpen(rt.href) + ColorWrap(Annotate(Escape(rt.plainText), a), a.color) + "</a>")
  {
  }

  /** A linked run without annotations or `[` is its escaped text inside the anchor, which opens in a new context. */
  lemma LinkedRun(text: string, href: string)
    requires '[' !in text && '[' !in href && href != ""
    ensures RenderRun(RichText(text, None, href)) == AnchorOpen(href) + Escape(text) + "</a>"
  {
    var s := AnchorOpen(href) + Escape(text) + "</a>";
    AnchorOpenNoBracket(href);
    assert '[' !in s;
    NoBracketNoLinks(s);
    RewriteWithoutLinks(s);
  }

  /**
   * A wiki-link in a run that has a link becomes a node anchor nested inside
   * the run's anchor: the rewrite runs after the link step.
   */
  lemma LinkedWikiRun(l: string, href: string)
    requires IsLabel(l) && '&' !in l && '<' !in l && '>' !in l && '[' !in href && href != ""
    ensures RenderRun(RichText("[[" + l + "]]", None, href)) == AnchorOpen(href) + Anchor(l) + "</a>"
  {
    var open := AnchorOpen(href);
    EscapeLinkText(l);
    AnchorOpenNoBracket(href);
    assert open + ("[[" + l + "]]") + "</a>" == open + "[[" + l + "]]" + "</a>";
    RewriteOneLink(open, l, "</a>");
  }

  /** Link text without entity characters escapes to itself. */
  lemma EscapeLinkText(l: string)
    requires '&' !in l && '<' !in l && '>' !in l
    ensures Escape("[[" + l + "]]") == "[[" + l + "]]"
  {
    EscapeAppend("[[" + l, "]]");
    EscapeAppend("[[", l);
    NoEntityChars(l);
  }

  /** Bold alone wraps the text in `strong`, whatever the colour. */
  lemma BoldOnly(t: string, color: string)
    ensures Annotate(t, Annotations(true, false, false, false, false, color)) == "<strong>" + t + "</strong>"
  {
  }

  /** A wiki-link inside bold text still becomes an anchor, inside the `strong` element. */
  lemma BoldLinkRun(l: string)
    requires IsLabel(l) && '&' !in l && '<' !in l && '>' !in l
    ensures RenderRun(RichText("[[" + l + "]]", Some(Annotations(true, false, false, false, false, "")), ""))
            == "<strong>" + Anchor(l) + "</strong>"
  {
    var s := "[[" + l + "]]";
    StyledRun(RichText(s, Some(Annotations(true, false, false, false, false, "")), ""), Annotations(true, false, false, false, false, ""));
    EscapeLinkText(l);
    BoldOnly(s, "");
    assert ColorWrap("<strong>" + s + "</strong>", "") == "<strong>" + s + "</strong>";
    assert "<strong>" + s + "</strong>" == "<strong>" + "[[" + l + "]]" + "</strong>";
    RewriteOneLink("<strong>", l, "</strong>");
  }

  lemma {:induction false} NoEntityChars(s: string)
    requires '&' !in s && '<' !in s && '>' !in s
    ensures Escape(s) == s
    decreases |s|
  {
    if s != [] {
      assert s == [s[0]] + s[1..];
      EscapeAppend([s[0]], s[1..]);
      NoEntityChars(s[1..]);
    }
  }

  /** A bold run of any colour, without a link: `strong` first, then the colour step. */
  lemma BoldStyledRun(text: string, color: string)
    ensures RenderRun(RichText(text, Some(Annotations(true, false, false, false, false, color)), ""))
            == RewriteWikiLinks(ColorWrap("<strong>" + Escape(text) + "</strong>", color))
  {
    var a := Annotations(true, false, false, false, false, color);
    StyledRun(RichText(text, Some(a), ""), a);
    BoldOnly(Escape(text), color);
  }

  /**
   * A bold run in a base colour (`a&b` in red, say): the escaped text inside
   * `strong`, inside the colour's foreground span.
   */
  lemma BoldColoredRun(text: string, color: string)
    requires '[' !in text && color in BaseColors
    ensures RenderRun(RichText(text, Some(Annotations(true, false, false, false, false, color)), ""))
            == ForegroundSpan(Palette[color], "<strong>" + Escape(text) + "</strong>")
  {
    var t := "<strong>" + Escape(text) + "</strong>";
    BoldStyledRun(text, color);
    ColorWrapBase(t, color);
    PaletteNoBracket(color);
    StrongNoBracket(text);
    PlainSpan(Palette[color], t);
  }

  lemma PaletteNoBracket(c: string)
    requires c in BaseColors
    ensures '[' !in Palette[c]
  {
  }

  lemma StrongNoBracket(text: string)
    requires '[' !in text
    ensures '[' !in "<strong>" + Escape(text) + "</strong>"
  {
  }

  /** A foreground span around text without `[` is left alone by the rewrite. */
  lemma PlainSpan(css: string, t: string)
    requires '[' !in css && '[' !in t
    ensures RewriteWikiLinks(ForegroundSpan(css, t)) == ForegroundSpan(css, t)
  {
    NoBracketNoLinks(ForegroundSpan(css, t));
    RewriteWithoutLinks(ForegroundSpan(css, t));
  }
}
