/**
 * The `[[label]]` wiki-link syntax shared by the page renderer
 * (api/notion-page.js) and the graph builder (api/notion.js). Both use the
 * global regular expression `/\[\[([^\]]+)\]\]/g`; here its left-to-right,
 * non-overlapping matching is an explicit scan that cuts a string into
 * tokens: single characters and matched links.
 */
module WikiLinks {
  import opened Text

  /** Index of the first `]` in `s` at or after `j`, or `|s|` when there is none. */
  function CloseBracket(s: string, j: nat): (e: nat)
    requires j <= |s|
    ensures j <= e <= |s|
    ensures e < |s| ==> s[e] == ']'
    ensures forall k :: j <= k < e ==> s[k] != ']'
    decreases |s| - j
  {
    if j == |s| || s[j] == ']' then j else CloseBracket(s, j + 1)
  }

  /**
   * The regular expression matches at the start of `s` with its label
   * ending at `e`: `[[`, one or more characters other than `]`, then `]]`.
   */
  ghost predicate MatchEndsAt(s: string, e: nat) {
    && 2 < e && e + 1 < |s|
    && s[0] == '[' && s[1] == '['
    && s[e] == ']' && s[e + 1] == ']'
    && forall k :: 2 <= k < e ==> s[k] != ']'
  }

  /**
   * The regular expression tried at the start of `s`: the end of the label
   * when it matches. The greedy `[^\]]+` stops at the first `]`, so the
   * match is unique.
   */
  function MatchAtStart(s: string): (m: Option<nat>)
    ensures forall e: nat :: MatchEndsAt(s, e) <==> m == Some(e)
  {
    if |s| >= 2 && s[0] == '[' && s[1] == '[' then
      var e := CloseBracket(s, 2);
      if e > 2 && e + 1 < |s| && s[e + 1] == ']' then Some(e) else None
    else
      None
  }

  /** What the capture group `([^\]]+)` can hold. */
  predicate IsLabel(l: string) {
    l != [] && ']' !in l
  }

  datatype Token = Char(c: char) | Link(name: string)

  /**
   * The scan of `String.prototype.replace` / `RegExp.prototype.exec` with
   * the `g` flag: at each position try a match; on success emit the link
   * and continue after `]]`, otherwise emit one character and retry one
   * position further.
   */
  function Tokenize(s: string): (ts: seq<Token>)
    ensures forall i :: 0 <= i < |ts| && ts[i].Link? ==> IsLabel(ts[i].name)
    decreases |s|
  {
    if s == [] then
      []
    else
      match MatchAtStart(s)
      case Some(e) =>
        assert forall k :: 0 <= k < e - 2 ==> s[2..e][k] == s[k + 2];
        [Link(s[2..e])] + Tokenize(s[e + 2..])
      case None => [Char(s[0])] + Tokenize(s[1..])
  }

  /** The text a token was cut from. */
  function TokenText(t: Token): string {
    match t
    case Char(c) => [c]
    case Link(l) => "[[" + l + "]]"
  }

  function Untokenize(ts: seq<Token>): string {
    if ts == [] then "" else TokenText(ts[0]) + Untokenize(ts[1..])
  }

  /** Cutting a string into tokens loses nothing: gluing them back gives the string. */
  lemma {:induction false} TokenizeRoundTrip(s: string)
    ensures Untokenize(Tokenize(s)) == s
    decreases |s|
  {
    if s != [] {
      var ts := Tokenize(s);
      match MatchAtStart(s)
      case Some(e) =>
        assert ts == [Link(s[2..e])] + Tokenize(s[e + 2..]);
        TokenizeRoundTrip(s[e + 2..]);
        UntokenizeCons(Link(s[2..e]), Tokenize(s[e + 2..]));
        LinkSplit(s, e);
      case None =>
        assert ts == [Char(s[0])] + Tokenize(s[1..]);
        TokenizeRoundTrip(s[1..]);
        UntokenizeCons(Char(s[0]), Tokenize(s[1..]));
        assert s == [s[0]] + s[1..];
    }
  }

  lemma UntokenizeCons(t: Token, ts: seq<Token>)
    ensures Untokenize([t] + ts) == TokenText(t) + Untokenize(ts)
  {
    assert ([t] + ts)[1..] == ts;
  }

  /** A match ending at `e` splits `s` into `[[`, the label, `]]` and the rest. */
  lemma LinkSplit(s: string, e: nat)
    requires MatchEndsAt(s, e)
    ensures "[[" + s[2..e] + "]]" + s[e + 2..] == s
  {
    assert s[..2] == "[[" && s[e..e + 2] == "]]";
    assert s == s[..2] + s[2..e] + s[e..e + 2] + s[e + 2..];
  }

  /**
   * A token sequence the scan could have produced: every link holds a
   * label, and no single-character token stands where a match begins.
   */
  ghost predicate Canonical(ts: seq<Token>) {
    forall i :: 0 <= i < |ts| ==>
      if ts[i].Link? then IsLabel(ts[i].name)
      else MatchAtStart(Untokenize(ts[i..])).None?
  }

  /** The scan yields canonical tokens; `UntokenizeCanonical` is the converse. */
  lemma {:induction false} TokenizeCanonical(s: string)
    ensures Canonical(Tokenize(s))
    decreases |s|
  {
    if s != [] {
      var ts := Tokenize(s);
      match MatchAtStart(s)
      case Some(e) =>
        TokenizeCanonical(s[e + 2..]);
        assert ts[1..] == Tokenize(s[e + 2..]);
        forall i | 1 <= i < |ts| ensures ts[i..] == ts[1..][i - 1..] { }
      case None =>
        TokenizeCanonical(s[1..]);
        assert ts[1..] == Tokenize(s[1..]);
        TokenizeRoundTrip(s);
        forall i | 1 <= i < |ts| ensures ts[i..] == ts[1..][i - 1..] { }
    }
  }

  lemma {:induction false} UntokenizeCanonical(ts: seq<Token>)
    requires Canonical(ts)
    ensures Tokenize(Untokenize(ts)) == ts
    decreases |ts|
  {
    if ts != [] {
      var s := Untokenize(ts);
      var rest := Untokenize(ts[1..]);
      assert ts[0..] == ts;
      CanonicalTail(ts);
      UntokenizeCanonical(ts[1..]);
      match ts[0]
      case Char(c) =>
        assert s == [c] + rest;
        assert s[1..] == rest;
      case Link(l) =>
        assert s == "[[" + l + "]]" + rest;
        LinkPrefix(l, rest);
    }
  }

  /** Dropping the first token keeps a token sequence canonical. */
  lemma CanonicalTail(ts: seq<Token>)
    requires ts != [] && Canonical(ts)
    ensures Canonical(ts[1..])
  {
    forall i | 0 <= i < |ts[1..]| ensures ts[1..][i..] == ts[i + 1..] { }
  }

  /** `[[l]]` at the start of a string is a match of exactly that label. */
  lemma LinkPrefix(l: string, rest: string)
    requires IsLabel(l)
    ensures var s := "[[" + l + "]]" + rest;
      MatchEndsAt(s, |l| + 2) && s[2..|l| + 2] == l && s[|l| + 4..] == rest
  {
    var s := "[[" + l + "]]" + rest;
    var e := |l| + 2;
    forall k | 2 <= k < e ensures s[k] != ']' {
      assert s[k] == l[k - 2];
    }
    assert s[2..e] == l && s[e + 2..] == rest;
  }

  /** The labels of the links, in order, as the capture group holds them. */
  function Labels(ts: seq<Token>): (ls: seq<string>)
    ensures |ls| <= |ts|
  {
    if ts == [] then []
    else if ts[0].Link? then [ts[0].name] + Labels(ts[1..])
    else Labels(ts[1..])
  }

  /** The labels of two token lists are those of the first, then those of the second. */
  lemma {:induction false} LabelsAppend(a: seq<Token>, b: seq<Token>)
    ensures Labels(a + b) == Labels(a) + Labels(b)
    decreases |a|
  {
    if a == [] {
      assert a + b == b;
    } else {
      assert (a + b)[0] == a[0] && (a + b)[1..] == a[1..] + b;
      LabelsAppend(a[1..], b);
    }
  }

  /** A label is listed exactly when some token is a link with that name. */
  lemma {:induction false} LabelsMembers(ts: seq<Token>, l: string)
    ensures l in Labels(ts) <==> exists i :: 0 <= i < |ts| && ts[i] == Link(l)
    decreases |ts|
  {
    if ts != [] {
      LabelsMembers(ts[1..], l);
      if l in Labels(ts[1..]) {
        var i :| 0 <= i < |ts| - 1 && ts[1..][i] == Link(l);
        assert ts[i + 1] == Link(l);
      }
      if exists i :: 0 <= i < |ts| && ts[i] == Link(l) {
        var i :| 0 <= i < |ts| && ts[i] == Link(l);
        if i > 0 {
          assert ts[1..][i - 1] == Link(l);
        }
      }
    }
  }

  /** A string without `[` holds no wiki-link. */
  lemma {:induction false} NoBracketNoLinks(s: string)
    requires '[' !in s
    ensures Labels(Tokenize(s)) == []
    decreases |s|
  {
    if s != [] {
      assert MatchAtStart(s).None?;
      assert s[1..] == s[1..] && '[' !in s[1..] by {
        forall k | 0 <= k < |s[1..]| ensures s[1..][k] == s[k + 1] { }
      }
      NoBracketNoLinks(s[1..]);
    }
  }

  /**
   * The anchor the renderer puts in place of `[[label]]`: the normalised
   * label as `data-node` and the trimmed label as the visible text.
   */
  function Anchor(l: string): string {
    "<a href=\"#\" class=\"node-link\" data-node=\"" + Normalize(l) + "\">" + Trim(l) + "</a>"
  }

  /**
   * The output of `replace` for a token: a character stands for itself and
   * a match is replaced by what the callback `anchor` returns for its label.
   */
  function RenderToken(t: Token, anchor: string -> string): string {
    match t
    case Char(c) => [c]
    case Link(l) => anchor(l)
  }

  function RenderTokens(ts: seq<Token>, anchor: string -> string): string {
    if ts == [] then "" else RenderToken(ts[0], anchor) + RenderTokens(ts[1..], anchor)
  }

  /** `text.replace(/\[\[([^\]]+)\]\]/g, ...)` of the renderer, with `Anchor` as the callback. */
  function RewriteWikiLinks(s: string): string {
    RenderTokens(Tokenize(s), Anchor)
  }

  /** Tokens without links render as the text they came from. */
  lemma {:induction false} RenderWithoutLinks(ts: seq<Token>, anchor: string -> string)
    requires Labels(ts) == []
    ensures RenderTokens(ts, anchor) == Untokenize(ts)
    decreases |ts|
  {
    if ts != [] {
      RenderWithoutLinks(ts[1..], anchor);
    }
  }

  /** A string holding no wiki-link is left exactly as it is. */
  lemma RewriteWithoutLinks(s: string)
    requires Labels(Tokenize(s)) == []
    ensures RewriteWikiLinks(s) == s
  {
    RenderWithoutLinks(Tokenize(s), Anchor);
    TokenizeRoundTrip(s);
  }

  /** The single-character tokens of a string. */
  function Chars(p: string): (ts: seq<Token>)
    ensures |ts| == |p|
  {
    if p == [] then [] else [Char(p[0])] + Chars(p[1..])
  }

  /** A prefix without `[` can hold no match: the scan emits it character by character. */
  lemma {:induction false} TokenizeAfterPlain(p: string, rest: string)
    requires '[' !in p
    ensures Tokenize(p + rest) == Chars(p) + Tokenize(rest)
    decreases |p|
  {
    if p == [] {
      assert p + rest == rest;
    } else {
      var s := p + rest;
      assert s[0] == p[0] && s[1..] == p[1..] + rest;
      assert MatchAtStart(s) == None;
      assert Tokenize(s) == [Char(p[0])] + Tokenize(s[1..]);
      assert '[' !in p[1..] by {
        forall k | 0 <= k < |p[1..]| ensures p[1..][k] == p[k + 1] { }
      }
      TokenizeAfterPlain(p[1..], rest);
      assert Chars(p) == [Char(p[0])] + Chars(p[1..]);
    }
  }

  /** Single-character tokens render as the characters they hold. */
  lemma {:induction false} RenderChars(p: string, ts: seq<Token>, anchor: string -> string)
    ensures RenderTokens(Chars(p) + ts, anchor) == p + RenderTokens(ts, anchor)
    decreases |p|
  {
    if p == [] {
      assert Chars(p) + ts == ts;
    } else {
      var rest := Chars(p[1..]) + ts;
      assert Chars(p) + ts == [Char(p[0])] + rest;
      RenderCons(Char(p[0]), rest, anchor);
      RenderChars(p[1..], ts, anchor);
      ConcatAssoc([p[0]], p[1..], RenderTokens(ts, anchor), "");
      assert [p[0]] + p[1..] == p;
    }
  }

  /** A string that starts with `[[label]]` is cut into that link and the tokens of the rest. */
  lemma TokenizeLinkFirst(l: string, q: string)
    requires IsLabel(l)
    ensures Tokenize("[[" + l + "]]" + q) == [Link(l)] + Tokenize(q)
  {
    var m := "[[" + l + "]]" + q;
    var e := |l| + 2;
    assert MatchEndsAt(m, e) by {
      forall k | 2 <= k < e ensures m[k] != ']' {
        assert m[k] == l[k - 2];
      }
    }
    assert m[2..e] == l && m[e + 2..] == q;
  }

  /** Text without `[` renders as itself. */
  lemma RenderPlain(q: string, anchor: string -> string)
    requires '[' !in q
    ensures RenderTokens(Tokenize(q), anchor) == q
  {
    TokenizeAfterPlain(q, "");
    assert q + "" == q;
    RenderChars(q, [], anchor);
    assert Chars(q) + [] == Chars(q);
  }

  lemma RenderCons(t: Token, ts: seq<Token>, anchor: string -> string)
    ensures RenderTokens([t] + ts, anchor) == RenderToken(t, anchor) + RenderTokens(ts, anchor)
  {
    assert ([t] + ts)[0] == t && ([t] + ts)[1..] == ts;
  }

  /**
   * A `[[label]]` between two pieces of text without `[` is replaced by the
   * callback's output for that label, and nothing else changes.
   */
  lemma RenderOneLink(p: string, l: string, q: string, anchor: string -> string)
    requires '[' !in p && '[' !in q && IsLabel(l)
    ensures RenderTokens(Tokenize(p + "[[" + l + "]]" + q), anchor) == p + anchor(l) + q
  {
    var m := "[[" + l + "]]" + q;
    ConcatAssoc(p, "[[", l, "]]");
    ConcatAssoc(p, "[[" + l + "]]", q, "");
    assert p + "[[" + l + "]]" + q == p + m;
    TokenizeAfterPlain(p, m);
    TokenizeLinkFirst(l, q);
    RenderChars(p, Tokenize(m), anchor);
    RenderCons(Link(l), Tokenize(q), anchor);
    RenderPlain(q, anchor);
    ConcatAssoc(p, anchor(l), q, "");
  }

  /** The renderer's rewrite of one wiki-link surrounded by text without `[`. */
  lemma RewriteOneLink(p: string, l: string, q: string)
    requires '[' !in p && '[' !in q && IsLabel(l)
    ensures RewriteWikiLinks(p + "[[" + l + "]]" + q) == p + Anchor(l) + q
  {
    RenderOneLink(p, l, q, Anchor);
  }
}
