/**
 * String helpers shared by the renderer, the graph builder and the search
 * predicate: the JavaScript string operations the source relies on
 * (`trim`, `toLowerCase`, `toUpperCase`, `includes`, the default
 * `Array.prototype.sort` order), stated over `seq<char>`.
 */
module Text {

  datatype Option<+T> = None | Some(value: T)

  /** ASCII upper-case letter. */
  predicate IsUpper(c: char) {
    'A' <= c <= 'Z'
  }

  /** ASCII lower-case letter. */
  predicate IsLower(c: char) {
    'a' <= c <= 'z'
  }

  function LowerChar(c: char): (d: char)
    ensures !IsUpper(d)
    ensures IsUpper(c) ==> IsLower(d) && d as int == c as int + 32
    ensures !IsUpper(c) ==> d == c
  {
    if IsUpper(c) then (c as int + 32) as char else c
  }

  function UpperChar(c: char): (d: char)
    ensures !IsLower(d)
    ensures IsLower(c) ==> IsUpper(d) && d as int + 32 == c as int
    ensures !IsLower(c) ==> d == c
  {
    if IsLower(c) then (c as int - 32) as char else c
  }

  /** `String.prototype.toLowerCase`, restricted to the ASCII letters. */
  function ToLower(s: string): (r: string)
    ensures |r| == |s|
    ensures forall i :: 0 <= i < |r| ==> !IsUpper(r[i])
    ensures forall i :: 0 <= i < |r| ==> r[i] == LowerChar(s[i])
  {
    seq(|s|, i requires 0 <= i < |s| => LowerChar(s[i]))
  }

  predicate HasNoUpper(s: string) {
    forall i :: 0 <= i < |s| ==> !IsUpper(s[i])
  }

  /** Lower-casing is idempotent, and a string without upper-case letters is its own lower case. */
  lemma ToLowerFixesLower(s: string)
    ensures HasNoUpper(s) <==> ToLower(s) == s
    ensures ToLower(ToLower(s)) == ToLower(s)
  {
    if HasNoUpper(s) {
      assert forall i :: 0 <= i < |s| ==> ToLower(s)[i] == s[i];
    }
  }

  /**
   * The characters `String.prototype.trim` removes: the ECMAScript
   * WhiteSpace and LineTerminator code points.
   */
  predicate IsSpace(c: char) {
    || c == '\t' || c == '\n' || c == '\U{000B}' || c == '\U{000C}' || c == '\r'
    || c == ' ' || c == '\U{00A0}' || c == '\U{1680}'
    || ('\U{2000}' <= c <= '\U{200A}')
    || c == '\U{2028}' || c == '\U{2029}' || c == '\U{202F}' || c == '\U{205F}'
    || c == '\U{3000}' || c == '\U{FEFF}'
  }

  /** Every character of `s` from index `lo` up to `hi` is a space. */
  predicate SpaceBetween(s: string, lo: nat, hi: nat)
    requires lo <= hi <= |s|
  {
    forall k :: lo <= k < hi ==> IsSpace(s[k])
  }

  /** A string that neither starts nor ends with a space. */
  predicate IsTrimmed(s: string) {
    s == [] || (!IsSpace(s[0]) && !IsSpace(s[|s| - 1]))
  }

  function TrimStart(s: string): (r: string)
    ensures |r| <= |s| && r == s[|s| - |r|..] && SpaceBetween(s, 0, |s| - |r|)
    ensures r == [] || !IsSpace(r[0])
  {
    if s != [] && IsSpace(s[0]) then TrimStart(s[1..]) else s
  }

  function TrimEnd(s: string): (r: string)
    ensures |r| <= |s| && r == s[..|r|] && SpaceBetween(s, |r|, |s|)
    ensures r == [] || !IsSpace(r[|r| - 1])
  {
    if s != [] && IsSpace(s[|s| - 1]) then TrimEnd(s[..|s| - 1]) else s
  }

  /** `r` sits at offset `i` of `s` with nothing but spaces around it. */
  predicate SpacePadded(s: string, r: string, i: nat) {
    i + |r| <= |s| && s[i..i + |r|] == r && SpaceBetween(s, 0, i) && SpaceBetween(s, i + |r|, |s|)
  }

  /**
   * `String.prototype.trim`: `s` is the result with a run of spaces on each
   * side, and the result has no space at either end.
   */
  function Trim(s: string): (r: string)
    ensures IsTrimmed(r)
    ensures exists i :: SpacePadded(s, r, i)
  {
    TrimmedBothEnds(s);
    PaddedBothEnds(s);
    TrimEnd(TrimStart(s))
  }

  /** Trimming the end after the start leaves no space at either end. */
  lemma TrimmedBothEnds(s: string)
    ensures IsTrimmed(TrimEnd(TrimStart(s)))
  {
    var t := TrimStart(s);
    var r := TrimEnd(t);
    assert r != [] ==> r[0] == t[0];
  }

  /** What trimming removes from each end is a run of spaces. */
  lemma PaddedBothEnds(s: string)
    ensures SpacePadded(s, TrimEnd(TrimStart(s)), |s| - |TrimStart(s)|)
  {
    PaddedParts(s, TrimStart(s), TrimEnd(TrimStart(s)));
  }

  /** A prefix `r` of a suffix `t` of `s`, each cut off at spaces, is padded in `s`. */
  lemma PaddedParts(s: string, t: string, r: string)
    requires |t| <= |s| && t == s[|s| - |t|..] && SpaceBetween(s, 0, |s| - |t|)
    requires |r| <= |t| && r == t[..|r|] && SpaceBetween(t, |r|, |t|)
    ensures SpacePadded(s, r, |s| - |t|)
  {
    var i := |s| - |t|;
    assert s[i..i + |r|] == r by {
      SliceOfSuffix(s, i, |r|);
    }
    forall k | i + |r| <= k < |s|
      ensures IsSpace(s[k])
    {
      assert s[k] == t[k - i];
    }
  }

  lemma SliceOfSuffix(s: string, i: nat, k: nat)
    requires i + k <= |s|
    ensures s[i..][..k] == s[i..i + k]
    ensures s[i..][k..] == s[i + k..]
  {
  }

  /** Trimming a string that has no space at either end changes nothing. */
  lemma TrimOfTrimmed(s: string)
    requires IsTrimmed(s)
    ensures Trim(s) == s
  {
    assert TrimStart(s) == s;
  }

  /** Lower-casing maps spaces to spaces and non-spaces to non-spaces. */
  lemma LowerKeepsTrimmed(s: string)
    requires IsTrimmed(s)
    ensures IsTrimmed(ToLower(s))
  {
  }

  /** The label normalisation of the source: `trim()` then `toLowerCase()`. */
  function Normalize(s: string): (r: string)
    ensures IsTrimmed(r) && HasNoUpper(r)
  {
    LowerKeepsTrimmed(Trim(s));
    ToLower(Trim(s))
  }

  /** Normalising an already normalised label returns it unchanged. */
  lemma NormalizeIdempotent(s: string)
    ensures Normalize(Normalize(s)) == Normalize(s)
  {
    var n := Normalize(s);
    TrimOfTrimmed(n);
    ToLowerFixesLower(n);
  }

  /** `q` occurs in `s` as a contiguous piece. */
  ghost predicate IsInfix(q: string, s: string) {
    exists k: nat :: OccursAt(q, s, k)
  }

  predicate OccursAt(q: string, s: string, k: nat) {
    k + |q| <= |s| && s[k..k + |q|] == q
  }

  /** A string occurs at the end of any concatenation that ends with it. */
  lemma OccursAtEnd(p: string, q: string)
    ensures OccursAt(q, p + q, |p|)
  {
    assert (p + q)[|p|..|p| + |q|] == q;
  }

  /** `String.prototype.includes`: a left-to-right search for `q` in `s`. */
  function Includes(s: string, q: string): (b: bool)
    ensures b <==> IsInfix(q, s)
  {
    if |q| > |s| then
      false
    else if s[..|q|] == q then
      assert OccursAt(q, s, 0);
      true
    else
      InfixOfTail(s, q);
      Includes(s[1..], q)
  }

  /** An occurrence that does not start at 0 is an occurrence in the tail. */
  lemma InfixOfTail(s: string, q: string)
    requires |q| <= |s| && s[..|q|] != q
    ensures IsInfix(q, s) <==> IsInfix(q, s[1..])
  {
    if IsInfix(q, s[1..]) {
      var k: nat :| OccursAt(q, s[1..], k);
      assert OccursAt(q, s, k + 1);
    }
    if IsInfix(q, s) {
      var k: nat :| OccursAt(q, s, k);
      assert k != 0;
      assert OccursAt(q, s[1..], k - 1);
    }
  }

  /** Concatenation regrouped: the solver proves this cheaply only on plain variables. */
  lemma ConcatAssoc(a: string, b: string, c: string, d: string)
    ensures a + b + c + d == a + (b + c + d)
    ensures a + b + c == a + (b + c)
  {
  }

  /**
   * The order of JavaScript's default `sort` on strings, comparing code
   * unit by code unit; a proper prefix sorts first.
   */
  predicate LexLess(a: string, b: string) {
    if a == [] then b != []
    else if b == [] then false
    else if a[0] != b[0] then a[0] < b[0]
    else LexLess(a[1..], b[1..])
  }

  /** The order is strict and total: of two different strings exactly one is smaller. */
  lemma {:induction false} LexLessTotal(a: string, b: string)
    ensures !(LexLess(a, b) && LexLess(b, a))
    ensures a != b ==> LexLess(a, b) || LexLess(b, a)
    ensures !LexLess(a, a)
  {
    if a != [] && b != [] && a[0] == b[0] {
      LexLessTotal(a[1..], b[1..]);
      if a != b {
        assert a == [a[0]] + a[1..] && b == [b[0]] + b[1..];
      }
    }
    if a != [] {
      LexLessTotal(a[1..], a[1..]);
    }
  }

  /** The first character upper-cased, as `s.charAt(0).toUpperCase() + s.slice(1)`. */
  function Capitalize(s: string): string {
    if s == [] then "" else [UpperChar(s[0])] + s[1..]
  }

  /** Capitalizing keeps the length and the tail, and leaves no lower-case first letter. */
  lemma CapitalizeFirst(s: string)
    ensures |Capitalize(s)| == |s|
    ensures s != [] ==> Capitalize(s)[0] == UpperChar(s[0]) && !IsLower(Capitalize(s)[0]) && Capitalize(s)[1..] == s[1..]
  {
  }
}
