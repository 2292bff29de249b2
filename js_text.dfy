/**
 * String.prototype.trim as the JavaScript runtime defines it: it removes
 * every leading and trailing code point of the ECMAScript WhiteSpace and
 * LineTerminator productions.
 */
module JsText {

  /** The code points String.prototype.trim removes. U+0009..U+000D are tab,
      line feed, vertical tab, form feed and carriage return; the rest are the
      space separators (Unicode category Zs), the line and paragraph
      separators and the byte-order mark. U+0085 is not among them. */
  predicate IsWhitespace(c: char) {
    || ('\t' <= c <= '\r')
    || c == ' ' || c == '\U{00A0}' || c == '\U{1680}'
    || ('\U{2000}' <= c <= '\U{200A}')
    || c == '\U{2028}' || c == '\U{2029}' || c == '\U{202F}' || c == '\U{205F}'
    || c == '\U{3000}' || c == '\U{FEFF}'
  }

  predicate AllWhitespace(s: string) {
    forall i :: 0 <= i < |s| ==> IsWhitespace(s[i])
  }

  /** Neither end of `s` is whitespace. */
  predicate Trimmed(s: string) {
    s == [] || (!IsWhitespace(s[0]) && !IsWhitespace(s[|s| - 1]))
  }

  /** The length of the longest all-whitespace prefix of `s`. */
  function LeadingWhitespace(s: string): (n: nat)
    ensures n <= |s|
    ensures AllWhitespace(s[..n])
    ensures n < |s| ==> !IsWhitespace(s[n])
  {
    if s == [] || !IsWhitespace(s[0]) then 0
    else
      var n := 1 + LeadingWhitespace(s[1..]);
      assert s[..n] == [s[0]] + s[1..][..n - 1];
      n
  }

  /** The length of the longest all-whitespace suffix of `s`. */
  function TrailingWhitespace(s: string): (n: nat)
    ensures n <= |s|
    ensures AllWhitespace(s[|s| - n..])
    ensures n < |s| ==> !IsWhitespace(s[|s| - n - 1])
  {
    if s == [] || !IsWhitespace(s[|s| - 1]) then 0
    else
      var init := s[..|s| - 1];
      var m := TrailingWhitespace(init);
      assert s[|s| - (m + 1)..] == init[|init| - m..] + [s[|s| - 1]];
      assert m < |init| ==> init[|init| - m - 1] == s[|s| - (m + 1) - 1];
      m + 1
  }

  lemma LeadingWhitespaceAll(s: string)
    ensures LeadingWhitespace(s) == |s| <==> AllWhitespace(s)
  {
    assert s[..|s|] == s;
  }

  lemma TrailingWhitespaceAll(s: string)
    ensures TrailingWhitespace(s) == |s| <==> AllWhitespace(s)
  {
    assert s[|s| - |s|..] == s;
  }

  /** `s.trim()`: the infix of `s` left after dropping the leading and the
      trailing whitespace. */
  function Trim(s: string): (r: string)
    ensures Trimmed(r)
    ensures r == [] <==> AllWhitespace(s)
    ensures var i := LeadingWhitespace(s);
      && i + |r| <= |s| && s[i..i + |r|] == r && AllWhitespace(s[i + |r|..])
  {
    var i := LeadingWhitespace(s);
    var rest := s[i..];
    var t := TrailingWhitespace(rest);
    var r := rest[..|rest| - t];
    LeadingWhitespaceAll(s);
    TrailingWhitespaceAll(rest);
    assert i < |s| ==> rest[0] == s[i];
    assert s[i + |r|..] == rest[|rest| - t..];
    r
  }

  /** Whitespace followed by a non-whitespace start: the leading run is
      exactly the whitespace. */
  lemma {:induction false} LeadingWhitespaceOf(pre: string, rest: string)
    requires AllWhitespace(pre)
    requires rest == [] || !IsWhitespace(rest[0])
    ensures LeadingWhitespace(pre + rest) == |pre|
  {
    if pre == [] {
      assert pre + rest == rest;
    } else {
      var s := pre + rest;
      assert s[0] == pre[0];
      assert s[1..] == pre[1..] + rest;
      assert forall k :: 0 <= k < |pre| - 1 ==> pre[1..][k] == pre[k + 1];
      LeadingWhitespaceOf(pre[1..], rest);
    }
  }

  /** A non-whitespace end followed by whitespace: the trailing run is
      exactly the whitespace. */
  lemma {:induction false} TrailingWhitespaceOf(rest: string, post: string)
    requires AllWhitespace(post)
    requires rest == [] || !IsWhitespace(rest[|rest| - 1])
    ensures TrailingWhitespace(rest + post) == |post|
  {
    if post == [] {
      assert rest + post == rest;
    } else {
      var s := rest + post;
      var init := post[..|post| - 1];
      assert s[|s| - 1] == post[|post| - 1];
      assert s[..|s| - 1] == rest + init;
      assert forall k :: 0 <= k < |init| ==> init[k] == post[k];
      TrailingWhitespaceOf(rest, init);
    }
  }

  /** Trim is determined by its shape: whenever `s` is an all-whitespace
      prefix, then a trimmed middle, then an all-whitespace suffix, trimming
      `s` yields exactly that middle. */
  lemma {:induction false} TrimUnique(s: string, pre: string, mid: string, post: string)
    requires s == pre + mid + post
    requires AllWhitespace(pre) && AllWhitespace(post) && Trimmed(mid)
    ensures Trim(s) == mid
  {
    if mid == [] {
      assert s == pre + post;
      forall k | 0 <= k < |s| ensures IsWhitespace(s[k]) {
        if k < |pre| { assert s[k] == pre[k]; } else { assert s[k] == post[k - |pre|]; }
      }
    } else {
      var rest := mid + post;
      assert s == pre + rest;
      assert rest[0] == mid[0];
      LeadingWhitespaceOf(pre, rest);
      assert s[|pre|..] == rest;
      TrailingWhitespaceOf(mid, post);
      assert rest[..|rest| - |post|] == mid;
    }
  }

  /** Trimming twice is trimming once. */
  lemma TrimIdempotent(s: string)
    ensures Trim(Trim(s)) == Trim(s)
  {
    var r := Trim(s);
    assert r == [] + r + [];
    TrimUnique(r, [], r, []);
  }

  /** A trimmed string is left alone; in particular, a chunk boundary
      that falls inside surrounding whitespace changes nothing. */
  lemma TrimOfTrimmed(s: string)
    requires Trimmed(s)
    ensures Trim(s) == s
  {
    assert s == [] + s + [];
    TrimUnique(s, [], s, []);
  }
}
