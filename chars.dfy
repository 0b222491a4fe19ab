/** The C library pieces both tokenizers rely on: the `EOF` value of <cstdio>,
    the <cctype> classification in the C locale, and a few scanning helpers
    over the characters `getchar` delivers. */
module Chars {

  /** What `getchar` returns once the input is exhausted. */
  const EOF: int := -1

  /** A character as `getchar` delivers it: an unsigned byte. */
  type Byte = c: int | 0 <= c < 256

  /** `isspace` in the C locale: space, and `\t`, `\n`, `\v`, `\f`, `\r`. */
  predicate IsSpace(c: int) { c == ' ' as int || '\t' as int <= c <= '\r' as int }

  predicate IsDigit(c: int) { '0' as int <= c <= '9' as int }

  predicate IsAlpha(c: int) { 'A' as int <= c <= 'Z' as int || 'a' as int <= c <= 'z' as int }

  predicate IsAlnum(c: int) { IsAlpha(c) || IsDigit(c) }

  /** `isascii`: false for every negative value, `EOF` included. */
  predicate IsAscii(c: int) { 0 <= c < 128 }

  /** The characters that end a `#` comment. */
  predicate IsLineEnd(c: int) { c == '\n' as int || c == '\r' as int }

  /** The characters a number lexeme is made of. */
  predicate IsNumberChar(c: int) { IsDigit(c) || c == '.' as int }

  /** The character classes the tokenizers scan greedily. */
  datatype Class = Space | IdentTail | NumberBody | CommentBody

  predicate InClass(c: int, k: Class)
  {
    match k
    case Space => IsSpace(c)
    case IdentTail => IsAlnum(c)
    case NumberBody => IsNumberChar(c)
    case CommentBody => !IsLineEnd(c)
  }

  /** The length of the longest prefix of `s` made of characters of class `k`. */
  function Span(s: seq<Byte>, k: Class): (n: nat)
    ensures n <= |s|
    ensures forall i :: 0 <= i < n ==> InClass(s[i], k)
    ensures n < |s| ==> !InClass(s[n], k)
  {
    if s == [] || !InClass(s[0], k) then 0 else 1 + Span(s[1..], k)
  }

  /** A maximal prefix is determined by where it stops. */
  lemma {:induction false} SpanUnique(s: seq<Byte>, k: Class, n: nat)
    requires n <= |s|
    requires forall i :: 0 <= i < n ==> InClass(s[i], k)
    requires n < |s| ==> !InClass(s[n], k)
    ensures Span(s, k) == n
  {
  }

  /** A scan that has got `n` characters into the span and sees one more of
      the class gets one further. */
  lemma SpanGrows(s: seq<Byte>, k: Class, n: nat)
    requires n <= Span(s, k) && n < |s| && InClass(s[n], k)
    ensures n + 1 <= Span(s, k)
  {
  }

  /** A scan that has got `n` characters into the span and sees the end or a
      character outside the class has read the whole span. */
  lemma SpanStops(s: seq<Byte>, k: Class, n: nat)
    requires n <= Span(s, k) && (n == |s| || !InClass(s[n], k))
    ensures Span(s, k) == n
  {
  }

  /** Reading the head of a suffix leaves the next suffix. */
  lemma SuffixStep(s: seq<Byte>, n: nat)
    requires n < |s|
    ensures s[n..][0] == s[n] && s[n..][1..] == s[n + 1..]
  {
  }

  /** A prefix made of class `k` is part of the span. */
  lemma {:induction false} SpanPastPrefix(w: seq<Byte>, u: seq<Byte>, k: Class)
    requires forall i :: 0 <= i < |w| ==> InClass(w[i], k)
    ensures Span(w + u, k) == |w| + Span(u, k)
  {
    if w != [] {
      assert (w + u)[1..] == w[1..] + u;
      SpanPastPrefix(w[1..], u, k);
    } else {
      assert w + u == u;
    }
  }

  /** The bytes of `s` as the characters of a `std::string`. */
  function Text(s: seq<Byte>): (t: string)
    ensures |t| == |s|
  {
    seq(|s|, i requires 0 <= i < |s| => s[i] as char)
  }

  /** Character `i` of the text is byte `i`. */
  lemma TextIsBytes(s: seq<Byte>)
    ensures forall i :: 0 <= i < |s| ==> Text(s)[i] as int == s[i]
  {
  }

  /** The text of a prefix grows by one character at a time. */
  lemma TextSnoc(t: seq<Byte>, n: nat)
    requires n < |t|
    ensures Text(t[..n + 1]) == Text(t[..n]) + [t[n] as char]
  {
    assert Text(t[..n + 1]) == Text(t[..n]) + [t[n] as char];
  }

  /** The bytes of an ASCII string: how source text is written down in lemmas. */
  function Bytes(s: string): (b: seq<Byte>)
    requires forall i :: 0 <= i < |s| ==> s[i] as int < 256
    ensures |b| == |s|
    ensures forall i :: 0 <= i < |s| ==> b[i] == s[i] as int
  {
    seq(|s|, i requires 0 <= i < |s| => s[i] as int)
  }
}
