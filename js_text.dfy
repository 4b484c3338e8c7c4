/** String.prototype.trim as the chat composer uses it: the send guard tests
    `input.trim()` for emptiness and the user message carries the trimmed text. */
module JsText {

  /** The code points trim() strips: ECMAScript WhiteSpace (TAB, VT, FF, SP,
      NBSP, ZWNBSP and the Space_Separator category) and LineTerminator (LF, CR,
      LS, PS). */
  const WhitespaceChars: set<char> := {
    '\U{9}', '\U{A}', '\U{B}', '\U{C}', '\U{D}', '\U{20}', '\U{A0}', '\U{1680}',
    '\U{2000}', '\U{2001}', '\U{2002}', '\U{2003}', '\U{2004}', '\U{2005}',
    '\U{2006}', '\U{2007}', '\U{2008}', '\U{2009}', '\U{200A}', '\U{2028}',
    '\U{2029}', '\U{202F}', '\U{205F}', '\U{3000}', '\U{FEFF}'
  }

  predicate IsWhitespace(c: char) {
    c in WhitespaceChars
  }

  predicate AllWhitespace(s: string) {
    forall k :: 0 <= k < |s| ==> IsWhitespace(s[k])
  }

  /** The number of whitespace characters `s` starts with. */
  function LeadingWhitespace(s: string): (k: nat)
    ensures k <= |s|
    ensures forall i :: 0 <= i < k ==> IsWhitespace(s[i])
    ensures k == |s| || !IsWhitespace(s[k])
  {
    if s == [] || !IsWhitespace(s[0]) then 0
    else
      var k := LeadingWhitespace(s[1..]);
      assert forall i :: 1 <= i < k + 1 ==> s[i] == s[1..][i - 1];
      k + 1
  }

  /** The number of whitespace characters `s` ends with. */
  function TrailingWhitespace(s: string): (j: nat)
    ensures j <= |s|
    ensures forall i :: |s| - j <= i < |s| ==> IsWhitespace(s[i])
    ensures j == |s| || !IsWhitespace(s[|s| - 1 - j])
  {
    if s == [] || !IsWhitespace(s[|s| - 1]) then 0
    else
      var j := TrailingWhitespace(s[..|s| - 1]);
      assert forall i :: |s| - 1 - j <= i < |s| - 1 ==> s[i] == s[..|s| - 1][i];
      j + 1
  }

  /** `s.trim()`: `s` without its leading whitespace and then without its
      trailing whitespace. It is empty exactly when `s` is all whitespace,
      and otherwise begins and ends with a non-whitespace character. */
  function Trim(s: string): (r: string)
    ensures |r| <= |s|
    ensures r == [] <==> AllWhitespace(s)
    ensures r == [] || (!IsWhitespace(r[0]) && !IsWhitespace(r[|r| - 1]))
  {
    var k := LeadingWhitespace(s);
    var rest := s[k..];
    var j := TrailingWhitespace(rest);
    assert rest != [] ==> rest[0] == s[k];
    assert j < |rest| ==> rest[..|rest| - j][0] == rest[0];
    rest[..|rest| - j]
  }

  /** What trim() keeps is the stretch of `s` after its leading whitespace,
      with only whitespace after it. */
  lemma {:induction false} TrimKeepsMiddle(s: string)
    ensures var r, i := Trim(s), LeadingWhitespace(s);
            i + |r| <= |s| && r == s[i..i + |r|]
            && (forall p :: 0 <= p < i ==> IsWhitespace(s[p]))
            && (forall p :: i + |r| <= p < |s| ==> IsWhitespace(s[p]))
  {
    TrimIsSlice(s);
    SuffixWhitespace(s, LeadingWhitespace(s));
  }

  /** trim() cuts `s` at the end of its leading whitespace and at the start of
      the trailing whitespace of what follows. */
  lemma {:induction false} TrimIsSlice(s: string)
    ensures Trim(s) == s[LeadingWhitespace(s)..|s| - TrailingWhitespace(s[LeadingWhitespace(s)..])]
  {
    SliceOfSuffix(s, Trim(s), LeadingWhitespace(s), TrailingWhitespace(s[LeadingWhitespace(s)..]));
  }

  /** Dropping `k` elements and then `j` from the end is the slice k..|s|-j. */
  lemma SliceOfSuffix<T>(s: seq<T>, t: seq<T>, k: nat, j: nat)
    requires k + j <= |s|
    requires t == s[k..][..|s[k..]| - j]
    ensures t == s[k..|s| - j]
  {
  }

  /** The trailing whitespace of a suffix of `s` is trailing whitespace of `s`. */
  lemma SuffixWhitespace(s: string, k: nat)
    requires k <= |s|
    ensures var j := TrailingWhitespace(s[k..]);
            j <= |s| - k && forall p :: |s| - j <= p < |s| ==> IsWhitespace(s[p])
  {
    var rest := s[k..];
    var j := TrailingWhitespace(rest);
    forall p | |s| - j <= p < |s| ensures IsWhitespace(s[p]) {
      assert s[p] == rest[p - k];
    }
  }

  /** Trimming twice is trimming once. */
  lemma TrimIdempotent(s: string)
    ensures Trim(Trim(s)) == Trim(s)
  {
    var r := Trim(s);
    assert LeadingWhitespace(r) == 0;
    assert r[0..] == r;
    assert TrailingWhitespace(r) == 0;
    assert r[..|r|] == r;
  }
}
