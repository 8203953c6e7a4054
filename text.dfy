/** The JavaScript string operations the extension uses: `trim`, `toLowerCase`,
    `startsWith` and `includes`. */
module Text {
  import Seqs

  /** The characters `String.prototype.trim` strips: JavaScript's WhiteSpace (tab, vertical
      tab, form feed, space, no-break space, byte order mark and the Unicode space
      separators) and LineTerminator (line feed, carriage return, line and paragraph
      separators). */
  predicate IsSpace(c: char) {
    c == '\t' || c == '\n' || c == '\U{B}' || c == '\U{C}' || c == '\r' || c == ' '
    || c == '\U{A0}' || c == '\U{1680}' || ('\U{2000}' <= c <= '\U{200A}')
    || c == '\U{2028}' || c == '\U{2029}' || c == '\U{202F}' || c == '\U{205F}'
    || c == '\U{3000}' || c == '\U{FEFF}'
  }

  /** True when `s` holds nothing but whitespace (the empty string included). */
  predicate IsBlank(s: string) {
    forall i :: 0 <= i < |s| ==> IsSpace(s[i])
  }

  /** The length of the run of whitespace that starts `s`. */
  function LeadingSpaces(s: string): (k: nat)
    ensures k <= |s|
  {
    if s != [] && IsSpace(s[0]) then 1 + LeadingSpaces(s[1..]) else 0
  }

  /** The leading run is all whitespace and is followed by a non-space, if anything. */
  lemma {:induction false} LeadingRun(s: string)
    ensures forall i :: 0 <= i < LeadingSpaces(s) ==> IsSpace(s[i])
    ensures LeadingSpaces(s) == |s| || !IsSpace(s[LeadingSpaces(s)])
  {
    if s != [] && IsSpace(s[0]) {
      LeadingRun(s[1..]);
    }
  }

  /** The length of the run of whitespace that ends `s`. */
  function TrailingSpaces(s: string): (k: nat)
    ensures k <= |s|
  {
    if s != [] && IsSpace(s[|s| - 1]) then 1 + TrailingSpaces(s[..|s| - 1]) else 0
  }

  /** The trailing run is all whitespace and is preceded by a non-space, if anything. */
  lemma {:induction false} TrailingRun(s: string)
    ensures forall i :: |s| - TrailingSpaces(s) <= i < |s| ==> IsSpace(s[i])
    ensures TrailingSpaces(s) == |s| || !IsSpace(s[|s| - 1 - TrailingSpaces(s)])
  {
    if s != [] && IsSpace(s[|s| - 1]) {
      TrailingRun(s[..|s| - 1]);
    }
  }

  /** `s.trim()`: `s` without its leading and trailing whitespace. */
  function Trim(s: string): (r: string)
    ensures |r| <= |s|
  {
    var rest := s[LeadingSpaces(s)..];
    rest[..|rest| - TrailingSpaces(rest)]
  }

  /** Trimming leaves nothing exactly when the string is blank, and otherwise leaves a
      string that neither starts nor ends with whitespace. */
  lemma TrimBlank(s: string)
    ensures Trim(s) == [] <==> IsBlank(s)
    ensures Trim(s) != [] ==> !IsSpace(Trim(s)[0]) && !IsSpace(Trim(s)[|Trim(s)| - 1])
  {
    var rest := s[LeadingSpaces(s)..];
    LeadingRun(s);
    TrailingRun(rest);
    assert Trim(s) == [] ==> rest == [];
  }

  /** Trimming only cuts whitespace off the ends: the result is a contiguous slice of `s`
      with nothing but whitespace before and after it. */
  lemma TrimKeepsInner(s: string)
    ensures exists a, b :: 0 <= a <= b <= |s| && Trim(s) == s[a..b] && IsBlank(s[..a]) && IsBlank(s[b..])
  {
    var a := LeadingSpaces(s);
    var rest := s[a..];
    var b := a + |rest| - TrailingSpaces(rest);
    LeadingRun(s);
    TrailingRun(rest);
    assert Trim(s) == s[a..b];
    assert IsBlank(s[..a]);
    assert forall i :: 0 <= i < |s[b..]| ==> s[b..][i] == rest[|rest| - TrailingSpaces(rest) + i];
    assert IsBlank(s[b..]);
  }

  /** Trimming a trimmed string changes nothing. */
  lemma TrimIdempotent(s: string)
    ensures Trim(Trim(s)) == Trim(s)
  {
    var t := Trim(s);
    TrimBlank(s);
    LeadingRun(t);
    TrailingRun(t);
    if t != [] {
      assert LeadingSpaces(t) == 0;
      assert t[0..] == t;
      assert TrailingSpaces(t) == 0;
      assert t[..|t|] == t;
    }
  }

  /** `c.toLowerCase()` for the ASCII letters; every other character is kept. */
  function LowerChar(c: char): char {
    if 'A' <= c <= 'Z' then (c as int + 32) as char else c
  }

  /** `s.toLowerCase()`, restricted to ASCII case mapping. */
  function ToLower(s: string): (r: string)
    ensures |r| == |s|
  {
    Seqs.Map(s, LowerChar)
  }

  /** Lower-casing leaves no upper-case ASCII letter and changes nothing else than those
      letters, each to the letter 32 code points above it. */
  lemma ToLowerChars(s: string)
    ensures forall i :: 0 <= i < |s| ==> !('A' <= ToLower(s)[i] <= 'Z')
    ensures forall i :: 0 <= i < |s| ==>
      ToLower(s)[i] == s[i] || ('A' <= s[i] <= 'Z' && ToLower(s)[i] as int == s[i] as int + 32)
  {
    Seqs.MapAt(s, LowerChar);
  }

  /** Lower-casing is idempotent, so a header name lower-cased once is in its final form. */
  lemma ToLowerIdempotent(s: string)
    ensures ToLower(ToLower(s)) == ToLower(s)
  {
    var t := ToLower(s);
    ToLowerChars(s);
    Seqs.MapAt(t, LowerChar);
    assert ToLower(t) == t;
  }

  /** `s.startsWith(prefix)`. */
  predicate StartsWith(s: string, prefix: string) {
    |prefix| <= |s| && s[..|prefix|] == prefix
  }
}
