/**
 * The guard at the top of searchUser (script.js): the input is trimmed with
 * `String.prototype.trim`, and an empty result starts no search.
 */
module Search {
  import opened Wrappers

  /**
   * The characters `trim` removes: WhiteSpace (tab, vertical tab, form feed,
   * U+FEFF and every space separator) and LineTerminator (LF, CR, U+2028,
   * U+2029), as listed in sections 12.2 and 12.3 of ECMA-262.
   */
  predicate IsWhiteSpace(c: char)
  {
    c in {'\t', '\n', '\r', ' ', '\U{000B}', '\U{000C}', '\U{00A0}', '\U{1680}',
          '\U{2000}', '\U{2001}', '\U{2002}', '\U{2003}', '\U{2004}', '\U{2005}',
          '\U{2006}', '\U{2007}', '\U{2008}', '\U{2009}', '\U{200A}',
          '\U{2028}', '\U{2029}', '\U{202F}', '\U{205F}', '\U{3000}', '\U{FEFF}'}
  }

  predicate AllWhiteSpace(s: string)
  {
    forall i :: 0 <= i < |s| ==> IsWhiteSpace(s[i])
  }

  /** The number of white-space characters at the start of `s`. */
  function LeadingWhiteSpace(s: string): (n: nat)
    ensures n <= |s| && AllWhiteSpace(s[..n])
    ensures n < |s| ==> !IsWhiteSpace(s[n])
  {
    if s == [] || !IsWhiteSpace(s[0]) then 0
    else
      var n := 1 + LeadingWhiteSpace(s[1..]);
      assert s[..n] == [s[0]] + s[1..][..n - 1];
      n
  }

  /** The index where the white space at the end of `s` begins. */
  function TrailingWhiteSpace(s: string): (n: nat)
    ensures n <= |s| && AllWhiteSpace(s[n..])
    ensures n > 0 ==> !IsWhiteSpace(s[n - 1])
  {
    if s == [] || !IsWhiteSpace(s[|s| - 1]) then |s|
    else
      var n := TrailingWhiteSpace(s[..|s| - 1]);
      assert s[n..] == s[..|s| - 1][n..] + [s[|s| - 1]];
      n
  }

  /** `String.prototype.trim`: the text between the leading and the trailing white space. */
  function Trim(s: string): string
  {
    var u := s[LeadingWhiteSpace(s)..];
    u[..TrailingWhiteSpace(u)]
  }

  /**
   * What `trim` promises: the result is the slice `s[i..j]` of the input,
   * where everything before `i` and after `j` is white space, and the slice
   * neither starts nor ends with white space.
   */
  lemma TrimCorrect(s: string)
    ensures var t, i := Trim(s), LeadingWhiteSpace(s); var j := i + |t|;
      && j <= |s| && t == s[i..j]
      && AllWhiteSpace(s[..i]) && AllWhiteSpace(s[j..])
      && (t == [] || (!IsWhiteSpace(t[0]) && !IsWhiteSpace(t[|t| - 1])))
  {
  }

  /** `trim` yields the empty string exactly for an input of white space only. */
  lemma TrimEmpty(s: string)
    ensures Trim(s) == [] <==> AllWhiteSpace(s)
  {
  }

  /**
   * searchUser's guard: the trimmed username to fetch, or `None` (no search,
   * nothing on the page changes) when the input holds nothing but white space.
   */
  function SearchRequest(input: string): (r: Option<string>)
    ensures r.None? <==> AllWhiteSpace(input)
    ensures r.Some? ==> r.value == Trim(input)
    ensures r.Some? ==> r.value != [] && !IsWhiteSpace(r.value[0]) && !IsWhiteSpace(r.value[|r.value| - 1])
  {
    var username := Trim(input);
    TrimEmpty(input);
    TrimCorrect(input);
    if username == [] then None else Some(username)
  }
}
