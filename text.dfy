/**
 * The two string operations the programs apply to console input:
 * `str.lower()` and `str.strip()`, restricted to ASCII characters.
 */
module Text {

  /** `c.isspace()` for the ASCII range: blank, the control characters 9 to 13
      (tab, line feed, vertical tab, form feed, carriage return) and the
      four separators 28 to 31. */
  predicate IsSpace(c: char) {
    c == ' ' || (9 <= c as int <= 13) || (28 <= c as int <= 31)
  }

  /** True when every character of `s` is whitespace (vacuously for ""). */
  predicate IsBlank(s: string) {
    forall i :: 0 <= i < |s| ==> IsSpace(s[i])
  }

  function LowerChar(c: char): char {
    if 'A' <= c <= 'Z' then (c as int + 32) as char else c
  }

  /** `s.lower()`: upper-case ASCII letters mapped to lower case, everything else kept. */
  function Lower(s: string): (r: string)
    ensures |r| == |s|
  {
    if s == [] then [] else [LowerChar(s[0])] + Lower(s[1..])
  }

  /** Two names are the same to the analyzer when their lower-case forms agree. */
  predicate SameName(a: string, b: string) {
    Lower(a) == Lower(b)
  }

  /** How many whitespace characters `s` starts with. */
  function LeadingSpaces(s: string): (n: nat)
    ensures n <= |s|
    ensures n < |s| ==> !IsSpace(s[n])
  {
    if s != [] && IsSpace(s[0]) then 1 + LeadingSpaces(s[1..]) else 0
  }

  /** Everything counted by `LeadingSpaces` is whitespace. */
  lemma {:induction false} LeadingSpacesAreBlank(s: string)
    ensures IsBlank(s[..LeadingSpaces(s)])
  {
    if s != [] && IsSpace(s[0]) {
      LeadingSpacesAreBlank(s[1..]);
      assert s[..LeadingSpaces(s)] == [s[0]] + s[1..][..LeadingSpaces(s[1..])];
    }
  }

  /** Where the trailing whitespace of `s` begins (|s| when there is none). */
  function TrailingStart(s: string): (n: nat)
    ensures n <= |s|
    ensures n > 0 ==> !IsSpace(s[n - 1])
  {
    if s != [] && IsSpace(s[|s| - 1]) then TrailingStart(s[..|s| - 1]) else |s|
  }

  /** Everything from `TrailingStart` on is whitespace. */
  lemma {:induction false} TrailingSpacesAreBlank(s: string)
    ensures IsBlank(s[TrailingStart(s)..])
  {
    if s != [] && IsSpace(s[|s| - 1]) {
      var init := s[..|s| - 1];
      TrailingSpacesAreBlank(init);
      assert s[TrailingStart(s)..] == init[TrailingStart(init)..] + [s[|s| - 1]];
    }
  }

  /** `s.lstrip()`. */
  function TrimStart(s: string): string {
    s[LeadingSpaces(s)..]
  }

  /** `s.rstrip()`. */
  function TrimEnd(s: string): string {
    s[..TrailingStart(s)]
  }

  /** `s.strip()`. */
  function Strip(s: string): string {
    TrimEnd(TrimStart(s))
  }

  /**
   * What `strip()` leaves is a contiguous slice of the input with no
   * whitespace at either end, and everything cut off on either side is
   * whitespace.
   */
  lemma StripIsTrimmedSlice(s: string)
    ensures exists i, j :: 0 <= i <= j <= |s| && Strip(s) == s[i..j]
                           && IsBlank(s[..i]) && IsBlank(s[j..])
    ensures Strip(s) != [] ==> !IsSpace(Strip(s)[0]) && !IsSpace(Strip(s)[|Strip(s)| - 1])
  {
    var i := LeadingSpaces(s);
    var t := s[i..];
    var j := i + TrailingStart(t);
    LeadingSpacesAreBlank(s);
    TrailingSpacesAreBlank(t);
    assert Strip(s) == s[i..j];
    assert s[j..] == t[TrailingStart(t)..];
    if Strip(s) != [] {
      assert Strip(s)[0] == t[0];
    }
  }

  /** `s.strip()` is falsy (empty) exactly when `s` is empty or all whitespace. */
  lemma StripEmptyIffBlank(s: string)
    ensures Strip(s) == [] <==> IsBlank(s)
  {
    var i := LeadingSpaces(s);
    var t := s[i..];
    LeadingSpacesAreBlank(s);
    if t == [] {
      assert s == s[..i];
    } else {
      TrailingSpacesAreBlank(t);
      assert t[TrailingStart(t)..] != t ==> TrailingStart(t) > 0;
      assert s[i] == t[0];
    }
  }

}
