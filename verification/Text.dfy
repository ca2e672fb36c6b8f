/** Python's idea of whitespace, and stripping it. */
module Text {

  /** str.isspace on one code point. */
  predicate IsSpace(c: char) {
    var n := c as int;
    || 0x09 <= n <= 0x0D || 0x1C <= n <= 0x20 || n == 0x85 || n == 0xA0 || n == 0x1680
    || 0x2000 <= n <= 0x200A || n == 0x2028 || n == 0x2029 || n == 0x202F || n == 0x205F || n == 0x3000
  }

  function LeadingSpaces(s: string): (n: nat)
    ensures n <= |s|
  {
    if s == "" || !IsSpace(s[0]) then 0 else 1 + LeadingSpaces(s[1..])
  }

  function TrailingSpaces(s: string): (n: nat)
    ensures n <= |s|
  {
    if s == "" || !IsSpace(s[|s| - 1]) then 0 else 1 + TrailingSpaces(s[..|s| - 1])
  }

  lemma {:induction false} LeadingSpacesAreSpaces(s: string)
    ensures var n := LeadingSpaces(s);
            (forall i :: 0 <= i < n ==> IsSpace(s[i])) && (n < |s| ==> !IsSpace(s[n]))
  {
    if s != "" && IsSpace(s[0]) {
      LeadingSpacesAreSpaces(s[1..]);
      assert s == [s[0]] + s[1..];
    }
  }

  lemma {:induction false} TrailingSpacesAreSpaces(s: string)
    ensures var n := TrailingSpaces(s);
            (forall i :: |s| - n <= i < |s| ==> IsSpace(s[i])) && (n < |s| ==> !IsSpace(s[|s| - n - 1]))
  {
    if s != "" && IsSpace(s[|s| - 1]) {
      TrailingSpacesAreSpaces(s[..|s| - 1]);
    }
  }

  /** Where str.strip cuts. */
  function StripBounds(s: string): (b: (nat, nat))
    ensures b.0 <= b.1 <= |s|
  {
    var from := LeadingSpaces(s);
    if from == |s| then (from, from)
    else
      LeadingSpacesAreSpaces(s);
      TrailingSpacesAreSpaces(s);
      (from, |s| - TrailingSpaces(s))
  }

  /** Only whitespace lies outside the cut, and none at its ends. */
  lemma StripBoundsAreTight(s: string)
    ensures var b := StripBounds(s);
            && (forall i :: 0 <= i < |s| && !IsSpace(s[i]) ==> b.0 <= i < b.1)
            && (b.0 < b.1 ==> !IsSpace(s[b.0]) && !IsSpace(s[b.1 - 1]))
  {
    LeadingSpacesAreSpaces(s);
    TrailingSpacesAreSpaces(s);
  }

  function Strip(s: string): string {
    var b := StripBounds(s);
    s[b.0..b.1]
  }

  /** Nothing is stripped from a text whose ends are not whitespace. */
  lemma StripIdentity(s: string)
    requires s != "" && !IsSpace(s[0]) && !IsSpace(s[|s| - 1])
    ensures Strip(s) == s
  {
    assert StripBounds(s) == (0, |s|);
  }
}
