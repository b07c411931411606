/** Regular expressions of the kind an HTML `pattern` attribute holds, restricted to the
    constructs the two input fields of the form use, with their full-match meaning. */
module Patterns {

  /** One range `lo-hi` of a bracketed character class; a lone character `c` is `c-c`. */
  datatype CharRange = CharRange(lo: char, hi: char)

  datatype Regex =
    | Chars(ranges: seq<CharRange>)      // a character class `[...]`: one character
    | Concat(left: Regex, right: Regex)  // `left` followed by `right`
    | Alt(left: Regex, right: Regex)     // `left|right`
    | Star(body: Regex)                  // `body*`

  /** `c` lies in one of the ranges of a character class. */
  predicate InRanges(c: char, ranges: seq<CharRange>)
  {
    ranges != [] && ((ranges[0].lo <= c <= ranges[0].hi) || InRanges(c, ranges[1..]))
  }

  /** `r` matches the whole of `s` (the anchors `^...$` are implicit). */
  predicate Matches(r: Regex, s: string)
    decreases r, |s|
  {
    match r
    case Chars(ranges) => |s| == 1 && InRanges(s[0], ranges)
    case Concat(a, b) => exists k :: 0 <= k <= |s| && Matches(a, s[..k]) && Matches(b, s[k..])
    case Alt(a, b) => Matches(a, s) || Matches(b, s)
    case Star(a) => s == [] || exists k :: 1 <= k <= |s| && Matches(a, s[..k]) && Matches(r, s[k..])
  }

  /** A class of one range holds exactly the characters of that range. */
  lemma SingleRange(c: char, lo: char, hi: char)
    ensures InRanges(c, [CharRange(lo, hi)]) <==> lo <= c <= hi
  {
  }

  /** A split of `s` that a concatenation's match uses. */
  lemma ConcatSplit(a: Regex, b: Regex, s: string) returns (k: nat)
    requires Matches(Concat(a, b), s)
    ensures k <= |s| && Matches(a, s[..k]) && Matches(b, s[k..])
  {
    k :| 0 <= k <= |s| && Matches(a, s[..k]) && Matches(b, s[k..]);
  }

  /** A starred character class matches exactly the strings made of characters of that class. */
  lemma {:induction false} StarOfCharsMatches(ranges: seq<CharRange>, s: string)
    ensures Matches(Star(Chars(ranges)), s) <==> forall i :: 0 <= i < |s| ==> InRanges(s[i], ranges)
    decreases |s|
  {
    if s != [] {
      StarOfCharsMatches(ranges, s[1..]);
      if Matches(Star(Chars(ranges)), s) {
        var k :| 1 <= k <= |s| && Matches(Chars(ranges), s[..k]) && Matches(Star(Chars(ranges)), s[k..]);
        assert k == 1;
        forall i | 0 <= i < |s| ensures InRanges(s[i], ranges) {
          if i > 0 { assert s[i] == s[1..][i - 1]; }
        }
      }
      if forall i :: 0 <= i < |s| ==> InRanges(s[i], ranges) {
        assert Matches(Chars(ranges), s[..1]);
        forall i | 0 <= i < |s[1..]| ensures InRanges(s[1..][i], ranges) {
          assert s[1..][i] == s[i + 1];
        }
      }
    }
  }
}
