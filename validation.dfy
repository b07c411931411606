/** The browser-side validation of the task form: the `pattern` and `required` attributes of
    its two text inputs, applied as the constraint-validation rules of the WHATWG HTML Living
    Standard prescribe (section 4.10.5.3.6 for `pattern`, section 4.10.5.3.4 for `required`). */
module FormValidation {
  import opened Patterns

  /** One text input passes constraint validation: a required input must not be empty, and a
      pattern is checked only when the value is not empty, against the whole value. */
  predicate FieldValid(value: string, pattern: Regex, required: bool)
  {
    (value == [] ==> !required) && (value != [] ==> Matches(pattern, value))
  }

  /** `[A-Za-z0-9]` */
  const Alnum: seq<CharRange> := [CharRange('A', 'Z'), CharRange('a', 'z'), CharRange('0', '9')]
  /** `[A-Za-z0-9 _]` */
  const TitleClass: seq<CharRange> := Alnum + [CharRange(' ', ' '), CharRange('_', '_')]

  /** The title input's pattern `^[A-Za-z0-9 _]*[A-Za-z0-9][A-Za-z0-9 _]*$`. */
  const TitlePattern: Regex := Concat(Concat(Star(Chars(TitleClass)), Chars(Alnum)), Star(Chars(TitleClass)))

  /** The time input's pattern `^(0|[1-9][0-9]*)$`. */
  const TimePattern: Regex :=
    Alt(Chars([CharRange('0', '0')]), Concat(Chars([CharRange('1', '9')]), Star(Chars([CharRange('0', '9')]))))

  /** The title input carries a pattern and is not required. */
  predicate TitleFieldValid(title: string) { FieldValid(title, TitlePattern, false) }

  /** The time input carries a pattern and is required. */
  predicate TimeFieldValid(time: string) { FieldValid(time, TimePattern, true) }

  /** The browser lets the form be submitted only when both inputs are valid. */
  predicate FormValid(title: string, time: string) { TitleFieldValid(title) && TimeFieldValid(time) }

  predicate IsAlnum(c: char) { 'A' <= c <= 'Z' || 'a' <= c <= 'z' || '0' <= c <= '9' }
  predicate IsTitleChar(c: char) { IsAlnum(c) || c == ' ' || c == '_' }
  predicate IsDigit(c: char) { '0' <= c <= '9' }

  /** A non-negative integer written in decimal without leading zeros. */
  predicate IsCanonicalNumeral(s: string)
  {
    s == "0" || (|s| > 0 && '1' <= s[0] <= '9' && forall i :: 1 <= i < |s| ==> IsDigit(s[i]))
  }

  lemma AlnumClass(c: char)
    ensures InRanges(c, Alnum) <==> IsAlnum(c)
  {
    var r1 := [CharRange('a', 'z'), CharRange('0', '9')];
    var r2 := [CharRange('0', '9')];
    assert Alnum[1..] == r1 && r1[1..] == r2 && r2[1..] == [];
    assert InRanges(c, r2) <==> '0' <= c <= '9';
    assert InRanges(c, r1) <==> 'a' <= c <= 'z' || InRanges(c, r2);
  }

  lemma TitleCharClass(c: char)
    ensures InRanges(c, TitleClass) <==> IsTitleChar(c)
  {
    var r1 := [CharRange('a', 'z'), CharRange('0', '9'), CharRange(' ', ' '), CharRange('_', '_')];
    var r2 := [CharRange('0', '9'), CharRange(' ', ' '), CharRange('_', '_')];
    var r3 := [CharRange(' ', ' '), CharRange('_', '_')];
    var r4 := [CharRange('_', '_')];
    assert TitleClass[1..] == r1 && r1[1..] == r2 && r2[1..] == r3 && r3[1..] == r4 && r4[1..] == [];
    assert InRanges(c, r4) <==> c == '_';
    assert InRanges(c, r3) <==> c == ' ' || InRanges(c, r4);
    assert InRanges(c, r2) <==> '0' <= c <= '9' || InRanges(c, r3);
    assert InRanges(c, r1) <==> 'a' <= c <= 'z' || InRanges(c, r2);
  }

  /** Every string the title pattern matches is made of title characters and holds a letter
      or digit. */
  lemma TitlePatternSound(s: string)
    requires Matches(TitlePattern, s)
    ensures forall i :: 0 <= i < |s| ==> IsTitleChar(s[i])
    ensures exists i :: 0 <= i < |s| && IsAlnum(s[i])
  {
    var star := Star(Chars(TitleClass));
    var k := ConcatSplit(Concat(star, Chars(Alnum)), star, s);
    var head, tail := s[..k], s[k..];
    var j := ConcatSplit(star, Chars(Alnum), head);
    StarOfCharsMatches(TitleClass, head[..j]);
    StarOfCharsMatches(TitleClass, tail);
    assert j == k - 1 && s[j] == head[j..][0];
    AlnumClass(s[j]);
    forall i | 0 <= i < |s| ensures IsTitleChar(s[i]) {
      if i < j {
        assert s[i] == head[..j][i];
        TitleCharClass(s[i]);
      } else if i >= k {
        assert s[i] == tail[i - k];
        TitleCharClass(s[i]);
      }
    }
  }

  /** The title pattern matches every string of title characters that holds a letter or digit. */
  lemma TitlePatternComplete(s: string, a: nat)
    requires forall i :: 0 <= i < |s| ==> IsTitleChar(s[i])
    requires a < |s| && IsAlnum(s[a])
    ensures Matches(TitlePattern, s)
  {
    var star := Star(Chars(TitleClass));
    var prefix := Concat(star, Chars(Alnum));
    var head := s[..a + 1];
    forall i | 0 <= i < |s| ensures InRanges(s[i], TitleClass) { TitleCharClass(s[i]); }
    assert head[..a] == s[..a];
    StarOfCharsMatches(TitleClass, s[..a]);
    StarOfCharsMatches(TitleClass, s[a + 1..]);
    AlnumClass(s[a]);
    assert head[a..] == [s[a]];
    assert Matches(Chars(Alnum), head[a..]);
    assert Matches(prefix, head);
  }

  /** The title pattern matches exactly the strings made only of letters, digits, spaces and
      underscores that hold at least one letter or digit. */
  lemma TitlePatternMeaning(s: string)
    ensures Matches(TitlePattern, s) <==>
      (forall i :: 0 <= i < |s| ==> IsTitleChar(s[i])) && (exists i :: 0 <= i < |s| && IsAlnum(s[i]))
  {
    if Matches(TitlePattern, s) {
      TitlePatternSound(s);
    }
    if (forall i :: 0 <= i < |s| ==> IsTitleChar(s[i])) && (exists i :: 0 <= i < |s| && IsAlnum(s[i])) {
      var a :| 0 <= a < |s| && IsAlnum(s[a]);
      TitlePatternComplete(s, a);
    }
  }

  /** The time pattern matches exactly "0" and the digit strings whose first digit is 1-9. */
  lemma TimePatternMeaning(s: string)
    ensures Matches(TimePattern, s) <==> IsCanonicalNumeral(s)
  {
    var lead := Chars([CharRange('1', '9')]);
    var digits := Chars([CharRange('0', '9')]);
    forall c ensures InRanges(c, [CharRange('0', '9')]) <==> IsDigit(c) { SingleRange(c, '0', '9'); }
    SingleRange(if s == [] then '0' else s[0], '0', '0');
    SingleRange(if s == [] then '0' else s[0], '1', '9');
    if s != [] {
      StarOfCharsMatches([CharRange('0', '9')], s[1..]);
      if Matches(Concat(lead, Star(digits)), s) {
        var k :| 0 <= k <= |s| && Matches(lead, s[..k]) && Matches(Star(digits), s[k..]);
        assert k == 1 && s[0] == s[..k][0];
        forall i | 1 <= i < |s| ensures IsDigit(s[i]) { assert s[i] == s[1..][i - 1]; }
      }
      if s != "0" && IsCanonicalNumeral(s) {
        assert s[..1][0] == s[0];
        forall i | 0 <= i < |s[1..]| ensures IsDigit(s[1..][i]) { assert s[1..][i] == s[i + 1]; }
        assert Matches(lead, s[..1]);
      }
      if Matches(Chars([CharRange('0', '0')]), s) {
        assert s == [s[0]];
      }
    }
  }

  function DigitChar(d: nat): (c: char)
    requires d < 10
    ensures IsDigit(c)
  {
    ('0' as int + d) as char
  }

  /** The decimal numeral of `n`, the reference for what the time input accepts. */
  function Decimal(n: nat): (s: string)
    decreases n
  {
    if n < 10 then [DigitChar(n)] else Decimal(n / 10) + [DigitChar(n % 10)]
  }

  /** The value of a string of decimal digits. */
  function DigitsValue(s: string): nat
    requires forall i :: 0 <= i < |s| ==> IsDigit(s[i])
  {
    if s == [] then 0
    else assert IsDigit(s[|s| - 1]); 10 * DigitsValue(s[..|s| - 1]) + (s[|s| - 1] as int - '0' as int)
  }

  /** Every decimal numeral is canonical: digits only, no leading zero unless it is "0". */
  lemma {:induction false} DecimalIsCanonical(n: nat)
    ensures IsCanonicalNumeral(Decimal(n))
    ensures n > 0 ==> '1' <= Decimal(n)[0] <= '9'
    decreases n
  {
    if n >= 10 {
      DecimalIsCanonical(n / 10);
      var s := Decimal(n);
      assert s == Decimal(n / 10) + [DigitChar(n % 10)];
      assert s[0] == Decimal(n / 10)[0];
    }
  }

  /** A non-empty digit string without a leading zero is the decimal numeral of its value. */
  lemma {:induction false} DigitsRoundTrip(s: string)
    requires |s| > 0 && '1' <= s[0] <= '9'
    requires forall i :: 0 <= i < |s| ==> IsDigit(s[i])
    ensures DigitsValue(s) > 0 && Decimal(DigitsValue(s)) == s
    decreases |s|
  {
    var last := s[|s| - 1] as int - '0' as int;
    if |s| == 1 {
      assert DigitsValue(s) == last;
      assert DigitChar(last) == s[0];
    } else {
      var p := s[..|s| - 1];
      DigitsRoundTrip(p);
      var v := DigitsValue(s);
      assert v == 10 * DigitsValue(p) + last;
      assert v / 10 == DigitsValue(p) && v % 10 == last;
      assert DigitChar(last) == s[|s| - 1];
      assert s == p + [s[|s| - 1]];
    }
  }

  /** The time pattern accepts exactly the decimal numerals of the natural numbers. */
  lemma TimePatternIsDecimal(s: string)
    ensures Matches(TimePattern, s) <==> exists n: nat :: Decimal(n) == s
  {
    TimePatternMeaning(s);
    if IsCanonicalNumeral(s) {
      if s == "0" {
        assert Decimal(0) == s;
      } else {
        DigitsRoundTrip(s);
      }
    }
    if exists n: nat :: Decimal(n) == s {
      var n: nat :| Decimal(n) == s;
      DecimalIsCanonical(n);
    }
  }

  /** A title is accepted when it is empty (the input is not required) or when it is made of
      letters, digits, spaces and underscores and holds at least one letter or digit. */
  lemma TitleFieldAccepts(title: string)
    ensures TitleFieldValid(title) <==>
      title == [] ||
      ((forall i :: 0 <= i < |title| ==> IsTitleChar(title[i])) && (exists i :: 0 <= i < |title| && IsAlnum(title[i])))
  {
    TitlePatternMeaning(title);
  }

  /** A time is accepted exactly when it is the decimal numeral of a natural number; in
      particular the empty string is refused, since the input is required. */
  lemma TimeFieldAccepts(time: string)
    ensures TimeFieldValid(time) <==> exists n: nat :: Decimal(n) == time
  {
    TimePatternIsDecimal(time);
    if exists n: nat :: Decimal(n) == time {
      var n: nat :| Decimal(n) == time;
      assert |Decimal(n)| > 0;
    }
  }

  /** Examples of times the form accepts and refuses. */
  lemma TimeExamples()
    ensures TimeFieldValid("0") && TimeFieldValid("12")
    ensures !TimeFieldValid("007") && !TimeFieldValid("1.5") && !TimeFieldValid("")
  {
    TimePatternMeaning("0");
    TimePatternMeaning("12");
    TimePatternMeaning("007");
    TimePatternMeaning("1.5");
  }

  /** Examples of titles the form accepts and refuses. */
  lemma TitleExamples()
    ensures TitleFieldValid("Buy milk") && TitleFieldValid("")
    ensures !TitleFieldValid("Buy@milk") && !TitleFieldValid("   ") && !TitleFieldValid("__")
  {
    TitlePatternComplete("Buy milk", 0);
    TitlePatternMeaning("Buy@milk");
    assert !IsTitleChar("Buy@milk"[3]);
    TitlePatternMeaning("   ");
    TitlePatternMeaning("__");
  }
}
