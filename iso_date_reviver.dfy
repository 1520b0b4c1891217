/** lib/json-parse-filter.js: the reviver handed to `JSON.parse` when a lock's
    contents are inspected. It tests each parsed value against the unanchored,
    non-global regular expression
      \d{4}-\d{2}-\d{2}T\d{2}:\d{2}:\d{2}.\d{3}Z
    and turns a value that matches into a Date. The regular expression is modelled
    as a fixed sequence of 24 character classes tried at every start position. */
module IsoDateReviver {

  /** A one-character piece of the pattern: `\d`, a literal, or the unescaped `.`.
      Without the `s` and `u` flags, `.` matches one UTF-16 code unit other than the
      four line terminators. A character above U+FFFF is two code units; `.` takes
      the first and the next piece of the pattern, a digit, fails on the second, so
      in a sequence of characters `.` never accepts such a character. */
  datatype CharClass = Digit | Literal(c: char) | AnyButLineTerminator

  const IsoDatePattern: seq<CharClass> := [
    Digit, Digit, Digit, Digit, Literal('-'), Digit, Digit, Literal('-'), Digit, Digit,
    Literal('T'), Digit, Digit, Literal(':'), Digit, Digit, Literal(':'), Digit, Digit,
    AnyButLineTerminator, Digit, Digit, Digit, Literal('Z')]

  /** Length of every match, and the position of the unescaped `.` inside a match. */
  const MatchLength := 24
  const DotOffset := 19

  predicate IsLineTerminator(c: char) {
    c == '\n' || c == '\r' || c == '\U{2028}' || c == '\U{2029}'
  }

  predicate Accepts(cc: CharClass, c: char) {
    match cc
    case Digit => '0' <= c <= '9'
    case Literal(x) => c == x
    case AnyButLineTerminator => !IsLineTerminator(c) && c < '\U{10000}'
  }

  /** The pattern matches the 24 characters of `s` that start at index `i`. */
  predicate MatchesAt(s: string, i: nat) {
    && i + |IsoDatePattern| <= |s|
    && forall k :: 0 <= k < |IsoDatePattern| ==> Accepts(IsoDatePattern[k], s[i + k])
  }

  /** Specification of `IS_ISO_DATE_RE.test(s)`: a match starts somewhere in `s`. */
  ghost predicate ContainsIsoDate(s: string) {
    exists i: nat :: MatchesAt(s, i)
  }

  /** Tries every start position from `i` on, as the regular expression engine does. */
  function SearchFrom(s: string, i: nat): (found: bool)
    requires i <= |s|
    ensures found <==> exists j: nat :: i <= j && MatchesAt(s, j)
    decreases |s| - i
  {
    if i + |IsoDatePattern| > |s| then false
    else if MatchesAt(s, i) then true
    else
      var found := SearchFrom(s, i + 1);
      assert found <==> exists j: nat :: i <= j && MatchesAt(s, j) by {
        assert forall j: nat :: i <= j && MatchesAt(s, j) ==> j == i || i + 1 <= j;
      }
      found
  }

  /** `IS_ISO_DATE_RE.test(s)`. */
  function IsIsoDate(s: string): (r: bool)
    ensures r <==> ContainsIsoDate(s)
  {
    SearchFrom(s, 0)
  }

  /** What the reviver hands back to `JSON.parse`: the value itself, or a Date built
      from it (`new Date(val)`, whose construction is not modelled). */
  datatype Revived<T> = Unchanged(value: T) | DateFrom(source: T)

  /** `jsonParseFilter(key, val)`. `RegExp.prototype.test` first converts its argument
      to a string; that conversion is the parameter `asString` (the identity on
      strings). The key is not consulted. */
  function JsonParseFilter<T>(key: string, val: T, asString: T -> string): (r: Revived<T>)
    ensures r == DateFrom(val) <==> ContainsIsoDate(asString(val))
    ensures r == Unchanged(val) <==> !ContainsIsoDate(asString(val))
  {
    if IsIsoDate(asString(val)) then DateFrom(val) else Unchanged(val)
  }

  /** A string shorter than one match never matches. */
  lemma ShortStringsNeverMatch(s: string)
    requires |s| < MatchLength
    ensures !IsIsoDate(s)
  {
  }

  /** The pattern is unanchored: surrounding a matching string with anything keeps
      it matching. */
  lemma EmbeddingKeepsMatch(prefix: string, s: string, suffix: string)
    requires IsIsoDate(s)
    ensures IsIsoDate(prefix + s + suffix)
  {
    var i: nat :| MatchesAt(s, i);
    var t := prefix + s + suffix;
    forall k | 0 <= k < |IsoDatePattern|
      ensures Accepts(IsoDatePattern[k], t[|prefix| + i + k])
    {
      assert t[|prefix| + i + k] == s[i + k];
    }
    assert MatchesAt(t, |prefix| + i);
  }

  /** The separator between seconds and milliseconds is hardly checked: any
      character of the basic multilingual plane other than a line terminator may
      stand there. */
  lemma DotAcceptsAnyCharacter(s: string, i: nat, c: char)
    requires MatchesAt(s, i)
    requires !IsLineTerminator(c) && c < '\U{10000}'
    ensures MatchesAt(s[i + DotOffset := c], i)
  {
    var t := s[i + DotOffset := c];
    forall k | 0 <= k < |IsoDatePattern|
      ensures Accepts(IsoDatePattern[k], t[i + k])
    {
      if k != DotOffset {
        assert t[i + k] == s[i + k];
      }
    }
  }

  /** The form `JSON.stringify` gives a Date matches, and so does the same text with
      another separator before the milliseconds. */
  lemma MatchingExamples()
    ensures IsIsoDate("2021-03-04T05:06:07.890Z")
    ensures IsIsoDate("2021-03-04T05:06:07_890Z")
  {
    assert MatchesAt("2021-03-04T05:06:07.890Z", 0);
    assert MatchesAt("2021-03-04T05:06:07_890Z", 0);
  }

  /** A newline in place of the `.`, or a space in place of the `T`, prevents a match. */
  lemma NonMatchingExamples()
    ensures !IsIsoDate("2021-03-04T05:06:07\n890Z")
    ensures !IsIsoDate("2021-03-04 05:06:07.890Z")
  {
    var broken := "2021-03-04T05:06:07\n890Z";
    assert !Accepts(IsoDatePattern[DotOffset], broken[DotOffset]);
    assert forall j: nat :: MatchesAt(broken, j) ==> j == 0;
    var spaced := "2021-03-04 05:06:07.890Z";
    assert !Accepts(IsoDatePattern[10], spaced[10]);
    assert forall j: nat :: MatchesAt(spaced, j) ==> j == 0;
  }

  /** No piece of the pattern accepts a character above U+FFFF, so a match never
      contains one: matching over characters and over UTF-16 code units agree on
      where matches are. */
  lemma MatchesStayInBasicPlane(s: string, i: nat, k: nat)
    requires MatchesAt(s, i) && k < MatchLength
    ensures s[i + k] < '\U{10000}'
  {
    assert Accepts(IsoDatePattern[k], s[i + k]);
  }

  /** A character above U+FFFF in place of the `.` prevents a match. */
  lemma AstralAtDotPreventsMatch()
    ensures !IsIsoDate("2021-03-04T05:06:07\U{1F600}890Z")
  {
    var astral := "2021-03-04T05:06:07\U{1F600}890Z";
    assert !Accepts(IsoDatePattern[DotOffset], astral[DotOffset]);
    assert forall j: nat :: MatchesAt(astral, j) ==> j == 0;
  }
}
