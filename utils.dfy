/** String and number helpers used by the form rules: `exists`, `contains`
    (for the character-class patterns the rules use), `inRange`, `yearsOf`,
    and JavaScript's `length` of a string. */
module Utils {

  /** `exists` applied to a string: `Boolean(s)` is false only for "". */
  function Exists(s: string): (r: bool)
    ensures r <==> |s| > 0
  {
    s != ""
  }

  /** One entry of a regular-expression character class. */
  datatype ClassAtom =
    | Char(c: char)              // a literal character, escaped or not
    | Range(lo: char, hi: char)  // `lo-hi`
    | DigitEscape                // `\d`
    | SpaceEscape                // `\s`

  /** A one-character pattern: `[atoms]`, `[^atoms]`, or a lone escape
      (written as a class with that single atom). */
  datatype CharClass = CharClass(negated: bool, atoms: seq<ClassAtom>)

  /** `\d`: the ASCII digits only. */
  predicate IsDigit(c: char) {
    '0' <= c <= '9'
  }

  /** `\s`: the ECMAScript WhiteSpace and LineTerminator characters. */
  predicate IsWhiteSpace(c: char) {
    || c == '\t' || c == '\n' || c == '\U{B}' || c == '\U{C}' || c == '\r'
    || c == ' ' || c == '\U{A0}' || c == '\U{1680}'
    || ('\U{2000}' <= c <= '\U{200A}')
    || c == '\U{2028}' || c == '\U{2029}' || c == '\U{202F}' || c == '\U{205F}'
    || c == '\U{3000}' || c == '\U{FEFF}'
  }

  predicate AtomMatches(atom: ClassAtom, c: char) {
    match atom
    case Char(x) => c == x
    case Range(lo, hi) => lo <= c <= hi
    case DigitEscape => IsDigit(c)
    case SpaceEscape => IsWhiteSpace(c)
  }

  /** Whether the one-character pattern accepts `c`. */
  predicate ClassMatches(cls: CharClass, c: char) {
    (exists i :: 0 <= i < |cls.atoms| && AtomMatches(cls.atoms[i], c)) != cls.negated
  }

  /** `value.search(pattern)` for a one-character pattern: the index of the
      first character the pattern accepts, or -1 when there is none. The
      `g` and `i` flags do not change it for the patterns used here. */
  function Search(value: string, pattern: CharClass): (r: int)
    ensures -1 <= r < |value|
    ensures 0 <= r ==> ClassMatches(pattern, value[r])
    ensures 0 <= r ==> forall j :: 0 <= j < r ==> !ClassMatches(pattern, value[j])
    ensures r == -1 ==> forall j :: 0 <= j < |value| ==> !ClassMatches(pattern, value[j])
  {
    if value == [] then -1
    else if ClassMatches(pattern, value[0]) then 0
    else
      var rest := Search(value[1..], pattern);
      if rest < 0 then -1 else rest + 1
  }

  /** `contains(value, pattern)`: the search finds a match. */
  function Contains(value: string, pattern: CharClass): (r: bool)
    ensures r <==> exists i :: 0 <= i < |value| && ClassMatches(pattern, value[i])
  {
    Search(value, pattern) >= 0
  }

  /** `inRange` on integers: both bounds are inclusive. */
  function InRange(value: int, min: int, max: int): (r: bool)
    ensures r ==> min <= max
    ensures r <==> min <= value <= max
  {
    value >= min && value <= max
  }

  lemma InRangeEmptyWhenBoundsCross(value: int, min: int, max: int)
    requires min > max
    ensures !InRange(value, min, max)
  {
  }

  /** The wall clock and the calendar, which `yearsOf` consults. */
  datatype Clock = Clock(currentYear: int, fullYearOf: int -> int)

  /** `yearsOf`: the current year minus the year of the given time value. */
  function YearsOf(clock: Clock, ms: int): int {
    clock.currentYear - clock.fullYearOf(ms)
  }

  /** The age counts calendar years only: two dates in the same calendar
      year give the same age, whatever their day and month. */
  lemma SameCalendarYearSameAge(clock: Clock, a: int, b: int)
    requires clock.fullYearOf(a) == clock.fullYearOf(b)
    ensures YearsOf(clock, a) == YearsOf(clock, b)
    ensures YearsOf(clock, a) + clock.fullYearOf(a) == clock.currentYear
  {
  }

  /** JavaScript's `s.length`: the number of UTF-16 code units, so a
      character outside the Basic Multilingual Plane counts twice. */
  function Length(s: string): (n: nat)
    ensures |s| <= n <= 2 * |s|
    ensures n == 0 <==> s == []
  {
    if s == [] then 0
    else (if s[0] as int > 0xFFFF then 2 else 1) + Length(s[1..])
  }

  /** One character counts two code units when it lies outside the Basic
      Multilingual Plane, one otherwise. */
  lemma LengthOfCharacter(c: char)
    ensures Length([c]) == if c as int > 0xFFFF then 2 else 1
  {
    assert [c][1..] == [];
  }

  /** The length of a concatenation is the sum of the lengths, so with
      `LengthOfCharacter` it gives the length of every string. */
  lemma {:induction false} LengthOfConcat(a: string, b: string)
    ensures Length(a + b) == Length(a) + Length(b)
  {
    if a == [] {
      assert a + b == b;
    } else {
      assert (a + b)[1..] == a[1..] + b;
      LengthOfConcat(a[1..], b);
    }
  }

  /** On text made of Basic Multilingual Plane characters only, the
      JavaScript length is the number of characters. */
  lemma {:induction false} LengthOfBasicPlaneText(s: string)
    requires forall i :: 0 <= i < |s| ==> s[i] as int <= 0xFFFF
    ensures Length(s) == |s|
  {
    if s != [] {
      LengthOfBasicPlaneText(s[1..]);
    }
  }
}
