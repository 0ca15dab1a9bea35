/**
  Shared vocabulary for the models: an Option type standing for C# `null` and
  C++ "not found" results, the character classes the C runtime and the
  ECMAScript regular expressions of the debugger extension use, substring
  searches with the semantics of `std::string::find` and friends, and the
  splitting of a text into lines performed by `std::getline`.
*/
module Text {

  datatype Option<+T> = None | Some(value: T) {
    function GetOr(default: T): T {
      match this
      case Some(v) => v
      case None => default
    }
  }

  /** The position of the first element satisfying `p`: a `foreach` that returns on its first hit. */
  function FirstWhere<T>(s: seq<T>, p: T -> bool): (r: Option<nat>)
    ensures r.Some? ==> r.value < |s| && p(s[r.value]) && forall j :: 0 <= j < r.value ==> !p(s[j])
    ensures r.None? <==> forall j :: 0 <= j < |s| ==> !p(s[j])
  {
    if s == [] then None
    else if p(s[0]) then Some(0)
    else match FirstWhere(s[1..], p)
      case None => None
      case Some(i) => Some(i + 1)
  }

  /** `i` is the first position of `s` where `f` gives a value. */
  predicate FirstSomeAt<T, U>(s: seq<T>, f: T -> Option<U>, i: nat) {
    i < |s| && f(s[i]).Some? && forall j :: 0 <= j < i ==> f(s[j]).None?
  }

  /** `f` gives no value anywhere in `s`. */
  predicate NoneAnywhere<T, U>(s: seq<T>, f: T -> Option<U>) {
    forall i :: 0 <= i < |s| ==> f(s[i]).None?
  }

  /** The value `f` gives at the first position where it gives one: a loop that returns on its first hit. */
  function FirstSome<T, U>(s: seq<T>, f: T -> Option<U>): (r: Option<U>)
    ensures r.None? <==> NoneAnywhere(s, f)
    ensures r.Some? ==> exists i: nat :: FirstSomeAt(s, f, i) && r == f(s[i])
  {
    match FirstWhere(s, x => f(x).Some?)
    case None => None
    case Some(i) =>
      assert FirstSomeAt(s, f, i);
      f(s[i])
  }

  // ---------------------------------------------------------------------
  // Character classes
  // ---------------------------------------------------------------------

  /** `isspace` in the C locale, which is also the ECMAScript `\s` class over single bytes. */
  predicate IsSpace(c: char) {
    c == ' ' || c == '\t' || c == '\n' || c == '\U{000B}' || c == '\U{000C}' || c == '\r'
  }

  predicate IsDigit(c: char) {
    '0' <= c <= '9'
  }

  /** The regular-expression class `[0-9a-fA-F]`. */
  predicate IsHexDigit(c: char) {
    IsDigit(c) || 'a' <= c <= 'f' || 'A' <= c <= 'F'
  }

  /** A whole string matched by the regular expression `[0-9a-fA-F]{8}`. */
  predicate IsHex8(s: string) {
    |s| == 8 && forall i :: 0 <= i < 8 ==> IsHexDigit(s[i])
  }

  predicate IsAsciiLetter(c: char) {
    'a' <= c <= 'z' || 'A' <= c <= 'Z'
  }

  /** ASCII case folding, as `_strnicmp` and case-insensitive regular expressions apply it. */
  function ToLower(c: char): (r: char)
    ensures 'A' <= c <= 'Z' ==> r as int == c as int + 32
    ensures !('A' <= c <= 'Z') ==> r == c
  {
    if 'A' <= c <= 'Z' then (c as int + 32) as char else c
  }

  function LowerAll(s: string): (r: string)
    ensures |r| == |s|
    ensures forall i :: 0 <= i < |s| ==> r[i] == ToLower(s[i])
  {
    seq(|s|, i requires 0 <= i < |s| => ToLower(s[i]))
  }

  /** Strings equal up to ASCII case. */
  predicate EqualIgnoreCase(a: string, b: string) {
    LowerAll(a) == LowerAll(b)
  }

  // ---------------------------------------------------------------------
  // Searching
  // ---------------------------------------------------------------------

  predicate OccursAt(s: string, needle: string, i: nat) {
    i + |needle| <= |s| && s[i..i + |needle|] == needle
  }

  /** `needle` is a substring of `s`. */
  predicate Contains(s: string, needle: string) {
    exists i: nat | i <= |s| :: OccursAt(s, needle, i)
  }

  /** `s.find(needle, from)`: the first position at or after `from` where `needle` occurs. */
  function FindFrom(s: string, needle: string, from: nat): (r: Option<nat>)
    ensures r.Some? ==> from <= r.value && OccursAt(s, needle, r.value)
    ensures r.Some? ==> forall j: nat :: from <= j < r.value ==> !OccursAt(s, needle, j)
    ensures r.None? ==> forall j: nat :: from <= j ==> !OccursAt(s, needle, j)
    decreases |s| - from
  {
    if from + |needle| > |s| then None
    else if s[from..from + |needle|] == needle then Some(from)
    else FindFrom(s, needle, from + 1)
  }

  /** `s.find(needle)`. */
  function Find(s: string, needle: string): (r: Option<nat>)
    ensures r.Some? ==> OccursAt(s, needle, r.value)
    ensures r.Some? ==> forall j: nat :: j < r.value ==> !OccursAt(s, needle, j)
    ensures r.None? <==> !Contains(s, needle)
  {
    FindFrom(s, needle, 0)
  }

  /** `s.find(c)`: the first index holding `c`. */
  function IndexOf(s: string, c: char): (r: Option<nat>)
    ensures r.Some? ==> r.value < |s| && s[r.value] == c && c !in s[..r.value]
    ensures r.None? <==> c !in s
  {
    if c !in s then None
    else if s[0] == c then Some(0)
    else
      var k := IndexOf(s[1..], c).value;
      assert s[1..][..k] == s[1..k + 1];
      assert s[..k + 1] == [s[0]] + s[1..k + 1];
      Some(k + 1)
  }

  /** `s.rfind(needle)`: the last position where `needle` occurs. */
  function FindLast(s: string, needle: string): (r: Option<nat>)
    ensures r.Some? ==> OccursAt(s, needle, r.value)
    ensures r.Some? ==> forall j: nat :: r.value < j ==> !OccursAt(s, needle, j)
    ensures r.None? <==> !Contains(s, needle)
  {
    FindLastBelow(s, needle, |s| + 1)
  }

  function FindLastBelow(s: string, needle: string, bound: nat): (r: Option<nat>)
    ensures r.Some? ==> r.value < bound && OccursAt(s, needle, r.value)
    ensures r.Some? ==> forall j: nat :: r.value < j < bound ==> !OccursAt(s, needle, j)
    ensures r.None? ==> forall j: nat :: j < bound ==> !OccursAt(s, needle, j)
    ensures bound > |s| ==> (r.None? <==> !Contains(s, needle))
    decreases bound
  {
    if bound == 0 then None
    else if OccursAt(s, needle, bound - 1) then Some(bound - 1)
    else
      var r := FindLastBelow(s, needle, bound - 1);
      assert bound > |s| && r.None? ==> forall j: nat :: !OccursAt(s, needle, j) by {
        if bound > |s| && r.None? {
          forall j: nat ensures !OccursAt(s, needle, j) {
            if j >= bound { assert j > |s|; }
          }
        }
      }
      r
  }

  /** `s.find_last_of(chars)`: the last index holding one of `chars`. */
  function FindLastOf(s: string, chars: set<char>): (r: Option<nat>)
    ensures r.Some? ==> r.value < |s| && s[r.value] in chars
    ensures r.Some? ==> forall j :: r.value < j < |s| ==> s[j] !in chars
    ensures r.None? <==> forall j :: 0 <= j < |s| ==> s[j] !in chars
  {
    if s == [] then None
    else if s[|s| - 1] in chars then Some(|s| - 1)
    else FindLastOf(s[..|s| - 1], chars)
  }

  /** `s.find_first_not_of(c, from)`. */
  function FindFirstNotOf(s: string, c: char, from: nat): (r: Option<nat>)
    ensures r.Some? ==> from <= r.value < |s| && s[r.value] != c
    ensures r.Some? ==> forall j :: from <= j < r.value ==> s[j] == c
    ensures r.None? <==> forall j :: from <= j < |s| ==> s[j] == c
    decreases |s| - from
  {
    if from >= |s| then None
    else if s[from] != c then Some(from)
    else FindFirstNotOf(s, c, from + 1)
  }

  /** `s.find_last_not_of(c)`. */
  function FindLastNotOf(s: string, c: char): (r: Option<nat>)
    ensures r.Some? ==> r.value < |s| && s[r.value] != c
    ensures r.Some? ==> forall j :: r.value < j < |s| ==> s[j] == c
    ensures r.None? <==> forall j :: 0 <= j < |s| ==> s[j] == c
  {
    if s == [] then None
    else if s[|s| - 1] != c then Some(|s| - 1)
    else FindLastNotOf(s[..|s| - 1], c)
  }

  // ---------------------------------------------------------------------
  // Lines, as read one after another with std::getline
  // ---------------------------------------------------------------------

  /**
    The lines `std::getline` delivers from a string stream over `s`: the text is
    cut at every '\n', the separators are dropped, and a final '\n' does not
    start an empty last line. An empty text has no lines at all.
  */
  function Lines(s: string): (ls: seq<string>)
    ensures forall i :: 0 <= i < |ls| ==> '\n' !in ls[i]
    ensures |ls| <= |s|
    decreases |s|
  {
    if s == [] then []
    else match IndexOf(s, '\n')
      case None => [s]
      case Some(k) => [s[..k]] + Lines(s[k + 1..])
  }

  /** Every line followed by its '\n' separator. */
  function Unlines(ls: seq<string>): string {
    if ls == [] then [] else ls[0] + "\n" + Unlines(ls[1..])
  }

  /** Lines loses nothing but the line separators: joining the lines back gives the text, with a '\n' added at the end if it lacked one. */
  lemma {:induction false} LinesRoundTrip(s: string)
    ensures Unlines(Lines(s)) == if s == [] || s[|s| - 1] == '\n' then s else s + "\n"
    decreases |s|
  {
    if s != [] {
      var nl := IndexOf(s, '\n');
      if nl.None? {
        assert Lines(s) == [s];
        assert Unlines([s]) == s + "\n" + Unlines([]);
      } else {
        var k := nl.value;
        LinesRoundTrip(s[k + 1..]);
        LinesStep(s, k);
        RejoinLine(s, k);
      }
    }
  }

  /** Lines undoes Unlines: splitting lines that are each terminated by '\n' gives those lines back. */
  lemma {:induction false} LinesOfUnlines(ls: seq<string>)
    requires forall i :: 0 <= i < |ls| ==> '\n' !in ls[i]
    ensures Lines(Unlines(ls)) == ls
  {
    if ls != [] {
      var line, tail := ls[0], Unlines(ls[1..]);
      var s := line + "\n" + tail;
      assert s[..|line|] == line;
      assert s[|line|] == '\n';
      assert s[|line| + 1..] == tail;
      LinesCons(s, |line|);
      LinesOfUnlines(ls[1..]);
      assert ls == [line] + ls[1..];
    }
  }

  /** Putting a line back in front of the rejoined rest of the text. */
  lemma RejoinLine(s: string, k: nat)
    requires k < |s| && s[k] == '\n'
    ensures var rest := s[k + 1..];
      s[..k] + "\n" + (if rest == [] || rest[|rest| - 1] == '\n' then rest else rest + "\n")
      == if s[|s| - 1] == '\n' then s else s + "\n"
  {
    var line, rest := s[..k], s[k + 1..];
    assert s == line + "\n" + rest;
    if rest == [] {
      assert s[|s| - 1] == '\n';
    } else {
      assert rest[|rest| - 1] == s[|s| - 1];
      if s[|s| - 1] != '\n' {
        assert line + "\n" + (rest + "\n") == (line + "\n" + rest) + "\n";
      }
    }
  }

  lemma LinesStep(s: string, k: nat)
    requires k < |s| && s[k] == '\n' && '\n' !in s[..k]
    ensures Unlines(Lines(s)) == s[..k] + "\n" + Unlines(Lines(s[k + 1..]))
  {
    var ls := Lines(s[k + 1..]);
    assert IndexOf(s, '\n') == Some(k);
    assert Lines(s) == [s[..k]] + ls;
    assert ([s[..k]] + ls)[1..] == ls;
  }

  lemma ContainsLeft(a: string, b: string, needle: string)
    requires Contains(a, needle)
    ensures Contains(a + b, needle)
  {
    var p: nat :| p <= |a| && OccursAt(a, needle, p);
    assert (a + b)[p..p + |needle|] == a[p..p + |needle|];
    assert OccursAt(a + b, needle, p);
  }

  lemma ContainsRight(a: string, b: string, needle: string)
    requires Contains(b, needle)
    ensures Contains(a + b, needle)
  {
    var p: nat :| p <= |b| && OccursAt(b, needle, p);
    assert (a + b)[|a| + p..|a| + p + |needle|] == b[p..p + |needle|];
    assert OccursAt(a + b, needle, |a| + p);
  }

  lemma CharOfOccurrence(s: string, needle: string, p: nat, k: nat)
    requires OccursAt(s, needle, p) && p <= k < p + |needle|
    ensures needle[k - p] == s[k]
  {
    assert s[p..p + |needle|][k - p] == s[k];
  }

  lemma ContainsInSuffix(s: string, d: nat, needle: string)
    requires d <= |s| && Contains(s[d..], needle)
    ensures Contains(s, needle)
  {
    var p: nat :| p <= |s[d..]| && OccursAt(s[d..], needle, p);
    assert s[d + p..d + p + |needle|] == s[d..][p..p + |needle|];
    assert OccursAt(s, needle, d + p);
  }

  /** An occurrence of a text without '\n' lies on one side of a '\n'. */
  lemma ContainsSplit(a: string, b: string, needle: string)
    requires '\n' !in needle
    requires Contains(a + "\n" + b, needle)
    ensures Contains(a, needle) || Contains(b, needle)
  {
    var s := a + "\n" + b;
    var p: nat :| p <= |s| && OccursAt(s, needle, p);
    if p + |needle| <= |a| {
      assert a[p..p + |needle|] == s[p..p + |needle|];
      assert OccursAt(a, needle, p);
    } else if p > |a| {
      var q := p - |a| - 1;
      assert q + |needle| <= |b|;
      forall j | 0 <= j < |needle| ensures b[q + j] == needle[j] {
        assert s[p + j] == b[q + j];
        assert s[p..p + |needle|][j] == s[p + j];
      }
      assert b[q..q + |needle|] == needle;
      assert OccursAt(b, needle, q);
    } else {
      CharOfOccurrence(s, needle, p, |a|);
      assert false;
    }
  }

  /** The first line of a text holding a '\n' ends just before it. */
  lemma LinesCons(s: string, k: nat)
    requires k < |s| && s[k] == '\n' && '\n' !in s[..k]
    ensures Lines(s) == [s[..k]] + Lines(s[k + 1..])
  {
    assert IndexOf(s, '\n') == Some(k);
  }

  /** A text that contains no '\n' occurs in `s` exactly when it occurs on one of its lines. */
  lemma ContainsOnSomeLine(s: string, needle: string)
    requires '\n' !in needle && needle != []
    ensures Contains(s, needle) <==> exists i :: 0 <= i < |Lines(s)| && Contains(Lines(s)[i], needle)
  {
    if Contains(s, needle) {
      ContainsFoundOnLine(s, needle);
    }
    if exists i :: 0 <= i < |Lines(s)| && Contains(Lines(s)[i], needle) {
      var i :| 0 <= i < |Lines(s)| && Contains(Lines(s)[i], needle);
      LineOccurrenceInText(s, needle, i);
    }
  }

  lemma {:induction false} ContainsFoundOnLine(s: string, needle: string)
    requires '\n' !in needle && needle != []
    requires Contains(s, needle)
    ensures exists i :: 0 <= i < |Lines(s)| && Contains(Lines(s)[i], needle)
    decreases |s|
  {
    var nl := IndexOf(s, '\n');
    if nl.None? {
      assert Lines(s) == [s];
      assert Lines(s)[0] == s;
    } else {
      var k := nl.value;
      var line, rest := s[..k], s[k + 1..];
      LinesCons(s, k);
      assert s == line + "\n" + rest;
      ContainsSplit(line, rest, needle);
      if Contains(line, needle) {
        assert Lines(s)[0] == line;
      } else {
        ContainsFoundOnLine(rest, needle);
        var i :| 0 <= i < |Lines(rest)| && Contains(Lines(rest)[i], needle);
        assert Lines(s)[i + 1] == Lines(rest)[i];
      }
    }
  }

  lemma {:induction false} LineOccurrenceInText(s: string, needle: string, i: nat)
    requires i < |Lines(s)| && Contains(Lines(s)[i], needle)
    ensures Contains(s, needle)
    decreases |s|
  {
    match IndexOf(s, '\n')
    case None =>
      assert Lines(s) == [s];
    case Some(k) =>
      if i == 0 {
        FirstLineIsPrefix(s, k);
        ContainsInPrefix(s, k, needle);
      } else {
        LaterLineIsInRest(s, k, i);
        LineOccurrenceInText(s[k + 1..], needle, i - 1);
        ContainsInSuffix(s, k + 1, needle);
      }
  }

  lemma FirstLineIsPrefix(s: string, k: nat)
    requires IndexOf(s, '\n') == Some(k)
    ensures Lines(s) != [] && Lines(s)[0] == s[..k]
  {
    LinesCons(s, k);
  }

  lemma LaterLineIsInRest(s: string, k: nat, i: nat)
    requires IndexOf(s, '\n') == Some(k) && 0 < i < |Lines(s)|
    ensures i - 1 < |Lines(s[k + 1..])| && Lines(s)[i] == Lines(s[k + 1..])[i - 1]
  {
    LinesCons(s, k);
  }

  lemma ContainsInPrefix(s: string, d: nat, needle: string)
    requires d <= |s| && Contains(s[..d], needle)
    ensures Contains(s, needle)
  {
    var p: nat :| p <= |s[..d]| && OccursAt(s[..d], needle, p);
    assert s[p..p + |needle|] == s[..d][p..p + |needle|];
    assert OccursAt(s, needle, p);
  }

  // ---------------------------------------------------------------------
  // Numbers
  // ---------------------------------------------------------------------

  /** The value of a string of decimal digits. */
  function DecimalValue(digits: string): nat
    requires forall i :: 0 <= i < |digits| ==> IsDigit(digits[i])
  {
    if digits == [] then 0
    else
      assert IsDigit(digits[|digits| - 1]);
      10 * DecimalValue(digits[..|digits| - 1]) + (digits[|digits| - 1] as int - '0' as int)
  }

  /** Length of the run of decimal digits at the front of `s`. */
  function DigitRun(s: string): (n: nat)
    ensures n <= |s|
    ensures forall i :: 0 <= i < n ==> IsDigit(s[i])
    ensures n < |s| ==> !IsDigit(s[n])
  {
    if s == [] || !IsDigit(s[0]) then 0 else 1 + DigitRun(s[1..])
  }

  /** Number of leading characters of `s` that are white space. */
  function SpaceRun(s: string): (n: nat)
    ensures n <= |s|
    ensures forall i :: 0 <= i < n ==> IsSpace(s[i])
    ensures n < |s| ==> !IsSpace(s[n])
  {
    if s == [] || !IsSpace(s[0]) then 0 else 1 + SpaceRun(s[1..])
  }

  /**
    `atoi`: leading white space, an optional sign, then the longest run of
    decimal digits; anything else yields 0. Values beyond the range of `int`
    in C are not truncated here.
  */
  function Atoi(s: string): int {
    var t := s[SpaceRun(s)..];
    if t != [] && (t[0] == '-' || t[0] == '+') then
      var v: int := DecimalValue(t[1..][..DigitRun(t[1..])]);
      if t[0] == '-' then -v else v
    else
      DecimalValue(t[..DigitRun(t)])
  }
}
