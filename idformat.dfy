/**
 The textual identifier format accepted by the `/todos/:id` routes: the
 anchored, case-insensitive pattern
   ^[0-9a-f]{8}-[0-9a-f]{4}-[0-5][0-9a-f]{3}-[089ab][0-9a-f]{3}-[0-9a-f]{12}$
 written here as a sequence of character classes, one per character.
 */
module IdFormat {

  predicate IsHexDigit(c: char) {
    '0' <= c <= '9' || 'a' <= c <= 'f' || 'A' <= c <= 'F'
  }

  /** The character classes that occur in the pattern. */
  datatype CharClass =
    | Hyphen   // -
    | Hex      // [0-9a-f], case-insensitive
    | Version  // [0-5]
    | Variant  // [089ab], case-insensitive

  predicate Accepts(k: CharClass, c: char) {
    match k
    case Hyphen => c == '-'
    case Hex => IsHexDigit(c)
    case Version => '0' <= c <= '5'
    case Variant => c in "089abAB"
  }

  function Repeat(k: CharClass, n: nat): (p: seq<CharClass>)
    ensures |p| == n
    ensures forall i :: 0 <= i < n ==> p[i] == k
  {
    if n == 0 then [] else [k] + Repeat(k, n - 1)
  }

  /** The pattern group by group: 8-4-4-4-12. */
  function IdPattern(): seq<CharClass> {
    Repeat(Hex, 8) + [Hyphen] +
    Repeat(Hex, 4) + [Hyphen] +
    [Version] + Repeat(Hex, 3) + [Hyphen] +
    [Variant] + Repeat(Hex, 3) + [Hyphen] +
    Repeat(Hex, 12)
  }

  /** Anchored match of a pattern made of single-character classes. */
  predicate Matches(p: seq<CharClass>, s: string) {
    if p == [] then s == []
    else s != [] && Accepts(p[0], s[0]) && Matches(p[1..], s[1..])
  }

  /**
   The test the id guard performs on the path parameter. Only 36-character
   strings pass, so "abc" and every other length is refused.
   */
  predicate IsValidId(s: string)
    ensures IsValidId(s) ==> |s| == 36
  {
    MatchesPointwise(IdPattern(), s);
    IdPatternAt(0);
    Matches(IdPattern(), s)
  }

  /** The class the pattern demands at position i of a 36-character id. */
  function ClassAt(i: nat): CharClass {
    if i == 8 || i == 13 || i == 18 || i == 23 then Hyphen
    else if i == 14 then Version
    else if i == 19 then Variant
    else Hex
  }

  lemma {:induction false} MatchesPointwise(p: seq<CharClass>, s: string)
    ensures Matches(p, s) <==> |p| == |s| && forall i :: 0 <= i < |p| ==> Accepts(p[i], s[i])
    decreases p
  {
    if p != [] && s != [] {
      MatchesPointwise(p[1..], s[1..]);
      if |p| == |s| && forall i :: 0 <= i < |p| ==> Accepts(p[i], s[i]) {
        assert forall i :: 0 <= i < |p| - 1 ==> p[1..][i] == p[i + 1] && s[1..][i] == s[i + 1];
      }
    }
  }

  lemma IdPatternAt(i: nat)
    requires i < 36
    ensures |IdPattern()| == 36 && IdPattern()[i] == ClassAt(i)
  {
  }

  /**
   Positional reading of the pattern: 36 characters, hyphens at 8, 13, 18
   and 23, a digit 0-5 at 14, one of 0, 8, 9, a, b (either case) at 19, and a
   hexadecimal digit of either case everywhere else.
   */
  lemma ValidIdShape(s: string)
    ensures IsValidId(s) <==>
      && |s| == 36
      && s[8] == '-' && s[13] == '-' && s[18] == '-' && s[23] == '-'
      && '0' <= s[14] <= '5'
      && s[19] in "089abAB"
      && forall i :: 0 <= i < 36 && ClassAt(i) == Hex ==> IsHexDigit(s[i])
  {
    MatchesPointwise(IdPattern(), s);
    forall i | 0 <= i < 36 {
      IdPatternAt(i);
    }
  }

  function ToLower(c: char): char {
    if 'A' <= c <= 'Z' then (c as int + 32) as char else c
  }

  function ToLowerAll(s: string): (r: string)
    ensures |r| == |s|
    ensures forall i :: 0 <= i < |s| ==> r[i] == ToLower(s[i])
  {
    seq(|s|, i requires 0 <= i < |s| => ToLower(s[i]))
  }

  /** The pattern carries the `i` flag: letter case never decides acceptance. */
  lemma CaseInsensitive(s: string)
    ensures IsValidId(s) <==> IsValidId(ToLowerAll(s))
  {
    var t := ToLowerAll(s);
    MatchesPointwise(IdPattern(), s);
    MatchesPointwise(IdPattern(), t);
    forall i | 0 <= i < |s| && i < |IdPattern()|
      ensures Accepts(IdPattern()[i], s[i]) <==> Accepts(IdPattern()[i], t[i])
    {
      assert t[i] == ToLower(s[i]);
    }
  }

  /** The text the `uuid` package's v4 generator produces: lower-case, version 4, variant 8-b. */
  predicate IsUuidV4(s: string) {
    && |s| == 36
    && forall i :: 0 <= i < 36 ==>
         if i == 8 || i == 13 || i == 18 || i == 23 then s[i] == '-'
         else if i == 14 then s[i] == '4'
         else if i == 19 then s[i] in "89ab"
         else s[i] in "0123456789abcdef"
  }

  /** Every generated identifier passes the id guard. */
  lemma GeneratedIdIsValid(s: string)
    requires IsUuidV4(s)
    ensures IsValidId(s)
  {
    MatchesPointwise(IdPattern(), s);
    forall i | 0 <= i < 36 ensures Accepts(IdPattern()[i], s[i]) {
      IdPatternAt(i);
    }
  }

  /** The all-zero identifier, 00000000-0000-0000-0000-000000000000. */
  function NilId(): (s: string)
    ensures |s| == 36
  {
    seq(36, i requires 0 <= i < 36 => if ClassAt(i) == Hyphen then '-' else '0')
  }

  /** The variant class is `[089ab]`, so the all-zero identifier passes too. */
  lemma NilIdIsValid()
    ensures IsValidId(NilId())
  {
    var s := NilId();
    MatchesPointwise(IdPattern(), s);
    forall i | 0 <= i < 36 ensures Accepts(IdPattern()[i], s[i]) {
      IdPatternAt(i);
    }
  }

}
