/** Timeouts in a route's settings: a number with an optional unit of seconds, minutes,
    hours or days. The units are tried in the order of a Go map, that is, in any order. */
module Timeouts {
  import opened Wrappers
  import opened Decimal

  const UNITS := {'s', 'm', 'h', 'd'}

  function Factor(unit: char): int
    requires unit in UNITS
  {
    match unit
    case 's' => 1
    case 'm' => 60
    case 'h' => 3600
    case 'd' => 86400
  }

  function RemoveSpaces(v: string): string {
    if v == "" then "" else (if v[0] == ' ' then "" else [v[0]]) + RemoveSpaces(v[1..])
  }

  function Lower(c: char): char {
    if 'A' <= c <= 'Z' then (c as int + 32) as char else c
  }

  /** The unit a text ends in, in either case. */
  predicate EndsIn(v: string, unit: char) {
    v != "" && Lower(v[|v| - 1]) == unit
  }

  function TrimSuffix(v: string, unit: char): string {
    if v != "" && v[|v| - 1] == unit then v[..|v| - 1] else v
  }

  // ---------- Specification ----------

  /** The result for a text without spaces. The product wraps, and is formed even from the
      number that comes with an error. */
  function Converted(v: string): (int, Option<AtoiError>) {
    if v == "" then (0, None)
    else if Lower(v[|v| - 1]) in UNITS then
      var unit := Lower(v[|v| - 1]);
      var (n, err) := Atoi(TrimSuffix(v, unit));
      (Wrap(n * Factor(unit)), err)
    else Atoi(v)
  }

  /** `times` lists the units in the order the map yields them; the result is the same for
      every order. */
  method ParseTimeouts(text: string, times: seq<char>) returns (timeout: int, err: Option<AtoiError>)
    requires (set u | u in times) == UNITS
    ensures (timeout, err) == Converted(RemoveSpaces(text))
  {
    timeout, err := 0, None;
    var v := RemoveSpaces(text);
    if v == "" {
      return 0, None;
    }
    var wasConvert := false;
    for i := 0 to |times|
      invariant !wasConvert && forall j | 0 <= j < i :: !EndsIn(v, times[j])
    {
      assert times[i] in (set u | u in times);
      if EndsIn(v, times[i]) {
        var (n, e) := Atoi(TrimSuffix(v, times[i]));
        timeout, err := Wrap(n * Factor(times[i])), e;
        wasConvert := true;
        break;
      }
    }
    if !wasConvert {
      assert Lower(v[|v| - 1]) !in UNITS by {
        if Lower(v[|v| - 1]) in UNITS {
          assert Lower(v[|v| - 1]) in (set u | u in times);
          var j :| 0 <= j < |times| && times[j] == Lower(v[|v| - 1]);
          assert EndsIn(v, times[j]);
        }
      }
      var (n, e) := Atoi(v);
      timeout, err := n, e;
    }
  }

  class RouteTimeouts {
    var aggregateMessageTimeout: string
    var uniqueMessageTimeout: string
    var aggregateTimeoutSeconds: int
    var uniqueMessageTimeoutSeconds: int

    /** Errors are only logged: the field gets the number that came with the error. */
    method ConfigureTimeouts(times: seq<char>, timesAgain: seq<char>)
      requires (set u | u in times) == UNITS && (set u | u in timesAgain) == UNITS
      modifies this`aggregateTimeoutSeconds, this`uniqueMessageTimeoutSeconds
      ensures aggregateTimeoutSeconds == Converted(RemoveSpaces(aggregateMessageTimeout)).0
      ensures uniqueMessageTimeoutSeconds == Converted(RemoveSpaces(uniqueMessageTimeout)).0
    {
      var seconds, err := ParseTimeouts(aggregateMessageTimeout, times);
      aggregateTimeoutSeconds := seconds;
      seconds, err := ParseTimeouts(uniqueMessageTimeout, timesAgain);
      uniqueMessageTimeoutSeconds := seconds;
    }
  }

  // ---------- Results ----------

  lemma UnitIsCut(s: string, unit: char)
    requires unit in UNITS
    ensures Converted(s + [unit]) == (Wrap(Atoi(s).0 * Factor(unit)), Atoi(s).1)
  {
    var v := s + [unit];
    assert v[..|v| - 1] == s;
  }

  lemma DigitIsNoUnit(s: string)
    requires s != "" && IsDigit(s[|s| - 1])
    ensures Converted(s) == Atoi(s)
  {
  }

  lemma NumeralEndsInDigit(s: string)
    requires IsNumeral(s)
    ensures IsDigit(s[|s| - 1])
  {
    assert s[|s| - 1] == Magnitude(s)[|Magnitude(s)| - 1];
  }

  /** A number with a lower-case unit, spaces anywhere, means number times unit. */
  lemma NumberWithUnit(text: string, n: int, unit: char)
    requires unit in UNITS && IsInt(n) && IsInt(n * Factor(unit))
    requires RemoveSpaces(text) == Itoa(n) + [unit]
    ensures Converted(RemoveSpaces(text)) == (n * Factor(unit), None)
  {
    UnitIsCut(Itoa(n), unit);
    AtoiUndoesItoa(n);
  }

  /** The whole story for numbers that fit: there is never an error, and the timeout is number
      times unit if and only if the product fits as well. */
  lemma NumberWithUnitExactly(n: int, unit: char)
    requires unit in UNITS && IsInt(n)
    ensures Converted(Itoa(n) + [unit]) == (Wrap(n * Factor(unit)), None)
    ensures Converted(Itoa(n) + [unit]).0 == n * Factor(unit) <==> IsInt(n * Factor(unit))
  {
    UnitIsCut(Itoa(n), unit);
    AtoiUndoesItoa(n);
  }

  /** The units in seconds, for every number that fits, wherever it wraps. */
  lemma UnitsInSeconds(n: int)
    requires IsInt(n)
    ensures Converted(Itoa(n) + "s") == (n, None)
    ensures IsInt(n * 60) ==> Converted(Itoa(n) + "m") == (n * 60, None)
    ensures IsInt(n * 3600) ==> Converted(Itoa(n) + "h") == (n * 3600, None)
    ensures IsInt(n * 86400) ==> Converted(Itoa(n) + "d") == (n * 86400, None)
  {
    NumberWithUnitExactly(n, 's');
    NumberWithUnitExactly(n, 'm');
    NumberWithUnitExactly(n, 'h');
    NumberWithUnitExactly(n, 'd');
  }

  /** A text that is no number, cut or not, counts as zero. */
  lemma MalformedIsZero(v: string)
    requires v != "" && !IsNumeral(v) && !(v[|v| - 1] in {'s', 'm', 'h', 'd'} && IsNumeral(v[..|v| - 1]))
    ensures Converted(v) == (0, Some(Syntax))
  {
    assert Wrap(0) == 0;
  }

  /** Spaces do not matter, wherever they are, and nothing else is removed. */
  lemma {:induction false} SpacesDoNotMatter(text: string)
    ensures ' ' !in RemoveSpaces(text)
    ensures ' ' !in text ==> RemoveSpaces(text) == text
    ensures forall i | 0 <= i <= |text| :: RemoveSpaces(text[..i] + " " + text[i..]) == RemoveSpaces(text)
  {
    forall i | 0 <= i <= |text| ensures RemoveSpaces(text[..i] + " " + text[i..]) == RemoveSpaces(text) {
      SpaceInserted(text, i);
    }
    if text != "" {
      SpacesDoNotMatter(text[1..]);
      assert text == [text[0]] + text[1..];
    }
  }

  lemma {:induction false} SpaceInserted(text: string, i: nat)
    requires i <= |text|
    ensures RemoveSpaces(text[..i] + " " + text[i..]) == RemoveSpaces(text)
  {
    var spaced := text[..i] + " " + text[i..];
    if i == 0 {
      assert spaced[1..] == text;
    } else {
      SpaceInserted(text[1..], i - 1);
      assert spaced[1..] == text[1..][..i - 1] + " " + text[1..][i - 1..];
    }
  }

  /** Without a unit it means seconds. */
  lemma PlainNumber(text: string, n: int)
    requires IsInt(n) && RemoveSpaces(text) == Itoa(n)
    ensures Converted(RemoveSpaces(text)) == (n, None)
  {
    ItoaMeans(n);
    NumeralEndsInDigit(Itoa(n));
    DigitIsNoUnit(Itoa(n));
    AtoiUndoesItoa(n);
  }

  /** A number the parser accepts on its own. */
  predicate Fits(v: string) {
    IsNumeral(v) && IsInt(Meaning(v))
  }

  /** Which texts are accepted: nothing, a number, or a number and a lower-case unit. An
      upper-case unit is recognised but not cut off, so it is always an error. */
  lemma AcceptedExactly(v: string)
    ensures Converted(v).1.None?
       <==> v == "" || Fits(v) || (v[|v| - 1] in UNITS && Fits(v[..|v| - 1]))
  {
    if v != "" {
      var c := v[|v| - 1];
      if Lower(c) in UNITS {
        assert !IsDigit(c);
        if IsNumeral(v) {
          NumeralEndsInDigit(v);
        }
      }
    }
  }

  /** A product that needs just one bit more comes out negative, without an error. */
  lemma LargeTimeoutWraps(n: int, unit: char)
    requires unit in UNITS && IsInt(n) && MAX_INT < n * Factor(unit) < 0x1_0000_0000_0000_0000
    ensures Converted(Itoa(n) + [unit]) == (n * Factor(unit) - 0x1_0000_0000_0000_0000, None)
    ensures Converted(Itoa(n) + [unit]).0 < 0
  {
    NumberWithUnitExactly(n, unit);
  }
}
