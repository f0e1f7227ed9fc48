/** Which bytes Python's `int` accepts, and as what. */
module BencodingNumbers {
  import opened Options
  import opened Bencoding

  const SPACES: Bytes := [' ', '\t', '\n', 11 as char, 12 as char, '\r']

  ghost predicate AllSpaces(s: Bytes) {
    forall k :: 0 <= k < |s| ==> IsSpace(s[k])
  }

  /** Digits with single underscores between them. */
  ghost predicate Grouped(s: Bytes) {
    && s != [] && IsDigit(s[0]) && IsDigit(s[|s| - 1])
    && (forall k :: 0 <= k < |s| ==> IsDigit(s[k]) || s[k] == '_')
    && (forall k :: 0 <= k < |s| - 1 ==> Separated(s, k))
  }

  predicate Separated(s: Bytes, k: nat)
    requires k < |s| - 1
  {
    s[k] != '_' || s[k + 1] != '_'
  }

  /** The number that the digits write. */
  function Number(s: Bytes): nat {
    if s == [] then 0
    else if IsDigit(s[|s| - 1]) then 10 * Number(s[..|s| - 1]) + (s[|s| - 1] as int - '0' as int)
    else Number(s[..|s| - 1])
  }

  // ----- digits

  /** One more digit, behind a group or behind a group and an underscore. */
  lemma GroupedNext(s: Bytes)
    requires |s| >= 2 && IsDigit(s[|s| - 1])
    ensures var rest := s[..|s| - 1];
      Grouped(s) <==> Grouped(if rest[|rest| - 1] == '_' then rest[..|rest| - 1] else rest)
  {
    var rest := s[..|s| - 1];
    var higher := if rest[|rest| - 1] == '_' then rest[..|rest| - 1] else rest;
    if Grouped(s) {
      if rest[|rest| - 1] == '_' {
        assert s[|s| - 2] == '_' && s[0] != '_';
        assert Separated(s, |s| - 3);
        assert IsDigit(s[|s| - 3]);
      }
      forall k | 0 <= k < |higher| - 1
        ensures Separated(higher, k)
      {
        assert Separated(s, k) && higher[k] == s[k] && higher[k + 1] == s[k + 1];
      }
    }
    if Grouped(higher) {
      forall k | 0 <= k < |s|
        ensures IsDigit(s[k]) || s[k] == '_'
      {
        if k < |higher| {
          assert higher[k] == s[k];
        }
      }
      forall k | 0 <= k < |s| - 1
        ensures Separated(s, k)
      {
        if k < |higher| - 1 {
          assert Separated(higher, k);
        } else if k == |higher| - 1 {
          assert s[k] == higher[k];
        }
      }
    }
  }

  lemma {:induction false} NumeralExactly(s: Bytes)
    ensures Numeral(s).Some? <==> Grouped(s)
    ensures Numeral(s).Some? ==> Numeral(s).value == Number(s)
    decreases |s|
  {
    if s != [] {
      if IsDigit(s[|s| - 1]) {
        var rest := s[..|s| - 1];
        if rest == [] {
          assert Number(rest) == 0;
        } else {
          var higher := if rest[|rest| - 1] == '_' then rest[..|rest| - 1] else rest;
          GroupedNext(s);
          NumeralExactly(higher);
          assert Number(rest) == Number(higher);
        }
      }
    }
  }

  // ----- spaces

  lemma {:induction false} StripParts(s: Bytes) returns (front: Bytes, back: Bytes)
    ensures s == front + Strip(s) + back && AllSpaces(front) && AllSpaces(back)
    ensures Strip(s) != [] ==> !IsSpace(Strip(s)[0]) && !IsSpace(Strip(s)[|Strip(s)| - 1])
    decreases |s|
  {
    if s == [] {
      return [], [];
    }
    if IsSpace(s[0]) {
      front, back := StripParts(s[1..]);
      assert s == ([s[0]] + front) + Strip(s) + back;
      return [s[0]] + front, back;
    }
    if IsSpace(s[|s| - 1]) {
      front, back := StripParts(s[..|s| - 1]);
      assert s == front + Strip(s) + (back + [s[|s| - 1]]);
      return front, back + [s[|s| - 1]];
    }
    return [], [];
  }

  lemma {:induction false} StripOf(front: Bytes, core: Bytes, back: Bytes)
    requires AllSpaces(front) && AllSpaces(back) && core != [] && !IsSpace(core[0]) && !IsSpace(core[|core| - 1])
    ensures Strip(front + core + back) == core
    decreases |front| + |back|
  {
    var s := front + core + back;
    if front != [] {
      assert s[0] == front[0] && s[1..] == front[1..] + core + back;
      StripOf(front[1..], core, back);
    } else if back != [] {
      assert s[0] == core[0] && s[|s| - 1] == back[|back| - 1] && s[..|s| - 1] == front + core + back[..|back| - 1];
      StripOf(front, core, back[..|back| - 1]);
    } else {
      assert s == core;
    }
  }

  // ----- the characters

  lemma DigitIs(c: Byte)
    ensures IsDigit(c) <==> c in "0123456789"
  {
    var digits := "0123456789";
    assert forall k :: 0 <= k < 10 ==> digits[k] == '0' + k as char;
    if IsDigit(c) {
      assert digits[c as int - '0' as int] == c;
    }
  }

  lemma SpaceIs(c: Byte)
    ensures IsSpace(c) <==> c in SPACES
  {
    assert SPACES[0] == ' ' && SPACES[1] == '\t' && SPACES[2] == '\n' && SPACES[3] == 11 as char && SPACES[4] == 12 as char && SPACES[5] == '\r';
    if '\t' <= c <= '\r' {
      assert c as int == 9 || c as int == 10 || c as int == 11 || c as int == 12 || c as int == 13;
    }
  }

  /** The spaces and the digits, one by one. */
  lemma CharactersAre()
    ensures forall c :: IsSpace(c) <==> c in SPACES
    ensures forall c :: IsDigit(c) <==> c in "0123456789"
  {
    forall c
      ensures IsSpace(c) <==> c in SPACES
      ensures IsDigit(c) <==> c in "0123456789"
    {
      SpaceIs(c);
      DigitIs(c);
    }
  }

  // ----- the whole

  /** Spaces, a sign or none, digits in groups, spaces. */
  ghost predicate Spells(s: Bytes, front: Bytes, sign: Bytes, digits: Bytes, back: Bytes, n: int) {
    && s == front + (sign + digits) + back && AllSpaces(front) && AllSpaces(back)
    && (sign == [] || sign == ['+'] || sign == ['-'])
    && Grouped(digits) && n == (if sign == ['-'] then -(Number(digits) as int) else Number(digits))
  }

  lemma SignOf(t: Bytes, sign: Bytes, digits: Bytes, n: int)
    requires t == sign + digits && (sign == [] || sign == ['+'] || sign == ['-']) && Grouped(digits)
    requires n == (if sign == ['-'] then -(Number(digits) as int) else Number(digits))
    requires Strip(t) == t
    ensures ParseInt(t) == Some(n)
  {
    NumeralExactly(digits);
    if sign != [] {
      assert t[0] == sign[0] && t[1..] == digits;
    } else {
      assert t == digits;
    }
  }

  lemma SignedCore(sign: Bytes, digits: Bytes)
    requires (sign == [] || sign == ['+'] || sign == ['-']) && Grouped(digits)
    ensures var t := sign + digits; t != [] && !IsSpace(t[0]) && !IsSpace(t[|t| - 1])
  {
  }

  lemma ParsedCore(t: Bytes, n: int) returns (sign: Bytes, digits: Bytes)
    requires t != [] && Strip(t) == t && ParseInt(t) == Some(n)
    ensures t == sign + digits && (sign == [] || sign == ['+'] || sign == ['-']) && Grouped(digits)
    ensures n == if sign == ['-'] then -(Number(digits) as int) else Number(digits)
  {
    sign := if t[0] == '-' then ['-'] else if t[0] == '+' then ['+'] else [];
    digits := t[|sign|..];
    NumeralExactly(digits);
  }

  lemma StripTwice(s: Bytes)
    ensures Strip(Strip(s)) == Strip(s) && ParseInt(Strip(s)) == ParseInt(s)
  {
    var front, back := StripParts(s);
    if Strip(s) != [] {
      StripOf([], Strip(s), []);
      assert [] + Strip(s) + [] == Strip(s);
    }
  }

  lemma ParsedSpells(s: Bytes, n: int) returns (front: Bytes, sign: Bytes, digits: Bytes, back: Bytes)
    requires ParseInt(s) == Some(n)
    ensures Spells(s, front, sign, digits, back, n)
  {
    front, back := StripParts(s);
    StripTwice(s);
    sign, digits := ParsedCore(Strip(s), n);
  }

  lemma SpelledParses(s: Bytes, front: Bytes, sign: Bytes, digits: Bytes, back: Bytes, n: int)
    requires Spells(s, front, sign, digits, back, n)
    ensures ParseInt(s) == Some(n)
  {
    var t := sign + digits;
    SignedCore(sign, digits);
    StripOf(front, t, back);
    StripTwice(s);
    SignOf(t, sign, digits, n);
  }

  /** Python's `int` yields a number exactly for the texts that spell it. */
  lemma ParseIntExactly(s: Bytes, n: int)
    ensures ParseInt(s) == Some(n) <==> exists front, sign, digits, back :: Spells(s, front, sign, digits, back, n)
  {
    if ParseInt(s) == Some(n) {
      var front, sign, digits, back := ParsedSpells(s, n);
    }
    if front, sign, digits, back :| Spells(s, front, sign, digits, back, n) {
      SpelledParses(s, front, sign, digits, back, n);
    }
  }
}
