/**
 * The spellings of a string inside a JSON literal, as section 7 of RFC 8259 lists them, and that the
 * reader takes exactly those.
 */
module JsonSpelling {
  import opened Text
  import opened Json
  import opened JsonParse

  /** A hexadecimal digit in either case. */
  predicate HexDigit(h: char, d: nat)
    requires d < 16
  {
    h == "0123456789abcdef"[d] || h == "0123456789ABCDEF"[d]
  }

  /** `\u` and the four hexadecimal digits of a code unit. */
  predicate SpellsUnit(e: string, u: int) {
    && 0 <= u < 0x1_0000 && |e| == 6 && e[0] == '\\' && e[1] == 'u'
    && HexDigit(e[2], u / 0x1000) && HexDigit(e[3], u / 0x100 % 0x10)
    && HexDigit(e[4], u / 0x10 % 0x10) && HexDigit(e[5], u % 0x10)
  }

  /** The short escapes: a letter, and the scalar it stands for. */
  const SHORT: map<char, int> := map[
    '\"' := 0x22, '\\' := 0x5C, '/' := 0x2F, 'b' := 0x08, 'f' := 0x0C, 'n' := 0x0A, 'r' := 0x0D, 't' := 0x09]

  /** One character: itself, its short escape, or the escapes of its UTF-16 code units. */
  predicate SpellsChar(e: string, c: char) {
    || (e == [c] && c as int >= 0x20 && c != '\"' && c != '\\')
    || (|e| == 2 && e[0] == '\\' && e[1] in SHORT && SHORT[e[1]] == c as int)
    || (|Units(c)| == 1 && SpellsUnit(e, Units(c)[0]))
    || (|Units(c)| == 2 && |e| == 12 && SpellsUnit(e[..6], Units(c)[0]) && SpellsUnit(e[6..], Units(c)[1]))
  }

  ghost predicate Spells(s: string, x: string)
    decreases |x|
  {
    if x == [] then s == []
    else exists k | 0 < k <= |s| :: SpellsChar(s[..k], x[0]) && Spells(s[k..], x[1..])
  }

  // ----- Code units -----

  lemma HexDigitReads(h: char, d: nat)
    requires d < 16
    ensures HexDigit(h, d) <==> IsHex(h) && HexValue(h) == d
  {
  }

  lemma UnitReads(e: string, u: int, tail: string)
    requires SpellsUnit(e, u)
    ensures FourHex((e + tail)[2..]) && Hex4((e + tail)[2..]) == u && (e + tail)[2..][4..] == tail
  {
    hide HexDigit, IsHex, HexValue;
    var h := (e + tail)[2..];
    assert h[0] == e[2] && h[1] == e[3] && h[2] == e[4] && h[3] == e[5];
    HexDigitReads(h[0], u / 0x1000);
    HexDigitReads(h[1], u / 0x100 % 0x10);
    HexDigitReads(h[2], u / 0x10 % 0x10);
    HexDigitReads(h[3], u % 0x10);
    DigitsMakeUnit(u);
  }

  lemma DigitsMakeUnit(u: nat)
    requires u < 0x1_0000
    ensures ((u / 0x1000 * 16 + u / 0x100 % 0x10) * 16 + u / 0x10 % 0x10) * 16 + u % 0x10 == u
  {
    assert u / 0x10 / 0x10 == u / 0x100 && u / 0x100 / 0x10 == u / 0x1000;
  }

  lemma FourDigits(a: nat, b: nat, c: nat, d: nat)
    requires a < 16 && b < 16 && c < 16 && d < 16
    ensures var u := ((a * 16 + b) * 16 + c) * 16 + d;
            u / 0x1000 == a && u / 0x100 % 0x10 == b && u / 0x10 % 0x10 == c && u % 0x10 == d
  {
  }

  lemma UnitIsSpelled(s: string)
    requires |s| >= 6 && s[0] == '\\' && s[1] == 'u' && FourHex(s[2..])
    ensures SpellsUnit(s[..6], Hex4(s[2..]))
  {
    hide HexDigit, IsHex, HexValue;
    var h := s[2..];
    FourDigits(HexValue(h[0]), HexValue(h[1]), HexValue(h[2]), HexValue(h[3]));
    HexDigitReads(h[0], HexValue(h[0]));
    HexDigitReads(h[1], HexValue(h[1]));
    HexDigitReads(h[2], HexValue(h[2]));
    HexDigitReads(h[3], HexValue(h[3]));
  }

  // ----- One character -----

  /** Reading one character of a literal; the quote that ends it is not one. */
  function ReadChar(s: string): CharStep {
    if s == [] || s[0] == '\"' then BadChar(SchemaInvalid)
    else if s[0] == '\\' then ParseEscape(s[1..])
    else if s[0] as int < 0x20 then BadChar(SchemaInvalid)
    else GotChar(s[0], s[1..])
  }

  lemma BodyReadsOne(s: string, acc: string)
    requires ReadChar(s).GotChar?
    ensures |ReadChar(s).rest| < |s|
    ensures ParseStringBody(s, acc) == ParseStringBody(ReadChar(s).rest, acc + [ReadChar(s).c])
  {
    hide ParseEscape;
  }

  lemma SpelledCharReads(e: string, c: char, tail: string)
    requires SpellsChar(e, c)
    ensures ReadChar(e + tail) == GotChar(c, tail)
  {
    var s := e + tail;
    assert e != [] && s[0] == e[0] && s[1..] == e[1..] + tail;
    if e == [c] && c as int >= 0x20 && c != '\"' && c != '\\' {
      assert s[1..] == tail;
    } else if |e| == 2 {
      assert s[1..][0] == e[1] && s[1..][1..] == tail;
    } else if |Units(c)| == 1 {
      UnitReads(e, Units(c)[0], tail);
      assert s[1..][0] == 'u' && s[1..][1..] == s[2..];
      UnitsAreUtf16(c);
    } else {
      PairReads(e, c, tail);
    }
  }

  lemma PairReads(e: string, c: char, tail: string)
    requires |Units(c)| == 2 && |e| == 12 && SpellsUnit(e[..6], Units(c)[0]) && SpellsUnit(e[6..], Units(c)[1])
    ensures ReadChar(e + tail) == GotChar(c, tail)
  {
    hide HexDigit, FourHex, Hex4, Units, ParseUnicodeEscape;
    var s := e + tail;
    var first, second := e[..6], e[6..];
    assert s == first + (second + tail);
    UnitReads(first, Units(c)[0], second + tail);
    UnitReads(second, Units(c)[1], tail);
    assert s[0] == '\\' && s[1..][0] == 'u' && s[1..][1..] == s[2..];
    assert s[2..][4..] == second + tail;
    assert s[2..][4] == second[0] && s[2..][5] == second[1] && s[2..][6..] == (second + tail)[2..];
    PairParses(s[2..], c, tail);
  }

  lemma PairParses(h: string, c: char, tail: string)
    requires |Units(c)| == 2 && FourHex(h) && Hex4(h) == Units(c)[0]
    requires |h| >= 6 && h[4] == '\\' && h[5] == 'u'
    requires FourHex(h[6..]) && Hex4(h[6..]) == Units(c)[1] && h[6..][4..] == tail
    ensures ParseUnicodeEscape(h) == GotChar(c, tail)
  {
    hide FourHex, Hex4, Units;
    UnitsAreUtf16(c);
    TwoUnits(c);
  }

  lemma TwoUnits(c: char)
    ensures |Units(c)| == 2 ==> c as int >= 0x1_0000
  {
  }

  lemma ReadCharIsSpelled(s: string)
    requires ReadChar(s).GotChar?
    ensures var k := |s| - |ReadChar(s).rest|;
            0 < k <= |s| && s[k..] == ReadChar(s).rest && SpellsChar(s[..k], ReadChar(s).c)
  {
    var r := ReadChar(s);
    if s[0] != '\\' {
      assert s[..1] == [s[0]];
    } else if s[1] != 'u' {
      assert s[1..][0] == s[1] && s[1..][1..] == s[2..];
      assert s[..2] == ['\\', s[1]];
    } else {
      assert s[1..][0] == 'u' && s[1..][1..] == s[2..];
      UnitIsSpelled(s);
      if 0xD800 <= Hex4(s[2..]) <= 0xDBFF {
        PairIsSpelled(s);
      } else {
        assert s[2..][4..] == s[6..];
        UnitsAreUtf16(r.c);
      }
    }
  }

  lemma PairIsSpelled(s: string)
    requires |s| >= 2 && s[0] == '\\' && s[1] == 'u' && ParseUnicodeEscape(s[2..]).GotChar?
    requires FourHex(s[2..]) && 0xD800 <= Hex4(s[2..]) <= 0xDBFF
    ensures var r := ParseUnicodeEscape(s[2..]);
            |s| >= 12 && s[12..] == r.rest && SpellsChar(s[..12], r.c)
  {
    hide Hex4, SpellsUnit, Units, IsHex;
    var t := s[6..];
    assert s[2..][6..] == s[8..] && t[2..] == s[8..] && t[0] == s[2..][4] && t[1] == s[2..][5];
    UnitIsSpelled(s);
    UnitIsSpelled(t);
    assert s[..12][..6] == s[..6] && s[..12][6..] == t[..6];
    assert s[8..][4..] == s[12..];
    var first, second := Hex4(s[2..]), Hex4(t[2..]);
    var c := ParseUnicodeEscape(s[2..]).c;
    assert c as int == 0x1_0000 + (first - 0xD800) * 0x400 + (second - 0xDC00);
    PairUnits(first, second, c);
  }

  lemma PairUnits(first: nat, second: nat, c: char)
    requires 0xD800 <= first <= 0xDBFF && 0xDC00 <= second <= 0xDFFF
    requires c as int == 0x1_0000 + (first - 0xD800) * 0x400 + (second - 0xDC00)
    ensures Units(c) == [first, second]
  {
  }

  // ----- Whole strings -----

  lemma {:induction false} SpellingReads(s: string, x: string, rest: string, acc: string)
    requires Spells(s, x)
    ensures ParseStringBody(s + "\"" + rest, acc) == GotString(acc + x, rest)
    decreases |x|
  {
    hide ParseStringBody, SpellsChar;
    if x == [] {
      assert s + "\"" + rest == "\"" + rest && ("\"" + rest)[1..] == rest && acc + x == acc;
      QuoteEnds(rest, acc);
    } else {
      var k :| 0 < k <= |s| && SpellsChar(s[..k], x[0]) && Spells(s[k..], x[1..]);
      var tail := s[k..] + "\"" + rest;
      assert s + "\"" + rest == s[..k] + tail;
      SpelledCharReads(s[..k], x[0], tail);
      BodyReadsOne(s + "\"" + rest, acc);
      SpellingReads(s[k..], x[1..], rest, acc + [x[0]]);
      assert acc + [x[0]] + x[1..] == acc + x;
    }
  }

  lemma QuoteEnds(rest: string, acc: string)
    ensures ParseStringBody("\"" + rest, acc) == GotString(acc, rest)
  {
    assert ("\"" + rest)[1..] == rest;
  }

  lemma {:induction false} ReadIsSpelled(t: string, acc: string) returns (k: nat)
    requires ParseStringBody(t, acc).GotString?
    ensures var r := ParseStringBody(t, acc);
            && k < |t| && t[k] == '\"' && r.rest == t[k + 1..] && acc <= r.s && Spells(t[..k], r.s[|acc|..])
    decreases |t|
  {
    hide SpellsChar;
    var r := ParseStringBody(t, acc);
    if t[0] == '\"' {
      k := 0;
      assert t[..0] == [] && r.s[|acc|..] == [];
    } else {
      BodyGoesOn(t, acc);
      var c := ReadChar(t);
      ReadCharIsSpelled(t);
      BodyReadsOne(t, acc);
      var n := |t| - |c.rest|;
      var j := ReadIsSpelled(c.rest, acc + [c.c]);
      k := n + j;
      var x := r.s[|acc|..];
      assert r.s[|acc|] == (acc + [c.c])[|acc|] == c.c;
      assert x[0] == c.c && x[1..] == r.s[|acc| + 1..];
      assert t[..k][..n] == t[..n] && t[..k][n..] == c.rest[..j];
    }
  }

  lemma BodyGoesOn(t: string, acc: string)
    requires ParseStringBody(t, acc).GotString? && t[0] != '\"'
    ensures ReadChar(t).GotChar?
  {
    hide ParseEscape;
  }

  /** The reader takes a string exactly when what comes before the closing quote is one of its spellings. */
  lemma StringReadExactly(t: string, x: string, rest: string)
    ensures ParseStringBody(t, "") == GotString(x, rest) <==> exists s :: Spells(s, x) && t == s + "\"" + rest
  {
    hide ParseStringBody, Spells;
    if ParseStringBody(t, "") == GotString(x, rest) {
      var k := ReadIsSpelled(t, "");
      assert x[0..] == x && t == t[..k] + "\"" + rest;
    }
    if s :| Spells(s, x) && t == s + "\"" + rest {
      SpellingReads(s, x, rest, "");
      assert "" + x == x;
    }
  }
}
