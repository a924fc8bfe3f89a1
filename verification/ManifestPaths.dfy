/** Which path segments a manifest may hold, as tables instead of checks. */
module ManifestPaths {
  import opened Split
  import opened Manifest

  const DIGITS := "123456789\U{B9}\U{B2}\U{B3}"

  /** Separators and wildcards, the delete character, and the characters that turn the writing direction. */
  const FORBIDDEN :=
    "/\\<>:\"|?*" + "\U{7F}" + "\U{61C}\U{200E}\U{200F}"
    + "\U{202A}\U{202B}\U{202C}\U{202D}\U{202E}\U{2066}\U{2067}\U{2068}\U{2069}"

  /** A device name without regard to ASCII case. */
  predicate Device(stem: string) {
    || Spelled(stem, "con") || Spelled(stem, "prn") || Spelled(stem, "aux") || Spelled(stem, "nul")
    || (|stem| == 4 && stem[3] in DIGITS && (Spelled(stem[..3], "com") || Spelled(stem[..3], "lpt")))
  }

  /** The text is the lower-case word, each letter in either case. */
  predicate Spelled(s: string, word: string) {
    |s| == |word| && forall i | 0 <= i < |s| :: s[i] == word[i] || s[i] as int == word[i] as int - 32
  }

  /** What stands before the first dot, or the whole name without one. */
  predicate IsStem(c: string, stem: string) {
    && stem <= c && '.' !in stem
    && (|stem| < |c| ==> c[|stem|] == '.')
  }

  /** A name that every platform can store. */
  ghost predicate Portable(rules: Rules, c: string) {
    && c !in {"", ".", ".."} && rules.isNfc(c)
    && (forall i | 0 <= i < |c| :: c[i] >= ' ' && c[i] !in FORBIDDEN)
    && c[|c| - 1] != '.' && c[|c| - 1] != ' '
    && !exists stem :: IsStem(c, stem) && Device(stem)
  }

  lemma {:induction false} FirstPartIsStem(c: string)
    ensures IsStem(c, Parts(c, '.')[0])
  {
    if c != [] && c[0] != '.' {
      FirstPartIsStem(c[1..]);
      var rest := Parts(c[1..], '.')[0];
      assert Parts(c, '.')[0] == [c[0]] + rest;
      assert c == [c[0]] + c[1..];
    }
  }

  lemma StemIsUnique(c: string, a: string, b: string)
    requires IsStem(c, a) && IsStem(c, b)
    ensures a == b
  {
  }

  lemma UpperIsSpelled(s: string, upper: string, word: string)
    requires |upper| == |word| == 3
    requires forall i | 0 <= i < 3 :: 'a' <= word[i] <= 'z' && upper[i] as int == word[i] as int - 32
    ensures UpperAscii(s) == upper <==> Spelled(s, word)
    ensures |s| == 4 ==> (UpperAscii(s)[..3] == upper <==> Spelled(s[..3], word))
  {
    if |s| == 4 { assert UpperAscii(s)[..3] == UpperAscii(s[..3]); }
  }

  lemma DigitsListed(c: char)
    ensures c in DIGITS <==> '1' <= c <= '9' || c as int == 0xB9 || c as int == 0xB2 || c as int == 0xB3
  {
  }

  lemma ReservedIsDevice(stem: string)
    ensures ReservedName(UpperAscii(stem)) <==> Device(stem)
  {
    hide Spelled;
    UpperIsSpelled(stem, "CON", "con");
    UpperIsSpelled(stem, "PRN", "prn");
    UpperIsSpelled(stem, "AUX", "aux");
    UpperIsSpelled(stem, "NUL", "nul");
    UpperIsSpelled(stem, "COM", "com");
    UpperIsSpelled(stem, "LPT", "lpt");
    if |stem| == 4 { DigitsListed(stem[3]); }
  }

  lemma CharIsForbidden(c: char)
    ensures c >= ' ' && c !in FORBIDDEN
            <==> c != '/' && c != '\\' && !AsciiControl(c) && c !in "<>:\"|?*" && !BidiControl(c)
  {
  }

  /** A segment is valid exactly when it is portable. */
  lemma SegmentIsPortable(rules: Rules, c: string)
    ensures ValidSegment(rules, c) <==> Portable(rules, c)
  {
    hide Device, IsStem, Parts, ReservedName, AsciiControl, BidiControl, UpperAscii;
    forall x ensures x >= ' ' && x !in FORBIDDEN
                     <==> x != '/' && x != '\\' && !AsciiControl(x) && x !in "<>:\"|?*" && !BidiControl(x) {
      CharIsForbidden(x);
    }
    var first := Parts(c, '.')[0];
    FirstPartIsStem(c);
    ReservedIsDevice(first);
    assert (exists stem :: IsStem(c, stem) && Device(stem)) <==> Device(first) by {
      if stem :| IsStem(c, stem) && Device(stem) { StemIsUnique(c, stem, first); }
    }
    NulIsControl();
  }

  lemma NulIsControl()
    ensures AsciiControl('\0')
  {
  }
}
