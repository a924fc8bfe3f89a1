/** Splitting a text at a separator character, and joining the parts again. */
module Split {

  /** The parts between separators; a text without one is its own single part. */
  function Parts(s: string, sep: char): (ps: seq<string>)
    ensures |ps| >= 1
  {
    if s == [] then [""] else
    var rest := Parts(s[1..], sep);
    if s[0] == sep then [""] + rest else [[s[0]] + rest[0]] + rest[1..]
  }

  function Join(ps: seq<string>, sep: char): string
    requires |ps| >= 1
  {
    if |ps| == 1 then ps[0] else ps[0] + [sep] + Join(ps[1..], sep)
  }

  lemma {:induction false} JoinParts(s: string, sep: char)
    ensures Join(Parts(s, sep), sep) == s
  {
    if s != [] {
      var rest := Parts(s[1..], sep);
      JoinParts(s[1..], sep);
      if s[0] == sep {
        assert ([""] + rest)[1..] == rest;
      } else {
        var ps := [[s[0]] + rest[0]] + rest[1..];
        assert ps[1..] == rest[1..];
      }
    }
  }

  lemma {:induction false} PartsHaveNoSeparator(s: string, sep: char)
    ensures forall i | 0 <= i < |Parts(s, sep)| :: sep !in Parts(s, sep)[i]
  {
    if s != [] { PartsHaveNoSeparator(s[1..], sep); }
  }

  /** A separator-free text is one part, and a part followed by a separator comes off the front. */
  lemma {:induction false} FirstPart(p: string, sep: char, rest: string)
    requires sep !in p
    ensures Parts(p, sep) == [p]
    ensures Parts(p + [sep] + rest, sep) == [p] + Parts(rest, sep)
  {
    if p == [] {
      assert (p + [sep] + rest)[1..] == rest;
    } else {
      FirstPart(p[1..], sep, rest);
      assert (p + [sep] + rest)[1..] == p[1..] + [sep] + rest;
      assert p == [p[0]] + p[1..];
    }
  }

  lemma {:induction false} PartsOfJoin(ps: seq<string>, sep: char)
    requires |ps| >= 1 && forall i | 0 <= i < |ps| :: sep !in ps[i]
    ensures Parts(Join(ps, sep), sep) == ps
  {
    if |ps| == 1 {
      FirstPart(ps[0], sep, "");
    } else {
      FirstPart(ps[0], sep, Join(ps[1..], sep));
      PartsOfJoin(ps[1..], sep);
    }
  }
}
