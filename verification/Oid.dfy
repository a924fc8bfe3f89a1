/** Object identifiers `<kind>:sg-oid-v1:sha256:<64 lower-case hex digits>`. */
module Oid {
  import opened Optional
  import opened Split
  import opened Text

  datatype Kind = Blob | Record | Tree | Commit

  const TAG := ":sg-oid-v1:sha256:"

  function Prefix(k: Kind): string {
    match k
    case Blob => "blob"
    case Record => "record"
    case Tree => "tree"
    case Commit => "commit"
  }

  function KindOf(family: string): Option<Kind> {
    if family == "blob" then Some(Blob)
    else if family == "record" then Some(Record)
    else if family == "tree" then Some(Tree)
    else if family == "commit" then Some(Commit)
    else None
  }

  predicate HexDigit(c: char) { '0' <= c <= '9' || 'a' <= c <= 'f' }

  predicate Digest(s: string) { |s| == 64 && forall i | 0 <= i < |s| :: HexDigit(s[i]) }

  function ParseOid(s: string): Option<Kind> {
    var ps := Parts(s, ':');
    if |ps| == 4 && ps[1] == "sg-oid-v1" && ps[2] == "sha256" && Digest(ps[3]) then KindOf(ps[0]) else None
  }

  /** Bytes a reference target is charged: none for a well-formed OID, its whole length otherwise. */
  function DynamicTargetBytes(s: string): nat {
    match FirstAt(s, TAG)
    case None => ByteLen(s)
    case Some(i) =>
      if KindOf(s[..i]).Some? && Digest(s[i + |TAG|..]) then 0 else ByteLen(s)
  }

  /** Where `tag` first occurs in `s`. */
  function FirstAt(s: string, tag: string): (r: Option<nat>)
    ensures r.Some? ==> r.value + |tag| <= |s| && s[r.value..r.value + |tag|] == tag
  {
    if |tag| <= |s| && s[..|tag|] == tag then Some(0)
    else if s == [] then None
    else
      match FirstAt(s[1..], tag)
      case None => None
      case Some(i) =>
        assert s[i + 1..i + 1 + |tag|] == s[1..][i..i + |tag|];
        Some(i + 1)
  }

  /** Parsing by colon-separated parts accepts exactly the fixed layout. */
  lemma OidLayout(s: string, k: Kind)
    ensures ParseOid(s) == Some(k) <==> exists d :: Digest(d) && s == Prefix(k) + TAG + d
  {
    if ParseOid(s) == Some(k) {
      var ps := Parts(s, ':');
      JoinParts(s, ':');
      JoinFour(ps);
      assert ps[0] == Prefix(k);
      assert Digest(ps[3]) && s == Prefix(k) + TAG + ps[3];
    }
    if d :| Digest(d) && s == Prefix(k) + TAG + d {
      LayoutParses(k, d);
    }
  }

  lemma JoinFour(ps: seq<string>)
    requires |ps| == 4 && ps[1] == "sg-oid-v1" && ps[2] == "sha256"
    ensures Join(ps, ':') == ps[0] + TAG + ps[3]
  {
    assert Join(ps[1..][1..], ':') == "sha256" + ":" + ps[3] by { assert ps[1..][1..][1..] == [ps[3]]; }
    assert Join(ps[1..], ':') == "sg-oid-v1" + ":" + ("sha256" + ":" + ps[3]);
    assert ":" + ("sg-oid-v1" + ":" + ("sha256" + ":" + ps[3])) == TAG + ps[3];
  }

  lemma LayoutParses(k: Kind, d: string)
    requires Digest(d)
    ensures ParseOid(Prefix(k) + TAG + d) == Some(k)
  {
    var ps := [Prefix(k), "sg-oid-v1", "sha256", d];
    JoinFour(ps);
    PartsOfJoin(ps, ':');
  }

  /** A text whose head has no colon cannot hold the tag before the head ends. */
  lemma {:induction false} FirstTagAfterHead(p: string, rest: string)
    requires ':' !in p
    ensures FirstAt(p + (TAG + rest), TAG) == Some(|p|)
  {
    var s := p + (TAG + rest);
    if p == [] {
      assert s[..|TAG|] == TAG;
    } else {
      assert s[..|TAG|][0] == p[0] != ':';
      assert s[1..] == p[1..] + (TAG + rest);
      FirstTagAfterHead(p[1..], rest);
    }
  }

  /**
   * The lexical test that avoids building an error message agrees with the parser, except on the
   * empty text, which is charged nothing although it is no identifier.
   */
  lemma UnchargedExactlyWhenIdentifier(s: string)
    ensures DynamicTargetBytes(s) == 0 <==> ParseOid(s).Some? || s == ""
  {
    if ParseOid(s).Some? {
      var k := ParseOid(s).value;
      OidLayout(s, k);
      var d :| Digest(d) && s == Prefix(k) + TAG + d;
      assert s == Prefix(k) + (TAG + d);
      FirstTagAfterHead(Prefix(k), d);
      assert s[..|Prefix(k)|] == Prefix(k) && s[|Prefix(k)| + |TAG|..] == d;
    }
    if s != "" && DynamicTargetBytes(s) == 0 {
      var i := FirstAt(s, TAG).value;
      var k := KindOf(s[..i]).value;
      assert s == Prefix(k) + TAG + s[i + |TAG|..];
      OidLayout(s, k);
    }
  }
}
