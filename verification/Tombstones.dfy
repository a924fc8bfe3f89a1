/** The catalog of Tombstone targets filled while every Record is read once. */
module Tombstones {
  import opened Optional
  import opened Text
  import opened Json
  import opened References
  import opened Words
  import Oid

  datatype ScanLimits = ScanLimits(maxRecords: nat, maxBytes: nat)

  datatype Seen = Seen(oid: string, content: Stored)

  function Scalars(s: string): (r: seq<int>)
    ensures |r| == |s|
  {
    seq(|s|, i requires 0 <= i < |s| => s[i] as int)
  }

  /** Byte order, which is scalar order in UTF-8. */
  predicate NameLe(a: string, b: string) { LexLe(Scalars(a), Scalars(b)) }

  lemma NameOrderIsTotal(a: string, b: string, c: string)
    ensures NameLe(a, b) || NameLe(b, a)
    ensures NameLe(a, b) && NameLe(b, c) ==> NameLe(a, c)
    ensures NameLe(a, b) && NameLe(b, a) ==> a == b
  {
    LexTotal(Scalars(a), Scalars(b));
    if NameLe(a, b) && NameLe(b, c) { LexTransitive(Scalars(a), Scalars(b), Scalars(c)); }
    if NameLe(a, b) && NameLe(b, a) {
      LexAntisymmetric(Scalars(a), Scalars(b));
      forall i | 0 <= i < |a| ensures a[i] == b[i] {
        assert Scalars(a)[i] == Scalars(b)[i];
      }
    }
  }

  /** The object a Tombstone stands in for: some other object, named by a well-formed identifier. */
  function TargetOf(s: Seen): Option<string> {
    if !s.content.kind.Record? || s.content.body.None? then None
    else if AsText(Get(s.content.body.value, "record_type")) != Some("tombstone") then None
    else
      var payload := Get(s.content.body.value, "payload");
      var target := if payload.Some? then AsText(Get(payload.value, "target_ref")) else None;
      if target.None? || target.value == s.oid || Oid.ParseOid(target.value).None? then None else target
  }

  /** What the catalog holds after some objects were observed. */
  function Catalog(seen: seq<Seen>): map<string, string> {
    if seen == [] then map[]
    else
      var before, s := Catalog(seen[..|seen| - 1]), seen[|seen| - 1];
      if TargetOf(s).None? then before
      else if TargetOf(s).value in before && NameLe(before[TargetOf(s).value], s.oid) then before
      else before[TargetOf(s).value := s.oid]
  }

  predicate Resolves(seen: seq<Seen>, i: int, target: string) {
    0 <= i < |seen| && TargetOf(seen[i]) == Some(target)
  }

  /** An object is in the catalog exactly when some Tombstone names it, under the lowest such Tombstone. */
  lemma {:induction false} CatalogHoldsLowest(seen: seq<Seen>, target: string)
    ensures target in Catalog(seen) <==> exists i :: Resolves(seen, i, target)
    ensures target in Catalog(seen) ==>
              && (exists i :: Resolves(seen, i, target) && seen[i].oid == Catalog(seen)[target])
              && (forall i | Resolves(seen, i, target) :: NameLe(Catalog(seen)[target], seen[i].oid))
  {
    hide TargetOf, NameLe;
    if seen != [] {
      var init, k := seen[..|seen| - 1], |seen| - 1;
      CatalogHoldsLowest(init, target);
      forall i
        ensures Resolves(seen, i, target) <==>
                  Resolves(init, i, target) || (i == k && TargetOf(seen[k]) == Some(target)) {
      }
      if target in Catalog(init) {
        NameOrderIsTotal(Catalog(init)[target], seen[k].oid, seen[k].oid);
        forall i | Resolves(init, i, target)
          ensures NameLe(seen[k].oid, Catalog(init)[target]) ==> NameLe(seen[k].oid, init[i].oid) {
          NameOrderIsTotal(seen[k].oid, Catalog(init)[target], init[i].oid);
        }
        var j :| Resolves(init, j, target) && init[j].oid == Catalog(init)[target];
        assert Resolves(seen, j, target);
      }
      NameOrderIsTotal(seen[k].oid, seen[k].oid, seen[k].oid);
      forall i | Resolves(seen, i, target) && i < k ensures Resolves(init, i, target) && init[i] == seen[i] {
      }
      if TargetOf(seen[k]) == Some(target) { assert Resolves(seen, k, target); }
    }
  }

  /** The catalog depends only on which objects were observed, not on their order or repetition. */
  lemma CatalogIgnoresOrder(a: seq<Seen>, b: seq<Seen>)
    requires forall s :: s in a <==> s in b
    ensures Catalog(a) == Catalog(b)
  {
    forall t ensures t in Catalog(a) <==> t in Catalog(b) {
      InBoth(a, b, t);
      InBoth(b, a, t);
    }
    forall t | t in Catalog(a) ensures Catalog(a)[t] == Catalog(b)[t] {
      LowestInBoth(a, b, t);
      LowestInBoth(b, a, t);
      NameOrderIsTotal(Catalog(a)[t], Catalog(b)[t], Catalog(b)[t]);
    }
  }

  lemma InBoth(a: seq<Seen>, b: seq<Seen>, t: string)
    requires forall s :: s in a ==> s in b
    ensures t in Catalog(a) ==> t in Catalog(b)
  {
    hide TargetOf, Catalog;
    CatalogHoldsLowest(a, t);
    CatalogHoldsLowest(b, t);
    if t in Catalog(a) {
      var i :| Resolves(a, i, t);
      assert a[i] in b;
      var j :| 0 <= j < |b| && b[j] == a[i];
      assert Resolves(b, j, t);
    }
  }

  lemma LowestInBoth(a: seq<Seen>, b: seq<Seen>, t: string)
    requires (forall s :: s in a ==> s in b) && t in Catalog(a) && t in Catalog(b)
    ensures NameLe(Catalog(b)[t], Catalog(a)[t])
  {
    hide TargetOf, Catalog, NameLe;
    CatalogHoldsLowest(a, t);
    CatalogHoldsLowest(b, t);
    var i :| Resolves(a, i, t) && a[i].oid == Catalog(a)[t];
    assert a[i] in b;
    var j :| 0 <= j < |b| && b[j] == a[i];
    assert Resolves(b, j, t);
  }

  function RecordsIn(seen: seq<Seen>): nat {
    if seen == [] then 0 else RecordsIn(seen[..|seen| - 1]) + (if seen[|seen| - 1].content.kind.Record? then 1 else 0)
  }

  function BytesIn(seen: seq<Seen>): nat {
    if seen == [] then 0
    else
      var k := |seen| - 1;
      BytesIn(seen[..k]) + (if seen[k].content.kind.Record? then seen[k].content.byteLen else 0)
  }

  predicate WithinScan(limits: Option<ScanLimits>, seen: seq<Seen>) {
    limits.Some? ==> RecordsIn(seen) <= limits.value.maxRecords && BytesIn(seen) <= limits.value.maxBytes
  }

  class TombstoneCatalog {
    const limits: Option<ScanLimits>
    var records: nat
    var recordBytes: nat
    var targets: map<string, string>
    ghost var seen: seq<Seen>

    /** The fields agree with everything observed so far. */
    ghost predicate Valid()
      reads this
    {
      && targets == Catalog(seen) && WithinScan(limits, seen)
      && (limits.Some? ==> records == RecordsIn(seen) && recordBytes == BytesIn(seen))
      && (limits.Some? ==> limits.value.maxBytes <= U64_MAX)
    }

    constructor (limits: Option<ScanLimits>)
      requires limits.Some? ==> limits.value.maxBytes <= U64_MAX
      ensures Valid() && seen == [] && this.limits == limits
    {
      this.limits := limits;
      records, recordBytes, targets, seen := 0, 0, map[], [];
    }

    /** Adds one object; refuses exactly when the object takes the scan past its limits. */
    method Observe(oid: string, content: Stored) returns (ok: bool)
      requires Valid()
      modifies this
      ensures ok == WithinScan(limits, old(seen) + [Seen(oid, content)])
      ensures ok ==> Valid() && seen == old(seen) + [Seen(oid, content)]
    {
      hide Oid.ParseOid, Get, AsText;
      ghost var next := seen + [Seen(oid, content)];
      assert next[..|next| - 1] == seen;
      if !content.kind.Record? {
        seen := next;
        return true;
      }
      if limits.Some? {
        records := records + 1;
        if records > limits.value.maxRecords {
          return false;
        }
        if recordBytes + content.byteLen > U64_MAX {
          return false;
        }
        recordBytes := recordBytes + content.byteLen;
        if recordBytes > limits.value.maxBytes {
          return false;
        }
      }
      seen := next;
      var target := TargetOf(Seen(oid, content));
      if target.Some? {
        if target.value !in targets || !NameLe(targets[target.value], oid) {
          targets := targets[target.value := oid];
        }
      }
      return true;
    }
  }
}
