/** Text as sequences of Unicode scalar values, measured in UTF-8 bytes and ordered by UTF-16 code units. */
module Text {

  /** Bytes of one scalar value in UTF-8. */
  function CharBytes(c: char): (n: nat)
    ensures 1 <= n <= 4
  {
    var u := c as int;
    if u < 0x80 then 1 else if u < 0x800 then 2 else if u < 0x1_0000 then 3 else 4
  }

  function ByteLen(s: string): nat {
    if s == [] then 0 else CharBytes(s[0]) + ByteLen(s[1..])
  }

  function Pow2(n: nat): nat { if n == 0 then 1 else 2 * Pow2(n - 1) }

  /** Bits of the scalar that an encoding of so many bytes holds: 7, 11, 16 and 21. */
  function PayloadBits(n: nat): nat { if n <= 1 then 7 else 5 * n + 1 }

  /** The length is that of the shortest UTF-8 encoding whose payload holds the scalar. */
  lemma CharBytesIsShortest(c: char)
    ensures c as int < Pow2(PayloadBits(CharBytes(c)))
    ensures forall n | 1 <= n < CharBytes(c) :: c as int >= Pow2(PayloadBits(n))
  {
    Powers();
    forall n | 1 <= n < CharBytes(c) ensures c as int >= Pow2(PayloadBits(n)) {
      assert n == 1 || n == 2 || n == 3;
    }
  }

  lemma Powers()
    ensures Pow2(7) == 0x80 && Pow2(11) == 0x800 && Pow2(16) == 0x1_0000 && Pow2(21) == 0x20_0000
  {
    assert Pow2(4) == 16 && Pow2(7) == 128;
    assert Pow2(11) == 16 * Pow2(7);
    assert Pow2(14) == 8 * Pow2(11) && Pow2(16) == 4 * Pow2(14);
    assert Pow2(19) == 8 * Pow2(16) && Pow2(21) == 4 * Pow2(19);
  }

  lemma {:induction false} ByteLenConcat(a: string, b: string)
    ensures ByteLen(a + b) == ByteLen(a) + ByteLen(b)
  {
    if a == [] {
      assert a + b == b;
    } else {
      assert (a + b)[1..] == a[1..] + b;
      ByteLenConcat(a[1..], b);
    }
  }

  lemma {:induction false} ByteLenAscii(s: string)
    requires forall i | 0 <= i < |s| :: s[i] as int < 0x80
    ensures ByteLen(s) == |s|
  {
    if s != [] { ByteLenAscii(s[1..]); }
  }

  // ----- UTF-16 code units -----

  /** The one or two UTF-16 code units of a scalar value. */
  function Units(c: char): (us: seq<int>)
    ensures |us| == 1 || |us| == 2
  {
    var u := c as int;
    if u < 0x1_0000 then [u]
    else [0xD800 + (u - 0x1_0000) / 0x400, 0xDC00 + (u - 0x1_0000) % 0x400]
  }

  function Utf16(s: string): seq<int> {
    if s == [] then [] else Units(s[0]) + Utf16(s[1..])
  }

  /** A scalar past the basic plane is its surrogate pair: ten high bits, then ten low ones. */
  lemma UnitsAreUtf16(c: char)
    ensures c as int < 0x1_0000 ==> Units(c) == [c as int]
    ensures c as int >= 0x1_0000 ==>
              && |Units(c)| == 2 && 0xD800 <= Units(c)[0] <= 0xDBFF && 0xDC00 <= Units(c)[1] <= 0xDFFF
              && (Units(c)[0] - 0xD800) * 0x400 + (Units(c)[1] - 0xDC00) == c as int - 0x1_0000
  {
  }

  /** Two scalars with a common first code unit agree entirely once the second unit does. */
  lemma UnitsInjective(c: char, d: char)
    requires Units(c) == Units(d)
    ensures c == d
  {
    if c as int >= 0x1_0000 {
      assert Units(c)[0] == Units(d)[0] && Units(c)[1] == Units(d)[1];
    } else {
      assert Units(c)[0] == Units(d)[0];
    }
  }

  /** A surrogate unit never starts a single-unit scalar, so equal first units mean equal widths. */
  lemma UnitsWidth(c: char, d: char)
    requires Units(c)[0] == Units(d)[0]
    ensures |Units(c)| == |Units(d)|
  {
  }

  lemma {:induction false} Utf16Injective(a: string, b: string)
    requires Utf16(a) == Utf16(b)
    ensures a == b
  {
    if a != [] && b != [] {
      var ua, ub := Units(a[0]), Units(b[0]);
      assert Utf16(a)[0] == ua[0] && Utf16(b)[0] == ub[0];
      UnitsWidth(a[0], b[0]);
      assert Utf16(a)[..|ua|] == ua && Utf16(b)[..|ub|] == ub;
      UnitsInjective(a[0], b[0]);
      assert Utf16(a)[|ua|..] == Utf16(a[1..]) && Utf16(b)[|ub|..] == Utf16(b[1..]);
      Utf16Injective(a[1..], b[1..]);
      assert a == [a[0]] + a[1..] && b == [b[0]] + b[1..];
    }
  }

  // ----- Lexicographic order -----

  predicate LexLe(a: seq<int>, b: seq<int>) {
    a == [] || (b != [] && (a[0] < b[0] || (a[0] == b[0] && LexLe(a[1..], b[1..]))))
  }

  lemma {:induction false} LexTotal(a: seq<int>, b: seq<int>)
    ensures LexLe(a, b) || LexLe(b, a)
  {
    if a != [] && b != [] { LexTotal(a[1..], b[1..]); }
  }

  lemma {:induction false} LexTransitive(a: seq<int>, b: seq<int>, c: seq<int>)
    requires LexLe(a, b) && LexLe(b, c)
    ensures LexLe(a, c)
  {
    if a != [] && a[0] == b[0] == c[0] { LexTransitive(a[1..], b[1..], c[1..]); }
  }

  lemma {:induction false} LexAntisymmetric(a: seq<int>, b: seq<int>)
    requires LexLe(a, b) && LexLe(b, a)
    ensures a == b
  {
    if a != [] {
      LexAntisymmetric(a[1..], b[1..]);
      assert a == [a[0]] + a[1..] && b == [b[0]] + b[1..];
    }
  }

  /** The key order of canonical objects: lexicographic on UTF-16 code units. */
  predicate KeyLe(a: string, b: string) {
    LexLe(Utf16(a), Utf16(b))
  }

  /** `KeyLe` is a total order on strings; two strings tie only when they are equal. */
  lemma KeyOrderIsTotal(a: string, b: string, c: string)
    ensures KeyLe(a, b) || KeyLe(b, a)
    ensures KeyLe(a, b) && KeyLe(b, c) ==> KeyLe(a, c)
    ensures KeyLe(a, b) && KeyLe(b, a) ==> a == b
  {
    LexTotal(Utf16(a), Utf16(b));
    if KeyLe(a, b) && KeyLe(b, c) { LexTransitive(Utf16(a), Utf16(b), Utf16(c)); }
    if KeyLe(a, b) && KeyLe(b, a) {
      LexAntisymmetric(Utf16(a), Utf16(b));
      Utf16Injective(a, b);
    }
  }

  /**
   * What decides between two sequences: up to here they agree, and then the first one ends or has
   * the smaller element.
   */
  ghost predicate DecidedAt(a: seq<int>, b: seq<int>, k: nat) {
    k <= |a| && k < |b| && a[..k] == b[..k] && (k == |a| || a[k] < b[k])
  }

  ghost predicate Before(a: seq<int>, b: seq<int>) { exists k: nat :: DecidedAt(a, b, k) }

  lemma {:induction false} LexDecided(a: seq<int>, b: seq<int>)
    ensures LexLe(a, b) <==> a == b || Before(a, b)
  {
    if a == [] {
      if b != [] { assert DecidedAt(a, b, 0); }
    } else if b != [] {
      assert a == [a[0]] + a[1..] && b == [b[0]] + b[1..];
      if a[0] == b[0] {
        LexDecided(a[1..], b[1..]);
        if k: nat :| DecidedAt(a[1..], b[1..], k) { DecidedLater(a, b, k); }
        if k: nat :| DecidedAt(a, b, k) { DecidedEarlier(a, b, k); }
      } else {
        if a[0] < b[0] { assert DecidedAt(a, b, 0); }
        if k: nat :| DecidedAt(a, b, k) { DecidedFirst(a, b, k); }
      }
    }
  }

  lemma DecidedLater(a: seq<int>, b: seq<int>, k: nat)
    requires a != [] && b != [] && a[0] == b[0] && DecidedAt(a[1..], b[1..], k)
    ensures DecidedAt(a, b, k + 1)
  {
    assert a[..k + 1] == [a[0]] + a[1..][..k] && b[..k + 1] == [b[0]] + b[1..][..k];
  }

  lemma DecidedEarlier(a: seq<int>, b: seq<int>, k: nat)
    requires a != [] && b != [] && a[0] == b[0] && DecidedAt(a, b, k)
    ensures k > 0 && DecidedAt(a[1..], b[1..], k - 1)
  {
    if k > 0 { assert a[1..][..k - 1] == a[..k][1..] && b[1..][..k - 1] == b[..k][1..]; }
  }

  lemma DecidedFirst(a: seq<int>, b: seq<int>, k: nat)
    requires a != [] && b != [] && a[0] != b[0] && DecidedAt(a, b, k)
    ensures a[0] < b[0]
  {
  }

  /**
   * One key comes before another exactly when its code units are a proper prefix of the other's, or
   * where they first differ its unit is the smaller one.
   */
  lemma KeyOrderIsDecided(a: string, b: string)
    ensures KeyLe(a, b) <==> a == b || Before(Utf16(a), Utf16(b))
  {
    hide LexLe, Before;
    LexDecided(Utf16(a), Utf16(b));
    if Utf16(a) == Utf16(b) { Utf16Injective(a, b); }
  }

  /**
   * So keys of one character sort as scalars do, except that those past the basic plane come before
   * the last of it: their surrogates are smaller than U+E000 to U+FFFF.
   */
  lemma SingleKeyOrder(c: char, d: char)
    ensures KeyLe([c], [d]) <==>
              if c as int >= 0x1_0000 && d as int < 0x1_0000 then d as int >= 0xE000
              else if d as int >= 0x1_0000 && c as int < 0x1_0000 then c as int < 0xE000
              else c <= d
  {
    SingleUnits(c);
    SingleUnits(d);
    var a, b := Units(c), Units(d);
    assert LexLe(a, b) <==> a[0] < b[0] || (a[0] == b[0] && LexLe(a[1..], b[1..]));
    if |a| == 2 && |b| == 2 {
      assert LexLe(a[1..], b[1..]) <==> a[1] <= b[1];
      UnitsAreUtf16(c);
      UnitsAreUtf16(d);
    } else if |a| == 1 {
      assert a[1..] == [];
    }
  }

  lemma SingleUnits(c: char)
    ensures Utf16([c]) == Units(c)
  {
    assert [c][1..] == [];
  }
}
