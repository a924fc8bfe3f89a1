/**
 * Which texts write a value: the grammar of RFC 8259 restricted to integers, as a relation between
 * a text and a value that mentions no parser.
 */
module JsonGrammar {
  import opened Json
  import opened JsonSpelling

  // ----- Integers -----

  function Pow10(n: nat): nat { if n == 0 then 1 else 10 * Pow10(n - 1) }

  function Weighted(digit: nat, weight: nat): nat { digit * weight }

  predicate Digits(s: string) { forall i | 0 <= i < |s| :: '0' <= s[i] <= '9' }

  /** The number a row of digits stands for, each digit times the power of ten of its place. */
  function PlaceValue(s: string): nat
    requires Digits(s)
  {
    if s == [] then 0 else Weighted(s[0] as int - '0' as int, Pow10(|s| - 1)) + PlaceValue(s[1..])
  }

  /** Digits without a leading zero. */
  predicate Numeral(s: string, n: nat) {
    s != [] && Digits(s) && (|s| == 1 || s[0] != '0') && PlaceValue(s) == n
  }

  predicate WritesInteger(s: string, n: int) {
    if n < 0 then s != [] && s[0] == '-' && Numeral(s[1..], -n) else Numeral(s, n)
  }

  // ----- Values -----

  predicate Blank(s: string) { forall i | 0 <= i < |s| :: s[i] in " \t\r\n" }

  ghost predicate WritesString(s: string, x: string) {
    |s| >= 2 && s[0] == '\"' && s[|s| - 1] == '\"' && Spells(s[1..|s| - 1], x)
  }

  /** What stands between the brackets. */
  function Inside(s: string): string
    requires |s| >= 2
  {
    s[1..|s| - 1]
  }

  predicate Bracketed(s: string, open: char, close: char) { |s| >= 2 && s[0] == open && s[|s| - 1] == close }

  ghost predicate Writes(s: string, v: Value)
    decreases v, 1
  {
    match v
    case Null => s == "null"
    case Bool(b) => s == (if b then "true" else "false")
    case Integer(n) => WritesInteger(s, n)
    case Str(x) => WritesString(s, x)
    case Array(items) => Bracketed(s, '[', ']') && WritesItems(Inside(s), items)
    case Object(entries) => Bracketed(s, '{', '}') && WritesMembers(Inside(s), entries)
  }

  /** A value with blanks around it. */
  ghost predicate WritesPadded(s: string, v: Value)
    decreases v, 2
  {
    exists i, j | 0 <= i <= j <= |s| :: Blank(s[..i]) && Blank(s[j..]) && Writes(s[i..j], v)
  }

  /** Values separated by commas. */
  ghost predicate WritesItems(s: string, items: seq<Value>)
    decreases items, 0
  {
    if items == [] then Blank(s)
    else if |items| == 1 then WritesPadded(s, items[0])
    else exists k | 0 <= k < |s| && s[k] == ',' :: WritesPadded(s[..k], items[0]) && WritesItems(s[k + 1..], items[1..])
  }

  ghost predicate WritesKey(s: string, key: string) {
    exists i, j | 0 <= i <= j <= |s| :: Blank(s[..i]) && Blank(s[j..]) && WritesString(s[i..j], key)
  }

  ghost predicate WritesMember(s: string, m: Member<Value>)
    decreases m, 3
  {
    exists k | 0 <= k < |s| && s[k] == ':' :: WritesKey(s[..k], m.key) && WritesPadded(s[k + 1..], m.value)
  }

  ghost predicate WritesMembers(s: string, ms: seq<Member<Value>>)
    decreases ms, 0
  {
    if ms == [] then Blank(s)
    else if |ms| == 1 then WritesMember(s, ms[0])
    else exists k | 0 <= k < |s| && s[k] == ',' :: WritesMember(s[..k], ms[0]) && WritesMembers(s[k + 1..], ms[1..])
  }
}
