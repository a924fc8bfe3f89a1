/** The restricted JSON domain, what makes a value acceptable, and its canonical text. */
module Json {
  import opened Text

  datatype Member<+T> = Member(key: string, value: T)

  datatype Value =
    | Null
    | Bool(b: bool)
    | Integer(n: int)
    | Str(s: string)
    | Array(items: seq<Value>)
    | Object(entries: seq<Member<Value>>)

  datatype ErrorCode =
    | BomForbidden | DuplicateKey | NumberTokenForbidden | UnsafeInteger
    | LoneSurrogate | KeyNotNfc | ResourceLimit | SchemaInvalid

  datatype Result<+T> = Ok(value: T) | Err(code: ErrorCode)

  const MAX_SAFE_INTEGER := 9_007_199_254_740_991
  const HARD_MAX_NESTING_DEPTH := 256

  /** Resource limits of one deployment, with the Unicode NFC test it links against. */
  datatype Env = Env(
    maxInputBytes: nat,
    maxNestingDepth: nat,
    maxNodes: nat,
    maxContainerItems: nat,
    maxCanonicalBytes: nat,
    isNfc: string -> bool)
  {
    predicate LimitsOk() { maxNestingDepth <= HARD_MAX_NESTING_DEPTH }
  }

  // ----- Measures of a value -----

  /** Values in the tree, the root included. */
  function Nodes(v: Value): (n: nat)
    ensures n >= 1
    decreases v, 1
  {
    match v
    case Array(items) => 1 + ItemNodes(items)
    case Object(entries) => 1 + MemberNodes(entries)
    case _ => 1
  }

  function ItemNodes(items: seq<Value>): nat
    decreases items, 0
  {
    if items == [] then 0 else Nodes(items[0]) + ItemNodes(items[1..])
  }

  function MemberNodes(ms: seq<Member<Value>>): nat
    decreases ms, 0
  {
    if ms == [] then 0 else Nodes(ms[0].value) + MemberNodes(ms[1..])
  }

  function Max(a: nat, b: nat): nat { if a < b then b else a }

  /** Container nesting: a scalar is 0 and a container one more than its deepest child. */
  function Nesting(v: Value): nat
    decreases v, 1
  {
    match v
    case Array(items) => 1 + ItemNesting(items)
    case Object(entries) => 1 + MemberNesting(entries)
    case _ => 0
  }

  function ItemNesting(items: seq<Value>): nat
    decreases items, 0
  {
    if items == [] then 0 else Max(Nesting(items[0]), ItemNesting(items[1..]))
  }

  function MemberNesting(ms: seq<Member<Value>>): nat
    decreases ms, 0
  {
    if ms == [] then 0 else Max(Nesting(ms[0].value), MemberNesting(ms[1..]))
  }

  predicate DistinctKeys<T>(ms: seq<Member<T>>) {
    forall i, j | 0 <= i < j < |ms| :: ms[i].key != ms[j].key
  }

  /** The domain itself: safe integers, distinct NFC keys, bounded containers, at every level. */
  predicate Valid(v: Value, env: Env)
    decreases v, 1
  {
    match v
    case Integer(n) => -MAX_SAFE_INTEGER <= n <= MAX_SAFE_INTEGER
    case Array(items) => |items| <= env.maxContainerItems && ItemsValid(items, env)
    case Object(entries) =>
      && |entries| <= env.maxContainerItems
      && DistinctKeys(entries)
      && MembersValid(entries, env)
    case _ => true
  }

  predicate ItemsValid(items: seq<Value>, env: Env)
    decreases items, 0
  {
    items == [] || (Valid(items[0], env) && ItemsValid(items[1..], env))
  }

  predicate MembersValid(ms: seq<Member<Value>>, env: Env)
    decreases ms, 0
  {
    ms == [] || (env.isNfc(ms[0].key) && Valid(ms[0].value, env) && MembersValid(ms[1..], env))
  }

  // ----- Canonical text -----

  function LowerHex(n: nat): char
    requires n < 16
  {
    "0123456789abcdef"[n]
  }

  /** One character inside a canonical string literal. */
  function Escaped(c: char): (e: string)
    ensures 1 <= |e|
  {
    if c == '\"' then "\\\""
    else if c == '\\' then "\\\\"
    else if c as int == 0x08 then "\\b"
    else if c == '\t' then "\\t"
    else if c == '\n' then "\\n"
    else if c as int == 0x0C then "\\f"
    else if c == '\r' then "\\r"
    else if c as int < 0x20 then ['\\', 'u', '0', '0', LowerHex(c as int / 16), LowerHex(c as int % 16)]
    else [c]
  }

  function EscapedAll(s: string): string {
    if s == [] then [] else Escaped(s[0]) + EscapedAll(s[1..])
  }

  function Quoted(s: string): string { "\"" + EscapedAll(s) + "\"" }

  function Digit(d: nat): char
    requires d < 10
  {
    "0123456789"[d]
  }

  function Decimal(n: nat): (s: string)
    ensures s != []
  {
    if n < 10 then [Digit(n)] else Decimal(n / 10) + [Digit(n % 10)]
  }

  function SignedDecimal(n: int): string {
    if n < 0 then "-" + Decimal(-n) else Decimal(n)
  }

  function Insert<T>(m: Member<T>, ms: seq<Member<T>>): seq<Member<T>> {
    if ms == [] || KeyLe(m.key, ms[0].key) then [m] + ms else [ms[0]] + Insert(m, ms[1..])
  }

  /** Members in UTF-16 key order. */
  function SortByKey<T>(ms: seq<Member<T>>): seq<Member<T>> {
    if ms == [] then [] else Insert(ms[0], SortByKey(ms[1..]))
  }

  /** Canonical JSON: no blanks, members in UTF-16 key order, minimal escapes. */
  function Canon(v: Value): string
    decreases v, 1
  {
    match v
    case Null => "null"
    case Bool(b) => if b then "true" else "false"
    case Integer(n) => SignedDecimal(n)
    case Str(s) => Quoted(s)
    case Array(items) => "[" + ItemsText(items) + "]"
    case Object(entries) => "{" + JoinMembers(SortByKey(Rendered(entries))) + "}"
  }

  function ItemsText(items: seq<Value>): string
    decreases items, 0
  {
    if items == [] then ""
    else if |items| == 1 then Canon(items[0])
    else Canon(items[0]) + "," + ItemsText(items[1..])
  }

  function Rendered(ms: seq<Member<Value>>): (r: seq<Member<string>>)
    ensures |r| == |ms|
    ensures forall i | 0 <= i < |ms| :: r[i].key == ms[i].key
    decreases ms, 0
  {
    if ms == [] then [] else [Member(ms[0].key, Canon(ms[0].value))] + Rendered(ms[1..])
  }

  function MemberText(m: Member<string>): string { Quoted(m.key) + ":" + m.value }

  function JoinMembers(ms: seq<Member<string>>): string {
    if ms == [] then ""
    else if |ms| == 1 then MemberText(ms[0])
    else MemberText(ms[0]) + "," + JoinMembers(ms[1..])
  }

  /** The value the canonical text denotes: `v` with every object in key order. */
  function Normal(v: Value): Value
    decreases v, 1
  {
    match v
    case Array(items) => Array(NormalItems(items))
    case Object(entries) => Object(SortByKey(NormalMembers(entries)))
    case _ => v
  }

  function NormalItems(items: seq<Value>): (r: seq<Value>)
    ensures |r| == |items|
    decreases items, 0
  {
    if items == [] then [] else [Normal(items[0])] + NormalItems(items[1..])
  }

  function NormalMembers(ms: seq<Member<Value>>): (r: seq<Member<Value>>)
    ensures |r| == |ms|
    ensures forall i | 0 <= i < |ms| :: r[i].key == ms[i].key
    decreases ms, 0
  {
    if ms == [] then [] else [Member(ms[0].key, Normal(ms[0].value))] + NormalMembers(ms[1..])
  }

  /** UTF-8 length of the canonical text. */
  function Size(v: Value): nat { ByteLen(Canon(v)) }

  /** When canonical output exists under the limits of `env`. */
  predicate Fits(v: Value, env: Env) {
    && env.LimitsOk()
    && Valid(v, env)
    && Nodes(v) <= env.maxNodes
    && Nesting(v) <= env.maxNestingDepth
    && Size(v) <= env.maxCanonicalBytes
  }
}
