/** Strict parsing as functions of the remaining text. */
module JsonParse {
  import opened Text
  import opened Json

  datatype CharStep = GotChar(c: char, rest: string) | BadChar(code: ErrorCode)
  datatype StringStep = GotString(s: string, rest: string) | BadString(code: ErrorCode)
  datatype ValueStep = GotValue(v: Value, rest: string, nodes: nat) | BadValue(code: ErrorCode)

  predicate IsBlank(c: char) { c == ' ' || c == '\t' || c == '\r' || c == '\n' }

  /** A character that ends a number token. */
  predicate EndsNumber(c: char) { IsBlank(c) || c == ',' || c == ']' || c == '}' }

  predicate Starts(s: string, c: char) { s != [] && s[0] == c }

  function SkipBlanks(s: string): (r: string)
    ensures |r| <= |s|
    ensures r != [] ==> !IsBlank(r[0])
  {
    if s != [] && IsBlank(s[0]) then SkipBlanks(s[1..]) else s
  }

  // ----- Strings -----

  predicate IsDigit(c: char) { '0' <= c <= '9' }

  predicate IsHex(c: char) { IsDigit(c) || 'a' <= c <= 'f' || 'A' <= c <= 'F' }

  function HexValue(c: char): (n: nat)
    requires IsHex(c)
    ensures n < 16
  {
    if IsDigit(c) then c as int - '0' as int
    else if 'a' <= c <= 'f' then c as int - 'a' as int + 10
    else c as int - 'A' as int + 10
  }

  predicate FourHex(s: string) {
    |s| >= 4 && IsHex(s[0]) && IsHex(s[1]) && IsHex(s[2]) && IsHex(s[3])
  }

  function Hex4(s: string): (n: nat)
    requires FourHex(s)
    ensures n < 0x1_0000
  {
    ((HexValue(s[0]) * 16 + HexValue(s[1])) * 16 + HexValue(s[2])) * 16 + HexValue(s[3])
  }

  /** After `\u`: one scalar, from a single unit or from a surrogate pair. */
  function ParseUnicodeEscape(s: string): (r: CharStep)
    ensures r.GotChar? ==> |r.rest| < |s|
  {
    if !FourHex(s) then BadChar(SchemaInvalid) else
    var first := Hex4(s);
    if 0xD800 <= first <= 0xDBFF then
      if !(|s| >= 6 && s[4] == '\\' && s[5] == 'u') then BadChar(LoneSurrogate) else
      var t := s[6..];
      if !FourHex(t) then BadChar(SchemaInvalid) else
      var second := Hex4(t);
      if !(0xDC00 <= second <= 0xDFFF) then BadChar(LoneSurrogate) else
      GotChar((0x1_0000 + (first - 0xD800) * 0x400 + (second - 0xDC00)) as char, t[4..])
    else if 0xDC00 <= first <= 0xDFFF then BadChar(LoneSurrogate)
    else GotChar(first as char, s[4..])
  }

  /** After a backslash. */
  function ParseEscape(s: string): (r: CharStep)
    ensures r.GotChar? ==> |r.rest| < |s|
  {
    if s == [] then BadChar(SchemaInvalid)
    else if s[0] == '\"' then GotChar('\"', s[1..])
    else if s[0] == '\\' then GotChar('\\', s[1..])
    else if s[0] == '/' then GotChar('/', s[1..])
    else if s[0] == 'b' then GotChar(0x08 as char, s[1..])
    else if s[0] == 'f' then GotChar(0x0C as char, s[1..])
    else if s[0] == 'n' then GotChar('\n', s[1..])
    else if s[0] == 'r' then GotChar('\r', s[1..])
    else if s[0] == 't' then GotChar('\t', s[1..])
    else if s[0] == 'u' then ParseUnicodeEscape(s[1..])
    else BadChar(SchemaInvalid)
  }

  /** After the opening quote, with `acc` already read. */
  function ParseStringBody(s: string, acc: string): (r: StringStep)
    ensures r.GotString? ==> |r.rest| < |s|
    decreases |s|
  {
    if s == [] then BadString(SchemaInvalid)
    else if s[0] == '\"' then GotString(acc, s[1..])
    else if s[0] == '\\' then
      var e := ParseEscape(s[1..]);
      if e.BadChar? then BadString(e.code) else ParseStringBody(e.rest, acc + [e.c])
    else if s[0] as int < 0x20 then BadString(SchemaInvalid)
    else ParseStringBody(s[1..], acc + [s[0]])
  }

  // ----- Numbers -----

  /** Characters up to the first one that ends a number. */
  function TokenLength(s: string): (n: nat)
    ensures n <= |s|
    ensures forall i | 0 <= i < n :: !EndsNumber(s[i])
    ensures n < |s| ==> EndsNumber(s[n])
  {
    if s == [] || EndsNumber(s[0]) then 0 else 1 + TokenLength(s[1..])
  }

  predicate AllDigits(s: string) { forall i | 0 <= i < |s| :: IsDigit(s[i]) }

  function Magnitude(token: string): string {
    if Starts(token, '-') then token[1..] else token
  }

  predicate ValidInteger(token: string) {
    var digits := Magnitude(token);
    digits != [] && AllDigits(digits) && (digits == "0" || digits[0] != '0')
  }

  function NatOf(digits: string): nat
    requires AllDigits(digits)
  {
    if digits == [] then 0
    else NatOf(digits[..|digits| - 1]) * 10 + (digits[|digits| - 1] as int - '0' as int)
  }

  function IntOf(token: string): int
    requires ValidInteger(token)
  {
    var n: int := NatOf(Magnitude(token));
    if Starts(token, '-') then -n else n
  }

  function ParseNumber(s: string, nodes: nat): (r: ValueStep)
    requires s != [] && !EndsNumber(s[0])
    ensures r.GotValue? ==> |r.rest| < |s|
  {
    var token := s[..TokenLength(s)];
    if !ValidInteger(token) || token == "-0" then BadValue(NumberTokenForbidden) else
    var n := IntOf(token);
    if !(-MAX_SAFE_INTEGER <= n <= MAX_SAFE_INTEGER) then BadValue(UnsafeInteger)
    else GotValue(Integer(n), s[|token|..], nodes)
  }

  function ParseKeyword(s: string, keyword: string, v: Value, nodes: nat): (r: ValueStep)
    requires keyword != []
    ensures r.GotValue? ==> |r.rest| < |s|
  {
    if keyword <= s then GotValue(v, s[|keyword|..], nodes) else BadValue(SchemaInvalid)
  }

  // ----- Values -----

  function ParseValue(s: string, depth: nat, nodes: nat, env: Env): (r: ValueStep)
    ensures r.GotValue? ==> |r.rest| < |s|
    decreases |s|, 0
  {
    var t := SkipBlanks(s);
    if nodes + 1 > env.maxNodes then BadValue(ResourceLimit)
    else if t == [] then BadValue(SchemaInvalid)
    else if t[0] == '{' then
      if depth + 1 > env.maxNestingDepth then BadValue(ResourceLimit)
      else ParseObject(t[1..], depth + 1, nodes + 1, env)
    else if t[0] == '[' then
      if depth + 1 > env.maxNestingDepth then BadValue(ResourceLimit)
      else ParseArray(t[1..], depth + 1, nodes + 1, env)
    else if t[0] == '\"' then
      var q := ParseStringBody(t[1..], "");
      if q.BadString? then BadValue(q.code) else GotValue(Str(q.s), q.rest, nodes + 1)
    else if t[0] == 't' then ParseKeyword(t, "true", Bool(true), nodes + 1)
    else if t[0] == 'f' then ParseKeyword(t, "false", Bool(false), nodes + 1)
    else if t[0] == 'n' then ParseKeyword(t, "null", Null, nodes + 1)
    else if t[0] == '-' || IsDigit(t[0]) then ParseNumber(t, nodes + 1)
    else BadValue(SchemaInvalid)
  }

  /** After the opening bracket. */
  function ParseArray(s: string, depth: nat, nodes: nat, env: Env): (r: ValueStep)
    ensures r.GotValue? ==> |r.rest| < |s|
    decreases |s|, 2
  {
    var t := SkipBlanks(s);
    if Starts(t, ']') then GotValue(Array([]), t[1..], nodes)
    else ParseItems(t, [], depth, nodes, env)
  }

  /** The rest of a non-empty array, with `acc` already read. */
  function ParseItems(s: string, acc: seq<Value>, depth: nat, nodes: nat, env: Env): (r: ValueStep)
    ensures r.GotValue? ==> |r.rest| < |s|
    decreases |s|, 1
  {
    if |acc| >= env.maxContainerItems then BadValue(ResourceLimit) else
    var p := ParseValue(s, depth, nodes, env);
    if p.BadValue? then p else
    var t := SkipBlanks(p.rest);
    if Starts(t, ']') then GotValue(Array(acc + [p.v]), t[1..], p.nodes)
    else if Starts(t, ',') then ParseItems(SkipBlanks(t[1..]), acc + [p.v], depth, p.nodes, env)
    else BadValue(SchemaInvalid)
  }

  /** After the opening brace. */
  function ParseObject(s: string, depth: nat, nodes: nat, env: Env): (r: ValueStep)
    ensures r.GotValue? ==> |r.rest| < |s|
    decreases |s|, 2
  {
    var t := SkipBlanks(s);
    if Starts(t, '}') then GotValue(Object([]), t[1..], nodes)
    else ParseMembers(t, [], depth, nodes, env)
  }

  predicate HasKey<T>(ms: seq<Member<T>>, key: string) {
    exists i | 0 <= i < |ms| :: ms[i].key == key
  }

  /** A fresh NFC key and its colon; the rest is where the value starts. */
  function ParseKey(s: string, acc: seq<Member<Value>>, env: Env): (r: StringStep)
    ensures r.GotString? ==> |r.rest| < |s|
  {
    if !Starts(s, '\"') then BadString(SchemaInvalid) else
    var k := ParseStringBody(s[1..], "");
    if k.BadString? then k
    else if HasKey(acc, k.s) then BadString(DuplicateKey)
    else if !env.isNfc(k.s) then BadString(KeyNotNfc) else
    var t := SkipBlanks(k.rest);
    if !Starts(t, ':') then BadString(SchemaInvalid)
    else GotString(k.s, SkipBlanks(t[1..]))
  }

  /** The rest of a non-empty object, with `acc` already read. */
  function ParseMembers(s: string, acc: seq<Member<Value>>, depth: nat, nodes: nat, env: Env): (r: ValueStep)
    ensures r.GotValue? ==> |r.rest| < |s|
    decreases |s|, 1
  {
    if |acc| >= env.maxContainerItems then BadValue(ResourceLimit) else
    var k := ParseKey(s, acc, env);
    if k.BadString? then BadValue(k.code) else
    var p := ParseValue(k.rest, depth, nodes, env);
    if p.BadValue? then p else
    var ms := acc + [Member(k.s, p.v)];
    var u := SkipBlanks(p.rest);
    if Starts(u, '}') then GotValue(Object(ms), u[1..], p.nodes)
    else if Starts(u, ',') then ParseMembers(SkipBlanks(u[1..]), ms, depth, p.nodes, env)
    else BadValue(SchemaInvalid)
  }

  /** A whole text under the limits of `env`. */
  function ParseText(text: string, env: Env): Result<Value> {
    if !env.LimitsOk() then Err(ResourceLimit)
    else if ByteLen(text) > env.maxInputBytes then Err(ResourceLimit)
    else if Starts(text, '\U{FEFF}') then Err(BomForbidden) else
    var p := ParseValue(SkipBlanks(text), 0, 0, env);
    if p.BadValue? then Err(p.code)
    else if SkipBlanks(p.rest) != [] then Err(SchemaInvalid)
    else Ok(p.v)
  }
}
