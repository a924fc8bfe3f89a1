/** The strict parser as an object that advances a position and counts nodes. */
module JsonParser {
  import opened Text
  import opened Json
  import Spec = JsonParse
  import opened JsonGrammar
  import opened JsonGrammarFound

  class Parser {
    const text: string
    const env: Env
    var position: nat
    var nodes: nat

    constructor (text: string, env: Env)
      ensures this.text == text && this.env == env && position == 0 && nodes == 0
    {
      this.text := text;
      this.env := env;
      position := 0;
      nodes := 0;
    }

    ghost predicate Valid()
      reads this`position
    {
      position <= |text|
    }

    /** The text not read yet. */
    ghost function Rest(): string
      reads this`position
      requires Valid()
    {
      text[position..]
    }

    /** The outcome of a call is the one the specification gives for the text and counters at entry. */
    ghost predicate Agrees(step: Spec.ValueStep, r: Result<Value>)
      reads this
      requires Valid()
    {
      match step
      case GotValue(v, rest, n) => r == Ok(v) && Rest() == rest && nodes == n
      case BadValue(code) => r == Err(code)
    }

    predicate Peek(c: char)
      reads this`position
      requires Valid()
      ensures Peek(c) <==> Spec.Starts(Rest(), c)
    {
      position < |text| && text[position] == c
    }

    method Advance()
      requires Valid() && position < |text|
      modifies this`position
      ensures position == old(position) + 1 && Valid()
      ensures Rest() == old(Rest())[1..]
    {
      position := position + 1;
    }

    method SkipWhitespace()
      requires Valid()
      modifies this`position
      ensures Valid() && position >= old(position)
      ensures Rest() == Spec.SkipBlanks(old(Rest()))
    {
      while position < |text| && Spec.IsBlank(text[position])
        invariant old(position) <= position <= |text|
        invariant Spec.SkipBlanks(Rest()) == Spec.SkipBlanks(old(Rest()))
      {
        Advance();
      }
    }

    method ParseHexUnit() returns (r: Result<nat>)
      requires Valid()
      modifies this`position
      ensures Valid() && position >= old(position)
      ensures r.Ok? <==> Spec.FourHex(old(Rest()))
      ensures r.Ok? ==> r.value == Spec.Hex4(old(Rest())) && Rest() == old(Rest())[4..]
      ensures r.Err? ==> r.code == SchemaInvalid
    {
      if position + 4 > |text| { return Err(SchemaInvalid); }
      var digits := text[position..position + 4];
      assert Rest()[..4] == digits;
      if !(forall i | 0 <= i < 4 :: Spec.IsHex(digits[i])) {
        return Err(SchemaInvalid);
      }
      assert forall i | 0 <= i < 4 :: Rest()[i] == digits[i];
      assert Rest()[4..] == text[position + 4..];
      position := position + 4;
      return Ok(Spec.Hex4(digits));
    }

    ghost predicate AgreesChar(step: Spec.CharStep, r: Result<char>)
      reads this`position
      requires Valid()
    {
      match step
      case GotChar(c, rest) => r == Ok(c) && Rest() == rest
      case BadChar(code) => r == Err(code)
    }

    method ParseUnicodeEscape() returns (r: Result<char>)
      requires Valid()
      modifies this`position
      ensures Valid() && position >= old(position)
      ensures AgreesChar(Spec.ParseUnicodeEscape(old(Rest())), r)
    {
      var unit := ParseHexUnit();
      if unit.Err? { return Err(unit.code); }
      var first := unit.value;
      ghost var afterFirst := Rest();
      if 0xD800 <= first <= 0xDBFF {
        if !(position + 2 <= |text| && text[position..position + 2] == "\\u") {
          assert !(|afterFirst| >= 2 && afterFirst[..2] == "\\u");
          return Err(LoneSurrogate);
        }
        assert afterFirst[0] == text[position] && afterFirst[1] == text[position + 1];
        position := position + 2;
        assert Rest() == old(Rest())[6..];
        unit := ParseHexUnit();
        if unit.Err? { return Err(unit.code); }
        var second := unit.value;
        if !(0xDC00 <= second <= 0xDFFF) { return Err(LoneSurrogate); }
        return Ok((0x1_0000 + (first - 0xD800) * 0x400 + (second - 0xDC00)) as char);
      } else if 0xDC00 <= first <= 0xDFFF {
        return Err(LoneSurrogate);
      }
      return Ok(first as char);
    }

    method ParseEscape() returns (r: Result<char>)
      requires Valid()
      modifies this`position
      ensures Valid() && position >= old(position)
      ensures AgreesChar(Spec.ParseEscape(old(Rest())), r)
    {
      if position == |text| { return Err(SchemaInvalid); }
      var escaped := text[position];
      Advance();
      match escaped {
        case '\"' => return Ok('\"');
        case '\\' => return Ok('\\');
        case '/' => return Ok('/');
        case 'b' => return Ok(0x08 as char);
        case 'f' => return Ok(0x0C as char);
        case 'n' => return Ok('\n');
        case 'r' => return Ok('\r');
        case 't' => return Ok('\t');
        case 'u' => r := ParseUnicodeEscape();
        case _ => return Err(SchemaInvalid);
      }
    }

    ghost predicate AgreesString(step: Spec.StringStep, r: Result<string>)
      reads this`position
      requires Valid()
    {
      match step
      case GotString(s, rest) => r == Ok(s) && Rest() == rest
      case BadString(code) => r == Err(code)
    }

    method ParseString() returns (r: Result<string>)
      requires Valid() && Peek('\"')
      modifies this`position
      ensures Valid() && position > old(position)
      ensures AgreesString(Spec.ParseStringBody(old(Rest())[1..], ""), r)
    {
      hide Spec.ParseEscape;
      Advance();
      var value := "";
      while position < |text|
        invariant old(position) < position <= |text|
        invariant Spec.ParseStringBody(Rest(), value) == Spec.ParseStringBody(old(Rest())[1..], "")
        decreases |text| - position
      {
        var c := text[position];
        assert Rest()[0] == c;
        if c == '\"' {
          Advance();
          return Ok(value);
        } else if c == '\\' {
          Advance();
          var e := ParseEscape();
          if e.Err? { return Err(e.code); }
          value := value + [e.value];
        } else if c as int < 0x20 {
          return Err(SchemaInvalid);
        } else {
          value := value + [c];
          Advance();
        }
      }
      return Err(SchemaInvalid);
    }

    method ParseNumber() returns (r: Result<Value>)
      requires Valid() && position < |text| && !Spec.EndsNumber(text[position])
      modifies this`position
      ensures Valid() && position > old(position)
      ensures Agrees(Spec.ParseNumber(old(Rest()), nodes), r)
    {
      var start := position;
      ghost var s := Rest();
      while position < |text| && !Spec.EndsNumber(text[position])
        invariant start <= position <= |text|
        invariant position == start ==> !Spec.EndsNumber(text[position])
        invariant Spec.TokenLength(s) == position - start + Spec.TokenLength(Rest())
      {
        Advance();
      }
      var token := text[start..position];
      assert s[..Spec.TokenLength(s)] == token && s[|token|..] == Rest();
      if !Spec.ValidInteger(token) || token == "-0" { return Err(NumberTokenForbidden); }
      var value := Spec.IntOf(token);
      if !(-MAX_SAFE_INTEGER <= value <= MAX_SAFE_INTEGER) { return Err(UnsafeInteger); }
      return Ok(Integer(value));
    }

    method ParseKeyword(keyword: string, value: Value) returns (r: Result<Value>)
      requires Valid() && keyword != []
      modifies this`position
      ensures Valid() && position >= old(position)
      ensures Agrees(Spec.ParseKeyword(old(Rest()), keyword, value, nodes), r)
    {
      ghost var s := Rest();
      assert |keyword| <= |s| ==> s[..|keyword|] == text[position..position + |keyword|];
      if !(position + |keyword| <= |text| && text[position..position + |keyword|] == keyword) {
        return Err(SchemaInvalid);
      }
      assert s[|keyword|..] == text[position + |keyword|..];
      position := position + |keyword|;
      return Ok(value);
    }

    method ParseValue(depth: nat) returns (r: Result<Value>)
      requires Valid()
      modifies this
      ensures Valid() && position >= old(position)
      ensures Agrees(Spec.ParseValue(old(Rest()), depth, old(nodes), env), r)
      decreases |text| - position, 0
    {
      hide Spec.ParseObject, Spec.ParseArray, Spec.ParseStringBody, Spec.ParseNumber, Spec.ParseKeyword;
      SkipWhitespace();
      if nodes + 1 > env.maxNodes { return Err(ResourceLimit); }
      nodes := nodes + 1;
      if position == |text| { return Err(SchemaInvalid); }
      var c := text[position];
      assert Rest()[0] == c;
      if c == '{' || c == '[' {
        if depth + 1 > env.maxNestingDepth { return Err(ResourceLimit); }
        Advance();
        if c == '{' { r := ParseObject(depth + 1); } else { r := ParseArray(depth + 1); }
      } else if c == '\"' {
        var s := ParseString();
        r := if s.Ok? then Ok(Str(s.value)) else Err(s.code);
      } else if c == 't' {
        r := ParseKeyword("true", Bool(true));
      } else if c == 'f' {
        r := ParseKeyword("false", Bool(false));
      } else if c == 'n' {
        r := ParseKeyword("null", Null);
      } else if c == '-' || Spec.IsDigit(c) {
        r := ParseNumber();
      } else {
        r := Err(SchemaInvalid);
      }
    }

    /** After the opening bracket. */
    method ParseArray(depth: nat) returns (r: Result<Value>)
      requires Valid()
      modifies this
      ensures Valid() && position >= old(position)
      ensures Agrees(Spec.ParseArray(old(Rest()), depth, old(nodes), env), r)
      decreases |text| - position, 1
    {
      hide Spec.ParseValue;
      SkipWhitespace();
      var values: seq<Value> := [];
      if Peek(']') {
        Advance();
        return Ok(Array(values));
      }
      while true
        invariant old(position) <= position <= |text|
        invariant Spec.ParseItems(Rest(), values, depth, nodes, env)
               == Spec.ParseArray(old(Rest()), depth, old(nodes), env)
        decreases |text| - position
      {
        if |values| >= env.maxContainerItems { return Err(ResourceLimit); }
        ghost var before := position;
        var v := ParseValue(depth);
        if v.Err? { return Err(v.code); }
        assert position > before;
        values := values + [v.value];
        SkipWhitespace();
        if Peek(']') {
          Advance();
          return Ok(Array(values));
        } else if Peek(',') {
          Advance();
          SkipWhitespace();
        } else {
          return Err(SchemaInvalid);
        }
      }
    }

    method ParseKey(ghost entries: seq<Member<Value>>, keys: set<string>) returns (r: Result<string>)
      requires Valid() && KeysOf(keys, entries)
      modifies this`position
      ensures Valid() && position >= old(position)
      ensures AgreesString(Spec.ParseKey(old(Rest()), entries, env), r)
    {
      hide Spec.ParseStringBody, Spec.HasKey;
      if !Peek('\"') { return Err(SchemaInvalid); }
      r := ParseString();
      if r.Err? { return; }
      if r.value in keys { return Err(DuplicateKey); }
      if !env.isNfc(r.value) { return Err(KeyNotNfc); }
      SkipWhitespace();
      if !Peek(':') { return Err(SchemaInvalid); }
      Advance();
      SkipWhitespace();
    }

    /** After the opening brace. */
    method ParseObject(depth: nat) returns (r: Result<Value>)
      requires Valid()
      modifies this
      ensures Valid() && position >= old(position)
      ensures Agrees(Spec.ParseObject(old(Rest()), depth, old(nodes), env), r)
      decreases |text| - position, 1
    {
      hide Spec.ParseValue, Spec.ParseKey, KeysOf;
      SkipWhitespace();
      var entries: seq<Member<Value>> := [];
      var keys: set<string> := {};
      KeysEmpty();
      if Peek('}') {
        Advance();
        return Ok(Object(entries));
      }
      while true
        invariant old(position) <= position <= |text|
        invariant KeysOf(keys, entries)
        invariant Spec.ParseMembers(Rest(), entries, depth, nodes, env)
               == Spec.ParseObject(old(Rest()), depth, old(nodes), env)
        decreases |text| - position
      {
        if |entries| >= env.maxContainerItems { return Err(ResourceLimit); }
        var key := ParseKey(entries, keys);
        if key.Err? { return Err(key.code); }
        var v := ParseValue(depth);
        if v.Err? { return v; }
        KeysGrow(keys, entries, Member(key.value, v.value));
        entries := entries + [Member(key.value, v.value)];
        keys := keys + {key.value};
        SkipWhitespace();
        if Peek('}') {
          Advance();
          return Ok(Object(entries));
        } else if Peek(',') {
          Advance();
          SkipWhitespace();
        } else {
          return Err(SchemaInvalid);
        }
      }
    }

    method Parse() returns (r: Result<Value>)
      requires position == 0 && nodes == 0
      modifies this
      ensures r == var p := Spec.ParseValue(Spec.SkipBlanks(text), 0, 0, env);
                   if p.BadValue? then Err(p.code)
                   else if Spec.SkipBlanks(p.rest) != [] then Err(SchemaInvalid)
                   else Ok(p.v)
    {
      hide Spec.ParseValue;
      assert Rest() == text;
      SkipWhitespace();
      r := ParseValue(0);
      if r.Ok? {
        SkipWhitespace();
        if position != |text| { r := Err(SchemaInvalid); }
      }
    }
  }

  ghost predicate KeysOf(keys: set<string>, entries: seq<Member<Value>>) {
    forall k :: k in keys <==> Spec.HasKey(entries, k)
  }

  lemma KeysEmpty()
    ensures KeysOf({}, [])
  {
  }

  lemma KeysGrow(keys: set<string>, entries: seq<Member<Value>>, m: Member<Value>)
    requires KeysOf(keys, entries)
    ensures KeysOf(keys + {m.key}, entries + [m])
  {
    var more := entries + [m];
    assert more[|entries|] == m && forall i | 0 <= i < |entries| :: more[i] == entries[i];
    forall k | k in keys ensures Spec.HasKey(more, k) {
      var i :| 0 <= i < |entries| && entries[i].key == k;
      assert more[i].key == k;
    }
  }

  /**
   * Strict parsing of one text: limits, byte order mark, one value, nothing after it. It succeeds
   * exactly on the texts that write an admissible value, with that value.
   */
  method ParseStrict(text: string, env: Env) returns (r: Result<Value>)
    ensures r == Spec.ParseText(text, env)
    ensures r.Ok? ==> WritesPadded(text, r.value) && Admissible(text, r.value, env)
    ensures forall v :: WritesPadded(text, v) && Admissible(text, v, env) ==> r == Ok(v)
  {
    hide Spec.ParseValue, WritesPadded, Admissible;
    forall v ensures Spec.ParseText(text, env) == Ok(v) <==> WritesPadded(text, v) && Admissible(text, v, env) {
      ParsesExactlyWhatIsWritten(text, v, env);
    }
    if env.maxNestingDepth > HARD_MAX_NESTING_DEPTH { return Err(ResourceLimit); }
    if ByteLen(text) > env.maxInputBytes { return Err(ResourceLimit); }
    if |text| > 0 && text[0] == '\U{FEFF}' { return Err(BomForbidden); }
    var parser := new Parser(text, env);
    r := parser.Parse();
  }
}
