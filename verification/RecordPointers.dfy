/** JSON pointers (RFC 6901) resolved against a value, and that they name exactly its places. */
module RecordPointers {
  import opened Optional
  import opened Split
  import opened Json
  import opened JsonContent
  import opened JsonGrammar
  import opened JsonGrammarReads
  import opened References
  import opened RecordPlaces

  // ----- Resolving -----

  /** A reference token read back: `~0` is a tilde, `~1` a slash, and no other tilde is allowed. */
  function Unescaped(token: string): Option<string> {
    if token == [] then Some("")
    else if token[0] != '~' then Prefixed([token[0]], Unescaped(token[1..]))
    else if |token| > 1 && token[1] == '0' then Prefixed("~", Unescaped(token[2..]))
    else if |token| > 1 && token[1] == '1' then Prefixed("/", Unescaped(token[2..]))
    else None
  }

  function Prefixed(head: string, tail: Option<string>): Option<string> {
    if tail.Some? then Some(head + tail.value) else None
  }

  /** The child a token names: the member with that key, or the item at that index. */
  function Named(v: Value, token: string): Option<Value> {
    match v
    case Object(entries) => if Unescaped(token).Some? then Field(entries, Unescaped(token).value) else None
    case Array(items) =>
      if Digits(token) && Numeral(token, PlaceValue(token)) && PlaceValue(token) < |items|
      then Some(items[PlaceValue(token)]) else None
    case _ => None
  }

  function Follow(v: Value, tokens: seq<string>): Option<Value>
    decreases |tokens|
  {
    if tokens == [] then Some(v)
    else if Named(v, tokens[0]).Some? then Follow(Named(v, tokens[0]).value, tokens[1..])
    else None
  }

  /** The value a JSON pointer names. */
  function Resolve(v: Value, pointer: string): Option<Value> {
    if pointer == "" then Some(v)
    else if pointer[0] != '/' then None
    else Follow(v, Parts(pointer[1..], '/'))
  }

  /** No object inside the value repeats a key. */
  ghost predicate DistinctThroughout(v: Value) {
    forall at :: NodeAt(v, at).Some? && NodeAt(v, at).value.Object? ==> DistinctKeys(NodeAt(v, at).value.entries)
  }

  lemma DistinctChild(v: Value, i: nat)
    requires DistinctThroughout(v) && i < ChildCount(v)
    ensures DistinctThroughout(Child(v, i))
  {
    hide NodeAt, DistinctKeys;
    forall at | NodeAt(Child(v, i), at).Some? && NodeAt(Child(v, i), at).value.Object?
      ensures DistinctKeys(NodeAt(Child(v, i), at).value.entries)
    {
      ChildPlace(v, i, at);
      assert NodeAt(v, [i] + at).Some?;
    }
  }

  lemma DistinctHere(v: Value)
    requires DistinctThroughout(v) && v.Object?
    ensures DistinctKeys(v.entries)
  {
    assert NodeAt(v, []).Some?;
  }

  /** Every value of the restricted domain is one. */
  lemma ValidIsDistinct(v: Value, env: Env)
    requires Valid(v, env)
    ensures DistinctThroughout(v)
  {
    forall at | NodeAt(v, at).Some? && NodeAt(v, at).value.Object? ensures DistinctKeys(NodeAt(v, at).value.entries) {
      ValidAt(v, at, env);
    }
  }

  lemma {:induction false} ValidAt(v: Value, at: seq<nat>, env: Env)
    requires Valid(v, env) && NodeAt(v, at).Some?
    ensures Valid(NodeAt(v, at).value, env)
    decreases at
  {
    if at != [] {
      if v.Array? { ItemValidAt(v.items, at[0], env); } else { MemberValidAt(v.entries, at[0], env); }
      ValidAt(Child(v, at[0]), at[1..], env);
    }
  }

  // ----- Tokens -----

  lemma {:induction false} KeyReadsBack(key: string)
    ensures Unescaped(EncodedKey(key)) == Some(key) && '/' !in EncodedKey(key)
  {
    if key != [] {
      var c, rest := EncodedChar(key[0]), EncodedKey(key[1..]);
      KeyReadsBack(key[1..]);
      assert (c + rest)[|c|..] == rest;
      assert key == [key[0]] + key[1..];
    }
  }

  lemma {:induction false} KeyIsWritten(token: string)
    requires Unescaped(token).Some? && '/' !in token
    ensures EncodedKey(Unescaped(token).value) == token
  {
    if token != [] {
      var n := if token[0] == '~' then 2 else 1;
      KeyIsWritten(token[n..]);
      var key := Unescaped(token).value;
      assert key[1..] == Unescaped(token[n..]).value;
      assert token == token[..n] + token[n..];
    }
  }

  lemma {:induction false} FieldAt(ms: seq<Member<Value>>, i: nat)
    requires DistinctKeys(ms) && i < |ms|
    ensures Field(ms, ms[i].key) == Some(ms[i].value)
    decreases |ms|
  {
    if i > 0 {
      assert forall x | 0 <= x < |ms[1..]| :: ms[1..][x] == ms[x + 1];
      FieldAt(ms[1..], i - 1);
    }
  }

  /** A field found is the first member with that key. */
  lemma {:induction false} FieldIsFirst(ms: seq<Member<Value>>, name: string) returns (i: nat)
    ensures Field(ms, name).None? ==> forall k | 0 <= k < |ms| :: ms[k].key != name
    ensures Field(ms, name).Some? ==> i < |ms| && ms[i] == Member(name, Field(ms, name).value)
                                      && forall k | 0 <= k < i :: ms[k].key != name
  {
    i := 0;
    if ms != [] && ms[0].key != name {
      var j := FieldIsFirst(ms[1..], name);
      i := j + 1;
      assert forall x | 1 <= x < |ms| :: ms[x] == ms[1..][x - 1];
    }
  }

  lemma TokenHasNoSlash(v: Value, i: nat)
    requires i < ChildCount(v)
    ensures '/' !in Token(v, i)
  {
    hide Decimal, EncodedKey, Numeral;
    if v.Array? {
      NumeralIsDecimal(Decimal(i), i);
      NumeralHasNoSlash(Decimal(i), i);
    } else {
      KeyReadsBack(v.entries[i].key);
    }
  }

  lemma NumeralHasNoSlash(s: string, n: nat)
    requires Numeral(s, n)
    ensures '/' !in s
  {
  }

  lemma TokenNames(v: Value, i: nat)
    requires i < ChildCount(v) && DistinctThroughout(v)
    ensures Named(v, Token(v, i)) == Some(Child(v, i))
  {
    hide Decimal, EncodedKey, DistinctThroughout, Field;
    if v.Array? {
      NumeralIsDecimal(Decimal(i), i);
    } else {
      KeyReadsBack(v.entries[i].key);
      DistinctHere(v);
      FieldAt(v.entries, i);
    }
  }

  lemma NamedHasToken(v: Value, token: string) returns (i: nat)
    requires Named(v, token).Some? && '/' !in token
    ensures i < ChildCount(v) && Token(v, i) == token && Child(v, i) == Named(v, token).value
  {
    hide Decimal, EncodedKey, Unescaped, PlaceValue;
    if v.Array? {
      i := PlaceValue(token);
      NumeralIsDecimal(token, i);
    } else {
      KeyIsWritten(token);
      i := FieldIsFirst(v.entries, Unescaped(token).value);
    }
  }

  // ----- Pointers name exactly the places -----

  function TokensAt(v: Value, at: seq<nat>): seq<string>
    decreases at
  {
    if at == [] || at[0] >= ChildCount(v) then [] else [Token(v, at[0])] + TokensAt(Child(v, at[0]), at[1..])
  }

  lemma {:induction false} PointerIsTokens(v: Value, at: seq<nat>)
    requires NodeAt(v, at).Some? && at != []
    ensures TokensAt(v, at) != [] && PointerAt(v, at) == "/" + Join(TokensAt(v, at), '/')
    ensures forall i | 0 <= i < |TokensAt(v, at)| :: '/' !in TokensAt(v, at)[i]
    decreases at
  {
    hide Token;
    var c, token := Child(v, at[0]), Token(v, at[0]);
    TokenHasNoSlash(v, at[0]);
    if at[1..] == [] {
      assert TokensAt(v, at) == [token] && PointerAt(v, at) == "/" + token;
    } else {
      PointerIsTokens(c, at[1..]);
      var rest := TokensAt(c, at[1..]);
      assert ([token] + rest)[1..] == rest;
      assert Join([token] + rest, '/') == token + "/" + Join(rest, '/');
      assert "/" + token + ("/" + Join(rest, '/')) == "/" + (token + "/" + Join(rest, '/'));
    }
  }

  lemma {:induction false} FollowPlace(v: Value, at: seq<nat>)
    requires NodeAt(v, at).Some? && DistinctThroughout(v)
    ensures Follow(v, TokensAt(v, at)) == NodeAt(v, at)
    decreases at
  {
    hide Token, Named, DistinctThroughout;
    if at != [] {
      TokenNames(v, at[0]);
      DistinctChild(v, at[0]);
      var rest := TokensAt(Child(v, at[0]), at[1..]);
      assert ([Token(v, at[0])] + rest)[1..] == rest;
      FollowPlace(Child(v, at[0]), at[1..]);
    }
  }

  lemma {:induction false} FollowHasPlace(v: Value, tokens: seq<string>) returns (at: seq<nat>)
    requires Follow(v, tokens).Some? && forall i | 0 <= i < |tokens| :: '/' !in tokens[i]
    ensures NodeAt(v, at) == Follow(v, tokens) && TokensAt(v, at) == tokens && |at| == |tokens|
    decreases |tokens|
  {
    hide Token, Named;
    at := [];
    if tokens != [] {
      var i := NamedHasToken(v, tokens[0]);
      var rest := FollowHasPlace(Child(v, i), tokens[1..]);
      at := [i] + rest;
      assert at[1..] == rest && tokens == [tokens[0]] + tokens[1..];
    }
  }

  lemma PlaceResolves(v: Value, at: seq<nat>)
    requires NodeAt(v, at).Some? && DistinctThroughout(v)
    ensures Resolve(v, PointerAt(v, at)) == NodeAt(v, at)
  {
    hide Follow, TokensAt, Parts, Join, DistinctThroughout;
    if at != [] {
      FollowPlace(v, at);
      PointerIsTokens(v, at);
      PartsOfJoin(TokensAt(v, at), '/');
      assert PointerAt(v, at)[1..] == Join(TokensAt(v, at), '/');
    }
  }

  lemma ResolvedHasPlace(v: Value, pointer: string) returns (at: seq<nat>)
    requires Resolve(v, pointer).Some?
    ensures NodeAt(v, at) == Resolve(v, pointer) && PointerAt(v, at) == pointer
  {
    hide Follow, Join, TokensAt;
    at := [];
    if pointer != "" {
      var tokens := Parts(pointer[1..], '/');
      PartsHaveNoSeparator(pointer[1..], '/');
      at := FollowHasPlace(v, tokens);
      PointerIsTokens(v, at);
      JoinParts(pointer[1..], '/');
      assert pointer == "/" + pointer[1..];
    }
  }

  lemma {:induction false} PlainKey(name: string)
    requires '~' !in name
    ensures Unescaped(name) == Some(name)
  {
    if name != [] {
      PlainKey(name[1..]);
      assert name == [name[0]] + name[1..];
    }
  }
}
