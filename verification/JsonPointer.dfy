/** JSON Pointer as RFC 6901 defines it: syntax (section 3) and evaluation (section 4). */
module JsonPointer {
  import opened Wrappers
  import opened Values
  import opened Strings

  /** `str(key).replace('~', '~0').replace('/', '~1')` */
  function Escaped(key: string): string {
    ReplaceChar(ReplaceChar(key, '~', "~0"), '/', "~1")
  }

  /** The order of section 4: first every "~1" becomes "/", then every "~0" becomes "~". */
  function Unescaped(token: string): string {
    ReplacePair(ReplacePair(token, '~', '1', "/"), '~', '0', "~")
  }

  /** The reference-token syntax of section 3: no "/", and "~" only before "0" or "1". */
  predicate IsToken(t: string) {
    t == "" ||
    (t[0] != '/' &&
     if t[0] == '~' then |t| > 1 && (t[1] == '0' || t[1] == '1') && IsToken(t[2..]) else IsToken(t[1..]))
  }

  function OnePass(key: string): string {
    if key == "" then ""
    else (if key[0] == '~' then "~0" else if key[0] == '/' then "~1" else [key[0]]) + OnePass(key[1..])
  }

  lemma {:induction false} ReplaceCharAppend(s: string, t: string, c: char, substitute: string)
    ensures ReplaceChar(s + t, c, substitute) == ReplaceChar(s, c, substitute) + ReplaceChar(t, c, substitute)
  {
    if s == "" {
      assert s + t == t;
    } else {
      ReplaceCharAppend(s[1..], t, c, substitute);
      assert (s + t)[1..] == s[1..] + t;
    }
  }

  /** The chained replacements are one pass over the key. */
  lemma {:induction false} EscapedIsOnePass(key: string)
    ensures Escaped(key) == OnePass(key)
  {
    if key != "" {
      EscapedIsOnePass(key[1..]);
      var head := if key[0] == '~' then "~0" else [key[0]];
      var tail := ReplaceChar(key[1..], '~', "~0");
      ReplaceCharAppend(head, tail, '/', "~1");
      if key[0] == '~' {
        assert "~0"[1..] == "0" && "0"[1..] == "";
        assert ReplaceChar("0", '/', "~1") == "0" + ReplaceChar("", '/', "~1");
        assert ReplaceChar("~0", '/', "~1") == "~" + ReplaceChar("0", '/', "~1");
      } else {
        assert [key[0]][1..] == "";
      }
    }
  }

  lemma {:induction false} EscapedIsToken(key: string)
    ensures IsToken(Escaped(key))
    ensures '/' !in Escaped(key)
  {
    EscapedIsOnePass(key);
    if key != "" {
      EscapedIsToken(key[1..]);
      EscapedIsOnePass(key[1..]);
      var head := if key[0] == '~' then "~0" else if key[0] == '/' then "~1" else [key[0]];
      assert OnePass(key)[|head|..] == OnePass(key[1..]);
    }
  }

  /** Section 4 undoes the escape, so distinct keys have distinct tokens. */
  lemma {:induction false} UnescapedEscaped(key: string)
    ensures Unescaped(Escaped(key)) == key
  {
    EscapedIsOnePass(key);
    FirstPass(key);
    SecondPass(key);
  }

  lemma {:induction false} FirstPass(key: string)
    ensures ReplacePair(OnePass(key), '~', '1', "/") == ReplaceChar(key, '~', "~0")
  {
    if key != "" {
      FirstPass(key[1..]);
      var s, rest := OnePass(key), OnePass(key[1..]);
      if key[0] == '~' {
        assert s[1..] == "0" + rest && (("0" + rest)[1..]) == rest;
        assert ReplacePair(s[1..], '~', '1', "/") == "0" + ReplacePair(rest, '~', '1', "/");
      } else if key[0] == '/' {
        assert s[2..] == rest;
      } else {
        assert s[1..] == rest;
      }
    }
  }

  lemma {:induction false} SecondPass(key: string)
    ensures ReplacePair(ReplaceChar(key, '~', "~0"), '~', '0', "~") == key
  {
    if key != "" {
      SecondPass(key[1..]);
      var s, rest := ReplaceChar(key, '~', "~0"), ReplaceChar(key[1..], '~', "~0");
      if key[0] == '~' {
        assert s[2..] == rest;
      } else {
        assert s[1..] == rest;
      }
    }
  }

  /** Every token is the escape of the key it decodes to. */
  lemma {:induction false} EscapedUnescaped(t: string)
    requires IsToken(t)
    ensures Escaped(Unescaped(t)) == t
  {
    var key := Preimage(t);
    EscapedIsOnePass(key);
    UnescapedEscaped(key);
  }

  lemma {:induction false} Preimage(t: string) returns (key: string)
    requires IsToken(t)
    ensures OnePass(key) == t
  {
    if t == "" {
      key := "";
    } else if t[0] == '~' {
      var rest := Preimage(t[2..]);
      key := [if t[1] == '0' then '~' else '/'] + rest;
      assert key[1..] == rest;
      assert t == t[..2] + t[2..] && t[..2] == [t[0], t[1]];
    } else {
      var rest := Preimage(t[1..]);
      key := [t[0]] + rest;
      assert key[1..] == rest;
    }
  }

  /** An array index of section 4: "0", or digits without a leading zero. */
  predicate IsArrayIndex(t: string) {
    t != "" && AllDigits(t) && (|t| > 1 ==> t[0] != '0')
  }

  /** Escaping and decoding are inverse between all keys and all tokens. */
  lemma {:induction false} EscapeInverse(key: string, token: string)
    ensures Escaped(key) == token <==> IsToken(token) && Unescaped(token) == key
  {
    UnescapedEscaped(key);
    EscapedIsToken(key);
    if IsToken(token) {
      EscapedUnescaped(token);
    }
  }

  /** Decimal texts and array indices are inverse between all numbers and all index tokens. */
  lemma {:induction false} DecimalInverse(i: nat, token: string)
    ensures Decimal(i) == token <==> IsArrayIndex(token) && FromDecimal(token) == i
  {
    DecimalForm(i);
    FromDecimalOfDecimal(i);
    if IsArrayIndex(token) {
      DecimalOfFromDecimal(token);
    }
  }

  /** Evaluation of a list of reference tokens against a decoded JSON value. */
  function Evaluate(v: Value, tokens: seq<string>): Option<Value>
    decreases tokens
  {
    if tokens == [] then Some(v)
    else if v.Map? && !v.frozen && IsToken(tokens[0]) && Get(v.entries, Unescaped(tokens[0])).Some? then
      Evaluate(Get(v.entries, Unescaped(tokens[0])).value, tokens[1..])
    else if (v.List? || v.Tuple?) && IsArrayIndex(tokens[0]) && FromDecimal(tokens[0]) < |v.items| then
      Evaluate(v.items[FromDecimal(tokens[0])], tokens[1..])
    else None
  }

  /** The pointer text of a list of tokens: each one preceded by "/". */
  function Pointer(tokens: seq<string>): string {
    if tokens == [] then "" else "/" + tokens[0] + Pointer(tokens[1..])
  }

  /** The reference tokens of a pointer text; only "" and texts that start with "/" are pointers. */
  function Tokens(pointer: string): Option<seq<string>> {
    if pointer == "" then Some([])
    else if pointer[0] != '/' then None
    else Some(Split(pointer[1..]))
  }

  function EvaluatePointer(v: Value, pointer: string): Option<Value> {
    match Tokens(pointer)
    case Some(tokens) => Evaluate(v, tokens)
    case None => None
  }

  lemma {:induction false} PointerIsJoin(tokens: seq<string>)
    requires tokens != []
    ensures Pointer(tokens) == "/" + Join(tokens)
  {
    if |tokens| > 1 {
      PointerIsJoin(tokens[1..]);
    }
  }

  /** Pointer texts and lists of tokens without "/" are in bijection. */
  lemma {:induction false} TokensOfPointer(tokens: seq<string>)
    requires forall t :: t in tokens ==> '/' !in t
    ensures Tokens(Pointer(tokens)) == Some(tokens)
  {
    if tokens != [] {
      PointerIsJoin(tokens);
      SplitOfJoin(tokens);
      assert Pointer(tokens)[1..] == Join(tokens);
    }
  }

  lemma {:induction false} PointerOfTokens(pointer: string)
    ensures Tokens(pointer).Some? ==> Pointer(Tokens(pointer).value) == pointer
  {
    if pointer != "" && pointer[0] == '/' {
      JoinOfSplit(pointer[1..]);
      PointerIsJoin(Split(pointer[1..]));
    }
  }

  // ---------------------------------------------------------------- positions

  /** What a pointer can reach at a position: only a `dict` is an object. */
  function Locate(v: Value, position: Path): Option<Value>
    decreases position
  {
    if position == [] then Some(v)
    else
      match position[0]
      case Field(name) =>
        if v.Map? && !v.frozen && Get(v.entries, name).Some? then Locate(Get(v.entries, name).value, position[1..])
        else None
      case Index(i) =>
        if (v.List? || v.Tuple?) && i < |v.items| then Locate(v.items[i], position[1..]) else None
  }

  function TokenOf(segment: Segment): string {
    match segment
    case Field(name) => Escaped(name)
    case Index(i) => Decimal(i)
  }

  function TokensAt(position: Path): (tokens: seq<string>)
    ensures |tokens| == |position|
  {
    if position == [] then [] else [TokenOf(position[0])] + TokensAt(position[1..])
  }

  /** The locator of a position. */
  function LocatorOf(position: Path): string {
    Pointer(TokensAt(position))
  }

  lemma {:induction false} TokensHaveNoSlash(position: Path)
    ensures forall t :: t in TokensAt(position) ==> '/' !in t
  {
    if position != [] {
      TokensHaveNoSlash(position[1..]);
      match position[0]
      case Field(name) => EscapedIsToken(name);
      case Index(i) => DecimalForm(i);
    }
  }

  lemma {:induction false} TokensLocate(v: Value, position: Path)
    ensures Locate(v, position).Some? ==> Evaluate(v, TokensAt(position)) == Locate(v, position)
    decreases position
  {
    if position != [] && Locate(v, position).Some? {
      match position[0]
      case Field(name) =>
        EscapeInverse(name, Escaped(name));
        TokensLocate(Get(v.entries, name).value, position[1..]);
      case Index(i) =>
        DecimalInverse(i, Decimal(i));
        TokensLocate(v.items[i], position[1..]);
    }
  }

  /** The value decides whether a token is a name or a number, so positions in one value have different tokens. */
  lemma {:induction false} TokensTellApart(v: Value, p: Path, q: Path)
    requires Locate(v, p).Some? && Locate(v, q).Some? && TokensAt(p) == TokensAt(q)
    ensures p == q
    decreases p
  {
    assert |p| == |q|;
    if p != [] {
      assert TokensAt(p)[0] == TokensAt(q)[0] && TokensAt(p)[1..] == TokensAt(q)[1..];
      match (p[0], q[0])
      case (Field(a), Field(b)) =>
        EscapeInverse(a, Escaped(a));
        EscapeInverse(b, Escaped(b));
        TokensTellApart(Get(v.entries, a).value, p[1..], q[1..]);
      case (Index(i), Index(j)) =>
        DecimalInverse(i, Decimal(i));
        DecimalInverse(j, Decimal(j));
        TokensTellApart(v.items[i], p[1..], q[1..]);
      case _ =>
    }
  }

  /** Evaluating the locator of a position of a value leads to that position, and no other position of the
      value has that locator. */
  lemma {:induction false} LocatorsLocate(v: Value, p: Path, q: Path)
    requires Locate(v, p).Some? && Locate(v, q).Some?
    ensures EvaluatePointer(v, LocatorOf(p)) == Locate(v, p)
    ensures LocatorOf(p) == LocatorOf(q) <==> p == q
  {
    TokensHaveNoSlash(p);
    TokensHaveNoSlash(q);
    TokensOfPointer(TokensAt(p));
    TokensOfPointer(TokensAt(q));
    TokensLocate(v, p);
    if LocatorOf(p) == LocatorOf(q) { TokensTellApart(v, p, q); }
  }

  /** Every pointer text that leads anywhere in a value is the locator of the position it leads to. */
  lemma {:induction false} LocatedPosition(v: Value, pointer: string) returns (position: Path)
    requires EvaluatePointer(v, pointer).Some?
    ensures Locate(v, position) == EvaluatePointer(v, pointer) && LocatorOf(position) == pointer
  {
    position := EvaluatedPosition(v, Tokens(pointer).value);
    PointerOfTokens(pointer);
  }

  lemma {:induction false} EvaluatedPosition(v: Value, tokens: seq<string>) returns (position: Path)
    requires Evaluate(v, tokens).Some?
    ensures Locate(v, position) == Evaluate(v, tokens) && TokensAt(position) == tokens
    decreases tokens
  {
    if tokens == [] {
      position := [];
    } else if v.Map? {
      var name := Unescaped(tokens[0]);
      EscapeInverse(name, tokens[0]);
      var rest := EvaluatedPosition(Get(v.entries, name).value, tokens[1..]);
      position := [Field(name)] + rest;
    } else {
      var i := FromDecimal(tokens[0]);
      DecimalInverse(i, tokens[0]);
      var rest := EvaluatedPosition(v.items[i], tokens[1..]);
      position := [Index(i)] + rest;
    }
  }
}
