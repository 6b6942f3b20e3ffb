/** JSON Pointers, section 4 of RFC 6901 (crates/sdjwt/src/pointer.rs). */
module Pointer {
  import opened Prelude
  import opened Json
  import opened Processing
  import opened Splitting

  predicate ValidEscapes(token: string) {
    forall i :: 0 <= i < |token| && token[i] == '~' ==>
          i + 1 < |token| && (token[i + 1] == '0' || token[i + 1] == '1')
  }

  /** `s.replace("~<code>", "<c>")`. */
  function Replace(s: string, code: char, c: char): string {
    if s == [] then []
    else if |s| >= 2 && s[0] == '~' && s[1] == code then [c] + Replace(s[2..], code, c)
    else [s[0]] + Replace(s[1..], code, c)
  }

  function Unescape(token: string): string {
    Replace(Replace(token, '1', '/'), '0', '~')
  }

  predicate Digit(c: char) {
    '0' <= c <= '9'
  }

  function Value(digits: string): nat
    requires forall c :: c in digits ==> Digit(c)
  {
    if digits == [] then 0
    else
      assert Digit(digits[|digits| - 1]);
      Value(digits[..|digits| - 1]) * 10 + (digits[|digits| - 1] as int - '0' as int)
  }

  /** `str::parse::<usize>`, which also admits one leading `+`. */
  function ParseIndex(token: string): Option<nat> {
    var digits := if token != [] && token[0] == '+' then token[1..] else token;
    if digits == [] || exists c :: c in digits && !Digit(c) then None else Some(Value(digits))
  }

  function Step(v: Json, token: string): Option<Segment> {
    match v
    case Obj(fields) => if token in fields then Some(Key(token)) else None
    case Arr(items) =>
      if token == [] || (|token| > 1 && token[0] == '0') then None
      else
        var i := ParseIndex(token);
        if i.Some? && i.value < |items| then Some(Index(i.value)) else None
    case _ => None
  }

  function Follow(v: Json, s: Segment): (r: Json)
    requires Lookup(v, [s]).Some?
  {
    match s
    case Key(name) => v.fields[name]
    case Index(i) => v.items[i]
  }

  function ResolveTokens(v: Json, tokens: seq<string>): (r: Result<Path, ErrorKind>)
    ensures r.Ok? ==> |r.value| == |tokens| && Lookup(v, r.value).Some?
    decreases |tokens|
  {
    if tokens == [] then Ok([])
    else if !ValidEscapes(tokens[0]) then Err(InvalidPointer)
    else
      match Step(v, Unescape(tokens[0]))
      case None => Err(InvalidPointer)
      case Some(s) =>
        var rest :- ResolveTokens(Follow(v, s), tokens[1..]);
        assert ([s] + rest)[1..] == rest;
        Ok([s] + rest)
  }

  /** A pointer resolves to a non-empty path that exists in the document. */
  function Resolve(doc: Json, pointer: string): (r: Result<Path, ErrorKind>)
    ensures r.Ok? ==> r.value != [] && Lookup(doc, r.value).Some?
  {
    if pointer == [] || pointer[0] != '/' then Err(InvalidPointer)
    else ResolveTokens(doc, Split(pointer[1..], '/'))
  }

  function Onto(path: Path, r: Result<Path, ErrorKind>): Result<Path, ErrorKind> {
    if r.Ok? then Ok(path + r.value) else r
  }

  /** `resolve` as the code runs it: down the document token by token, collecting the path. */
  method ResolveInSteps(doc: Json, pointer: string) returns (r: Result<Path, ErrorKind>)
    ensures r == Resolve(doc, pointer)
  {
    if pointer == [] || pointer[0] != '/' { return Err(InvalidPointer); }
    var tokens := Split(pointer[1..], '/');
    var path: Path, current := [], doc;
    assert tokens[0..] == tokens;
    OntoNothing(ResolveTokens(doc, tokens));
    for k := 0 to |tokens|
      invariant ResolveTokens(doc, tokens) == Onto(path, ResolveTokens(current, tokens[k..]))
    {
      TokensTurn(current, tokens, k);
      if !ValidEscapes(tokens[k]) { return Err(InvalidPointer); }
      var s := Step(current, Unescape(tokens[k]));
      if s.None? { return Err(InvalidPointer); }
      OntoTwice(path, s.value, ResolveTokens(Follow(current, s.value), tokens[k + 1..]));
      path, current := path + [s.value], Follow(current, s.value);
    }
    assert path + [] == path;
    r := Ok(path);
  }

  lemma TokensTurn(v: Json, tokens: seq<string>, k: nat)
    requires k < |tokens|
    ensures var s := Step(v, Unescape(tokens[k]));
            && (s.Some? ==> Lookup(v, [s.value]).Some?)
            && ResolveTokens(v, tokens[k..])
               == if !ValidEscapes(tokens[k]) || s.None? then Err(InvalidPointer)
                  else Onto([s.value], ResolveTokens(Follow(v, s.value), tokens[k + 1..]))
  {
    assert tokens[k..][0] == tokens[k] && tokens[k..][1..] == tokens[k + 1..];
  }

  lemma OntoNothing(r: Result<Path, ErrorKind>)
    ensures Onto([], r) == r
  {
    if r.Ok? { assert [] + r.value == r.value; }
  }

  lemma OntoTwice(path: Path, s: Segment, r: Result<Path, ErrorKind>)
    ensures Onto(path, Onto([s], r)) == Onto(path + [s], r)
  {
    if r.Ok? { assert path + ([s] + r.value) == (path + [s]) + r.value; }
  }

  function ResolveAll(doc: Json, pointers: seq<string>): (r: Result<seq<Path>, ErrorKind>)
    ensures r.Ok? <==> forall i :: 0 <= i < |pointers| ==> Resolve(doc, pointers[i]).Ok?
    ensures r.Ok? ==> |r.value| == |pointers| && forall i :: 0 <= i < |pointers| ==>
              Resolve(doc, pointers[i]) == Ok(r.value[i])
  {
    if pointers == [] then Ok([])
    else
      var head := Resolve(doc, pointers[0]);
      var tail := ResolveAll(doc, pointers[1..]);
      assert forall i :: 0 < i < |pointers| ==> pointers[i] == pointers[1..][i - 1];
      if head.Err? then Err(InvalidPointer) else if tail.Err? then tail else Ok([head.value] + tail.value)
  }

  // ---- every place in a document has a pointer

  function Escape(s: string): string {
    if s == [] then []
    else (if s[0] == '~' then "~0" else if s[0] == '/' then "~1" else [s[0]]) + Escape(s[1..])
  }

  function Decimal(n: nat): (s: string)
    ensures s != [] && forall c :: c in s ==> Digit(c)
  {
    var d := [('0' as int + n % 10) as char];
    if n < 10 then d else Decimal(n / 10) + d
  }

  function Token(s: Segment): string {
    match s
    case Key(name) => Escape(name)
    case Index(i) => Decimal(i)
  }

  function Tokens(path: Path): (tokens: seq<string>)
    ensures |tokens| == |path|
  {
    if path == [] then [] else [Token(path[0])] + Tokens(path[1..])
  }

  function Render(path: Path): string {
    if path == [] then [] else "/" + Join(Tokens(path), '/')
  }

  /** The text of `s` after the first replacement: `/` is back, `~` still escaped. */
  function HalfEscape(s: string): string {
    if s == [] then [] else (if s[0] == '~' then "~0" else [s[0]]) + HalfEscape(s[1..])
  }

  lemma {:induction false} UnescapeSlashes(s: string)
    ensures Replace(Escape(s), '1', '/') == HalfEscape(s)
  {
    if s != [] {
      UnescapeSlashes(s[1..]);
      var e, r := Escape(s), Escape(s[1..]);
      if s[0] == '~' {
        assert e[1..] == "0" + r && ("0" + r)[1..] == r;
      } else if s[0] == '/' {
        assert e[2..] == r;
      } else {
        assert e[1..] == r;
      }
    }
  }

  lemma {:induction false} UnescapeTildes(s: string)
    ensures Replace(HalfEscape(s), '0', '~') == s
  {
    if s != [] {
      UnescapeTildes(s[1..]);
      var e, r := HalfEscape(s), HalfEscape(s[1..]);
      if s[0] == '~' { assert e[2..] == r; } else { assert e[1..] == r; }
    }
  }

  lemma {:induction false} EscapeValid(s: string)
    ensures ValidEscapes(Escape(s)) && '/' !in Escape(s)
  {
    if s != [] {
      EscapeValid(s[1..]);
      var h := if s[0] == '~' then "~0" else if s[0] == '/' then "~1" else [s[0]];
      forall i | 0 <= i < |Escape(s)| && Escape(s)[i] == '~'
        ensures i + 1 < |Escape(s)| && (Escape(s)[i + 1] == '0' || Escape(s)[i + 1] == '1')
      {
        if i >= |h| { assert Escape(s[1..])[i - |h|] == '~'; }
      }
    }
  }

  lemma {:induction false} DigitsStay(s: string, code: char, c: char)
    requires '~' !in s
    ensures Replace(s, code, c) == s
  {
    if s != [] { DigitsStay(s[1..], code, c); }
  }

  lemma {:induction false} DecimalValue(n: nat)
    ensures Value(Decimal(n)) == n
    ensures |Decimal(n)| > 1 ==> Decimal(n)[0] != '0'
  {
    if n >= 10 {
      DecimalValue(n / 10);
      assert Decimal(n)[..|Decimal(n)| - 1] == Decimal(n / 10);
      DecimalLead(n / 10);
    } else {
      assert Decimal(n)[..0] == [];
    }
  }

  lemma {:induction false} DecimalLead(n: nat)
    requires n > 0
    ensures Decimal(n)[0] != '0'
  {
    if n >= 10 { DecimalLead(n / 10); }
  }

  /** Digits that name `i`: its decimal form, or any digits of that value after a plus sign. */
  predicate NamesElement(token: string, i: nat) {
    || token == Decimal(i)
    || (|token| > 1 && token[0] == '+' && (forall c :: c in token[1..] ==> Digit(c)) && Value(token[1..]) == i)
  }

  /** Digits without a leading zero are the decimal form of their value. */
  lemma {:induction false} ValueDecimal(digits: string)
    requires digits != [] && (forall c :: c in digits ==> Digit(c)) && (|digits| > 1 ==> digits[0] != '0')
    ensures Decimal(Value(digits)) == digits
  {
    var n := |digits| - 1;
    var last := digits[n];
    assert Digit(last) && digits == digits[..n] + [last];
    if n > 0 {
      var front := digits[..n];
      assert forall c :: c in front ==> c in digits;
      ValueDecimal(front);
      ValuePositive(front);
    } else {
      assert digits[..0] == [];
    }
  }

  lemma {:induction false} ValuePositive(digits: string)
    requires digits != [] && (forall c :: c in digits ==> Digit(c)) && digits[0] != '0'
    ensures Value(digits) > 0
  {
    var n := |digits| - 1;
    assert Digit(digits[n]);
    if n > 0 {
      assert forall c :: c in digits[..n] ==> c in digits;
      ValuePositive(digits[..n]);
    } else {
      assert digits[..0] == [];
    }
  }

  /** Exactly which tokens name element `i` of an array. */
  lemma StepExact(items: seq<Json>, token: string, i: nat)
    ensures Step(Arr(items), token) == Some(Index(i)) <==> i < |items| && NamesElement(token, i)
  {
    if token == Decimal(i) {
      DecimalValue(i);
      assert Digit(token[0]);
    }
    if Step(Arr(items), token) == Some(Index(i)) && token[0] != '+' { ValueDecimal(token); }
  }

  /** Leading zeros are refused only in front: `+007` names element 7. */
  lemma PlusAndZeros(items: seq<Json>)
    requires |items| > 7
    ensures Step(Arr(items), "+007") == Some(Index(7)) && Step(Arr(items), "007") == None
  {
    var d := "007";
    assert "+007"[1..] == d && d[..2] == "00" && "00"[..1] == "0" && "0"[..0] == "";
    assert Value("") == 0;
    assert Value("0") == 0;
    assert Value("00") == 0;
    assert Value(d) == 7;
    StepExact(items, "+007", 7);
  }

  lemma TokenSteps(v: Json, s: Segment)
    requires Lookup(v, [s]).Some?
    ensures ValidEscapes(Token(s)) && '/' !in Token(s) && Step(v, Unescape(Token(s))) == Some(s)
  {
    match s
    case Key(name) =>
      EscapeValid(name);
      UnescapeSlashes(name);
      UnescapeTildes(name);
    case Index(i) =>
      var d := Decimal(i);
      assert '~' !in d && '/' !in d && '+' !in d;
      DigitsStay(d, '1', '/');
      DigitsStay(d, '0', '~');
      DecimalValue(i);
  }

  /** Every token is a legal pointer token. */
  lemma {:induction false} TokensPlain(v: Json, path: Path)
    requires Lookup(v, path).Some?
    ensures forall i :: 0 <= i < |Tokens(path)| ==> '/' !in Tokens(path)[i]
    decreases |path|
  {
    if path != [] {
      assert Lookup(v, [path[0]]).Some?;
      TokenSteps(v, path[0]);
      TokensPlain(Follow(v, path[0]), path[1..]);
    }
  }

  lemma RenderSplits(v: Json, path: Path)
    requires path != [] && Lookup(v, path).Some?
    ensures Render(path) != [] && Render(path)[0] == '/' && Split(Render(path)[1..], '/') == Tokens(path)
  {
    TokensPlain(v, path);
    SplitJoin(Tokens(path), '/');
    assert Render(path)[1..] == Join(Tokens(path), '/');
  }

  lemma {:induction false} TokensResolve(v: Json, path: Path)
    requires Lookup(v, path).Some?
    ensures ResolveTokens(v, Tokens(path)) == Ok(path)
    decreases |path|
  {
    if path != [] {
      assert Lookup(v, [path[0]]).Some?;
      TokenSteps(v, path[0]);
      TokensResolve(Follow(v, path[0]), path[1..]);
      assert Tokens(path)[1..] == Tokens(path[1..]);
      assert path == [path[0]] + path[1..];
    }
  }

  /** Each place other than the whole document is named by a pointer, and the pointer resolves back to it. */
  lemma ResolveRender(doc: Json, path: Path)
    requires path != [] && Lookup(doc, path).Some?
    ensures Resolve(doc, Render(path)) == Ok(path)
  {
    RenderSplits(doc, path);
    TokensResolve(doc, path);
  }
}
