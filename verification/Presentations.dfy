/** Compact serialization of whole presentations (crates/sdjwt/src/presentation.rs, sdjwt.rs). */
module Presentations {
  // Splitting on `~` and printing are inverses for all four shapes.

  import opened Prelude
  import opened Splitting

  /** A JWT and its disclosures, as text. */
  datatype SdJwt = SdJwt(jwt: string, disclosures: seq<string>)

  datatype Presentation = Presentation(root: SdJwt, links: seq<SdJwt>, kb: Option<string>)

  /** Which texts decode as a JWT and as a disclosure (base64url and JSON are foreign code). */
  datatype Codec = Codec(jws: string -> bool, disclosure: string -> bool)

  datatype ParseError = NoFinalTilde | ExpectedJwt | BindingNotLast | NeitherJwtNorDisclosure | BadJwt | BadDisclosure

  /** Three non-empty segments. */
  predicate LooksLikeJwt(s: string) {
    var parts := Split(s, '.');
    |parts| == 3 && forall i :: 0 <= i < 3 ==> parts[i] != ""
  }

  predicate IsPiece(s: string) {
    s != "" && !LooksLikeJwt(s) && '.' !in s
  }

  predicate GoodJwt(codec: Codec, s: string) {
    LooksLikeJwt(s) && codec.jws(s)
  }

  predicate GoodPiece(codec: Codec, s: string) {
    s != "" && '.' !in s && codec.disclosure(s)
  }

  predicate GoodElement(codec: Codec, e: SdJwt) {
    GoodJwt(codec, e.jwt) && forall i :: 0 <= i < |e.disclosures| ==> GoodPiece(codec, e.disclosures[i])
  }

  predicate GoodBinding(codec: Codec, kb: Option<string>) {
    kb.Some? ==> GoodJwt(codec, kb.value)
  }

  predicate NoTilde(e: SdJwt) {
    '~' !in e.jwt && forall i :: 0 <= i < |e.disclosures| ==> '~' !in e.disclosures[i]
  }

  function Elements(p: Presentation): seq<SdJwt> {
    [p.root] + p.links
  }

  /** Every part decodes, a JWT where a JWT belongs, and no text contains the separator. */
  predicate WellFormed(codec: Codec, p: Presentation) {
    && (forall i :: 0 <= i < |Elements(p)| ==> GoodElement(codec, Elements(p)[i]) && NoTilde(Elements(p)[i]))
    && GoodBinding(codec, p.kb)
    && (p.kb.Some? ==> '~' !in p.kb.value)
  }

  function Tail(kb: Option<string>): string {
    if kb.Some? then kb.value else ""
  }

  /** The components between `~`: an empty one between elements, the key binding or an empty one last. */
  function Components(es: seq<SdJwt>, tail: string): (c: seq<string>)
    requires es != []
    ensures |c| >= 2
  {
    var front := [es[0].jwt] + es[0].disclosures;
    if |es| == 1 then front + [tail] else front + [""] + Components(es[1..], tail)
  }

  /** The compact serialization. */
  function Text(p: Presentation): string {
    Join(Components(Elements(p), Tail(p.kb)), '~')
  }

  /** One element on its own: the input of the next element's `sd_hash`. */
  function ElementText(e: SdJwt): string {
    Join([e.jwt] + e.disclosures + [""], '~')
  }

  // ---- reading components back

  type Reading = Option<(seq<SdJwt>, Option<string>)>

  function Prepend(es: seq<SdJwt>, r: Reading): Reading {
    if r.Some? then Some((es + r.value.0, r.value.1)) else None
  }

  /** How many components at the front are disclosures. */
  function Span(c: seq<string>): (n: nat)
    ensures n <= |c|
    ensures forall i :: 0 <= i < n ==> IsPiece(c[i])
    ensures n < |c| ==> !IsPiece(c[n])
  {
    if c == [] || !IsPiece(c[0]) then 0 else 1 + Span(c[1..])
  }

  /** The element at `start`, where the next one starts, and the key binding if one ends it. */
  function Turn(codec: Codec, c: seq<string>, start: nat): Option<(SdJwt, int, Option<string>)>
    requires start < |c|
  {
    var i := start + 1 + Span(c[start + 1..]);
    var e := SdJwt(c[start], c[start + 1..i]);
    if i == |c| || !GoodElement(codec, e) then None
    else if c[i] == "" then Some((e, i + 1, None))
    else if GoodJwt(codec, c[i]) && i + 1 == |c| then Some((e, i, Some(c[i])))
    else None
  }

  function Read(codec: Codec, c: seq<string>): Reading
    requires c != []
    decreases |c|
  {
    match Turn(codec, c, 0)
    case None => None
    case Some((e, next, kb)) =>
      if kb.Some? || next == |c| then Some(([e], kb)) else Prepend([e], Read(codec, c[next..]))
  }

  /** A turn consumes exactly the components of its element and the separator after it. */
  lemma TurnSound(codec: Codec, c: seq<string>)
    requires c != [] && Turn(codec, c, 0).Some?
    ensures var (e, next, kb) := Turn(codec, c, 0).value;
            && GoodElement(codec, e) && GoodBinding(codec, kb) && 0 < next <= |c|
            && (kb.Some? ==> c == [e.jwt] + e.disclosures + [kb.value])
            && (kb.None? ==> c == [e.jwt] + e.disclosures + [""] + c[next..])
  {
  }

  lemma {:induction false} ReadSound(codec: Codec, c: seq<string>)
    requires c != [] && Read(codec, c).Some?
    ensures var (es, kb) := Read(codec, c).value;
            && es != [] && GoodBinding(codec, kb) && Components(es, Tail(kb)) == c
            && forall i :: 0 <= i < |es| ==> GoodElement(codec, es[i])
    decreases |c|
  {
    TurnSound(codec, c);
    var (e, next, kb) := Turn(codec, c, 0).value;
    if kb.None? && next < |c| {
      ReadSound(codec, c[next..]);
      var es := Read(codec, c[next..]).value.0;
      assert ([e] + es)[1..] == es;
    }
  }

  lemma EmptyIsNotJwt()
    ensures !LooksLikeJwt("")
  {
    SplitOne("", '.');
  }

  lemma PieceIsNotJwt(s: string)
    requires '.' !in s
    ensures !LooksLikeJwt(s)
  {
    SplitOne(s, '.');
  }

  lemma SpanIs(c: seq<string>, n: nat)
    requires n <= |c| && (forall i :: 0 <= i < n ==> IsPiece(c[i])) && (n < |c| ==> !IsPiece(c[n]))
    ensures Span(c) == n
  {
  }

  lemma PiecesOf(codec: Codec, e: SdJwt)
    requires GoodElement(codec, e)
    ensures forall i :: 0 <= i < |e.disclosures| ==> IsPiece(e.disclosures[i])
  {
    forall i | 0 <= i < |e.disclosures| ensures IsPiece(e.disclosures[i]) {
      assert GoodPiece(codec, e.disclosures[i]);
      PieceIsNotJwt(e.disclosures[i]);
    }
  }

  lemma TurnComplete(codec: Codec, e: SdJwt, sep: string, rest: seq<string>)
    requires GoodElement(codec, e)
    requires sep == "" || (GoodJwt(codec, sep) && rest == [])
    ensures var c := [e.jwt] + e.disclosures + [sep] + rest;
            var n := |e.disclosures| + 1;
            && Turn(codec, c, 0) == Some((e, if sep == "" then n + 1 else n, if sep == "" then None else Some(sep)))
            && c[n + 1..] == rest
  {
    var c := [e.jwt] + e.disclosures + [sep] + rest;
    var n := |e.disclosures|;
    PiecesOf(codec, e);
    EmptyIsNotJwt();
    assert forall i :: 0 <= i < n ==> c[1..][i] == e.disclosures[i];
    SpanIs(c[1..], n);
    assert c[1..n + 1] == e.disclosures;
  }

  lemma {:induction false} ReadComplete(codec: Codec, es: seq<SdJwt>, kb: Option<string>)
    requires es != [] && GoodBinding(codec, kb)
    requires forall i :: 0 <= i < |es| ==> GoodElement(codec, es[i])
    ensures Read(codec, Components(es, Tail(kb))) == Some((es, kb))
  {
    EmptyIsNotJwt();
    assert es == [es[0]] + es[1..];
    if |es| > 1 {
      TurnComplete(codec, es[0], "", Components(es[1..], Tail(kb)));
      ReadComplete(codec, es[1..], kb);
    } else {
      TurnComplete(codec, es[0], Tail(kb), []);
      assert Components(es, Tail(kb)) == [es[0].jwt] + es[0].disclosures + [Tail(kb)] + [];
      assert es == [es[0]];
    }
  }

  // ---- parsing

  predicate Clean(c: seq<string>) {
    forall i :: 0 <= i < |c| ==> '~' !in c[i]
  }

  lemma CleanAppend(a: seq<string>, b: seq<string>)
    ensures Clean(a + b) <==> Clean(a) && Clean(b)
  {
    assert forall i :: 0 <= i < |a| ==> a[i] == (a + b)[i];
    assert forall i :: 0 <= i < |b| ==> b[i] == (a + b)[|a| + i];
  }

  lemma CleanOne(s: string)
    ensures Clean([s]) <==> '~' !in s
  {
    assert [s][0] == s;
  }

  lemma {:induction false} ComponentsClean(es: seq<SdJwt>, tail: string)
    requires es != []
    ensures Clean(Components(es, tail)) <==> '~' !in tail && forall i :: 0 <= i < |es| ==> NoTilde(es[i])
  {
    var e := es[0];
    CleanOne(e.jwt);
    CleanAppend([e.jwt], e.disclosures);
    assert Clean([e.jwt] + e.disclosures) <==> NoTilde(e);
    if |es| == 1 {
      CleanAppend([e.jwt] + e.disclosures, [tail]);
      CleanOne(tail);
    } else {
      CleanOne("");
      CleanAppend([e.jwt] + e.disclosures, [""]);
      CleanAppend([e.jwt] + e.disclosures + [""], Components(es[1..], tail));
      ComponentsClean(es[1..], tail);
      assert forall i :: 1 <= i < |es| ==> es[i] == es[1..][i - 1];
    }
  }

  /** Two well-formed presentations with the same text are the same presentation. */
  lemma Unambiguous(codec: Codec, p: Presentation, q: Presentation)
    requires WellFormed(codec, p) && WellFormed(codec, q) && Text(p) == Text(q)
    ensures p == q
  {
    SplitText(codec, p);
    SplitText(codec, q);
    ReadComplete(codec, Elements(p), p.kb);
    ReadComplete(codec, Elements(q), q.kb);
    assert p.root == Elements(p)[0] && p.links == Elements(p)[1..];
    assert q.root == Elements(q)[0] && q.links == Elements(q)[1..];
  }

  lemma SplitText(codec: Codec, p: Presentation)
    requires WellFormed(codec, p)
    ensures Split(Text(p), '~') == Components(Elements(p), Tail(p.kb))
  {
    ComponentsClean(Elements(p), Tail(p.kb));
    SplitJoin(Components(Elements(p), Tail(p.kb)), '~');
  }

  /** Reading the components of `input` decides whether it is the text of a well-formed presentation. */
  lemma ReadDecides(codec: Codec, input: string)
    ensures var r := Read(codec, Split(input, '~'));
            && (r.Some? ==>
                  && r.value.0 != []
                  && var p := Presentation(r.value.0[0], r.value.0[1..], r.value.1);
                     WellFormed(codec, p) && Text(p) == input)
            && (r.None? ==> forall p :: WellFormed(codec, p) ==> Text(p) != input)
  {
    var c := Split(input, '~');
    var r := Read(codec, c);
    JoinSplit(input, '~');
    if r.Some? {
      ReadSound(codec, c);
      var (es, kb) := r.value;
      var p := Presentation(es[0], es[1..], kb);
      assert Elements(p) == es;
      ComponentsClean(es, Tail(kb));
    } else {
      forall p | WellFormed(codec, p) ensures Text(p) != input {
        SplitText(codec, p);
        ReadComplete(codec, Elements(p), p.kb);
      }
    }
  }

  /** `SdJwt::from_parts`. */
  method ParseElement(codec: Codec, jwt: string, disclosures: seq<string>) returns (r: Result<SdJwt, ParseError>)
    requires LooksLikeJwt(jwt) && forall i :: 0 <= i < |disclosures| ==> IsPiece(disclosures[i])
    ensures r.Ok? <==> GoodElement(codec, SdJwt(jwt, disclosures))
    ensures r.Ok? ==> r.value == SdJwt(jwt, disclosures)
  {
    if !codec.jws(jwt) { return Err(BadJwt); }
    for i := 0 to |disclosures|
      invariant forall k :: 0 <= k < i ==> GoodPiece(codec, disclosures[k])
    {
      if !codec.disclosure(disclosures[i]) { return Err(BadDisclosure); }
    }
    r := Ok(SdJwt(jwt, disclosures));
  }

  /** The inner loop: disclosures from `start` on, and the key binding when they end in a JWT. */
  method TakeDisclosures(codec: Codec, c: seq<string>, start: nat)
    returns (r: Result<(int, Option<string>), ParseError>)
    requires start <= |c|
    ensures var i := start + Span(c[start..]);
            var bound := i < |c| && c[i] != "" && GoodJwt(codec, c[i]) && i + 1 == |c|;
            && (r.Ok? ==> r.value == (i, if bound then Some(c[i]) else None) && (i == |c| || c[i] == "" || bound))
            && (r.Err? ==> i < |c| && c[i] != "" && !bound)
  {
    var i := start;
    while i < |c| && c[i] != ""
      invariant start <= i <= |c|
      invariant forall k :: 0 <= k < i - start ==> IsPiece(c[start..][k])
      invariant i < |c| ==> c[start..][i - start] == c[i]
    {
      if LooksLikeJwt(c[i]) {
        SpanIs(c[start..], i - start);
        if i != |c| - 1 { return Err(BindingNotLast); }
        if !codec.jws(c[i]) { return Err(BadJwt); }
        return Ok((i, Some(c[i])));
      }
      if '.' in c[i] {
        SpanIs(c[start..], i - start);
        return Err(NeitherJwtNorDisclosure);
      }
      i := i + 1;
    }
    SpanIs(c[start..], i - start);
    r := Ok((i, None));
  }

  lemma TurnShift(codec: Codec, c: seq<string>, start: nat)
    requires start < |c|
    ensures var t, u := Turn(codec, c, start), Turn(codec, c[start..], 0);
            && (t.Some? <==> u.Some?)
            && (t.Some? ==> start < t.value.1 <= |c| && t.value == (u.value.0, start + u.value.1, u.value.2))
  {
    var d := c[start..];
    var i := start + 1 + Span(c[start + 1..]);
    assert d[1..] == c[start + 1..];
    assert d[1..i - start] == c[start + 1..i];
    if i < |c| { assert d[i - start] == c[i]; }
  }

  lemma ReadTurn(codec: Codec, c: seq<string>, start: nat)
    requires start < |c|
    ensures var t := Turn(codec, c, start);
            && (t.Some? ==> start < t.value.1 <= |c|)
            && Read(codec, c[start..])
               == if t.None? then None
                  else if t.value.2.Some? || t.value.1 == |c| then Some(([t.value.0], t.value.2))
                  else Prepend([t.value.0], Read(codec, c[t.value.1..]))
  {
    TurnShift(codec, c, start);
    var t := Turn(codec, c, start);
    if t.Some? { assert c[start..][t.value.1 - start..] == c[t.value.1..]; }
  }

  lemma SpanPieces(c: seq<string>, from: nat, to: nat)
    requires from <= |c| && to == from + Span(c[from..])
    ensures to <= |c| && forall k :: 0 <= k < to - from ==> IsPiece(c[from..to][k])
  {
    assert forall k :: 0 <= k < to - from ==> c[from..to][k] == c[from..][k];
  }

  /** One turn of the loop of `Presentation::parse`. */
  method ParseTurn(codec: Codec, c: seq<string>, start: nat)
    returns (r: Result<(SdJwt, int, Option<string>), ParseError>)
    requires start < |c|
    ensures r.Err? ==> Turn(codec, c, start).None?
    ensures r.Ok? ==> Turn(codec, c, start) == Some(r.value)
  {
    if !LooksLikeJwt(c[start]) { return Err(ExpectedJwt); }
    var taken := TakeDisclosures(codec, c, start + 1);
    if taken.Err? { return Err(taken.error); }
    var (i, kb) := taken.value;
    SpanPieces(c, start + 1, i);
    var e := ParseElement(codec, c[start], c[start + 1..i]);
    if e.Err? { return Err(e.error); }
    if kb.Some? { return Ok((e.value, i, kb)); }
    if i >= |c| { return Err(NoFinalTilde); }
    r := Ok((e.value, i + 1, None));
  }

  /** The loop of `Presentation::parse`. */
  method ParseComponents(codec: Codec, c: seq<string>) returns (r: Result<(seq<SdJwt>, Option<string>), ParseError>)
    requires |c| >= 2
    ensures if r.Ok? then Read(codec, c) == Some(r.value) else Read(codec, c).None?
  {
    var elements: seq<SdJwt> := [];
    var i := 0;
    assert c[0..] == c;
    PrependNothing(Read(codec, c));
    while true
      invariant 0 <= i < |c|
      invariant Read(codec, c) == Prepend(elements, Read(codec, c[i..]))
      decreases |c| - i
    {
      ReadTurn(codec, c, i);
      var turn := ParseTurn(codec, c, i);
      if turn.Err? { return Err(turn.error); }
      var (e, next, kb) := turn.value;
      if kb.Some? || next == |c| { return Ok((elements + [e], kb)); }
      PrependTwice(elements, [e], Read(codec, c[next..]));
      elements, i := elements + [e], next;
    }
  }

  lemma PrependNothing(r: Reading)
    ensures Prepend([], r) == r
  {
    if r.Some? { assert [] + r.value.0 == r.value.0; }
  }

  lemma PrependTwice(a: seq<SdJwt>, b: seq<SdJwt>, r: Reading)
    ensures Prepend(a, Prepend(b, r)) == Prepend(a + b, r)
  {
    if r.Some? { assert a + (b + r.value.0) == (a + b) + r.value.0; }
  }

  /**
   `Presentation::parse`: only texts of well-formed presentations, each as the one presentation it
   is the text of.
   */
  method Parse(codec: Codec, input: string) returns (r: Result<Presentation, ParseError>)
    ensures r.Ok? ==> WellFormed(codec, r.value) && Text(r.value) == input
    ensures forall p :: WellFormed(codec, p) && Text(p) == input ==> r == Ok(p)
  {
    var c := Split(input, '~');
    ReadDecides(codec, input);
    if |c| < 2 { return Err(NoFinalTilde); }
    var parsed := ParseComponents(codec, c);
    if parsed.Err? { return Err(parsed.error); }
    var (elements, kb) := parsed.value;
    r := Ok(Presentation(elements[0], elements[1..], kb));
    forall p | WellFormed(codec, p) && Text(p) == input ensures r == Ok(p) { Unambiguous(codec, p, r.value); }
  }

  // ---- printing

  /** `SdJwt::serialize`. */
  method SerializeElement(e: SdJwt) returns (out: string)
    ensures out == ElementText(e)
  {
    out := e.jwt + "~";
    for k := 0 to |e.disclosures|
      invariant out == Join([e.jwt] + e.disclosures[..k], '~') + "~"
    {
      var d := e.disclosures[k];
      JoinAppend([e.jwt] + e.disclosures[..k], [d], '~');
      assert [e.jwt] + e.disclosures[..k + 1] == [e.jwt] + e.disclosures[..k] + [d];
      out := out + d + "~";
    }
    assert e.disclosures[..|e.disclosures|] == e.disclosures;
    JoinAppend([e.jwt] + e.disclosures, [""], '~');
  }

  lemma {:induction false} ComponentsSnoc(es: seq<SdJwt>, e: SdJwt, tail: string)
    requires es != []
    ensures Components(es + [e], tail) == Components(es, "") + [e.jwt] + e.disclosures + [tail]
  {
    if |es| > 1 {
      ComponentsSnoc(es[1..], e, tail);
      assert (es + [e])[1..] == es[1..] + [e];
    } else {
      assert (es + [e])[1..] == [e];
    }
  }

  /** `Presentation::serialize`. */
  method Serialize(p: Presentation) returns (out: string)
    ensures out == Text(p)
  {
    out := SerializeElement(p.root);
    for k := 0 to |p.links|
      invariant out == Join(Components([p.root] + p.links[..k], ""), '~')
    {
      var e := p.links[k];
      var t := SerializeElement(e);
      ComponentsSnoc([p.root] + p.links[..k], e, "");
      assert [p.root] + p.links[..k + 1] == [p.root] + p.links[..k] + [e];
      assert Components([p.root] + p.links[..k], "") + [e.jwt] + e.disclosures + [""] ==
               Components([p.root] + p.links[..k], "") + ([e.jwt] + e.disclosures + [""]);
      JoinAppend(Components([p.root] + p.links[..k], ""), [e.jwt] + e.disclosures + [""], '~');
      out := out + "~" + t;
    }
    assert p.links[..|p.links|] == p.links;
    if p.kb.Some? {
      TailText(Elements(p), p.kb.value);
      out := out + p.kb.value;
    }
  }

  lemma {:induction false} TailText(es: seq<SdJwt>, tail: string)
    requires es != []
    ensures Join(Components(es, tail), '~') == Join(Components(es, ""), '~') + tail
  {
    var front := [es[0].jwt] + es[0].disclosures;
    if |es| == 1 {
      JoinAppend(front, [tail], '~');
      JoinAppend(front, [""], '~');
    } else {
      TailText(es[1..], tail);
      var head := front + [""];
      JoinAppend(head, Components(es[1..], tail), '~');
      JoinAppend(head, Components(es[1..], ""), '~');
    }
  }
}
