/** The hash chain commits transitively: an element fixes everything before it (crates/sdjwt/src/verify.rs). */
module HashChain {
  import opened Prelude
  import opened Json
  import opened Splitting
  import opened Presentations
  import opened Verification

  /** Hashes do not collide, not even across algorithms. */
  ghost predicate Injective(w: World) {
    forall a, b, x, y :: w.digest(a, x) == w.digest(b, y) ==> a == b && x == y
  }

  /** No allowed root type is a link type. */
  ghost predicate RootApart(opts: Options) {
    forall i :: 0 <= i < |opts.rootTyp| ==>
      && Normalize(opts.rootTyp[i]) != Normalize(KB_SD_JWT)
      && Normalize(opts.rootTyp[i]) != Normalize(KB_SD_JWT_KB)
      && Normalize(opts.rootTyp[i]) != Normalize(KB_SD_JWT_KB_DRAFT_00)
  }

  predicate BoundByText(w: World, e: SdJwt) {
    "sd_hash" in w.decode(e.jwt).payload
  }

  lemma ElementTextInjective(a: SdJwt, b: SdJwt)
    requires NoTilde(a) && NoTilde(b) && ElementText(a) == ElementText(b)
    ensures a == b
  {
    var x, y := [a.jwt] + a.disclosures + [""], [b.jwt] + b.disclosures + [""];
    SplitJoin(x, '~');
    SplitJoin(y, '~');
    assert x[0] == y[0] && x[1..|x| - 1] == y[1..|y| - 1];
    assert x[1..|x| - 1] == a.disclosures && y[1..|y| - 1] == b.disclosures;
  }

  // ---- one binding

  /** What the builder of a link writes about the element before it. */
  function BindingHash(w: World, byText: bool, prev: SdJwt, alg: SdAlg): string {
    w.digest(alg, if byText then ElementText(prev) else prev.jwt)
  }

  /**
   A link bound by `sd_hash` fits exactly the element and disclosures it was made for; one bound by
   `issuer_jwt_hash`, the JWT alone.
   */
  lemma BindingDetects(w: World, payload: map<string, Json>, byText: bool, prev: SdJwt, other: SdJwt, alg: SdAlg)
    requires Injective(w) && NoTilde(prev) && NoTilde(other)
    requires ("sd_hash" in payload <==> byText) && ("issuer_jwt_hash" in payload <==> !byText)
    requires payload[if byText then "sd_hash" else "issuer_jwt_hash"] == Str(BindingHash(w, byText, prev, alg))
    ensures CheckHashBinding(w, payload, other, alg).Ok? <==> if byText then other == prev else other.jwt == prev.jwt
  {
    if ElementText(prev) == ElementText(other) { ElementTextInjective(prev, other); }
  }

  /** Two elements that fit one binding agree on the JWT, and on everything when bound by text. */
  lemma BindingFixes(w: World, payload: map<string, Json>, a: SdJwt, x: SdAlg, b: SdJwt, y: SdAlg)
    requires Injective(w) && NoTilde(a) && NoTilde(b)
    requires CheckHashBinding(w, payload, a, x).Ok? && CheckHashBinding(w, payload, b, y).Ok?
    ensures a.jwt == b.jwt && ("sd_hash" in payload ==> a == b)
  {
    if "sd_hash" in payload { ElementTextInjective(a, b); }
  }

  // ---- what verification established

  predicate LinkTyp(header: map<string, Json>) {
    TypIn(header, [KB_SD_JWT, KB_SD_JWT_KB, KB_SD_JWT_KB_DRAFT_00])
  }

  lemma LinkTypsAreLinkTyps(header: map<string, Json>, opts: Options, isLast: bool)
    requires TypIn(header, LinkTyps(opts, isLast))
    ensures LinkTyp(header)
  {
    var three := [KB_SD_JWT, KB_SD_JWT_KB, KB_SD_JWT_KB_DRAFT_00];
    var some := LinkTyps(opts, isLast);
    var i :| 0 <= i < |some| && Normalize(some[i]) == Normalize(header["typ"].s);
    assert some[i] == three[0] || some[i] == three[1] || some[i] == three[2];
  }

  /** Link `i` is a link by type, is bound to the element before it and signed by the key that element names. */
  predicate TiedAt(w: World, es: seq<SdJwt>, vs: seq<Verified>, i: nat)
    requires 0 < i < |es| == |vs|
  {
    var jws := w.decode(es[i].jwt);
    && LinkTyp(jws.header)
    && CheckHashBinding(w, jws.payload, es[i - 1], vs[i - 1].alg).Ok?
    && vs[i - 1].cnf.Some? && w.signed(es[i].jwt, vs[i - 1].cnf.value)
  }

  /** The root is a root by type, signed by the issuer, and every link is tied to its predecessor. */
  ghost predicate Tied(w: World, issuer: Key, opts: Options, es: seq<SdJwt>, vs: seq<Verified>) {
    && 0 < |es| == |vs|
    && TypIn(w.decode(es[0].jwt).header, opts.rootTyp) && w.signed(es[0].jwt, issuer)
    && forall i :: 0 < i < |es| ==> TiedAt(w, es, vs, i)
  }

  lemma LinkFacts(w: World, e: SdJwt, prev: Verified, prevElement: SdJwt, isLast: bool, opts: Options, needsCnf: bool)
    requires VerifyLink(w, e, prev, prevElement, isLast, opts, needsCnf).Ok?
    ensures CheckHashBinding(w, w.decode(e.jwt).payload, prevElement, prev.alg).Ok?
    ensures TypIn(w.decode(e.jwt).header, LinkTyps(opts, isLast))
    ensures prev.cnf.Some? && w.signed(e.jwt, prev.cnf.value)
  {
  }

  lemma RootFacts(w: World, e: SdJwt, issuer: Key, opts: Options, needsCnf: bool)
    requires VerifyRoot(w, e, issuer, opts, needsCnf).Ok?
    ensures TypIn(w.decode(e.jwt).header, opts.rootTyp) && w.signed(e.jwt, issuer)
  {
  }

  lemma LinkAt(w: World, p: Presentation, issuer: Key, opts: Options, vs: seq<Verified>, i: nat)
    requires |vs| == |p.links| + 1 && 0 < i <= |p.links| && VerifyNext(w, p, issuer, opts, vs[..i]).Ok?
    ensures TiedAt(w, Elements(p), vs, i)
  {
    assert vs[..i][i - 1] == vs[i - 1];
    LinkFacts(w, Elements(p)[i], vs[i - 1], Elements(p)[i - 1], i == |p.links|, opts, NeedsCnf(p, opts, i));
    LinkTypsAreLinkTyps(w.decode(Elements(p)[i].jwt).header, opts, i == |p.links|);
  }

  lemma GrownTied(w: World, p: Presentation, issuer: Key, opts: Options, vs: seq<Verified>)
    requires |vs| == |p.links| + 1 && Grows(Step(w, p, issuer, opts), vs)
    ensures Tied(w, issuer, opts, Elements(p), vs)
  {
    assert Step(w, p, issuer, opts)(vs[..0]) == Ok(vs[0]);
    RootFacts(w, p.root, issuer, opts, NeedsCnf(p, opts, 0));
    forall i | 0 < i < |vs| ensures TiedAt(w, Elements(p), vs, i) {
      assert Step(w, p, issuer, opts)(vs[..i]) == Ok(vs[i]);
      LinkAt(w, p, issuer, opts, vs, i);
    }
  }

  lemma BindingFacts(w: World, kb: string, last: Verified, e: SdJwt, opts: Options)
    requires opts.keyBinding.KbJwt? && VerifyKbJwt(w, kb, last, e, opts).Ok?
    ensures last.cnf.Some? && w.signed(kb, last.cnf.value)
    ensures SingleString(w.decode(kb).payload, "sd_hash") == Ok(w.digest(last.alg, ElementText(e)))
  {
  }

  /**
   Every element of a verified presentation is signed: the root by the issuer, each link and the
   KB-JWT by the key named before it.
   */
  lemma AcceptedTied(w: World, p: Presentation, issuer: Key, opts: Options, chain: VerifiedChain)
    requires Accepted(w, p, issuer, opts, chain)
    ensures Tied(w, issuer, opts, Elements(p), chain.links)
    ensures p.kb.Some? ==>
              var last := chain.links[|p.links|];
              && last.cnf.Some? && w.signed(p.kb.value, last.cnf.value)
              && SingleString(w.decode(p.kb.value).payload, "sd_hash") ==
                   Ok(w.digest(last.alg, ElementText(Elements(p)[|p.links|])))
  {
    GrownTied(w, p, issuer, opts, chain.links);
    if p.kb.Some? { BindingFacts(w, p.kb.value, chain.links[|p.links|], Elements(p)[|p.links|], opts); }
  }

  // ---- commitment

  /** One side of a comparison: elements without `~`, tied together, under options that keep roots and links apart. */
  ghost predicate Side(w: World, issuer: Key, opts: Options, es: seq<SdJwt>, vs: seq<Verified>) {
    Tied(w, issuer, opts, es, vs) && RootApart(opts) && forall i :: 0 <= i < |es| ==> NoTilde(es[i])
  }

  lemma RootIsNoLink(w: World, issuer: Key, opts: Options, es: seq<SdJwt>, vs: seq<Verified>)
    requires Side(w, issuer, opts, es, vs)
    ensures !LinkTyp(w.decode(es[0].jwt).header)
  {
  }

  lemma LinkIsLink(w: World, issuer: Key, opts: Options, es: seq<SdJwt>, vs: seq<Verified>, i: nat)
    requires Side(w, issuer, opts, es, vs) && 0 < i < |es|
    ensures LinkTyp(w.decode(es[i].jwt).header)
  {
    assert TiedAt(w, es, vs, i);
  }

  /** A JWT is not the root of one chain and a link of another. */
  lemma SameStart(w: World, ik: Key, os: Options, es: seq<SdJwt>, vs: seq<Verified>, it: Key, ot: Options,
                  fs: seq<SdJwt>, us: seq<Verified>, i: nat, j: nat)
    requires Side(w, ik, os, es, vs) && Side(w, it, ot, fs, us)
    requires i < |es| && j < |fs| && es[i].jwt == fs[j].jwt
    ensures i == 0 <==> j == 0
  {
    RootIsNoLink(w, ik, os, es, vs);
    RootIsNoLink(w, it, ot, fs, us);
    if i > 0 { LinkIsLink(w, ik, os, es, vs, i); }
    if j > 0 { LinkIsLink(w, it, ot, fs, us, j); }
  }

  /** Both chains have the same JWT at `k`, and the same disclosures if the link after it is bound by text. */
  predicate Fixed(w: World, es: seq<SdJwt>, fs: seq<SdJwt>, k: nat)
    requires k + 1 < |es| && k < |fs|
  {
    es[k].jwt == fs[k].jwt && (BoundByText(w, es[k + 1]) ==> es[k] == fs[k])
  }

  /** Two links with one JWT are bound to elements with one JWT, and to one element when bound by text. */
  lemma TiedFixes(w: World, es: seq<SdJwt>, vs: seq<Verified>, fs: seq<SdJwt>, us: seq<Verified>, i: nat, j: nat)
    requires Injective(w) && 0 < i < |es| == |vs| && 0 < j < |fs| == |us| && es[i].jwt == fs[j].jwt
    requires TiedAt(w, es, vs, i) && TiedAt(w, fs, us, j) && NoTilde(es[i - 1]) && NoTilde(fs[j - 1])
    ensures es[i - 1].jwt == fs[j - 1].jwt && (BoundByText(w, es[i]) ==> es[i - 1] == fs[j - 1])
  {
    BindingFixes(w, w.decode(es[i].jwt).payload, es[i - 1], vs[i - 1].alg, fs[j - 1], us[j - 1].alg);
  }

  /**
   Sharing the JWT of one element fixes its position and every JWT before it, and the disclosures
   wherever the next link is bound by text.
   */
  lemma {:induction false} Commits(w: World, ik: Key, os: Options, es: seq<SdJwt>, vs: seq<Verified>, it: Key,
                                   ot: Options, fs: seq<SdJwt>, us: seq<Verified>, i: nat, j: nat)
    requires Injective(w) && Side(w, ik, os, es, vs) && Side(w, it, ot, fs, us)
    requires i < |es| && j < |fs| && es[i].jwt == fs[j].jwt
    ensures i == j
    ensures forall k :: 0 <= k < i ==> Fixed(w, es, fs, k)
    decreases i
  {
    SameStart(w, ik, os, es, vs, it, ot, fs, us, i, j);
    if i > 0 {
      TiedFixes(w, es, vs, fs, us, i, j);
      Commits(w, ik, os, es, vs, it, ot, fs, us, i - 1, j - 1);
    }
  }

  predicate AllBoundByText(w: World, es: seq<SdJwt>) {
    forall i :: 0 < i < |es| ==> BoundByText(w, es[i])
  }

  /** The same for whole sequences: a shared last JWT fixes everything before it. */
  lemma LastCommits(w: World, ik: Key, os: Options, es: seq<SdJwt>, vs: seq<Verified>, it: Key, ot: Options,
                    fs: seq<SdJwt>, us: seq<Verified>)
    requires Injective(w) && Side(w, ik, os, es, vs) && Side(w, it, ot, fs, us) && AllBoundByText(w, es)
    requires es[|es| - 1].jwt == fs[|fs| - 1].jwt
    ensures |es| == |fs| && es[..|es| - 1] == fs[..|fs| - 1]
  {
    Commits(w, ik, os, es, vs, it, ot, fs, us, |es| - 1, |fs| - 1);
    FixedAll(w, es, fs);
  }

  lemma FixedAll(w: World, es: seq<SdJwt>, fs: seq<SdJwt>)
    requires |es| == |fs| > 0 && AllBoundByText(w, es) && forall k :: 0 <= k < |es| - 1 ==> Fixed(w, es, fs, k)
    ensures es[..|es| - 1] == fs[..|fs| - 1]
  {
    forall k | 0 <= k < |es| - 1 ensures es[k] == fs[k] { assert Fixed(w, es, fs, k) && BoundByText(w, es[k + 1]); }
  }

  /** A presentation that came from text and verified, under options that keep roots and links apart. */
  ghost predicate Sound(codec: Codec, w: World, p: Presentation, issuer: Key, opts: Options, chain: VerifiedChain) {
    WellFormed(codec, p) && Accepted(w, p, issuer, opts, chain) && RootApart(opts)
  }

  lemma SoundSide(codec: Codec, w: World, p: Presentation, issuer: Key, opts: Options, chain: VerifiedChain)
    requires Sound(codec, w, p, issuer, opts, chain)
    ensures Side(w, issuer, opts, Elements(p), chain.links)
  {
    AcceptedTied(w, p, issuer, opts, chain);
  }

  /** Two verified presentations with the same last JWT agree on everything before it, disclosures included. */
  lemma LastJwtCommits(codec: Codec, w: World, p: Presentation, ip: Key, op: Options, cp: VerifiedChain,
                       q: Presentation, iq: Key, oq: Options, cq: VerifiedChain)
    requires Injective(w) && Sound(codec, w, p, ip, op, cp) && Sound(codec, w, q, iq, oq, cq)
    requires AllBoundByText(w, Elements(p)) && Elements(p)[|p.links|].jwt == Elements(q)[|q.links|].jwt
    ensures |p.links| == |q.links| && Elements(p)[..|p.links|] == Elements(q)[..|q.links|]
  {
    var es, fs := Elements(p), Elements(q);
    assert |es| == |p.links| + 1 && |fs| == |q.links| + 1;
    SoundSide(codec, w, p, ip, op, cp);
    SoundSide(codec, w, q, iq, oq, cq);
    LastCommits(w, ip, op, es, cp.links, iq, oq, fs, cq.links);
  }

  /** A shared final KB-JWT fixes the whole presentation. */
  lemma KeyBindingCommits(codec: Codec, w: World, p: Presentation, ip: Key, op: Options, cp: VerifiedChain,
                          q: Presentation, iq: Key, oq: Options, cq: VerifiedChain)
    requires Injective(w) && Sound(codec, w, p, ip, op, cp) && Sound(codec, w, q, iq, oq, cq)
    requires AllBoundByText(w, Elements(p)) && p.kb.Some? && p.kb == q.kb
    ensures p == q
  {
    AcceptedTied(w, p, ip, op, cp);
    AcceptedTied(w, q, iq, oq, cq);
    ElementTextInjective(Elements(p)[|p.links|], Elements(q)[|q.links|]);
    LastJwtCommits(codec, w, p, ip, op, cp, q, iq, oq, cq);
    SamePresentation(p, q);
  }

  lemma SamePresentation(p: Presentation, q: Presentation)
    requires |p.links| == |q.links| && Elements(p)[..|p.links|] == Elements(q)[..|q.links|] && p.kb == q.kb
    requires Elements(p)[|p.links|] == Elements(q)[|q.links|]
    ensures p == q
  {
    var n := |p.links|;
    assert Elements(p) == Elements(p)[..n] + [Elements(p)[n]];
    assert Elements(q) == Elements(q)[..n] + [Elements(q)[n]];
    assert p.root == Elements(p)[0] && q.root == Elements(q)[0];
    assert p.links == Elements(p)[1..] && q.links == Elements(q)[1..];
  }
}
