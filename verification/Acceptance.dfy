/**
 What verification accepts (crates/sdjwt/src/verify.rs), test by test and without the
 tests' own names: types, signatures, bindings, Delegate Payloads, keys and times, for
 the root, for every link, for the KB-JWT and for the whole presentation.
 */
module Acceptance {
  import opened Prelude
  import opened Json
  import opened Presentations
  import opened Verification
  import Processing

  // ---- one clause per rule

  /** The algorithm of the key, nothing critical that is not understood, and a good signature. */
  predicate GoodSignature(w: World, jwt: string, key: Key) {
    var header := w.decode(jwt).header;
    "alg" in header && header["alg"] == Str(w.keyAlg(key)) && "crit" !in header && w.signed(jwt, key)
  }

  /** Not expired and already valid, give or take the leeway; a claim of another type counts as neither. */
  predicate InTime(claims: map<string, Json>, now: int, leeway: int) {
    && ("exp" in claims ==> claims["exp"].Num? && now as real < claims["exp"].n + leeway as real)
    && ("nbf" in claims ==> claims["nbf"].Num? && claims["nbf"].n <= (now + leeway) as real)
  }

  predicate AlgNamed(payload: map<string, Json>, alg: SdAlg) {
    if "_sd_alg" !in payload then alg == Sha256
    else
      payload["_sd_alg"] == Str(match alg case Sha256 => "sha-256" case Sha384 => "sha-384" case Sha512 => "sha-512")
  }

  /** The key that the claims name for whatever comes next. */
  predicate KeyNamed(w: World, claims: map<string, Json>, needed: bool, cnf: Option<Key>) {
    if "cnf" in claims then cnf == w.readKey(claims["cnf"]) && (needed ==> cnf.Some?) else cnf.None? && !needed
  }

  /** Bound to the element before it in exactly one of two ways. */
  predicate BoundTo(w: World, payload: map<string, Json>, prev: SdJwt, alg: SdAlg) {
    || (&& "issuer_jwt_hash" !in payload && "sd_hash" in payload
        && payload["sd_hash"] == Str(w.digest(alg, ElementText(prev))))
    || (&& "sd_hash" !in payload && "issuer_jwt_hash" in payload
        && payload["issuer_jwt_hash"] == Str(w.digest(alg, prev.jwt)))
  }

  predicate Dated(payload: map<string, Json>) {
    && "iat" in payload && payload["iat"].Num? && "aud" in payload && payload["aud"].Str?
    && "nonce" in payload && payload["nonce"].Str?
  }

  /** Made for this verifier and this transaction, just now. */
  predicate Addressed(payload: map<string, Json>, audience: string, nonce: string, opts: Options) {
    && Dated(payload) && payload["aud"].s == audience && payload["nonce"].s == nonce
    && (opts.now - opts.maxAge) as real <= payload["iat"].n <= (opts.now + opts.maxFuture) as real
  }

  /**
   `claims` is the one element of `delegate_payload` that is disclosed, and `envelope` the rest; of several
   that are offered none is written out.
   */
  predicate Delegates(payload: map<string, Json>, read: map<string, Json>, claims: map<string, Json>,
                      envelope: map<string, Json>) {
    && "delegate_payload" in payload && payload["delegate_payload"].Arr? && payload["delegate_payload"].items != []
    && (|payload["delegate_payload"].items| > 1 ==>
          forall i :: 0 <= i < |payload["delegate_payload"].items| ==> IsDigest(payload["delegate_payload"].items[i]))
    && "delegate_payload" in read && read["delegate_payload"] == Arr([Obj(claims)]) && "_sd_alg" !in claims
    && envelope == read - {"delegate_payload"}
  }

  /** What the payload says with the disclosures that come with it. */
  predicate Yields(w: World, e: SdJwt, alg: SdAlg, read: map<string, Json>) {
    var r := Processing.Process(w.decode(e.jwt).payload, Opened(w, e), Hash(w, alg));
    r.Ok? && r.value.claims == read
  }

  function Lowercase(s: string): string {
    if s == [] then [] else [if 'A' <= s[0] <= 'Z' then s[0] - 'A' + 'a' else s[0]] + Lowercase(s[1..])
  }

  /** A media type in small letters, without "application/" in front. */
  function Bare(typ: string): string {
    var l := Lowercase(typ);
    if |l| >= 12 && l[..12] == "application/" then l[12..] else l
  }

  predicate HasType(header: map<string, Json>, typ: string) {
    "typ" in header && header["typ"].Str? && Bare(header["typ"].s) == typ
  }

  /** One of the allowed types, whichever way either of them is written. */
  predicate RootTyped(header: map<string, Json>, allowed: seq<string>) {
    exists t :: t in allowed && HasType(header, Bare(t))
  }

  /** The types a link may have in its position. */
  predicate LinkTyped(header: map<string, Json>, opts: Options, isLast: bool) {
    var terminal := HasType(header, "kb+sd-jwt");
    var further := HasType(header, "kb-sd-jwt+kb") || HasType(header, "kb+sd-jwt+kb");
    if !isLast || opts.keyBinding.KbJwt? then further
    else if opts.keyBinding.TerminalLink? then terminal
    else terminal || further
  }

  // ---- the elements

  /** The claims and the envelope of an element that carries a Delegate Payload. */
  ghost predicate Carries(w: World, e: SdJwt, alg: SdAlg, claims: map<string, Json>, envelope: map<string, Json>) {
    exists read :: Yields(w, e, alg, read) && Delegates(w.decode(e.jwt).payload, read, claims, envelope)
  }

  /** Kind, key and time of a link, given the Delegate Payload it carries. */
  predicate Finishes(w: World, e: SdJwt, isLast: bool, opts: Options, needed: bool, v: Verified) {
    var header, payload := w.decode(e.jwt).header, w.decode(e.jwt).payload;
    && Dated(payload) && v.text == ElementText(e)
    && v.kind == (if HasType(header, "kb+sd-jwt") then Terminal else Delegation)
    && ("cnf" in v.claims <==> v.kind.Delegation?)
    && KeyNamed(w, v.claims, needed && v.kind.Delegation?, v.cnf)
    && InTime(v.claims, opts.now, opts.leeway) && InTime(v.envelope, opts.now, opts.leeway)
    && (opts.requireExp && v.kind.Delegation? ==> "exp" in v.claims)
    && (if isLast && opts.keyBinding.TerminalLink?
        then Addressed(payload, opts.keyBinding.audience, opts.keyBinding.nonce, opts)
        else payload["iat"].n <= (opts.now + opts.maxFuture) as real)
  }

  /** A root is a credential of its own, or carries a Delegate Payload too. */
  ghost predicate RootReads(w: World, root: SdJwt, alg: SdAlg, opts: Options, claims: map<string, Json>,
                            envelope: map<string, Json>) {
    if opts.rootForm.Credential? then Yields(w, root, alg, claims) && envelope == map[]
    else Carries(w, root, alg, claims, envelope)
  }

  ghost predicate RootFits(w: World, root: SdJwt, issuer: Key, opts: Options, needed: bool, v: Verified) {
    var payload := w.decode(root.jwt).payload;
    && RootTyped(w.decode(root.jwt).header, opts.rootTyp) && GoodSignature(w, root.jwt, issuer)
    && AlgNamed(payload, v.alg) && v.kind == Root && v.text == ElementText(root)
    && RootReads(w, root, v.alg, opts, v.claims, v.envelope)
    && InTime(v.claims, opts.now, opts.leeway) && InTime(v.envelope, opts.now, opts.leeway)
    && (opts.requireExp ==> "exp" in v.claims) && KeyNamed(w, v.claims, needed, v.cnf)
  }

  /** Type, signature, binding and date, which come before the Delegate Payload. */
  predicate Starts(w: World, e: SdJwt, prev: Verified, prevElement: SdJwt, isLast: bool, opts: Options) {
    var header, payload := w.decode(e.jwt).header, w.decode(e.jwt).payload;
    && LinkTyped(header, opts, isLast) && prev.cnf.Some? && GoodSignature(w, e.jwt, prev.cnf.value)
    && BoundTo(w, payload, prevElement, prev.alg) && Dated(payload)
  }

  ghost predicate LinkFits(w: World, e: SdJwt, prev: Verified, prevElement: SdJwt, isLast: bool, opts: Options,
                           needed: bool, v: Verified) {
    && Starts(w, e, prev, prevElement, isLast, opts)
    && AlgNamed(w.decode(e.jwt).payload, v.alg) && Carries(w, e, v.alg, v.claims, v.envelope)
    && Finishes(w, e, isLast, opts, needed, v)
  }

  ghost predicate BindingFits(w: World, kb: string, last: Verified, lastElement: SdJwt, opts: Options)
    requires opts.keyBinding.KbJwt?
  {
    var payload := w.decode(kb).payload;
    && HasType(w.decode(kb).header, "kb+jwt") && last.cnf.Some? && GoodSignature(w, kb, last.cnf.value)
    && "sd_hash" in payload && payload["sd_hash"] == Str(w.digest(last.alg, ElementText(lastElement)))
    && Addressed(payload, opts.keyBinding.audience, opts.keyBinding.nonce, opts)
    && InTime(payload, opts.now, opts.leeway)
  }

  // ---- the tests decide the clauses

  lemma SignatureExact(w: World, jwt: string, key: Key)
    ensures VerifyJws(w, jwt, key).Ok? <==> GoodSignature(w, jwt, key)
  {
  }

  lemma ValidityExact(claims: map<string, Json>, opts: Options, required: bool)
    ensures CheckValidity(claims, opts, required).Ok? <==>
            InTime(claims, opts.now, opts.leeway) && (required ==> "exp" in claims)
  {
  }

  /** Which time is wrong, in the order in which they are looked at. */
  predicate WrongTime(claims: map<string, Json>, opts: Options, required: bool, e: VerifyError) {
    match e
    case Expired =>
      "exp" in claims && claims["exp"].Num? && claims["exp"].n + opts.leeway as real <= opts.now as real
    case MissingExp => required && "exp" !in claims
    case NotYetValid =>
      "nbf" in claims && claims["nbf"].Num? && (opts.now + opts.leeway) as real < claims["nbf"].n
    case InvalidClaim(name) => (name == "exp" || name == "nbf") && name in claims && !claims[name].Num?
    case _ => false
  }

  lemma ValidityErrors(claims: map<string, Json>, opts: Options, required: bool)
    requires CheckValidity(claims, opts, required).Err?
    ensures WrongTime(claims, opts, required, CheckValidity(claims, opts, required).error)
  {
  }

  lemma AlgExact(payload: map<string, Json>, alg: SdAlg)
    ensures AlgOf(payload) == Ok(alg) <==> AlgNamed(payload, alg)
  {
  }

  lemma KeyExact(w: World, claims: map<string, Json>, needed: bool, cnf: Option<Key>)
    ensures ReadCnf(w, claims, needed) == Ok(cnf) <==> KeyNamed(w, claims, needed, cnf)
  {
  }

  lemma HashBindingExact(w: World, payload: map<string, Json>, prev: SdJwt, alg: SdAlg)
    ensures CheckHashBinding(w, payload, prev, alg).Ok? <==> BoundTo(w, payload, prev, alg)
  {
  }

  lemma TransactionExact(payload: map<string, Json>, audience: string, nonce: string, opts: Options)
    requires Dated(payload)
    ensures CheckTransaction(payload["iat"].n, payload["aud"].s, payload["nonce"].s, audience, nonce, opts).Ok? <==>
            Addressed(payload, audience, nonce, opts)
  {
  }

  lemma {:induction false} DigestsExact(raw: seq<Json>)
    ensures CheckDigests(raw).Ok? <==> forall i :: 0 <= i < |raw| ==> IsDigest(raw[i])
  {
    if raw != [] {
      DigestsExact(raw[1..]);
      assert forall i :: 1 <= i < |raw| ==> raw[i] == raw[1..][i - 1];
    }
  }

  lemma DelegatesExact(payload: map<string, Json>, read: map<string, Json>, claims: map<string, Json>,
                       envelope: map<string, Json>)
    ensures CheckRawDelegatePayload(payload).Ok? && TakeDelegatePayload(read) == Ok((claims, envelope)) <==>
            Delegates(payload, read, claims, envelope)
  {
    if "delegate_payload" in payload && payload["delegate_payload"].Arr? {
      DigestsExact(payload["delegate_payload"].items);
    }
    if TakeDelegatePayload(read).Ok? {
      var items := read["delegate_payload"].items;
      assert items == [items[0]];
    }
  }

  lemma {:induction false} LowercaseAt(s: string)
    ensures Lowercase(s) == seq(|s|, i requires 0 <= i < |s| => Lower(s[i]))
  {
    if s != [] { LowercaseAt(s[1..]); }
  }

  lemma BareExact(typ: string)
    ensures Normalize(typ) == Bare(typ)
  {
    LowercaseAt(typ);
    var l := Lowercase(typ);
    assert |"application/"| == 12;
  }

  lemma RootTypedExact(header: map<string, Json>, allowed: seq<string>)
    ensures TypIn(header, allowed) <==> RootTyped(header, allowed)
  {
    if "typ" in header && header["typ"].Str? {
      BareExact(header["typ"].s);
      forall t | t in allowed ensures Normalize(t) == Bare(t) { BareExact(t); }
      if t :| t in allowed && HasType(header, Bare(t)) {
        var i :| 0 <= i < |allowed| && allowed[i] == t;
        assert Normalize(allowed[i]) == Normalize(header["typ"].s);
      }
    }
  }

  lemma TypeExact(header: map<string, Json>, t: string)
    requires Bare(t) == t
    ensures TypIn(header, [t]) <==> HasType(header, t)
  {
    RootTypedExact(header, [t]);
    assert t in [t];
  }

  lemma {:induction false} SmallAlready(s: string)
    requires forall i :: 0 <= i < |s| ==> !('A' <= s[i] <= 'Z')
    ensures Lowercase(s) == s
  {
    if s != [] {
      assert forall i :: 0 <= i < |s[1..]| ==> s[1..][i] == s[i + 1];
      SmallAlready(s[1..]);
    }
  }

  lemma BareAlready(t: string)
    requires t != [] && t[0] != 'a' && forall i :: 0 <= i < |t| ==> !('A' <= t[i] <= 'Z')
    ensures Bare(t) == t
  {
    SmallAlready(t);
    assert "application/"[0] == 'a';
    assert |t| >= 12 ==> t[..12][0] == t[0];
  }

  lemma TerminalType(header: map<string, Json>)
    ensures TypIn(header, [KB_SD_JWT]) <==> HasType(header, "kb+sd-jwt")
  {
    BareAlready(KB_SD_JWT);
    TypeExact(header, KB_SD_JWT);
  }

  lemma FurtherType(header: map<string, Json>)
    ensures TypIn(header, [KB_SD_JWT_KB]) <==> HasType(header, "kb-sd-jwt+kb")
  {
    BareAlready(KB_SD_JWT_KB);
    TypeExact(header, KB_SD_JWT_KB);
  }

  lemma DraftType(header: map<string, Json>)
    ensures TypIn(header, [KB_SD_JWT_KB_DRAFT_00]) <==> HasType(header, "kb+sd-jwt+kb")
  {
    BareAlready(KB_SD_JWT_KB_DRAFT_00);
    TypeExact(header, KB_SD_JWT_KB_DRAFT_00);
  }

  lemma BindingType(header: map<string, Json>)
    ensures TypIn(header, [KB_JWT]) <==> HasType(header, "kb+jwt")
  {
    BareAlready(KB_JWT);
    TypeExact(header, KB_JWT);
  }

  lemma ThreeTypes(header: map<string, Json>, a: string, b: string, c: string)
    ensures TypIn(header, [b, c]) <==> TypIn(header, [b]) || TypIn(header, [c])
    ensures TypIn(header, [a, b, c]) <==> TypIn(header, [a]) || TypIn(header, [b, c])
  {
    TypInCons(header, b, [c]);
    TypInCons(header, a, [b, c]);
    assert [b] + [c] == [b, c] && [a] + [b, c] == [a, b, c];
  }

  lemma TypedExact(header: map<string, Json>, opts: Options, isLast: bool)
    ensures TypIn(header, LinkTyps(opts, isLast)) <==> LinkTyped(header, opts, isLast)
  {
    TerminalType(header);
    FurtherType(header);
    DraftType(header);
    ThreeTypes(header, KB_SD_JWT, KB_SD_JWT_KB, KB_SD_JWT_KB_DRAFT_00);
  }

  lemma TypInCons(header: map<string, Json>, t: string, rest: seq<string>)
    ensures TypIn(header, [t] + rest) <==> TypIn(header, [t]) || TypIn(header, rest)
  {
    var all := [t] + rest;
    assert forall i :: 0 <= i < |rest| ==> all[i + 1] == rest[i];
    if TypIn(header, rest) {
      var i :| 0 <= i < |rest| && Normalize(rest[i]) == Normalize(header["typ"].s);
      assert Normalize(all[i + 1]) == Normalize(header["typ"].s);
    }
    if TypIn(header, [t]) { assert Normalize(all[0]) == Normalize(header["typ"].s); }
  }

  // ---- the elements decide alike

  lemma YieldsExact(w: World, e: SdJwt, alg: SdAlg, read: map<string, Json>)
    ensures Claims(w, e, alg) == Ok(read) <==> Yields(w, e, alg, read)
  {
  }

  lemma RootClaimsExact(w: World, root: SdJwt, alg: SdAlg, opts: Options, claims: map<string, Json>,
                        envelope: map<string, Json>)
    ensures var processed := Claims(w, root, alg);
            processed.Ok? && RootClaims(w.decode(root.jwt).payload, processed.value, opts) == Ok((claims, envelope))
            <==> InTime(envelope, opts.now, opts.leeway) && RootReads(w, root, alg, opts, claims, envelope)
  {
    var payload, processed := w.decode(root.jwt).payload, Claims(w, root, alg);
    if processed.Ok? {
      DelegatesExact(payload, processed.value, claims, envelope);
      ValidityExact(envelope, opts, false);
    }
  }

  lemma RootPartsExact(w: World, root: SdJwt, opts: Options, claims: map<string, Json>, envelope: map<string, Json>,
                       alg: SdAlg)
    ensures RootParts(w, root, opts) == Ok((claims, envelope, alg)) <==>
            && AlgNamed(w.decode(root.jwt).payload, alg) && InTime(envelope, opts.now, opts.leeway)
            && RootReads(w, root, alg, opts, claims, envelope)
  {
    AlgExact(w.decode(root.jwt).payload, alg);
    RootClaimsExact(w, root, alg, opts, claims, envelope);
  }

  lemma RootFinishExact(w: World, root: SdJwt, opts: Options, needed: bool, v: Verified)
    ensures FinishRoot(w, root, (v.claims, v.envelope, v.alg), opts, needed) == Ok(v) <==>
            && v.kind == Root && v.text == ElementText(root) && InTime(v.claims, opts.now, opts.leeway)
            && (opts.requireExp ==> "exp" in v.claims) && KeyNamed(w, v.claims, needed, v.cnf)
  {
    ValidityExact(v.claims, opts, opts.requireExp);
    KeyExact(w, v.claims, needed, v.cnf);
  }

  /** A root is accepted, as `v`, exactly when it fits. */
  lemma RootExact(w: World, root: SdJwt, issuer: Key, opts: Options, needed: bool, v: Verified)
    ensures VerifyRoot(w, root, issuer, opts, needed) == Ok(v) <==> RootFits(w, root, issuer, opts, needed, v)
  {
    SignatureExact(w, root.jwt, issuer);
    RootTypedExact(w.decode(root.jwt).header, opts.rootTyp);
    var parts := RootParts(w, root, opts);
    RootPartsExact(w, root, opts, v.claims, v.envelope, v.alg);
    RootFinishExact(w, root, opts, needed, v);
    if VerifyRoot(w, root, issuer, opts, needed) == Ok(v) {
      assert parts.Ok? && FinishRoot(w, root, parts.value, opts, needed) == Ok(v);
      assert parts.value == (v.claims, v.envelope, v.alg);
    }
  }

  lemma LinkClaimsExact(w: World, e: SdJwt, claims: map<string, Json>, envelope: map<string, Json>, alg: SdAlg)
    ensures LinkClaims(w, e) == Ok((claims, envelope, alg)) <==>
            AlgNamed(w.decode(e.jwt).payload, alg) && Carries(w, e, alg, claims, envelope)
  {
    var payload, processed := w.decode(e.jwt).payload, Claims(w, e, alg);
    AlgExact(payload, alg);
    if processed.Ok? { DelegatesExact(payload, processed.value, claims, envelope); }
  }

  lemma LinkCnfExact(w: World, kind: LinkKind, claims: map<string, Json>, needed: bool, cnf: Option<Key>)
    requires !kind.Root?
    ensures LinkCnf(w, kind, claims, needed) == Ok(cnf) <==>
            ("cnf" in claims <==> kind.Delegation?) && KeyNamed(w, claims, needed && kind.Delegation?, cnf)
  {
    KeyExact(w, claims, needed, cnf);
  }

  lemma LinkTimeExact(payload: map<string, Json>, isLast: bool, opts: Options)
    requires Dated(payload)
    ensures LinkTime(payload, isLast, opts).Ok? <==>
            if isLast && opts.keyBinding.TerminalLink?
            then Addressed(payload, opts.keyBinding.audience, opts.keyBinding.nonce, opts)
            else payload["iat"].n <= (opts.now + opts.maxFuture) as real
  {
    if opts.keyBinding.TerminalLink? {
      TransactionExact(payload, opts.keyBinding.audience, opts.keyBinding.nonce, opts);
    }
  }

  lemma FinishExact(w: World, e: SdJwt, isLast: bool, opts: Options, needed: bool, v: Verified)
    requires Dated(w.decode(e.jwt).payload)
    ensures FinishLink(w, e, (v.claims, v.envelope, v.alg), isLast, opts, needed) == Ok(v) <==>
            Finishes(w, e, isLast, opts, needed, v)
  {
    var kind := if HasType(w.decode(e.jwt).header, "kb+sd-jwt") then Terminal else Delegation;
    TerminalType(w.decode(e.jwt).header);
    LinkCnfExact(w, kind, v.claims, needed, v.cnf);
    ValidityExact(v.envelope, opts, false);
    ValidityExact(v.claims, opts, opts.requireExp && kind.Delegation?);
    LinkTimeExact(w.decode(e.jwt).payload, isLast, opts);
  }

  lemma StartsExact(w: World, e: SdJwt, prev: Verified, prevElement: SdJwt, isLast: bool, opts: Options, needed: bool)
    ensures var r, parts := VerifyLink(w, e, prev, prevElement, isLast, opts, needed), LinkClaims(w, e);
            if Starts(w, e, prev, prevElement, isLast, opts)
            then if parts.Ok? then r == FinishLink(w, e, parts.value, isLast, opts, needed) else r.Err?
            else r.Err?
  {
    TypedExact(w.decode(e.jwt).header, opts, isLast);
    if prev.cnf.Some? { SignatureExact(w, e.jwt, prev.cnf.value); }
    HashBindingExact(w, w.decode(e.jwt).payload, prevElement, prev.alg);
  }

  /** A link is accepted, as `v`, exactly when it fits. */
  lemma LinkExact(w: World, e: SdJwt, prev: Verified, prevElement: SdJwt, isLast: bool, opts: Options, needed: bool,
                  v: Verified)
    ensures VerifyLink(w, e, prev, prevElement, isLast, opts, needed) == Ok(v) <==>
            LinkFits(w, e, prev, prevElement, isLast, opts, needed, v)
  {
    StartsExact(w, e, prev, prevElement, isLast, opts, needed);
    if Starts(w, e, prev, prevElement, isLast, opts) {
      LinkClaimsExact(w, e, v.claims, v.envelope, v.alg);
      FinishExact(w, e, isLast, opts, needed, v);
      var parts := LinkClaims(w, e);
      if parts.Ok? && FinishLink(w, e, parts.value, isLast, opts, needed) == Ok(v) {
        assert parts.value == (v.claims, v.envelope, v.alg);
      }
    }
  }

  lemma BindingExact(w: World, kb: string, last: Verified, lastElement: SdJwt, opts: Options,
                     claims: map<string, Json>)
    requires opts.keyBinding.KbJwt?
    ensures VerifyKbJwt(w, kb, last, lastElement, opts) == Ok(claims) <==>
            BindingFits(w, kb, last, lastElement, opts) && claims == w.decode(kb).payload
  {
    var payload := w.decode(kb).payload;
    BindingType(w.decode(kb).header);
    if last.cnf.Some? { SignatureExact(w, kb, last.cnf.value); }
    ValidityExact(payload, opts, false);
    if Dated(payload) { TransactionExact(payload, opts.keyBinding.audience, opts.keyBinding.nonce, opts); }
  }

  // ---- the whole presentation

  /** How many links there may be, and what has to come at the end. */
  predicate ShapeFits(p: Presentation, opts: Options) {
    && |p.links| <= opts.maxLinks
    && match opts.keyBinding
       case NotRequired => p.kb.None?
       case KbJwt(_, _) => p.kb.Some?
       case TerminalLink(_, _) => p.kb.None? && p.links != []
  }

  /** The element before link `i`. */
  function Before(p: Presentation, i: nat): SdJwt
    requires 0 < i <= |p.links| + 1
  {
    if i == 1 then p.root else p.links[i - 2]
  }

  /** Element `i` is accepted as `vs[i]`, after the element before it was accepted as `vs[i - 1]`. */
  ghost predicate FitsAt(w: World, p: Presentation, issuer: Key, opts: Options, vs: seq<Verified>, i: nat)
    requires i <= |p.links| && i < |vs|
  {
    var needed := i < |p.links| || opts.keyBinding.KbJwt?;
    if i == 0 then RootFits(w, p.root, issuer, opts, needed, vs[0])
    else LinkFits(w, p.links[i - 1], vs[i - 1], Before(p, i), i == |p.links|, opts, needed, vs[i])
  }

  /** The KB-JWT, if there is one, after the last element. */
  ghost predicate EndFits(w: World, p: Presentation, opts: Options, last: Verified,
                          binding: Option<map<string, Json>>) {
    if p.kb.None? then binding.None?
    else
      && opts.keyBinding.KbJwt? && binding == Some(w.decode(p.kb.value).payload)
      && BindingFits(w, p.kb.value, last, Before(p, |p.links| + 1), opts)
  }

  /** What `verify` accepts: the shape, the root, every link after the one before it, and the KB-JWT, if any. */
  ghost predicate ChainFits(w: World, p: Presentation, issuer: Key, opts: Options, chain: VerifiedChain) {
    && ShapeFits(p, opts) && |chain.links| == |p.links| + 1
    && (forall i :: 0 <= i < |chain.links| ==> FitsAt(w, p, issuer, opts, chain.links, i))
    && EndFits(w, p, opts, chain.links[|p.links|], chain.binding)
  }

  lemma NextExact(w: World, p: Presentation, issuer: Key, opts: Options, vs: seq<Verified>, i: nat)
    requires i <= |p.links| && i < |vs|
    ensures Step(w, p, issuer, opts)(vs[..i]) == Ok(vs[i]) <==> FitsAt(w, p, issuer, opts, vs, i)
  {
    var needed := i < |p.links| || opts.keyBinding.KbJwt?;
    if i == 0 {
      RootExact(w, p.root, issuer, opts, needed, vs[0]);
    } else {
      assert vs[..i][i - 1] == vs[i - 1];
      assert Elements(p)[i] == p.links[i - 1] && Elements(p)[i - 1] == Before(p, i);
      LinkExact(w, p.links[i - 1], vs[i - 1], Before(p, i), i == |p.links|, opts, needed, vs[i]);
    }
  }

  lemma GrowsExact(w: World, p: Presentation, issuer: Key, opts: Options, vs: seq<Verified>)
    requires |vs| == |p.links| + 1
    ensures Grows(Step(w, p, issuer, opts), vs) <==>
            forall i :: 0 <= i < |vs| ==> FitsAt(w, p, issuer, opts, vs, i)
  {
    var step := Step(w, p, issuer, opts);
    forall i | 0 <= i < |vs| ensures step(vs[..i]) == Ok(vs[i]) <==> FitsAt(w, p, issuer, opts, vs, i) {
      NextExact(w, p, issuer, opts, vs, i);
    }
  }

  lemma ShapeExact(p: Presentation, opts: Options)
    ensures CheckShape(p, opts).Ok? <==> ShapeFits(p, opts)
  {
  }

  lemma EndExact(w: World, p: Presentation, opts: Options, last: Verified, binding: Option<map<string, Json>>)
    ensures EndFits(w, p, opts, last, binding) <==>
            if p.kb.None? then binding.None?
            else opts.keyBinding.KbJwt? && binding.Some?
                 && VerifyKbJwt(w, p.kb.value, last, Elements(p)[|p.links|], opts) == Ok(binding.value)
  {
    if p.kb.Some? && opts.keyBinding.KbJwt? && binding.Some? {
      assert Elements(p)[|p.links|] == Before(p, |p.links| + 1);
      BindingExact(w, p.kb.value, last, Before(p, |p.links| + 1), opts, binding.value);
    }
  }

  /** Verification accepts a presentation, as `chain`, exactly when everything in it fits. */
  lemma AcceptedExact(w: World, p: Presentation, issuer: Key, opts: Options, chain: VerifiedChain)
    ensures Accepted(w, p, issuer, opts, chain) <==> ChainFits(w, p, issuer, opts, chain)
  {
    ShapeExact(p, opts);
    if |chain.links| == |p.links| + 1 {
      GrowsExact(w, p, issuer, opts, chain.links);
      EndExact(w, p, opts, chain.links[|p.links|], chain.binding);
    }
  }

  // ---- what it comes to

  /** Element `i` is in time, and a root or a delegation has an expiry when one is required. */
  predicate Timely(w: World, p: Presentation, opts: Options, vs: seq<Verified>, i: nat)
    requires i <= |p.links| && i < |vs|
  {
    && InTime(vs[i].claims, opts.now, opts.leeway) && InTime(vs[i].envelope, opts.now, opts.leeway)
    && (opts.requireExp && (i == 0 || !HasType(w.decode(p.links[i - 1].jwt).header, "kb+sd-jwt")) ==>
          "exp" in vs[i].claims)
  }

  lemma FitIsTimely(w: World, p: Presentation, issuer: Key, opts: Options, vs: seq<Verified>, i: nat)
    requires i <= |p.links| && i < |vs| && FitsAt(w, p, issuer, opts, vs, i)
    ensures Timely(w, p, opts, vs, i)
    ensures i == |p.links| && i > 0 && opts.keyBinding.TerminalLink? ==>
              Addressed(w.decode(p.links[i - 1].jwt).payload, opts.keyBinding.audience, opts.keyBinding.nonce, opts)
  {
  }

  /**
   Every element of an accepted presentation is in time, and what binds it at the end is in time too and
   made for this verifier and transaction.
   */
  lemma AcceptedInTime(w: World, p: Presentation, issuer: Key, opts: Options, chain: VerifiedChain)
    requires Accepted(w, p, issuer, opts, chain)
    ensures |chain.links| == |p.links| + 1
    ensures forall i :: 0 <= i < |chain.links| ==> Timely(w, p, opts, chain.links, i)
    ensures opts.keyBinding.KbJwt? ==>
              && p.kb.Some? && InTime(w.decode(p.kb.value).payload, opts.now, opts.leeway)
              && Addressed(w.decode(p.kb.value).payload, opts.keyBinding.audience, opts.keyBinding.nonce, opts)
    ensures opts.keyBinding.TerminalLink? ==>
              && p.links != []
              && Addressed(w.decode(p.links[|p.links| - 1].jwt).payload, opts.keyBinding.audience,
                           opts.keyBinding.nonce, opts)
  {
    AcceptedExact(w, p, issuer, opts, chain);
    forall i | 0 <= i < |chain.links| ensures Timely(w, p, opts, chain.links, i) {
      assert FitsAt(w, p, issuer, opts, chain.links, i);
      FitIsTimely(w, p, issuer, opts, chain.links, i);
    }
    assert FitsAt(w, p, issuer, opts, chain.links, |p.links|);
    FitIsTimely(w, p, issuer, opts, chain.links, |p.links|);
  }
}
