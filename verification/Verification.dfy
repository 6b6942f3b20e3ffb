/** Verification of a parsed presentation (crates/sdjwt/src/verify.rs). */
module Verification {
  // Signatures under the key the previous element names, `typ` by position, hash
  // bindings, disclosures, Delegate Payloads and validity.

  import opened Prelude
  import opened Json
  import Processing
  import opened Presentations

  datatype SdAlg = Sha256 | Sha384 | Sha512

  datatype Jws = Jws(header: map<string, Json>, payload: map<string, Json>)

  /** Public keys are compared and used, never inspected. */
  type Key = string

  /** Foreign code: decoding, hashing, signatures and key formats. */
  datatype World = World(
    decode: string -> Jws,
    disclosure: string -> Processing.Disclosure,
    digest: (SdAlg, string) -> string,
    keyAlg: Key -> string,
    signed: (string, Key) -> bool,
    readKey: Json -> Option<Key>)

  datatype VerifyError =
    | TooManyLinks
    | UnexpectedKeyBinding
    | MissingKeyBinding
    | WrongTyp
    | AlgorithmMismatch
    | UnsupportedHeader(name: string)
    | BadSignature
    | UnsupportedSdAlg
    | Unprocessable(kind: Processing.ErrorKind)
    | InvalidClaim(claim: string)
    | AmbiguousBinding
    | BindingMismatch(claim: string)
    | DelegatePayload
    | ReservedName(name: string)
    | MissingCnf
    | UnexpectedCnf
    | BadCnf
    | Expired
    | MissingExp
    | NotYetValid
    | AudienceMismatch
    | NonceMismatch
    | IatOutOfWindow

  datatype Position = AtRoot | AtLink(n: nat) | AtKeyBinding

  /** An error and the element it is about, if it is about one. */
  datatype Located = Located(error: VerifyError, at: Option<Position>)

  datatype KeyBinding =
    | NotRequired
    | KbJwt(audience: string, nonce: string)
    | TerminalLink(audience: string, nonce: string)

  datatype RootForm = Credential | DelegateRoot

  datatype Options = Options(
    now: int, rootTyp: seq<string>, rootForm: RootForm, keyBinding: KeyBinding,
    leeway: int, maxAge: int, maxFuture: int, requireExp: bool, maxLinks: nat)

  datatype LinkKind = Root | Delegation | Terminal

  datatype Verified = Verified(
    kind: LinkKind,
    claims: map<string, Json>,
    envelope: map<string, Json>,
    cnf: Option<Key>,
    alg: SdAlg,
    text: string)

  datatype VerifiedChain = VerifiedChain(links: seq<Verified>, binding: Option<map<string, Json>>)

  // ---- typ

  const KB_JWT := "kb+jwt"
  const KB_SD_JWT := "kb+sd-jwt"
  const KB_SD_JWT_KB := "kb-sd-jwt+kb"
  const KB_SD_JWT_KB_DRAFT_00 := "kb+sd-jwt+kb"

  function Lower(c: char): char {
    if 'A' <= c <= 'Z' then c - 'A' + 'a' else c
  }

  function Normalize(t: string): string {
    var l := seq(|t|, i requires 0 <= i < |t| => Lower(t[i]));
    if "application/" <= l then l[|"application/"|..] else l
  }

  predicate TypIn(header: map<string, Json>, allowed: seq<string>) {
    && "typ" in header && header["typ"].Str?
    && exists i :: 0 <= i < |allowed| && Normalize(allowed[i]) == Normalize(header["typ"].s)
  }

  /** `Jws::verify`: the algorithm of the key, no critical header, a good signature. */
  function VerifyJws(w: World, jwt: string, key: Key): Result<(), VerifyError> {
    var header := w.decode(jwt).header;
    if "alg" !in header || header["alg"] != Str(w.keyAlg(key)) then Err(AlgorithmMismatch)
    else if "crit" in header then Err(UnsupportedHeader("crit"))
    else if !w.signed(jwt, key) then Err(BadSignature)
    else Ok(())
  }

  // ---- claims

  function Numeric(claims: map<string, Json>, name: string): Result<Option<real>, VerifyError> {
    if name !in claims then Ok(None)
    else if claims[name].Num? then Ok(Some(claims[name].n))
    else Err(InvalidClaim(name))
  }

  function SingleString(claims: map<string, Json>, name: string): Result<string, VerifyError> {
    if name in claims && claims[name].Str? then Ok(claims[name].s) else Err(InvalidClaim(name))
  }

  function AlgOf(payload: map<string, Json>): Result<SdAlg, VerifyError> {
    if "_sd_alg" !in payload then Ok(Sha256)
    else match payload["_sd_alg"]
      case Str(name) =>
        if name == "sha-256" then Ok(Sha256)
        else if name == "sha-384" then Ok(Sha384)
        else if name == "sha-512" then Ok(Sha512)
        else Err(UnsupportedSdAlg)
      case _ => Err(InvalidClaim("_sd_alg"))
  }

  function CheckValidity(claims: map<string, Json>, opts: Options, requireExp: bool): Result<(), VerifyError> {
    var exp :- Numeric(claims, "exp");
    if exp.Some? && opts.now as real >= exp.value + opts.leeway as real then Err(Expired)
    else if exp.None? && requireExp then Err(MissingExp)
    else
      var nbf :- Numeric(claims, "nbf");
      if nbf.Some? && (opts.now + opts.leeway) as real < nbf.value then Err(NotYetValid) else Ok(())
  }

  function CheckTransaction(iat: real, aud: string, nonce: string, audience: string, expected: string,
                            opts: Options): Result<(), VerifyError> {
    if aud != audience then Err(AudienceMismatch)
    else if nonce != expected then Err(NonceMismatch)
    else if iat < (opts.now - opts.maxAge) as real || iat > (opts.now + opts.maxFuture) as real then
      Err(IatOutOfWindow)
    else Ok(())
  }

  function ReadCnf(w: World, claims: map<string, Json>, required: bool): Result<Option<Key>, VerifyError> {
    if "cnf" in claims then
      if required && w.readKey(claims["cnf"]).None? then Err(BadCnf) else Ok(w.readKey(claims["cnf"]))
    else if required then Err(MissingCnf) else Ok(None)
  }

  // ---- Delegate Payload

  predicate IsDigest(item: Json) {
    Processing.ElementDigest(item).Ok? && Processing.ElementDigest(item).value.Some?
  }

  /** Every item is a digest; the first that is not decides the error. */
  function CheckDigests(raw: seq<Json>): Result<(), VerifyError> {
    if raw == [] then Ok(())
    else match Processing.ElementDigest(raw[0])
      case Err(k) => Err(Unprocessable(k))
      case Ok(None) => Err(DelegatePayload)
      case Ok(Some(_)) => CheckDigests(raw[1..])
  }

  function CheckRawDelegatePayload(payload: map<string, Json>): Result<(), VerifyError> {
    if "delegate_payload" !in payload || !payload["delegate_payload"].Arr? then Err(DelegatePayload)
    else
      var raw := payload["delegate_payload"].items;
      if raw == [] then Err(DelegatePayload) else if |raw| > 1 then CheckDigests(raw) else Ok(())
  }

  /** The single disclosed element, and what is left of the envelope. */
  function TakeDelegatePayload(envelope: map<string, Json>)
    : Result<(map<string, Json>, map<string, Json>), VerifyError>
  {
    if "delegate_payload" !in envelope || !envelope["delegate_payload"].Arr? then Err(DelegatePayload)
    else
      var items := envelope["delegate_payload"].items;
      if |items| != 1 || !items[0].Obj? then Err(DelegatePayload)
      else if "_sd_alg" in items[0].fields then Err(ReservedName("_sd_alg"))
      else Ok((items[0].fields, envelope - {"delegate_payload"}))
  }

  // ---- hash binding

  /** Exactly one of `sd_hash` and `issuer_jwt_hash`, matching the previous element. */
  function CheckHashBinding(w: World, payload: map<string, Json>, prev: SdJwt, alg: SdAlg): Result<(), VerifyError> {
    if "sd_hash" in payload && "issuer_jwt_hash" !in payload then
      var h :- SingleString(payload, "sd_hash");
      if h != w.digest(alg, ElementText(prev)) then Err(BindingMismatch("sd_hash")) else Ok(())
    else if "sd_hash" !in payload && "issuer_jwt_hash" in payload then
      var h :- SingleString(payload, "issuer_jwt_hash");
      if h != w.digest(alg, prev.jwt) then Err(BindingMismatch("issuer_jwt_hash")) else Ok(())
    else Err(AmbiguousBinding)
  }

  // ---- elements

  /** The disclosures of an element, decoded. */
  function Opened(w: World, e: SdJwt): seq<Processing.Disclosure> {
    seq(|e.disclosures|, i requires 0 <= i < |e.disclosures| => w.disclosure(e.disclosures[i]))
  }

  function Hash(w: World, alg: SdAlg): string -> string {
    s => w.digest(alg, s)
  }

  function Claims(w: World, e: SdJwt, alg: SdAlg): Result<map<string, Json>, VerifyError> {
    match Processing.Process(w.decode(e.jwt).payload, Opened(w, e), Hash(w, alg))
    case Ok(p) => Ok(p.claims)
    case Err(k) => Err(Unprocessable(k))
  }

  function VerifyRoot(w: World, root: SdJwt, issuer: Key, opts: Options,
                      needsCnf: bool): Result<Verified, VerifyError> {
    var jws := w.decode(root.jwt);
    if !TypIn(jws.header, opts.rootTyp) then Err(WrongTyp)
    else
      var _ :- VerifyJws(w, root.jwt, issuer);
      var parts :- RootParts(w, root, opts);
      FinishRoot(w, root, parts, opts, needsCnf)
  }

  /** The claims, the envelope and the hash algorithm of a root. */
  function RootParts(w: World, root: SdJwt,
                     opts: Options): Result<(map<string, Json>, map<string, Json>, SdAlg), VerifyError> {
    var payload := w.decode(root.jwt).payload;
    var alg :- AlgOf(payload);
    var processed :- Claims(w, root, alg);
    var split :- RootClaims(payload, processed, opts);
    Ok((split.0, split.1, alg))
  }

  /** The tests of a root that follow once its claims are known. */
  function FinishRoot(w: World, root: SdJwt, parts: (map<string, Json>, map<string, Json>, SdAlg), opts: Options,
                      needsCnf: bool): (r: Result<Verified, VerifyError>)
    ensures r.Ok? ==> r.value.claims == parts.0 && r.value.envelope == parts.1 && r.value.text == ElementText(root)
    ensures r.Ok? ==> r.value.alg == parts.2
  {
    var _ :- CheckValidity(parts.0, opts, opts.requireExp);
    var cnf :- ReadCnf(w, parts.0, needsCnf);
    Ok(Verified(Root, parts.0, parts.1, cnf, parts.2, ElementText(root)))
  }

  /** The claims and the envelope of a root. */
  function RootClaims(payload: map<string, Json>, processed: map<string, Json>, opts: Options)
    : Result<(map<string, Json>, map<string, Json>), VerifyError>
  {
    if opts.rootForm.Credential? then Ok((processed, map[]))
    else
      var _ :- CheckRawDelegatePayload(payload);
      var taken :- TakeDelegatePayload(processed);
      var _ :- CheckValidity(taken.1, opts, false);
      Ok(taken)
  }

  /** The `typ` values allowed for a link. */
  function LinkTyps(opts: Options, isLast: bool): seq<string> {
    if isLast && opts.keyBinding.NotRequired? then [KB_SD_JWT, KB_SD_JWT_KB, KB_SD_JWT_KB_DRAFT_00]
    else if isLast && opts.keyBinding.TerminalLink? then [KB_SD_JWT]
    else [KB_SD_JWT_KB, KB_SD_JWT_KB_DRAFT_00]
  }

  function LinkCnf(w: World, kind: LinkKind, claims: map<string, Json>,
                   needsCnf: bool): Result<Option<Key>, VerifyError> {
    if kind.Terminal? then if "cnf" in claims then Err(UnexpectedCnf) else Ok(None)
    else if "cnf" !in claims then Err(MissingCnf)
    else ReadCnf(w, claims, needsCnf)
  }

  function LinkTime(payload: map<string, Json>, isLast: bool, opts: Options): Result<(), VerifyError>
    requires "iat" in payload && payload["iat"].Num? && "aud" in payload && payload["aud"].Str? && "nonce" in payload
               && payload["nonce"].Str?
  {
    if isLast && opts.keyBinding.TerminalLink? then
      CheckTransaction(payload["iat"].n, payload["aud"].s, payload["nonce"].s, opts.keyBinding.audience,
            opts.keyBinding.nonce, opts)
    else if payload["iat"].n > (opts.now + opts.maxFuture) as real then Err(IatOutOfWindow)
    else Ok(())
  }

  /** The Delegate Payload of a link whose binding and envelope claims are in order. */
  function LinkClaims(w: World, e: SdJwt): Result<(map<string, Json>, map<string, Json>, SdAlg), VerifyError> {
    var payload := w.decode(e.jwt).payload;
    var _ :- CheckRawDelegatePayload(payload);
    var alg :- AlgOf(payload);
    var envelope :- Claims(w, e, alg);
    var taken :- TakeDelegatePayload(envelope);
    Ok((taken.0, taken.1, alg))
  }

  /** The tests of a link that follow once its Delegate Payload is known. */
  function FinishLink(w: World, e: SdJwt, parts: (map<string, Json>, map<string, Json>, SdAlg), isLast: bool,
                      opts: Options, needsCnf: bool): (r: Result<Verified, VerifyError>)
    requires var payload := w.decode(e.jwt).payload;
             && "iat" in payload && payload["iat"].Num? && "aud" in payload && payload["aud"].Str?
             && "nonce" in payload && payload["nonce"].Str?
    ensures r.Ok? ==> r.value.claims == parts.0 && r.value.envelope == parts.1 && r.value.text == ElementText(e)
    ensures r.Ok? ==> r.value.alg == parts.2
    ensures r.Ok? ==> LinkTime(w.decode(e.jwt).payload, isLast, opts).Ok?
  {
    var jws := w.decode(e.jwt);
    var kind := if TypIn(jws.header, [KB_SD_JWT]) then Terminal else Delegation;
    var cnf :- LinkCnf(w, kind, parts.0, needsCnf);
    var _ :- CheckValidity(parts.1, opts, false);
    var _ :- CheckValidity(parts.0, opts, opts.requireExp && kind.Delegation?);
    var _ :- LinkTime(jws.payload, isLast, opts);
    Ok(Verified(kind, parts.0, parts.1, cnf, parts.2, ElementText(e)))
  }

  function VerifyLink(w: World, e: SdJwt, prev: Verified, prevElement: SdJwt, isLast: bool, opts: Options,
                      needsCnf: bool): Result<Verified, VerifyError> {
    var jws := w.decode(e.jwt);
    if !TypIn(jws.header, LinkTyps(opts, isLast)) then Err(WrongTyp)
    else if prev.cnf.None? then Err(MissingCnf)
    else
      var _ :- VerifyJws(w, e.jwt, prev.cnf.value);
      var _ :- CheckHashBinding(w, jws.payload, prevElement, prev.alg);
      var iat :- Numeric(jws.payload, "iat");
      if iat.None? then Err(InvalidClaim("iat"))
      else
        var _ :- SingleString(jws.payload, "aud");
        var _ :- SingleString(jws.payload, "nonce");
        var parts :- LinkClaims(w, e);
        FinishLink(w, e, parts, isLast, opts, needsCnf)
  }

  function VerifyKbJwt(w: World, kb: string, last: Verified, lastElement: SdJwt,
                       opts: Options): Result<map<string, Json>, VerifyError>
    requires opts.keyBinding.KbJwt?
  {
    var jws := w.decode(kb);
    if !TypIn(jws.header, [KB_JWT]) then Err(WrongTyp)
    else if last.cnf.None? then Err(MissingCnf)
    else
      var _ :- VerifyJws(w, kb, last.cnf.value);
      var h :- SingleString(jws.payload, "sd_hash");
      if h != w.digest(last.alg, ElementText(lastElement)) then Err(BindingMismatch("sd_hash"))
      else
        var iat :- Numeric(jws.payload, "iat");
        if iat.None? then Err(InvalidClaim("iat"))
        else
          var aud :- SingleString(jws.payload, "aud");
          var nonce :- SingleString(jws.payload, "nonce");
          var _ :- CheckTransaction(iat.value, aud, nonce, opts.keyBinding.audience, opts.keyBinding.nonce, opts);
          var _ :- CheckValidity(jws.payload, opts, false);
          Ok(jws.payload)
  }

  // ---- the whole presentation

  /** Does element `i` have to name the key of the next one? */
  predicate NeedsCnf(p: Presentation, opts: Options, i: nat) {
    i < |p.links| || opts.keyBinding.KbJwt?
  }

  function CheckShape(p: Presentation, opts: Options): Result<(), Located> {
    if |p.links| > opts.maxLinks then Err(Located(TooManyLinks, None))
    else match opts.keyBinding
      case NotRequired => if p.kb.Some? then Err(Located(UnexpectedKeyBinding, Some(AtKeyBinding))) else Ok(())
      case KbJwt(_, _) => if p.kb.None? then Err(Located(MissingKeyBinding, Some(AtKeyBinding))) else Ok(())
      case TerminalLink(_, _) =>
        if p.kb.Some? then Err(Located(UnexpectedKeyBinding, Some(AtKeyBinding)))
        else if p.links == [] then Err(Located(MissingKeyBinding, Some(AtRoot))) else Ok(())
  }

  /** The next element, verified against the already verified elements before it. */
  function VerifyNext(w: World, p: Presentation, issuer: Key, opts: Options,
                      links: seq<Verified>): Result<Verified, VerifyError>
    requires |links| <= |p.links|
  {
    var es, i := Elements(p), |links|;
    if i == 0 then VerifyRoot(w, es[0], issuer, opts, NeedsCnf(p, opts, 0))
    else VerifyLink(w, es[i], links[i - 1], es[i - 1], i == |p.links|, opts, NeedsCnf(p, opts, i))
  }

  function Step(w: World, p: Presentation, issuer: Key,
                opts: Options): seq<Verified> -> Result<Verified, VerifyError> {
    links => if |links| <= |p.links| then VerifyNext(w, p, issuer, opts, links) else Err(TooManyLinks)
  }

  /** Each member of `s` is what `step` makes of the members before it. */
  ghost predicate Grows<T, E>(step: seq<T> -> Result<T, E>, s: seq<T>) {
    forall i :: 0 <= i < |s| ==> step(s[..i]) == Ok(s[i])
  }

  lemma GrowsBy<T, E>(step: seq<T> -> Result<T, E>, s: seq<T>, x: T)
    requires Grows(step, s) && step(s) == Ok(x)
    ensures Grows(step, s + [x])
  {
    var t := s + [x];
    forall i | 0 <= i < |t| ensures step(t[..i]) == Ok(t[i]) { assert t[..i] == s[..i]; }
  }

  lemma {:induction false} GrowsUnique<T, E>(step: seq<T> -> Result<T, E>, a: seq<T>, b: seq<T>, n: nat)
    requires Grows(step, a) && Grows(step, b) && n <= |a| && n <= |b|
    ensures a[..n] == b[..n]
  {
    if n > 0 {
      GrowsUnique(step, a, b, n - 1);
      assert a[..n] == a[..n - 1] + [a[n - 1]] && b[..n] == b[..n - 1] + [b[n - 1]];
    }
  }

  /** `chain` is the outcome of verifying `p`: every element verifies against the one before it. */
  ghost predicate Accepted(w: World, p: Presentation, issuer: Key, opts: Options, chain: VerifiedChain) {
    && CheckShape(p, opts).Ok?
    && |chain.links| == |p.links| + 1 && Grows(Step(w, p, issuer, opts), chain.links)
    && if p.kb.None? then chain.binding.None?
       else opts.keyBinding.KbJwt? && chain.binding.Some?
            && VerifyKbJwt(w, p.kb.value, chain.links[|p.links|], Elements(p)[|p.links|], opts) ==
                 Ok(chain.binding.value)
  }

  function PositionOf(i: nat): Position {
    if i == 0 then AtRoot else AtLink(i)
  }

  /**
   `e` is the error of the first test that fails: the shape, an element after verified ones, or the
   KB-JWT after all of them.
   */
  ghost predicate Fails(w: World, p: Presentation, issuer: Key, opts: Options, e: Located) {
    || CheckShape(p, opts) == Err(e)
    || (CheckShape(p, opts).Ok? && exists links :: StopsAt(w, p, issuer, opts, links, e))
  }

  ghost predicate StopsAt(w: World, p: Presentation, issuer: Key, opts: Options, links: seq<Verified>, e: Located) {
    var n := |p.links|;
    && Grows(Step(w, p, issuer, opts), links) && |links| <= n + 1
    && if |links| <= n
       then VerifyNext(w, p, issuer, opts, links) == Err(e.error) && e.at == Some(PositionOf(|links|))
       else opts.keyBinding.KbJwt? && p.kb.Some? && e.at == Some(AtKeyBinding)
            && VerifyKbJwt(w, p.kb.value, links[n], Elements(p)[n], opts) == Err(e.error)
  }

  /** A sequence that cannot grow further is no prefix of a longer grown one. */
  lemma Stuck<T, E>(step: seq<T> -> Result<T, E>, s: seq<T>, t: seq<T>)
    requires Grows(step, s) && step(s).Err? && |s| < |t|
    ensures !Grows(step, t)
  {
    assert s[..|s|] == s;
    if Grows(step, t) { GrowsUnique(step, s, t, |s|); }
  }

  /** `verify`: grows the verified chain element by element. */
  method Verify(w: World, p: Presentation, issuer: Key, opts: Options) returns (r: Result<VerifiedChain, Located>)
    ensures r.Ok? ==> Accepted(w, p, issuer, opts, r.value)
    ensures r.Err? ==> Fails(w, p, issuer, opts, r.error)
    ensures forall chain :: Accepted(w, p, issuer, opts, chain) ==> r == Ok(chain)
  {
    var shape := CheckShape(p, opts);
    if shape.Err? { return Err(shape.error); }
    var links: seq<Verified> := [];
    ghost var step := Step(w, p, issuer, opts);
    for i := 0 to |p.links| + 1
      invariant |links| == i && Grows(step, links)
    {
      var link := VerifyNext(w, p, issuer, opts, links);
      if link.Err? {
        forall chain: VerifiedChain | |chain.links| == |p.links| + 1
          ensures !Grows(step, chain.links)
        {
          Stuck(step, links, chain.links);
        }
        assert StopsAt(w, p, issuer, opts, links, Located(link.error, Some(PositionOf(i))));
        return Err(Located(link.error, Some(PositionOf(i))));
      }
      GrowsBy(step, links, link.value);
      links := links + [link.value];
    }
    forall chain | Accepted(w, p, issuer, opts, chain) ensures chain.links == links {
      GrowsUnique(step, links, chain.links, |links|);
      assert links[..|links|] == links && chain.links[..|links|] == chain.links;
    }
    if p.kb.Some? {
      var kb := VerifyKbJwt(w, p.kb.value, links[|p.links|], Elements(p)[|p.links|], opts);
      if kb.Err? {
        assert StopsAt(w, p, issuer, opts, links, Located(kb.error, Some(AtKeyBinding)));
        return Err(Located(kb.error, Some(AtKeyBinding)));
      }
      r := Ok(VerifiedChain(links, Some(kb.value)));
    } else {
      r := Ok(VerifiedChain(links, None));
    }
  }
}
