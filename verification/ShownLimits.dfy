/** When a limit cannot be withheld: constraints in the clear (crates/authority/src/verifier.rs, mandate.rs). */
module ShownLimits {
  // The ledger key of a mandate is the hash of its JWT and does not change with the
  // disclosures presented, so a limit binds every use exactly if no opening of the JWT
  // hides it.

  import opened Prelude
  import opened Json
  import opened Constraints
  import opened Mandates
  import opened MandateParsing
  import opened Ledger
  import opened ClearClaims
  import opened ClearDelegates
  import opened Presentations
  import V = Verification

  /** `m` is what the JWT says with these disclosures. */
  predicate ReadFrom(w: V.World, read: Reader, jwt: string, ds: seq<string>, m: OpenMandate) {
    Delegated(w, jwt, ds).Ok? && ReadsAs(Delegated(w, jwt, ds).value, read, m.key, m)
  }

  /** `m` is what the JWT says with some disclosures. */
  ghost predicate SaysWithSome(w: V.World, read: Reader, jwt: string, m: OpenMandate) {
    exists ds :: ReadFrom(w, read, jwt, ds, m)
  }

  /** Every mandate under `key` comes from one JWT, each with disclosures of its own. */
  ghost predicate OneJwt(w: V.World, read: Reader, requests: seq<Request>, key: string, jwt: string) {
    forall i, k :: 0 <= i < |requests| && 0 <= k < |requests[i].opens| && requests[i].opens[k].key == key ==>
                     SaysWithSome(w, read, jwt, requests[i].opens[k])
  }

  /** The items read as `c`. */
  function ReadAs(read: Reader, c: Constraint): Json -> bool {
    x => read(x) == Some(c)
  }

  /** However the JWT is opened, the limit `c` is written in the clear. */
  ghost predicate LimitShown(w: V.World, read: Reader, jwt: string, c: Constraint) {
    JwtShows(w, jwt, "constraints", ReadAs(read, c))
  }

  lemma CarriedIfListed(claims: map<string, Json>, read: Reader, m: OpenMandate, c: Constraint)
    requires ReadsAs(claims, read, m.key, m)
    ensures c in m.constraints <==> Lists(claims, "constraints", ReadAs(read, c))
  {
    if c in m.constraints {
      var i :| 0 <= i < |m.constraints| && m.constraints[i] == c;
      assert Items(claims)[i] in claims["constraints"].items && ReadAs(read, c)(Items(claims)[i]);
    }
    if Lists(claims, "constraints", ReadAs(read, c)) {
      var x :| x in Items(claims) && ReadAs(read, c)(x);
      var i :| 0 <= i < |Items(claims)| && Items(claims)[i] == x;
      assert m.constraints[i] == c;
    }
  }

  /** A limit in the clear is shown in every use, whatever is disclosed. */
  lemma ClearAlwaysCarried(w: V.World, read: Reader, requests: seq<Request>, key: string, jwt: string, c: Constraint)
    requires OneJwt(w, read, requests, key, jwt) && LimitShown(w, read, jwt, c)
    ensures AlwaysCarries(requests, key, c)
  {
    forall i, k | 0 <= i < |requests| && 0 <= k < |requests[i].opens| && requests[i].opens[k].key == key
      ensures c in requests[i].opens[k].constraints
    {
      var ds :| ReadFrom(w, read, jwt, ds, requests[i].opens[k]);
      LinkLists(w, jwt, ds, "constraints", ReadAs(read, c));
      CarriedIfListed(Delegated(w, jwt, ds).value, read, requests[i].opens[k], c);
    }
  }

  /** With nothing disclosed inside, the JWT still reads as a mandate, whose limits are clear or digests. */
  ghost predicate ReadsBare(w: V.World, read: Reader, jwt: string) {
    forall bare, fields :: OpensTo(w, jwt, bare, fields) ==>
                             SimpleList(fields, "constraints") && exists m :: ReadFrom(w, read, jwt, bare, m)
  }

  /** The run of one request, `r` with nothing but `m` above it. */
  lemma OneUse(w: V.World, read: Reader, key: string, jwt: string, ds: seq<string>, m: OpenMandate, r: Request,
               c: Constraint)
    requires ReadFrom(w, read, jwt, ds, m)
    ensures var run := [r.(opens := [m.(key := key)])];
            OneJwt(w, read, run, key, jwt) && (AlwaysCarries(run, key, c) ==> c in m.constraints)
  {
    var run := [r.(opens := [m.(key := key)])];
    assert run[0].opens[0].key == key && run[0].opens[0].constraints == m.constraints;
    assert ReadFrom(w, read, jwt, ds, run[0].opens[0]);
  }

  /** Such a mandate shows a limit in every use of every run exactly when the limit is in the clear. */
  lemma AlwaysCarriedExact(w: V.World, read: Reader, key: string, jwt: string, c: Constraint, r: Request)
    requires ReadsBare(w, read, jwt)
    ensures (forall requests :: OneJwt(w, read, requests, key, jwt) ==> AlwaysCarries(requests, key, c))
            <==> LimitShown(w, read, jwt, c)
  {
    if LimitShown(w, read, jwt, c) {
      forall requests | OneJwt(w, read, requests, key, jwt) ensures AlwaysCarries(requests, key, c) {
        ClearAlwaysCarried(w, read, requests, key, jwt, c);
      }
    }
    if forall requests :: OneJwt(w, read, requests, key, jwt) ==> AlwaysCarries(requests, key, c) {
      forall bare, fields | OpensTo(w, jwt, bare, fields)
        ensures ClearlyLists(fields, "constraints", ReadAs(read, c))
      {
        var m :| ReadFrom(w, read, jwt, bare, m);
        OneUse(w, read, key, jwt, bare, m, r, c);
        CarriedIfListed(Delegated(w, jwt, bare).value, read, m, c);
        BareShows(w, jwt, bare, fields, "constraints", ReadAs(read, c));
      }
    }
  }

  /** A budget in the clear holds over every run, with no assumption about what is disclosed. */
  lemma ClearBudgetHolds(w: V.World, read: Reader, requests: seq<Request>, key: string, jwt: string, max: nat,
                         currency: string)
    requires OneJwt(w, read, requests, key, jwt) && LimitShown(w, read, jwt, Budget(max, currency))
    ensures Spent(Run(requests).log, key) <= max
  {
    ClearAlwaysCarried(w, read, requests, key, jwt, Budget(max, currency));
    BudgetHolds(requests, key, max, currency);
  }

  lemma ClearOccurrencesHold(w: V.World, read: Reader, requests: seq<Request>, key: string, jwt: string, f: Frequency,
                             max: nat)
    requires OneJwt(w, read, requests, key, jwt) && LimitShown(w, read, jwt, AgentRecurrence(f, Some(max)))
    ensures Uses(Run(requests).log, key) <= max
  {
    ClearAlwaysCarried(w, read, requests, key, jwt, AgentRecurrence(f, Some(max)));
    OccurrencesHold(requests, key, f, max);
  }
}
