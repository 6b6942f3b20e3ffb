/** Digests made during issuance do not coincide (crates/sdjwt/src/conceal.rs, disclosure.rs). */
module Minting {
  import opened Json
  import opened Processing
  import opened Conceal
  import opened RoundTrip
  import Issuing

  /**
   Salts are fresh, a disclosure's text determines its salt, no salt is the text of a
   disclosure, and the hash does not collide.
   */
  ghost predicate Ideal(src: Source) {
    && (forall x, y :: src.hash(x) == src.hash(y) ==> x == y)
    && (forall i: nat, j: nat :: src.salt(i) == src.salt(j) ==> i == j)
    && (forall s, t, m, n, v, u :: src.encode(s, m, v) == src.encode(t, n, u) ==> s == t)
    && (forall i: nat, s, n, v :: src.salt(i) != src.encode(s, n, v))
  }

  /** `digest` was made from the `k`-th salt. */
  ghost predicate MintedFrom(src: Source, digest: string, k: nat) {
    digest == src.Decoy(k) || exists n, v :: digest == src.DigestOf(src.Mint(k, n, v))
  }

  /** One digest per salt, in order. */
  ghost predicate InSalts(src: Source, b: Building) {
    |b.minted| == b.used && forall i :: 0 <= i < |b.minted| ==> MintedFrom(src, b.minted[i], i)
  }

  lemma HideInSalts(src: Source, path: Path, b: Building)
    requires InSalts(src, b)
    ensures InSalts(src, HideAt(src, path, b).b)
  {
  }

  lemma DecoyInSalts(src: Source, path: Path, b: Building)
    requires InSalts(src, b)
    ensures InSalts(src, DecoyAt(src, path, b).b)
  {
  }

  lemma {:induction false} RunInSalts(src: Source, ops: seq<Op>, b: Building)
    requires InSalts(src, b)
    ensures InSalts(src, Run(src, ops, b).b)
    decreases |ops|, if ops != [] && ops[0].Decoys? then ops[0].count else 0
  {
    if ops != [] {
      match ops[0]
      case Hide(path) =>
        HideInSalts(src, path, b);
        var o := HideAt(src, path, b);
        if o.Done? { RunInSalts(src, ops[1..], o.b); }
      case Decoys(path, count) =>
        if count == 0 {
          RunInSalts(src, ops[1..], b);
        } else {
          DecoyInSalts(src, path, b);
          var o := DecoyAt(src, path, b);
          if o.Done? { RunInSalts(src, [Decoys(path, count - 1)] + ops[1..], o.b); }
        }
    }
  }

  lemma SaltsApart(src: Source, x: string, i: nat, y: string, j: nat)
    requires Ideal(src) && MintedFrom(src, x, i) && MintedFrom(src, y, j) && i != j
    ensures x != y
  {
  }

  /** Under an ideal source no two digests coincide. */
  lemma MintedDistinct(src: Source, claims: map<string, Json>, concealed: seq<string>, decoys: seq<(string, nat)>)
    requires Ideal(src) && Build(src, claims, concealed, decoys).Ok?
    ensures NoRepeats(Build(src, claims, concealed, decoys).value.b.minted)
  {
    var doc := Obj(claims);
    var ops := SortOps(HideOps(doc, concealed).value + DecoyOps(doc, decoys).value);
    var start := Building(doc, [], [], 0);
    RunInSalts(src, ops, start);
    var minted := Run(src, ops, start).b.minted;
    forall i, j | 0 <= i < j < |minted| ensures minted[i] != minted[j] {
      SaltsApart(src, minted[i], i, minted[j], j);
    }
  }

  /** Conceal then process is the identity, from the assumptions on salts, texts and the hash alone. */
  lemma IdealRoundTrip(src: Source, claims: map<string, Json>, concealed: seq<string>, decoys: seq<(string, nat)>)
    requires Ideal(src) && Build(src, claims, concealed, decoys).Ok?
    ensures var o := Build(src, claims, concealed, decoys).value;
            && o.Done? && o.b.doc.Obj?
            && Process(o.b.doc.fields, o.b.ds, src.hash).Ok?
            && Process(o.b.doc.fields, o.b.ds, src.hash).value.claims == claims
  {
    MintedDistinct(src, claims, concealed, decoys);
    Issuing.ConcealThenProcess(src, claims, concealed, decoys);
  }
}
