/** Issuance is undone by processing, as built and as signed (crates/sdjwt/src/conceal.rs, sdjwt.rs). */
module Issuing {
  import opened Json
  import opened Strings
  import opened Processing
  import opened SdTree
  import opened Walk
  import opened Landing
  import opened Restriction
  import opened Grafting
  import opened Conceal
  import opened RoundTrip

  /**
   Conceal then process is the identity: for every claim set, every choice of
   pointers and decoys that `build` accepts, no step panics and processing the
   payload with all disclosures yields exactly the claims that went in.
   */
  lemma ConcealThenProcess(src: Source, claims: map<string, Json>, concealed: seq<string>, decoys: seq<(string, nat)>)
    requires Build(src, claims, concealed, decoys).Ok?
    requires NoRepeats(Build(src, claims, concealed, decoys).value.b.minted)
    ensures var o := Build(src, claims, concealed, decoys).value;
            && o.Done? && o.b.doc.Obj?
            && Process(o.b.doc.fields, o.b.ds, src.hash).Ok?
            && Process(o.b.doc.fields, o.b.ds, src.hash).value.claims == claims
  {
    var t := BuildReads(src, claims, concealed, decoys);
    var b := Build(src, claims, concealed, decoys).value.b;
    ProcessReads(src.hash, b.doc.fields, b.ds, t);
    MapPutBack(claims, "_sd_alg");
  }

  // ---- the signer adds `_sd_alg` at the top, which keeps the tree of the payload

  function AddMember(ms: Members, name: string, t: Tree): Members {
    if ms.NoMembers? || Before(name, ms.name) then Members(name, t, ms)
    else Members(ms.name, ms.t, AddMember(ms.rest, name, t))
  }

  lemma MapSwap<K, V>(m: map<K, V>, n: K, v: V, k: K, w: V)
    requires n != k
    ensures map[n := v] + (map[k := w] + m) == map[k := w] + (map[n := v] + m)
    ensures m[k := w][n := v] == m[n := v][k := w]
  {
  }

  lemma {:induction false} AddMemberReads(tab: Table, ms: Members, name: string, v: Json)
    requires FitsMembers(tab, ms) && DistinctMembers(ms) && name !in Names(ms)
    requires name != "_sd" && name != "..." && Scalar(v)
    ensures var after := AddMember(ms, name, Leaf(v));
            && FitsMembers(tab, after) && DistinctMembers(after)
            && MembersDigests(after) == MembersDigests(ms)
            && PlainMembers(after) == map[name := v] + PlainMembers(ms)
            && EncodeMembers(after) == EncodeMembers(ms)[name := v]
            && RevealedMembers(after) == RevealedMembers(ms)
  {
    if !(ms.NoMembers? || Before(name, ms.name)) {
      assert ms.name == Names(ms)[0] && Names(ms)[1..] == Names(ms.rest);
      AddMemberReads(tab, ms.rest, name, v);
      MapSwap(PlainMembers(ms.rest), ms.name, Plain(ms.t), name, v);
      MapSwap(EncodeMembers(ms.rest), ms.name, Encode(ms.t), name, v);
    }
  }

  lemma {:induction false} AddMemberOrder(ms: Members, name: string, t: Tree)
    requires Increasing(Names(ms)) && name !in Names(ms)
    ensures Increasing(Names(AddMember(ms, name, t)))
    ensures forall k :: k in Names(AddMember(ms, name, t)) <==> k == name || k in Names(ms)
  {
    var ns := Names(ms);
    if ms.NoMembers? || Before(name, ms.name) {
      forall i | 0 <= i < |ns| ensures Before(name, ns[i]) {
        if i > 0 { BeforeTransitive(name, ns[0], ns[i]); }
      }
    } else {
      assert ns[0] == ms.name && ns[1..] == Names(ms.rest);
      AddMemberOrder(ms.rest, name, t);
      var rest := Names(AddMember(ms.rest, name, t));
      BeforeTotal(name, ms.name);
      forall j | 0 <= j < |rest| ensures Before(ms.name, rest[j]) {
        if rest[j] != name {
          assert rest[j] in ns[1..];
          var i :| 0 <= i < |ns[1..]| && ns[1..][i] == rest[j];
          assert ns[i + 1] == rest[j];
        }
      }
    }
  }

  lemma AddMemberInOrder(ms: Members, name: string, t: Tree)
    requires Names(ms) == InOrder(PlainMembers(ms).Keys) && name !in PlainMembers(ms)
    ensures var after := AddMember(ms, name, t); Names(after) == InOrder(PlainMembers(after).Keys)
    ensures name !in Names(ms)
  {
    MemberNames(ms);
    AddMemberOrder(ms, name, t);
    var after := AddMember(ms, name, t);
    MemberNames(after);
    InOrderUnique(Names(after), PlainMembers(after).Keys);
  }

  /** The tree of the payload with a scalar member added at the top. */
  function TreeWith(t: Tree, name: string, v: Json): Tree
    requires t.ObjT?
  {
    ObjT(AddMember(t.members, name, Leaf(v)), t.hasSd, t.slots)
  }

  predicate Addable(tab: Table, t: Tree, name: string, v: Json) {
    && t.ObjT? && Fits(tab, t) && Distinct(t)
    && name !in PlainMembers(t.members) && name !in PlainSlots(t.slots)
    && name != "_sd" && name != "..." && Scalar(v)
  }

  lemma TreeWithFits(tab: Table, t: Tree, name: string, v: Json)
    requires Addable(tab, t, name, v)
    ensures Fits(tab, TreeWith(t, name, v))
  {
    AddMemberInOrder(t.members, name, Leaf(v));
    AddMemberReads(tab, t.members, name, v);
    KeysPut(PlainMembers(t.members), name, v);
    FitsSlotsTaken(tab, t.slots, PlainMembers(t.members).Keys, name);
  }

  lemma TreeWithDigests(tab: Table, t: Tree, name: string, v: Json)
    requires Addable(tab, t, name, v)
    ensures var r := TreeWith(t, name, v); Distinct(r) && Digests(r) == Digests(t) && Revealed(r) == Revealed(t)
  {
    MemberNames(t.members);
    AddMemberReads(tab, t.members, name, v);
  }

  lemma TreeWithEncoded(tab: Table, t: Tree, name: string, v: Json)
    requires Addable(tab, t, name, v)
    ensures Encode(TreeWith(t, name, v)) == Obj(Encode(t).fields[name := v])
  {
    AddMemberInOrder(t.members, name, Leaf(v));
    AddMemberReads(tab, t.members, name, v);
    MapPutSwap(EncodeMembers(t.members), "_sd", Arr(DigestList(t.slots)), name, v);
  }

  lemma TreeWithPlain(tab: Table, t: Tree, name: string, v: Json)
    requires Addable(tab, t, name, v)
    ensures Plain(TreeWith(t, name, v)).fields - {name} == Plain(t).fields
  {
    AddMemberInOrder(t.members, name, Leaf(v));
    AddMemberReads(tab, t.members, name, v);
    DropAdded(PlainMembers(t.members), PlainSlots(t.slots), name, v);
  }

  lemma KeysPut<K, V>(m: map<K, V>, k: K, v: V)
    ensures (map[k := v] + m).Keys == m.Keys + {k}
  {
  }

  lemma DropAdded<K, V>(a: map<K, V>, b: map<K, V>, k: K, v: V)
    requires k !in a && k !in b
    ensures ((map[k := v] + a) + b) - {k} == a + b
  {
  }

  /**
   The signed payload processes to the same claims: `_sd_alg` is added by the signer and removed by
   the verifier.
   */
  lemma SignedThenProcess(src: Source, claims: map<string, Json>, concealed: seq<string>, decoys: seq<(string, nat)>,
                          alg: string)
    requires Build(src, claims, concealed, decoys).Ok?
    requires NoRepeats(Build(src, claims, concealed, decoys).value.b.minted)
    ensures var o := Build(src, claims, concealed, decoys).value;
            && o.Done? && o.b.doc.Obj?
            && Process(o.b.doc.fields["_sd_alg" := Str(alg)], o.b.ds, src.hash).Ok?
            && Process(o.b.doc.fields["_sd_alg" := Str(alg)], o.b.ds, src.hash).value.claims == claims
  {
    var t := BuildReads(src, claims, concealed, decoys);
    var b := Build(src, claims, concealed, decoys).value.b;
    var tab := Tabulate(src.hash, b.ds).value;
    assert Plain(t).fields == PlainMembers(t.members) + PlainSlots(t.slots);
    var r := TreeWith(t, "_sd_alg", Str(alg));
    TreeWithFits(tab, t, "_sd_alg", Str(alg));
    TreeWithDigests(tab, t, "_sd_alg", Str(alg));
    TreeWithEncoded(tab, t, "_sd_alg", Str(alg));
    TreeWithPlain(tab, t, "_sd_alg", Str(alg));
    PlacesRevealed(tab, t, []);
    PlacesRevealed(tab, r, []);
    ProcessReads(src.hash, b.doc.fields["_sd_alg" := Str(alg)], b.ds, r);
  }
}
