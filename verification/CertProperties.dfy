/** What reconciling an instance's certificates does to them, to their secrets and to other instances' ones. */
module CertProperties {
  import opened Ordering
  import opened CertRequests
  import opened CertReconcile

  predicate AsksFor(i: Instance, r: Request, n: string) {
    NameFor(i.name, r) == n
  }

  predicate Asked(i: Instance, reqs: seq<Request>, n: string) {
    exists r :: r in reqs && AsksFor(i, r, n)
  }

  /** Some request for the name wants another spec than the certificate has. */
  predicate Differs(spec: CertSpec, i: Instance, issuers: Issuers, reqs: seq<Request>, n: string) {
    exists r :: r in reqs && AsksFor(i, r, n) && Made(i, issuers, r).spec != spec
  }

  /** The last request for the name. */
  function LastAsked(i: Instance, reqs: seq<Request>, n: string): (r: Option<Request>)
    ensures r.Some? <==> Asked(i, reqs, n)
    ensures r.Some? ==> r.value in reqs && AsksFor(i, r.value, n)
  {
    if reqs == [] then None
    else
      var rest, last := reqs[..|reqs| - 1], reqs[|reqs| - 1];
      assert reqs == rest + [last];
      if AsksFor(i, last, n) then Some(last) else LastAsked(i, rest, n)
  }

  /**
    What becomes of a certificate that is there: the last request's spec and, if some request wanted another, the
    instance as its only owner and the label the instance gives. Its readiness stays.
   */
  ghost predicate Became(cert: Cert, now: Cert, i: Instance, issuers: Issuers, reqs: seq<Request>, n: string) {
    && now.ready == cert.ready
    && (!Differs(cert.spec, i, issuers, reqs, n) ==> now == cert)
    && (Differs(cert.spec, i, issuers, reqs, n) ==>
          now.owners == {i.name} && n == i.name + "-" + now.certName)
    && (Asked(i, reqs, n) ==> now.spec == Made(i, issuers, LastAsked(i, reqs, n).value).spec)
  }

  lemma AskedMore(i: Instance, issuers: Issuers, rest: seq<Request>, r: Request, n: string, spec: CertSpec)
    ensures Asked(i, rest + [r], n) <==> Asked(i, rest, n) || AsksFor(i, r, n)
    ensures LastAsked(i, rest + [r], n) == if AsksFor(i, r, n) then Some(r) else LastAsked(i, rest, n)
    ensures Differs(spec, i, issuers, rest + [r], n) <==>
      Differs(spec, i, issuers, rest, n) || (AsksFor(i, r, n) && Made(i, issuers, r).spec != spec)
  {
    var reqs := rest + [r];
    assert reqs[..|reqs| - 1] == rest && reqs[|reqs| - 1] == r;
    assert forall q :: q in reqs <==> q in rest || q == r;
  }

  lemma BecameMore(
      cert: Cert, now: Cert, i: Instance, issuers: Issuers, rest: seq<Request>, r: Request, n: string)
    requires Became(cert, now, i, issuers, rest, n)
    ensures !AsksFor(i, r, n) ==> Became(cert, now, i, issuers, rest + [r], n)
    ensures AsksFor(i, r, n) ==>
      Became(cert, Upserted(map[n := now], n, Made(i, issuers, r))[n], i, issuers, rest + [r], n)
  {
    AskedMore(i, issuers, rest, r, n, cert.spec);
    AskedMore(i, issuers, rest, r, n, now.spec);
  }

  lemma UpsertMore(
      certs: map<string, Cert>, i: Instance, issuers: Issuers, rest: seq<Request>, r: Request, n: string)
    requires UpsertedAt(certs, AllUpserted(certs, i, issuers, rest), i, issuers, rest, n)
    ensures UpsertedAt(certs, AllUpserted(certs, i, issuers, rest + [r]), i, issuers, rest + [r], n)
  {
    var before := AllUpserted(certs, i, issuers, rest);
    assert (rest + [r])[..|rest|] == rest;
    AskedMore(i, issuers, rest, r, n, Made(i, issuers, r).spec);
    if n in certs {
      BecameMore(certs[n], before[n], i, issuers, rest, r, n);
    }
  }

  /** What the upserts make of one name. */
  ghost predicate UpsertedAt(
      certs: map<string, Cert>, now: map<string, Cert>, i: Instance, issuers: Issuers, reqs: seq<Request>, n: string) {
    && (n in now <==> n in certs || Asked(i, reqs, n))
    && (n in certs ==> Became(certs[n], now[n], i, issuers, reqs, n))
  }

  lemma {:induction false} UpsertsAt(
      certs: map<string, Cert>, i: Instance, issuers: Issuers, reqs: seq<Request>, n: string)
    ensures UpsertedAt(certs, AllUpserted(certs, i, issuers, reqs), i, issuers, reqs, n)
  {
    if reqs != [] {
      var rest, r := reqs[..|reqs| - 1], reqs[|reqs| - 1];
      UpsertsAt(certs, i, issuers, rest, n);
      UpsertMore(certs, i, issuers, rest, r, n);
      assert reqs == rest + [r];
    }
  }

  lemma WantedIsAsked(i: Instance, reqs: seq<Request>, n: string)
    requires Arranged(Groups(i), reqs)
    ensures n in Wanted(i) <==> Asked(i, reqs, n)
  {
  }

  lemma TurnKeepsNames(
      certs: map<string, Cert>, secrets: map<string, Secret>, i: Instance, issuers: Issuers, r: Request,
      res: Result<Cert>, now: map<string, Cert>, nowSecrets: map<string, Secret>)
    requires Turned(certs, secrets, i, issuers, r, res, now, nowSecrets)
    ensures certs.Keys <= now.Keys
  {
  }

  /** No turn of a pass, whatever it answers, has lost a requested certificate that was there before the pass. */
  lemma RequestedIsNeverRemoved(
      certs: map<string, Cert>, secrets: map<string, Secret>, i: Instance, issuers: Issuers, reqs: seq<Request>,
      k: nat, res: Result<Cert>, now: map<string, Cert>, nowSecrets: map<string, Secret>, n: string)
    requires k < |reqs| && n in certs && n in Wanted(i)
    requires Turned(AllUpserted(certs - Stale(certs, i), i, issuers, reqs[..k]), secrets,
                    i, issuers, reqs[k], res, now, nowSecrets)
    ensures n in now
  {
    var kept := certs - Stale(certs, i);
    var before := AllUpserted(kept, i, issuers, reqs[..k]);
    TurnKeepsNames(before, secrets, i, issuers, reqs[k], res, now, nowSecrets);
    assert n in before by {
      UpsertsAt(kept, i, issuers, reqs[..k], n);
    }
  }

  // ---------- Owned certificates are the requested ones ----------

  ghost function Owned(certs: map<string, Cert>, instance: string): set<string> {
    set n | n in certs && instance in certs[n].owners
  }

  /** A certificate somebody else made under a requested name, that already reads as asked: it is never taken over. */
  ghost predicate Holdout(certs: map<string, Cert>, i: Instance, issuers: Issuers, reqs: seq<Request>, n: string) {
    n in Wanted(i) && n in certs && i.name !in certs[n].owners && !Differs(certs[n].spec, i, issuers, reqs, n)
  }

  lemma OwnedAt(certs: map<string, Cert>, i: Instance, issuers: Issuers, reqs: seq<Request>, n: string)
    requires Arranged(Groups(i), reqs) && AllServed(certs - Stale(certs, i), i, issuers, reqs)
    ensures n in Owned(AllUpserted(certs - Stale(certs, i), i, issuers, reqs), i.name) <==>
            n in Wanted(i) && !Holdout(certs, i, issuers, reqs, n)
  {
    var kept := certs - Stale(certs, i);
    UpsertsAt(kept, i, issuers, reqs, n);
    WantedIsAsked(i, reqs, n);
    if Asked(i, reqs, n) {
      var r :| r in reqs && AsksFor(i, r, n);
      var k :| 0 <= k < |reqs| && reqs[k] == r;
      assert Served(kept, i, issuers, reqs[k]);
    }
  }

  /** After a pass that succeeds, the instance owns what it asks for exactly when nobody else holds some of it. */
  lemma OwnedIsWantedIff(certs: map<string, Cert>, i: Instance, issuers: Issuers, reqs: seq<Request>)
    requires Arranged(Groups(i), reqs) && AllServed(certs - Stale(certs, i), i, issuers, reqs)
    ensures var now := AllUpserted(certs - Stale(certs, i), i, issuers, reqs);
            && Owned(now, i.name) <= Wanted(i) <= now.Keys
            && (Owned(now, i.name) == Wanted(i) <==> forall n :: !Holdout(certs, i, issuers, reqs, n))
  {
    var now := AllUpserted(certs - Stale(certs, i), i, issuers, reqs);
    forall n
      ensures n in Owned(now, i.name) <==> n in Wanted(i) && !Holdout(certs, i, issuers, reqs, n)
      ensures n in Wanted(i) ==> n in now
    {
      OwnedAt(certs, i, issuers, reqs, n);
      UpsertsAt(certs - Stale(certs, i), i, issuers, reqs, n);
      WantedIsAsked(i, reqs, n);
    }
  }

  // ---------- What a certificate says ----------

  lemma LastAskedIsLast(i: Instance, reqs: seq<Request>, k: nat)
    requires k < |reqs| && forall l :: k < l < |reqs| ==> NameFor(i.name, reqs[l]) != NameFor(i.name, reqs[k])
    ensures LastAsked(i, reqs, NameFor(i.name, reqs[k])) == Some(reqs[k])
    decreases |reqs|
  {
    if k < |reqs| - 1 {
      LastAskedIsLast(i, reqs[..|reqs| - 1], k);
    }
  }

  /**
    After a pass that succeeds, the certificate of a requested name says what the last request of that name does:
    its DNS names and addresses, its first DNS name as common name, its issuer; and what the instance customises,
    unless the request ignores that.
   */
  lemma CertificateSays(
      certs: map<string, Cert>, i: Instance, issuers: Issuers, reqs: seq<Request>, k: nat)
    requires AllServed(certs - Stale(certs, i), i, issuers, reqs)
    requires k < |reqs| && forall l :: k < l < |reqs| ==> NameFor(i.name, reqs[l]) != NameFor(i.name, reqs[k])
    ensures var now, n, r := AllUpserted(certs - Stale(certs, i), i, issuers, reqs), NameFor(i.name, reqs[k]), reqs[k];
            && n in now
            && var spec := now[n].spec;
            && spec.dnsNames == r.dnsNames && spec.ipAddresses == r.ipAddresses
            && spec.commonName == (if |r.dnsNames| > 0 then r.dnsNames[0] else "")
            && Some(spec.issuer) == issuers(r.issuer)
            && spec.secretName == n && n == i.name + "-" + spec.certName && spec.instance == i.name
            && (if i.custom.Some? && !r.ignoreCertificateSpec then
                  && spec.custom.subject == i.custom.value.subject
                  && spec.custom.privateKey == i.custom.value.privateKey
                  && spec.custom.historyLimit == i.custom.value.historyLimit
                else
                  spec.custom.subject == None && spec.custom.privateKey == None && spec.custom.historyLimit == None)
  {
    var kept, n := certs - Stale(certs, i), NameFor(i.name, reqs[k]);
    LastAskedIsLast(i, reqs, k);
    assert reqs[k] in reqs && AsksFor(i, reqs[k], n);
    SpecOfLast(kept, i, issuers, reqs, reqs[k]);
    assert Served(kept, i, issuers, reqs[k]);
  }

  /** So for a group that shares its certificate's name with no other, they are all its inputs ask for. */
  lemma CertificateSaysGroup(
      certs: map<string, Cert>, i: Instance, issuers: Issuers, reqs: seq<Request>, k: Key)
    requires Arranged(Groups(i), reqs) && AllServed(certs - Stale(certs, i), i, issuers, reqs)
    requires i.dynamic.Some? && k in Groups(i)
    requires forall g :: g in Groups(i).Values && g != Groups(i)[k] ==>
               NameFor(i.name, g) != NameFor(i.name, Groups(i)[k])
    ensures var now, n := AllUpserted(certs - Stale(certs, i), i, issuers, reqs), NameFor(i.name, Groups(i)[k]);
            var members, ctx := Members(Inputs(i.dynamic.value), k), Context(i.name, i.zone);
            && n in now
            && now[n].spec.ipAddresses == AllAddresses(members)
            && now[n].spec.dnsNames == NamesOfGroup(ctx, members, FirstIsListed(i.dynamic.value, k))
  {
    var g := Groups(i)[k];
    assert g in reqs;
    var at :| 0 <= at < |reqs| && reqs[at] == g;
    ArrangedIsSorted(reqs);
    forall l | at < l < |reqs|
      ensures NameFor(i.name, reqs[l]) != NameFor(i.name, reqs[at])
    {
      assert reqs[l] in reqs && reqs[l] != reqs[at];
    }
    CertificateSays(certs, i, issuers, reqs, at);
    GroupIsItsMembers(Context(i.name, i.zone), i.dynamic.value, k);
  }

  /** What a request's certificate is named: its name or, for lack of one, its issuer in lower case, dots as dashes. */
  lemma CertificateIsNamed(instance: string, r: Request)
    ensures r.name != "" ==> NameFor(instance, r) == instance + "-" + r.name
    ensures r.name == "" ==>
      && |Slug(r.issuer)| == |r.issuer| && NameFor(instance, r) == instance + "-" + ("cert-manager-" + Slug(r.issuer))
      && forall j :: 0 <= j < |r.issuer| ==>
           Slug(r.issuer)[j] ==
             (if r.issuer[j] == '.' then '-'
              else if 'A' <= r.issuer[j] <= 'Z' then (r.issuer[j] as int + 32) as char
              else r.issuer[j])
  {
  }

  // ---------- Whether passes settle ----------

  ghost predicate AsAsked(certs: map<string, Cert>, i: Instance, issuers: Issuers, reqs: seq<Request>) {
    forall r :: r in reqs ==> NameFor(i.name, r) in certs && certs[NameFor(i.name, r)].spec == Made(i, issuers, r).spec
  }

  lemma {:induction false} NoWritesIff(certs: map<string, Cert>, i: Instance, issuers: Issuers, reqs: seq<Request>)
    ensures Writes(certs, i, issuers, reqs) == 0 <==> AsAsked(certs, i, issuers, reqs)
    ensures Writes(certs, i, issuers, reqs) == 0 ==> AllUpserted(certs, i, issuers, reqs) == certs
  {
    if reqs != [] {
      var rest, r := reqs[..|reqs| - 1], reqs[|reqs| - 1];
      assert reqs == rest + [r];
      NoWritesIff(certs, i, issuers, rest);
      assert AsAsked(certs, i, issuers, reqs) <==>
             AsAsked(certs, i, issuers, rest) && !Changes(certs, NameFor(i.name, r), Made(i, issuers, r));
    }
  }

  /** Requests for the same certificate want the same of it. */
  ghost predicate Agree(i: Instance, issuers: Issuers, reqs: seq<Request>) {
    forall r, q :: r in reqs && q in reqs && NameFor(i.name, r) == NameFor(i.name, q) ==>
      Made(i, issuers, r).spec == Made(i, issuers, q).spec
  }

  /** A pass that succeeds leaves nothing for the next one to remove. */
  lemma NothingStaleAfter(certs: map<string, Cert>, i: Instance, issuers: Issuers, reqs: seq<Request>)
    requires Arranged(Groups(i), reqs) && AllServed(certs - Stale(certs, i), i, issuers, reqs)
    ensures Stale(AllUpserted(certs - Stale(certs, i), i, issuers, reqs), i) == {}
  {
    var kept := certs - Stale(certs, i);
    var now := AllUpserted(kept, i, issuers, reqs);
    forall n | n in now && n !in Wanted(i)
      ensures now[n].certName != i.name && i.name !in now[n].owners
    {
      UpsertsAt(kept, i, issuers, reqs, n);
      WantedIsAsked(i, reqs, n);
      assert n in kept && n !in Stale(certs, i);
    }
  }

  /**
    After a pass that succeeds, another one succeeds too, and it writes nothing exactly when no two requests
    share a name and disagree. When they do, every pass rewrites the certificate from one to the other and back.
   */
  lemma SecondPassIsIdleIff(certs: map<string, Cert>, i: Instance, issuers: Issuers, reqs: seq<Request>)
    requires Arranged(Groups(i), reqs) && AllServed(certs - Stale(certs, i), i, issuers, reqs)
    ensures var now := AllUpserted(certs - Stale(certs, i), i, issuers, reqs);
            && Stale(now, i) == {}
            && AllServed(now, i, issuers, reqs)
            && (Writes(now, i, issuers, reqs) == 0 <==> Agree(i, issuers, reqs))
  {
    var kept := certs - Stale(certs, i);
    var now := AllUpserted(kept, i, issuers, reqs);
    NothingStaleAfter(certs, i, issuers, reqs);
    UpsertsKeepServed(kept, i, issuers, reqs);
    forall k | 0 <= k < |reqs|
      ensures Served(now, i, issuers, reqs[k])
    {
      assert Served(kept, i, issuers, reqs[k]);
    }
    NoWritesIff(now, i, issuers, reqs);
    forall r | r in reqs
      ensures NameFor(i.name, r) in now
      ensures LastAsked(i, reqs, NameFor(i.name, r)).Some?
      ensures now[NameFor(i.name, r)].spec == Made(i, issuers, LastAsked(i, reqs, NameFor(i.name, r)).value).spec
    {
      SpecOfLast(kept, i, issuers, reqs, r);
    }
    AgreeIffLast(now, i, issuers, reqs);
  }

  lemma SpecOfLast(kept: map<string, Cert>, i: Instance, issuers: Issuers, reqs: seq<Request>, r: Request)
    requires AllServed(kept, i, issuers, reqs) && r in reqs
    ensures var n, now := NameFor(i.name, r), AllUpserted(kept, i, issuers, reqs);
            && n in now && LastAsked(i, reqs, n).Some?
            && now[n].spec == Made(i, issuers, LastAsked(i, reqs, n).value).spec
  {
    var n := NameFor(i.name, r);
    assert AsksFor(i, r, n) && Asked(i, reqs, n);
    var k :| 0 <= k < |reqs| && reqs[k] == r;
    assert Served(kept, i, issuers, reqs[k]);
    UpsertsAt(kept, i, issuers, reqs, n);
  }

  lemma AgreeIffLast(now: map<string, Cert>, i: Instance, issuers: Issuers, reqs: seq<Request>)
    requires forall r :: r in reqs ==>
      && NameFor(i.name, r) in now && LastAsked(i, reqs, NameFor(i.name, r)).Some?
      && now[NameFor(i.name, r)].spec == Made(i, issuers, LastAsked(i, reqs, NameFor(i.name, r)).value).spec
    ensures AsAsked(now, i, issuers, reqs) <==> Agree(i, issuers, reqs)
  {
    if Agree(i, issuers, reqs) {
      forall r | r in reqs
        ensures now[NameFor(i.name, r)].spec == Made(i, issuers, r).spec
      {
        var q := LastAsked(i, reqs, NameFor(i.name, r)).value;
        assert q in reqs && NameFor(i.name, q) == NameFor(i.name, r);
      }
    }
  }

  /** Of two requests that share a certificate and disagree, each pass writes first the one and then the other. */
  lemma PairIsRewrittenTwice(certs: map<string, Cert>, i: Instance, issuers: Issuers, x: Request, y: Request)
    requires NameFor(i.name, x) == NameFor(i.name, y) && NameFor(i.name, y) in certs
    requires certs[NameFor(i.name, y)].spec == Made(i, issuers, y).spec != Made(i, issuers, x).spec
    ensures Writes(certs, i, issuers, [x, y]) == 2
  {
    assert [x, y][..1] == [x] && [x][..0] == [];
    assert AllUpserted(certs, i, issuers, []) == certs;
    assert Writes(certs, i, issuers, []) == 0;
    assert Writes(certs, i, issuers, [x]) == 1;
    assert AllUpserted(certs, i, issuers, [x]) == Upserted(certs, NameFor(i.name, x), Made(i, issuers, x));
  }

  lemma PairHoldsLast(certs: map<string, Cert>, i: Instance, issuers: Issuers, x: Request, y: Request)
    ensures var now, n := AllUpserted(certs, i, issuers, [x, y]), NameFor(i.name, y);
            n in now && now[n].spec == Made(i, issuers, y).spec
  {
    assert [x, y] == [x] + [y];
    assert ([x] + [y])[..1] == [x];
  }

  /** An instance with two unnamed listed requests for different issuers. */
  predicate AsksTwice(i: Instance, r: Request, q: Request) {
    i.dynamic == Some(Dynamic(None, [r, q])) && r.name == q.name == "" && r.issuer != q.issuer
  }

  lemma TwoRequests(i: Instance, reqs: seq<Request>, r: Request, q: Request)
    requires AsksTwice(i, r, q) && Arranged(Groups(i), reqs)
    ensures reqs == [r, q] || reqs == [q, r]
  {
    var groups := Groups(i);
    GroupedAppend(Context(i.name, i.zone), Dynamic(None, [r]), q);
    GroupedAppend(Context(i.name, i.zone), Dynamic(None, []), r);
    assert [] + [r] == [r] && [r] + [q] == [r, q];
    assert groups == map[ByIssuer(r.issuer) := r, ByIssuer(q.issuer) := q];
    assert groups[ByIssuer(r.issuer)] == r && groups[ByIssuer(q.issuer)] == q;
    assert r in groups.Values && q in groups.Values;
    assert r in reqs && q in reqs;
    ArrangedIsSorted(reqs);
    TwoElements(reqs, r, q);
  }

  lemma TwoElements(reqs: seq<Request>, r: Request, q: Request)
    requires NoRepeats(reqs) && r != q && forall x :: x in reqs <==> x == r || x == q
    ensures reqs == [r, q] || reqs == [q, r]
  {
    SameElementsSameMultiset(reqs, [r, q]);
    assert |reqs| == |multiset(reqs)| == |multiset([r, q])| == 2;
    assert reqs[0] in reqs && reqs[1] in reqs;
  }

  /**
    Two unnamed requests whose issuers differ by a dot for a dash share one certificate and disagree. Their
    instance's passes never come to rest: each one rewrites the certificate twice.
   */
  lemma DottedIssuersDisagree(
      certs: map<string, Cert>, i: Instance, issuers: Issuers, reqs: seq<Request>, r: Request, q: Request)
    requires AsksTwice(i, r, q) && Slug(r.issuer) == Slug(q.issuer)
    requires issuers(r.issuer).Some? && issuers(q.issuer).Some? && issuers(r.issuer) != issuers(q.issuer)
    requires Arranged(Groups(i), reqs)
    ensures KeyOf(r) != KeyOf(q) && NameFor(i.name, r) == NameFor(i.name, q)
    ensures !Agree(i, issuers, reqs)
    ensures Writes(AllUpserted(certs, i, issuers, reqs), i, issuers, reqs) == 2
  {
    TwoRequests(i, reqs, r, q);
    assert Made(i, issuers, r).spec.issuer != Made(i, issuers, q).spec.issuer;
    assert r in reqs && q in reqs;
    PairHoldsLast(certs, i, issuers, reqs[0], reqs[1]);
    PairIsRewrittenTwice(AllUpserted(certs, i, issuers, reqs), i, issuers, reqs[0], reqs[1]);
  }

  /** Such issuers. */
  lemma DottedIssuersShareSlug()
    ensures "ca.issuer.example" != "ca-issuer-example" && Slug("ca.issuer.example") == Slug("ca-issuer-example")
  {
    assert "ca.issuer.example"[2] == '.' && "ca-issuer-example"[2] == '-';
  }

  /** Certificates of requested names carry the label they are made with. */
  ghost predicate LabelsAsMade(certs: map<string, Cert>, i: Instance, reqs: seq<Request>) {
    forall r :: r in reqs && NameFor(i.name, r) in certs ==> certs[NameFor(i.name, r)].certName == RequiredName(r)
  }

  lemma OneNameOneLabel(i: Instance, r: Request, q: Request)
    requires NameFor(i.name, r) == NameFor(i.name, q)
    ensures RequiredName(r) == RequiredName(q)
  {
    assert NameFor(i.name, r)[|i.name| + 1..] == RequiredName(r);
    assert NameFor(i.name, q)[|i.name| + 1..] == RequiredName(q);
  }

  /** A pass keeps labels that are as made. */
  lemma {:induction false} LabelsStay(
      certs: map<string, Cert>, i: Instance, issuers: Issuers, reqs: seq<Request>, done: seq<Request>)
    requires LabelsAsMade(certs, i, reqs) && forall r :: r in done ==> r in reqs
    ensures LabelsAsMade(AllUpserted(certs, i, issuers, done), i, reqs)
  {
    if done != [] {
      var rest, q := done[..|done| - 1], done[|done| - 1];
      LabelsStay(certs, i, issuers, reqs, rest);
      forall r | r in reqs && NameFor(i.name, r) == NameFor(i.name, q)
        ensures RequiredName(r) == RequiredName(q)
      {
        OneNameOneLabel(i, r, q);
      }
    }
  }

  // ---------- Other instances ----------

  /** `cert` is what reconciling `b` made for the request `s`. */
  predicate MadeFor(cert: Cert, b: Instance, issuers: Issuers, s: Request) {
    cert == Made(b, issuers, s).(ready := cert.ready)
  }

  /**
    A pass for one instance leaves another's certificate alone exactly when that certificate is not
    labelled with the first instance's name and the two name no certificate alike.
   */
  lemma SiblingIsKeptIff(
      certs: map<string, Cert>, a: Instance, issuers: Issuers, reqs: seq<Request>,
      b: Instance, theirs: Issuers, s: Request)
    requires Arranged(Groups(a), reqs) && AllServed(certs - Stale(certs, a), a, issuers, reqs)
    requires a.name != b.name && NameFor(b.name, s) in certs
    requires MadeFor(certs[NameFor(b.name, s)], b, theirs, s)
    ensures var now, n := AllUpserted(certs - Stale(certs, a), a, issuers, reqs), NameFor(b.name, s);
            (n in now && now[n] == certs[n]) <==> RequiredName(s) != a.name && n !in Wanted(a)
  {
    var kept, n := certs - Stale(certs, a), NameFor(b.name, s);
    UpsertsAt(kept, a, issuers, reqs, n);
    WantedIsAsked(a, reqs, n);
    if Asked(a, reqs, n) {
      assert n in kept;
      assert Made(a, issuers, LastAsked(a, reqs, n).value).spec.instance == a.name;
    }
  }

  lemma OneRequest(i: Instance, r: Request)
    requires i.dynamic == Some(Dynamic(None, [r]))
    ensures Arranged(Groups(i), [r]) && Wanted(i) == {NameFor(i.name, r)}
  {
    GroupedAppend(Context(i.name, i.zone), Dynamic(None, []), r);
    assert [] + [r] == [r];
    assert Groups(i) == map[KeyOf(r) := r];
    assert Groups(i).Values == {r};
  }

  /** An instance that asks for nothing removes the certificate of another's request named after it. */
  lemma NamesakeIsRemoved(a: Instance, b: Instance, issuers: Issuers, s: Request)
    requires a.dynamic == None && b.dynamic == Some(Dynamic(None, [s]))
    requires a.name != b.name && s.name == a.name != ""
    ensures var certs := map[NameFor(b.name, s) := Made(b, issuers, s).(ready := true)];
            && Arranged(Groups(b), [s])
            && (AllServed(certs - Stale(certs, b), b, issuers, [s]) <==> issuers(s.issuer).Some?)
    ensures var certs := map[NameFor(b.name, s) := Made(b, issuers, s).(ready := true)];
            && Arranged(Groups(a), []) && AllServed(certs - Stale(certs, a), a, issuers, [])
            && AllUpserted(certs - Stale(certs, a), a, issuers, []) == map[]
  {
    OneRequest(b, s);
    var n := NameFor(b.name, s);
    var certs := map[n := Made(b, issuers, s).(ready := true)];
    assert n in Wanted(b) && n !in Stale(certs, b);
    assert [s][0] == s;
    assert Groups(a) == map[] && Wanted(a) == {};
    assert n in Stale(certs, a);
    assert certs - Stale(certs, a) == map[];
  }

  /** A certificate made by hand exactly as the instance would have it satisfies a pass, and stays somebody else's. */
  lemma HoldoutStays(i: Instance, issuers: Issuers, r: Request)
    requires i.dynamic == Some(Dynamic(None, [r])) && issuers(r.issuer).Some?
    ensures var n := NameFor(i.name, r);
            var certs := map[n := Made(i, issuers, r).(owners := {}, ready := true)];
            && Arranged(Groups(i), [r]) && AllServed(certs - Stale(certs, i), i, issuers, [r])
            && Wanted(i) == {n} && Owned(AllUpserted(certs - Stale(certs, i), i, issuers, [r]), i.name) == {}
  {
    OneRequest(i, r);
    var n := NameFor(i.name, r);
    var certs := map[n := Made(i, issuers, r).(owners := {}, ready := true)];
    assert Stale(certs, i) == {};
    assert certs - {} == certs;
    assert [r][..0] == [];
    assert AllUpserted(certs, i, issuers, []) == certs;
    assert AllUpserted(certs, i, issuers, [r]) == certs;
  }

  // ---------- Secrets of new certificates ----------

  /** A secret of this instance's certificate of this name. */
  predicate IsOf(secrets: map<string, Secret>, s: string, instance: string, certName: string) {
    s in secrets && secrets[s].certName == certName && secrets[s].instance == instance
  }

  /**
    A new certificate's secret, if there is none of its name, is a copy of the one its instance already had for the
    certificate, if there was exactly one. With none nothing happens; several are an error; others are untouched.
   */
  lemma TakenOverIff(secrets: map<string, Secret>, i: Instance, made: Cert, now: map<string, Secret>,
                     s: string, t: string)
    requires TakenOver(secrets, i, made, now)
    ensures forall u :: u in secrets ==> u in now && now[u] == secrets[u]
    ensures forall u :: u in now ==> u in secrets || u == made.spec.secretName
    ensures made.spec.secretName !in secrets && IsOf(secrets, s, i.name, made.certName) &&
            (forall u :: IsOf(secrets, u, i.name, made.certName) ==> u == s) ==>
              made.spec.secretName in now && now[made.spec.secretName] == secrets[s]
    ensures (forall u :: !IsOf(secrets, u, i.name, made.certName)) ==> now == secrets && !TooMany(secrets, i, made)
    ensures s != t && IsOf(secrets, s, i.name, made.certName) && IsOf(secrets, t, i.name, made.certName) ==>
            now == secrets && (TooMany(secrets, i, made) <==> made.spec.secretName !in secrets)
  {
    var previous := Previous(secrets, i.name, made.certName);
    assert forall u :: u in previous <==> IsOf(secrets, u, i.name, made.certName);
    if made.spec.secretName !in secrets && IsOf(secrets, s, i.name, made.certName) {
      if forall u :: IsOf(secrets, u, i.name, made.certName) ==> u == s {
        assert previous == {s};
      }
      if s != t && IsOf(secrets, t, i.name, made.certName) {
        assert {s, t} <= previous;
        MoreThanOne(previous, s, t);
      }
    }
    if s != t && IsOf(secrets, s, i.name, made.certName) && IsOf(secrets, t, i.name, made.certName) {
      MoreThanOne(previous, s, t);
    }
    if forall u :: !IsOf(secrets, u, i.name, made.certName) {
      assert previous == {};
    }
  }

  lemma MoreThanOne(names: set<string>, s: string, t: string)
    requires s in names && t in names && s != t
    ensures |names| > 1
  {
    assert |names - {s}| > 0 by {
      assert t in names - {s};
    }
  }

  // ---------- Secrets ----------

  /** A certificate that stays keeps its secret exactly when no removed one names the same. */
  lemma SurvivorKeepsSecretIff(certs: map<string, Cert>, secrets: map<string, Secret>, i: Instance, n: string)
    requires n in certs && n !in Stale(certs, i) && certs[n].spec.secretName in secrets
    ensures certs[n].spec.secretName in secrets - SecretsOf(certs, Stale(certs, i)) <==>
            forall m :: m in Stale(certs, i) ==> certs[m].spec.secretName != certs[n].spec.secretName
  {
    var secret := certs[n].spec.secretName;
    if m :| m in Stale(certs, i) && certs[m].spec.secretName == secret {
      assert secret in SecretsOf(certs, Stale(certs, i));
    }
  }

  /** A certificate made by hand over the secret of one that is no longer asked for loses it with that one. */
  lemma SharedSecretIsLost(i: Instance, issuers: Issuers, s: Request, hand: Cert, n: string, data: Secret)
    requires i.dynamic == None && i.name !in hand.owners && hand.certName != i.name
    requires n != NameFor(i.name, s) && hand.spec.secretName == NameFor(i.name, s)
    ensures var certs := map[NameFor(i.name, s) := Made(i, issuers, s), n := hand];
            && n !in Stale(certs, i) && hand.spec.secretName in map[hand.spec.secretName := data]
            && hand.spec.secretName !in map[hand.spec.secretName := data] - SecretsOf(certs, Stale(certs, i))
  {
    var certs := map[NameFor(i.name, s) := Made(i, issuers, s), n := hand];
    assert NameFor(i.name, s) in Stale(certs, i);
    SurvivorKeepsSecretIff(certs, map[hand.spec.secretName := data], i, n);
  }

  /** Which is so while each certificate's secret bears its name, as those made here do. */
  lemma SurvivorsKeepSecrets(certs: map<string, Cert>, secrets: map<string, Secret>, i: Instance, n: string)
    requires forall m :: m in certs ==> certs[m].spec.secretName == m
    requires n in certs && n !in Stale(certs, i) && n in secrets
    ensures n in secrets - SecretsOf(certs, Stale(certs, i))
  {
    SurvivorKeepsSecretIff(certs, secrets, i, n);
  }
}
