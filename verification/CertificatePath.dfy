/** From the certificates an instance asks for to the servers that present them. */
module CertificatePath {
  import opened Ordering
  import opened InstanceSpec
  import opened CertRequests
  import opened CertReconcile
  import opened CertProperties
  import N = NginxCertificates
  import S = Servers
  import P = ServerProperties

  /** A pass that succeeded without a write: what it found is what is asked for. */
  ghost predicate IdlePass(
      certs: map<string, Cert>, i: Instance, issuers: Issuers, reqs: seq<Request>, found: seq<Cert>) {
    && Arranged(Groups(i), reqs) && AllServed(certs, i, issuers, reqs)
    && Stale(certs, i) == {} && Writes(certs, i, issuers, reqs) == 0
    && |found| == |reqs| && Found(certs, i, issuers, reqs, found)
  }

  /** Certificates carry the label they were made with. A pass compares specs, so it does not restore labels. */
  predicate LabelsKept(reqs: seq<Request>, found: seq<Cert>)
    requires |found| == |reqs|
  {
    forall k :: 0 <= k < |reqs| ==> found[k].certName == RequiredName(reqs[k])
  }

  /** Passes come to this: an instance with one request whose certificate was issued as asked. */
  lemma IssuedRequestIsIdle(i: Instance, issuers: Issuers, r: Request)
    requires i.dynamic == Some(Dynamic(None, [r])) && issuers(r.issuer).Some?
    ensures var n := NameFor(i.name, r);
            var certs := map[n := Made(i, issuers, r).(ready := true)];
            IdlePass(certs, i, issuers, [r], [certs[n]]) && LabelsKept([r], [certs[n]])
  {
    var n := NameFor(i.name, r);
    var certs := map[n := Made(i, issuers, r).(ready := true)];
    OneRequest(i, r);
    assert Stale(certs, i) == {};
    assert AsAsked(certs, i, issuers, [r]);
    NoWritesIff(certs, i, issuers, [r]);
    assert [r][..0] == [];
    assert AllUpserted(certs, i, issuers, []) == certs;
    assert FoundAt(certs, i, issuers, [r], 0, certs[n]);
  }

  lemma FoundAsAsked(
      certs: map<string, Cert>, i: Instance, issuers: Issuers, reqs: seq<Request>, found: seq<Cert>, k: nat)
    requires IdlePass(certs, i, issuers, reqs, found) && k < |reqs|
    ensures NameFor(i.name, reqs[k]) in certs && found[k] == certs[NameFor(i.name, reqs[k])]
    ensures found[k].spec == Made(i, issuers, reqs[k]).spec
  {
    NoWritesIff(certs, i, issuers, reqs);
    forall r | r in reqs[..k]
      ensures r in reqs
    {
    }
    assert AsAsked(certs, i, issuers, reqs[..k]);
    NoWritesIff(certs, i, issuers, reqs[..k]);
    assert FoundAt(certs, i, issuers, reqs, k, found[k]);
    assert reqs[k] in reqs;
  }

  /** What a pass finds is consistent in the sense that makes nginx's list unique. */
  lemma FoundIsConsistent(
      certs: map<string, Cert>, i: Instance, issuers: Issuers, reqs: seq<Request>, found: seq<Cert>,
      secrets: seq<N.LabelledSecret>)
    requires IdlePass(certs, i, issuers, reqs, found) && LabelsKept(reqs, found)
    requires forall r :: r in reqs ==> N.LabelOf(secrets, NameFor(i.name, r)) in {"", RequiredName(r)}
    ensures N.Consistent(secrets, found, i.name)
  {
    forall c | c in found
      ensures c.spec.secretName == i.name + "-" + c.certName
      ensures N.LabelOf(secrets, c.spec.secretName) in {"", c.certName}
    {
      var k :| 0 <= k < |found| && found[k] == c;
      FoundAsAsked(certs, i, issuers, reqs, found, k);
      assert reqs[k] in reqs;
    }
  }

  lemma {:induction false} SomeIsLast(managed: seq<Cert>, name: string, k: nat)
    requires k < |managed| && managed[k].certName == name
    ensures exists l :: N.LastManaged(managed, name, l)
    decreases |managed| - k
  {
    if j :| k < j < |managed| && managed[j].certName == name {
      SomeIsLast(managed, name, j);
    } else {
      assert N.LastManaged(managed, name, k);
    }
  }

  /** No certificate is without a label, and a label tells which entry. */
  ghost predicate LabelsTellApart(found: seq<Cert>) {
    && (forall k :: 0 <= k < |found| ==> found[k].certName != "")
    && (forall k, l :: 0 <= k < |found| && 0 <= l < |found| && found[k].certName == found[l].certName ==>
          N.EntryOf(found[k]) == N.EntryOf(found[l]))
  }

  /** Then every certificate found is among what nginx gets, whether the pass wrote or not. */
  lemma FoundIsListed(
      found: seq<Cert>, secrets: seq<N.LabelledSecret>, user: seq<NginxTLS>, tls: seq<NginxTLS>, k: nat)
    requires LabelsTellApart(found) && k < |found| && N.Lists(N.Kept(secrets, user, found), tls)
    ensures N.EntryOf(found[k]) in tls
  {
    var name, kept := found[k].certName, N.Kept(secrets, user, found);
    SomeIsLast(found, name, k);
    var l :| N.LastManaged(found, name, l);
    assert N.EntryOf(found[l]) == N.EntryOf(found[k]);
    N.KeptManaged(secrets, user, found, name);
    N.ListedIsKept(kept, tls);
  }

  lemma {:induction false} UserKeptComesFrom(secrets: seq<N.LabelledSecret>, user: seq<NginxTLS>, n: string)
    requires n in N.UserKept(secrets, user)
    ensures N.UserKept(secrets, user)[n] in user
  {
    var rest, last := user[..|user| - 1], user[|user| - 1];
    if !(N.LabelOf(secrets, last.secretName) == n != "") {
      UserKeptComesFrom(secrets, rest, n);
    }
  }

  lemma {:induction false} KeptComesFrom(
      secrets: seq<N.LabelledSecret>, user: seq<NginxTLS>, managed: seq<Cert>, n: string)
    requires n in N.Kept(secrets, user, managed)
    ensures N.Kept(secrets, user, managed)[n] in user ||
            exists j :: 0 <= j < |managed| && N.EntryOf(managed[j]) == N.Kept(secrets, user, managed)[n]
  {
    if managed == [] {
      UserKeptComesFrom(secrets, user, n);
    } else {
      var rest, last := managed[..|managed| - 1], managed[|managed| - 1];
      if last.certName == n != "" {
        assert N.EntryOf(managed[|managed| - 1]) == N.Kept(secrets, user, managed)[n];
      } else {
        KeptComesFrom(secrets, user, rest, n);
        if j :| 0 <= j < |rest| && N.EntryOf(rest[j]) == N.Kept(secrets, user, rest)[n] {
          assert N.EntryOf(managed[j]) == N.Kept(secrets, user, managed)[n];
        }
      }
    }
  }

  /** The secret is that of a certificate found, made out for the host. */
  predicate IsFound(found: seq<Cert>, host: string, secret: string) {
    exists c :: c in found && host in c.spec.dnsNames && secret == c.spec.secretName
  }

  /** The secret is that of a requested certificate for the host. */
  predicate IsRequested(i: Instance, reqs: seq<Request>, host: string, secret: string) {
    exists q :: q in reqs && host in q.dnsNames && secret == NameFor(i.name, q)
  }

  /** The user gave a certificate for the host with that secret. */
  predicate IsUserDefined(user: seq<NginxTLS>, host: string, secret: string) {
    exists u :: u in user && host in u.hosts && secret == u.secretName
  }

  lemma ListedComesFrom(
      found: seq<Cert>, secrets: seq<N.LabelledSecret>, user: seq<NginxTLS>, tls: seq<NginxTLS>,
      t: NginxTLS, host: string)
    requires N.Lists(N.Kept(secrets, user, found), tls) && t in tls && host in t.hosts
    ensures IsFound(found, host, t.secretName) || IsUserDefined(user, host, t.secretName)
  {
    var kept := N.Kept(secrets, user, found);
    N.ListedIsKept(kept, tls);
    var n :| n in kept && kept[n] == t;
    KeptComesFrom(secrets, user, found, n);
    if t !in user {
      var j :| 0 <= j < |found| && N.EntryOf(found[j]) == t;
      assert found[j] in found;
    }
  }

  lemma ListedHostIsServed(spec: Spec, tls: seq<NginxTLS>, servers: seq<S.Server>, t: NginxTLS, host: string)
    returns (at: nat, l: nat)
    requires S.Compiled(spec, tls, servers) && t in tls && host in t.hosts
    ensures at < |servers| && servers[at].name == host && servers[at].tls
    ensures l < |tls| && host in tls[l].hosts && servers[at].secretName == tls[l].secretName
  {
    assert host in S.Hosts(tls);
    assert host in S.Names(spec, tls);
    at :| 1 <= at < |servers| && servers[at].name == host;
    P.CertificateServed(spec, tls, host);
    P.LastListingIsLast(tls, host);
    l :| P.LastToList(tls, host, l);
  }

  /**
    After any successful pass, every DNS name of every certificate found has its server: it serves TLS, and its
    secret is that of a certificate found for the name, or of one the user gave for the same name.
   */
  lemma FoundNamesAreServed(
      found: seq<Cert>, secrets: seq<N.LabelledSecret>, user: seq<NginxTLS>, tls: seq<NginxTLS>,
      spec: Spec, servers: seq<S.Server>, k: nat, host: string)
    requires LabelsTellApart(found) && k < |found| && host in found[k].spec.dnsNames
    requires N.Lists(N.Kept(secrets, user, found), tls) && S.Compiled(spec, tls, servers)
    ensures exists s :: s in servers && s.name == host && s.tls &&
              (IsFound(found, host, s.secretName) || IsUserDefined(user, host, s.secretName))
  {
    FoundIsListed(found, secrets, user, tls, k);
    var at, l := ListedHostIsServed(spec, tls, servers, N.EntryOf(found[k]), host);
    ListedComesFrom(found, secrets, user, tls, tls[l], host);
    assert servers[at] in servers;
  }

  // ---------- From the second pass on ----------

  lemma FoundIsRequested(
      certs: map<string, Cert>, i: Instance, issuers: Issuers, reqs: seq<Request>, found: seq<Cert>,
      host: string, secret: string)
    requires IdlePass(certs, i, issuers, reqs, found) && IsFound(found, host, secret)
    ensures IsRequested(i, reqs, host, secret)
  {
    var c :| c in found && host in c.spec.dnsNames && secret == c.spec.secretName;
    var j :| 0 <= j < |found| && found[j] == c;
    FoundAsAsked(certs, i, issuers, reqs, found, j);
    assert reqs[j] in reqs;
  }

  lemma IdleLabelsTellApart(
      certs: map<string, Cert>, i: Instance, issuers: Issuers, reqs: seq<Request>, found: seq<Cert>)
    requires IdlePass(certs, i, issuers, reqs, found) && LabelsKept(reqs, found)
    ensures LabelsTellApart(found)
  {
    forall k, l | 0 <= k < |found| && 0 <= l < |found| && found[k].certName == found[l].certName
      ensures N.EntryOf(found[k]) == N.EntryOf(found[l])
    {
      FoundAsAsked(certs, i, issuers, reqs, found, k);
      FoundAsAsked(certs, i, issuers, reqs, found, l);
    }
  }

  /** Once a pass finds everything as asked, every DNS name of every request has its server. */
  lemma RequestedNamesAreServed(
      certs: map<string, Cert>, i: Instance, issuers: Issuers, reqs: seq<Request>, found: seq<Cert>,
      secrets: seq<N.LabelledSecret>, user: seq<NginxTLS>, tls: seq<NginxTLS>,
      spec: Spec, servers: seq<S.Server>, k: nat, host: string)
    requires IdlePass(certs, i, issuers, reqs, found) && LabelsTellApart(found)
    requires N.Lists(N.Kept(secrets, user, found), tls) && S.Compiled(spec, tls, servers)
    requires k < |reqs| && host in reqs[k].dnsNames
    ensures exists s :: s in servers && s.name == host && s.tls &&
              (IsRequested(i, reqs, host, s.secretName) || IsUserDefined(user, host, s.secretName))
  {
    FoundAsAsked(certs, i, issuers, reqs, found, k);
    FoundNamesAreServed(found, secrets, user, tls, spec, servers, k, host);
    var s :| s in servers && s.name == host && s.tls &&
             (IsFound(found, host, s.secretName) || IsUserDefined(user, host, s.secretName));
    if IsFound(found, host, s.secretName) {
      FoundIsRequested(certs, i, issuers, reqs, found, host, s.secretName);
    }
  }

  /** After a pass that succeeds, if its requests agree, the next one is idle and finds the labels as made. */
  lemma SecondPassFindsAsAsked(
      certs: map<string, Cert>, i: Instance, issuers: Issuers, reqs: seq<Request>, found: seq<Cert>)
    requires Arranged(Groups(i), reqs) && AllServed(certs - Stale(certs, i), i, issuers, reqs)
    requires Agree(i, issuers, reqs) && LabelsAsMade(certs - Stale(certs, i), i, reqs)
    requires |found| == |reqs| &&
             Found(AllUpserted(certs - Stale(certs, i), i, issuers, reqs), i, issuers, reqs, found)
    ensures IdlePass(AllUpserted(certs - Stale(certs, i), i, issuers, reqs), i, issuers, reqs, found)
    ensures LabelsKept(reqs, found)
  {
    var now := AllUpserted(certs - Stale(certs, i), i, issuers, reqs);
    SecondPassIsIdleIff(certs, i, issuers, reqs);
    LabelsStay(certs - Stale(certs, i), i, issuers, reqs, reqs);
    forall k | 0 <= k < |reqs|
      ensures found[k].certName == RequiredName(reqs[k])
    {
      FoundAsAsked(now, i, issuers, reqs, found, k);
      assert reqs[k] in reqs;
    }
  }

  /** So from the second pass on every requested name is served. */
  lemma ServedFromSecondPass(
      certs: map<string, Cert>, i: Instance, issuers: Issuers, reqs: seq<Request>, found: seq<Cert>,
      secrets: seq<N.LabelledSecret>, user: seq<NginxTLS>, tls: seq<NginxTLS>,
      spec: Spec, servers: seq<S.Server>, k: nat, host: string)
    requires Arranged(Groups(i), reqs) && AllServed(certs - Stale(certs, i), i, issuers, reqs)
    requires Agree(i, issuers, reqs) && LabelsAsMade(certs - Stale(certs, i), i, reqs)
    requires |found| == |reqs| &&
             Found(AllUpserted(certs - Stale(certs, i), i, issuers, reqs), i, issuers, reqs, found)
    requires N.Lists(N.Kept(secrets, user, found), tls) && S.Compiled(spec, tls, servers)
    requires k < |reqs| && host in reqs[k].dnsNames
    ensures exists s :: s in servers && s.name == host && s.tls &&
              (IsRequested(i, reqs, host, s.secretName) || IsUserDefined(user, host, s.secretName))
  {
    var now := AllUpserted(certs - Stale(certs, i), i, issuers, reqs);
    SecondPassFindsAsAsked(certs, i, issuers, reqs, found);
    IdleLabelsTellApart(now, i, issuers, reqs, found);
    RequestedNamesAreServed(now, i, issuers, reqs, found, secrets, user, tls, spec, servers, k, host);
  }
}
