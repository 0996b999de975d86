/** The reconciliation of an instance's cert-manager certificates, within one namespace. */
module CertReconcile {
  import opened Ordering
  import opened CertRequests

  /** The part of a certificate's spec that an instance may customise. */
  datatype Custom = Custom(subject: Option<string>, privateKey: Option<string>, historyLimit: Option<int>)

  const NO_CUSTOM := Custom(None, None, None)

  datatype CertSpec = CertSpec(
    issuer: string, dnsNames: seq<string>, ipAddresses: seq<string>, commonName: string, custom: Custom,
    secretName: string, certName: string, instance: string)

  /** `certName` is the certificate-name label, empty if missing; `owners` are the instances that own it. */
  datatype Cert = Cert(certName: string, owners: set<string>, spec: CertSpec, ready: bool)

  /** `certName` and `instance` are the two labels secrets are looked up by. */
  datatype Secret = Secret(certName: string, instance: string, data: string)

  datatype Instance = Instance(name: string, zone: string, dynamic: Option<Dynamic>, custom: Option<Custom>)

  datatype Error = NoIssuer(issuer: string) | TooManySecrets(certName: string) | NotReady(dnsNames: seq<string>)

  datatype Result<T> = Ok(value: T) | Err(error: Error)

  // ---------- Names ----------

  function LowerChar(c: char): char {
    if 'A' <= c <= 'Z' then c - 'A' + 'a' else c
  }

  /** Dots become dashes and letters lower-case. */
  function Slug(issuer: string): string {
    seq(|issuer|, i requires 0 <= i < |issuer| => if issuer[i] == '.' then '-' else LowerChar(issuer[i]))
  }

  function RequiredName(r: Request): string {
    if r.name != "" then r.name else "cert-manager-" + Slug(r.issuer)
  }

  function NameFor(instance: string, r: Request): string {
    instance + "-" + RequiredName(r)
  }

  // ---------- What is asked for ----------

  ghost function Groups(i: Instance): map<Key, Request> {
    if i.dynamic.None? then map[]
    else Grouped(Context(i.name, i.zone), i.dynamic.value.single, i.dynamic.value.listed)
  }

  /** The names of the certificates an instance asks for. */
  ghost function Wanted(i: Instance): set<string> {
    set r | r in Groups(i).Values :: NameFor(i.name, r)
  }

  method RequestsOf(i: Instance) returns (reqs: seq<Request>)
    ensures Arranged(Groups(i), reqs)
  {
    reqs := CertManagerRequests(Context(i.name, i.zone), i.dynamic);
  }

  function NewCertificate(i: Instance, issuer: string, r: Request): Cert {
    var custom := if i.custom.Some? && !r.ignoreCertificateSpec then i.custom.value else NO_CUSTOM;
    var common := if r.dnsNames != [] then r.dnsNames[0] else "";
    Cert(RequiredName(r), {i.name},
         CertSpec(issuer, r.dnsNames, r.ipAddresses, common, custom, NameFor(i.name, r), RequiredName(r), i.name),
         false)
  }

  // ---------- What a pass does ----------

  /** The instance's certificates that it no longer asks for, and any labelled with the instance's own name. */
  ghost function Stale(certs: map<string, Cert>, i: Instance): set<string> {
    set n | n in certs && (certs[n].certName == i.name || i.name in certs[n].owners) && n !in Wanted(i)
  }

  ghost function SecretsOf(certs: map<string, Cert>, names: set<string>): set<string> {
    set n | n in certs && n in names :: certs[n].spec.secretName
  }

  /** An update replaces labels, owners and spec; the status, where readiness is, stays. */
  function Upserted(certs: map<string, Cert>, name: string, made: Cert): map<string, Cert> {
    if name !in certs then certs[name := made]
    else if certs[name].spec != made.spec then certs[name := made.(ready := certs[name].ready)]
    else certs
  }

  predicate Changes(certs: map<string, Cert>, name: string, made: Cert) {
    name !in certs || certs[name].spec != made.spec
  }

  /** The issuers known to the cluster, as references. */
  type Issuers = string -> Option<string>

  function Made(i: Instance, issuers: Issuers, r: Request): Cert {
    NewCertificate(i, if issuers(r.issuer).Some? then issuers(r.issuer).value else "", r)
  }

  function AllUpserted(certs: map<string, Cert>, i: Instance, issuers: Issuers, reqs: seq<Request>): map<string, Cert>
  {
    if reqs == [] then certs
    else
      var rest, r := reqs[..|reqs| - 1], reqs[|reqs| - 1];
      Upserted(AllUpserted(certs, i, issuers, rest), NameFor(i.name, r), Made(i, issuers, r))
  }

  /** How many of those upserts write. */
  function Writes(certs: map<string, Cert>, i: Instance, issuers: Issuers, reqs: seq<Request>): nat {
    if reqs == [] then 0
    else
      var rest, r := reqs[..|reqs| - 1], reqs[|reqs| - 1];
      var before, name := AllUpserted(certs, i, issuers, rest), NameFor(i.name, r);
      Writes(certs, i, issuers, rest)
      + if Changes(before, name, Made(i, issuers, r)) then 1 else 0
  }

  /** The issuer exists, and the certificate is there and ready. */
  predicate Served(certs: map<string, Cert>, i: Instance, issuers: Issuers, r: Request) {
    issuers(r.issuer).Some? && NameFor(i.name, r) in certs && certs[NameFor(i.name, r)].ready
  }

  ghost predicate AllServed(certs: map<string, Cert>, i: Instance, issuers: Issuers, reqs: seq<Request>) {
    forall k :: 0 <= k < |reqs| ==> Served(certs, i, issuers, reqs[k])
  }

  /** Upserts over certificates that are all there keep the names and who is ready. */
  lemma {:induction false} UpsertsKeepServed(
      certs: map<string, Cert>, i: Instance, issuers: Issuers, reqs: seq<Request>)
    requires AllServed(certs, i, issuers, reqs)
    ensures var after := AllUpserted(certs, i, issuers, reqs);
            after.Keys == certs.Keys && forall n :: n in certs ==> after[n].ready == certs[n].ready
  {
    if reqs != [] {
      var rest, r := reqs[..|reqs| - 1], reqs[|reqs| - 1];
      UpsertsKeepServed(certs, i, issuers, rest);
      assert Served(certs, i, issuers, r);
    }
  }

  /** The next upsert, once the ones before it were all served. */
  lemma NextUpsert(certs: map<string, Cert>, i: Instance, issuers: Issuers, reqs: seq<Request>, k: nat)
    requires k < |reqs| && AllServed(certs, i, issuers, reqs[..k])
    ensures var before, r := AllUpserted(certs, i, issuers, reqs[..k]), reqs[k];
            && AllUpserted(certs, i, issuers, reqs[..k + 1]) ==
                 Upserted(before, NameFor(i.name, r), Made(i, issuers, r))
            && Writes(certs, i, issuers, reqs[..k + 1]) ==
                 Writes(certs, i, issuers, reqs[..k]) +
                 (if Changes(before, NameFor(i.name, r), Made(i, issuers, r)) then 1 else 0)
            && (Served(before, i, issuers, r) <==> Served(certs, i, issuers, r))
  {
    assert reqs[..k + 1][..k] == reqs[..k];
    UpsertsKeepServed(certs, i, issuers, reqs[..k]);
  }

  /** Secrets of the same certificate of the same instance, under whatever name. */
  function Previous(secrets: map<string, Secret>, instance: string, certName: string): set<string> {
    set s | s in secrets && secrets[s].certName == certName && secrets[s].instance == instance
  }

  /** A new certificate's secret is a copy of the previous one, if its own name is free and there is just one. */
  ghost predicate TakenOver(secrets: map<string, Secret>, i: Instance, made: Cert, now: map<string, Secret>) {
    var previous := Previous(secrets, i.name, made.certName);
    if made.spec.secretName !in secrets && |previous| == 1
    then exists s :: previous == {s} && now == secrets[made.spec.secretName := secrets[s]]
    else now == secrets
  }

  predicate TooMany(secrets: map<string, Secret>, i: Instance, made: Cert) {
    made.spec.secretName !in secrets && |Previous(secrets, i.name, made.certName)| > 1
  }

  /** One turn of the loop: its answer, which holds the certificate as found, and what it leaves. */
  ghost predicate Turned(
      certs: map<string, Cert>, secrets: map<string, Secret>, i: Instance, issuers: Issuers, r: Request,
      res: Result<Cert>, now: map<string, Cert>, nowSecrets: map<string, Secret>) {
    var name, made := NameFor(i.name, r), Made(i, issuers, r);
    if issuers(r.issuer).None? then
      res == Err(NoIssuer(r.issuer)) && now == certs && nowSecrets == secrets
    else if name in certs then
      && now == Upserted(certs, name, made) && nowSecrets == secrets
      && res == if certs[name].ready then Ok(certs[name]) else Err(NotReady(certs[name].spec.dnsNames))
    else if TooMany(secrets, i, made) then
      res == Err(TooManySecrets(made.certName)) && now == certs && nowSecrets == secrets
    else
      && now == Upserted(certs, name, made) && TakenOver(secrets, i, made, nowSecrets)
      && res == Err(NotReady(made.spec.dnsNames))
  }

  /** The turn of request `k`, the first not served, ended the pass. */
  ghost predicate StoppedAt(
      certs: map<string, Cert>, secrets: map<string, Secret>, i: Instance, issuers: Issuers, reqs: seq<Request>,
      k: nat, error: Error, now: map<string, Cert>, nowSecrets: map<string, Secret>)
    requires k < |reqs|
  {
    && AllServed(certs, i, issuers, reqs[..k]) && !Served(certs, i, issuers, reqs[k])
    && Turned(AllUpserted(certs, i, issuers, reqs[..k]), secrets, i, issuers, reqs[k], Err(error), now, nowSecrets)
  }

  ghost predicate Stopped(
      certs: map<string, Cert>, secrets: map<string, Secret>, i: Instance, issuers: Issuers, reqs: seq<Request>,
      error: Error, now: map<string, Cert>, nowSecrets: map<string, Secret>) {
    exists k :: 0 <= k < |reqs| && StoppedAt(certs, secrets, i, issuers, reqs, k, error, now, nowSecrets)
  }

  /** The certificates as each turn so far found them. */
  ghost predicate Found(
      certs: map<string, Cert>, i: Instance, issuers: Issuers, reqs: seq<Request>, found: seq<Cert>) {
    |found| <= |reqs| && forall k :: 0 <= k < |found| ==> FoundAt(certs, i, issuers, reqs, k, found[k])
  }

  ghost predicate FoundAt(
      certs: map<string, Cert>, i: Instance, issuers: Issuers, reqs: seq<Request>, k: nat, cert: Cert)
    requires k < |reqs|
  {
    var before, name := AllUpserted(certs, i, issuers, reqs[..k]), NameFor(i.name, reqs[k]);
    name in before && before[name] == cert
  }

  /** The first `k` requests were served. */
  ghost predicate Progress(
      certs: map<string, Cert>, i: Instance, issuers: Issuers, reqs: seq<Request>, k: nat,
      now: map<string, Cert>, writes: int, found: seq<Cert>) {
    && k <= |reqs| && AllServed(certs, i, issuers, reqs[..k])
    && now == AllUpserted(certs, i, issuers, reqs[..k])
    && writes == Writes(certs, i, issuers, reqs[..k])
    && |found| == k && Found(certs, i, issuers, reqs, found)
  }

  lemma ServedGrows(certs: map<string, Cert>, i: Instance, issuers: Issuers, reqs: seq<Request>, k: nat)
    requires k < |reqs| && AllServed(certs, i, issuers, reqs[..k]) && Served(certs, i, issuers, reqs[k])
    ensures AllServed(certs, i, issuers, reqs[..k + 1])
  {
    assert reqs[..k + 1] == reqs[..k] + [reqs[k]];
  }

  lemma FoundGrows(
      certs: map<string, Cert>, i: Instance, issuers: Issuers, reqs: seq<Request>, found: seq<Cert>, cert: Cert)
    requires Found(certs, i, issuers, reqs, found) && |found| < |reqs|
    requires FoundAt(certs, i, issuers, reqs, |found|, cert)
    ensures Found(certs, i, issuers, reqs, found + [cert])
  {
    var more := found + [cert];
    forall k | 0 <= k < |more|
      ensures FoundAt(certs, i, issuers, reqs, k, more[k])
    {
      assert more[k] == if k < |found| then found[k] else cert;
    }
  }

  lemma ProgressGoesOn(
      certs: map<string, Cert>, i: Instance, issuers: Issuers, reqs: seq<Request>, k: nat,
      now: map<string, Cert>, found: seq<Cert>)
    requires k < |reqs| && Served(now, i, issuers, reqs[k])
    requires Progress(certs, i, issuers, reqs, k, now, Writes(certs, i, issuers, reqs[..k]), found)
    ensures var name, made := NameFor(i.name, reqs[k]), Made(i, issuers, reqs[k]);
            Progress(certs, i, issuers, reqs, k + 1, Upserted(now, name, made),
                     Writes(certs, i, issuers, reqs[..k]) + (if Changes(now, name, made) then 1 else 0),
                     found + [now[name]])
  {
    NextUpsert(certs, i, issuers, reqs, k);
    ServedGrows(certs, i, issuers, reqs, k);
    FoundGrows(certs, i, issuers, reqs, found, now[NameFor(i.name, reqs[k])]);
  }

  lemma ProgressStops(
      certs: map<string, Cert>, i: Instance, issuers: Issuers, reqs: seq<Request>, k: nat,
      now: map<string, Cert>, found: seq<Cert>)
    requires k < |reqs| && !Served(now, i, issuers, reqs[k])
    requires Progress(certs, i, issuers, reqs, k, now, Writes(certs, i, issuers, reqs[..k]), found)
    ensures !Served(certs, i, issuers, reqs[k]) && !AllServed(certs, i, issuers, reqs)
  {
    NextUpsert(certs, i, issuers, reqs, k);
  }

  lemma SecretsOfMore(certs: map<string, Cert>, names: set<string>, todo: set<string>, n: string)
    requires n in todo && todo <= names && n in certs
    ensures names - (todo - {n}) == names - todo + {n}
    ensures SecretsOf(certs, names - (todo - {n})) == SecretsOf(certs, names - todo) + {certs[n].spec.secretName}
  {
  }

  lemma OnlyElement(previous: set<string>, s: string)
    requires s in previous && |previous| == 1
    ensures previous == {s}
  {
    assert |previous - {s}| == 0;
  }

  /** One namespace of the API server. `writes` counts the calls that changed certificates. */
  class Namespace {
    var certs: map<string, Cert>
    var secrets: map<string, Secret>
    var writes: nat

    method RemoveOldCertificates(i: Instance)
      modifies this
      ensures certs == old(certs) - Stale(old(certs), i)
      ensures secrets == old(secrets) - SecretsOf(old(certs), Stale(old(certs), i))
      ensures writes == old(writes) + |Stale(old(certs), i)|
    {
      var reqs := RequestsOf(i);
      var toRemove := set n | n in certs && (certs[n].certName == i.name || i.name in certs[n].owners);
      ghost var managed := toRemove;
      for k := 0 to |reqs|
        invariant toRemove == managed - set r | r in reqs[..k] :: NameFor(i.name, r)
      {
        assert reqs[..k + 1] == reqs[..k] + [reqs[k]];
        toRemove := toRemove - {NameFor(i.name, reqs[k])};
      }
      assert reqs[..|reqs|] == reqs;
      assert toRemove == Stale(certs, i);
      RemoveAll(toRemove);
    }

    method RemoveAll(names: set<string>)
      requires names <= certs.Keys
      modifies this
      ensures certs == old(certs) - names
      ensures secrets == old(secrets) - SecretsOf(old(certs), names)
      ensures writes == old(writes) + |names|
    {
      ghost var before := certs;
      var todo := names;
      while todo != {}
        invariant todo <= names <= before.Keys
        invariant certs == before - (names - todo)
        invariant secrets == old(secrets) - SecretsOf(before, names - todo)
        invariant writes + |todo| == old(writes) + |names|
      {
        var n :| n in todo;
        SecretsOfMore(before, names, todo, n);
        Remove(n);
        todo := todo - {n};
      }
    }

    method Remove(n: string)
      requires n in certs
      modifies this
      ensures certs == old(certs) - {n} && secrets == old(secrets) - {old(certs)[n].spec.secretName}
      ensures writes == old(writes) + 1
    {
      var secretName := certs[n].spec.secretName;
      certs := certs - {n};
      writes := writes + 1;
      if secretName in secrets {
        secrets := secrets - {secretName};
      }
    }

    method TakeOverPreviousSecret(i: Instance, made: Cert) returns (error: Option<Error>)
      modifies this`secrets
      ensures error == if TooMany(old(secrets), i, made) then Some(TooManySecrets(made.certName)) else None
      ensures TakenOver(old(secrets), i, made, secrets)
    {
      if made.spec.secretName in secrets {
        return None;
      }
      var previous := Previous(secrets, i.name, made.certName);
      if |previous| == 0 {
        return None;
      }
      if |previous| > 1 {
        return Some(TooManySecrets(made.certName));
      }
      var s :| s in previous;
      OnlyElement(previous, s);
      secrets := secrets[made.spec.secretName := Secret(made.certName, i.name, secrets[s].data)];
      return None;
    }

    method ReconcileRequest(i: Instance, issuers: Issuers, r: Request) returns (res: Result<Cert>)
      modifies this
      ensures Turned(old(certs), old(secrets), i, issuers, r, res, certs, secrets)
      ensures writes == old(writes) + if certs == old(certs) then 0 else 1
    {
      var issuer := issuers(r.issuer);
      if issuer.None? {
        return Err(NoIssuer(r.issuer));
      }
      var made := NewCertificate(i, issuer.value, r);
      var name := NameFor(i.name, r);
      var cert;
      if name in certs {
        cert := certs[name];
      } else {
        var error := TakeOverPreviousSecret(i, made);
        if error.Some? {
          return Err(error.value);
        }
        certs := certs[name := made];
        writes := writes + 1;
        cert := made;
      }
      if cert.spec != made.spec {
        certs := certs[name := made.(ready := cert.ready)];
        writes := writes + 1;
      }
      if !cert.ready {
        return Err(NotReady(cert.spec.dnsNames));
      }
      return Ok(cert);
    }

    /** The loop over the requests, stopped by the first that is not served. */
    method ReconcileRequests(i: Instance, issuers: Issuers, reqs: seq<Request>) returns (res: Result<seq<Cert>>)
      modifies this
      ensures res.Ok? <==> AllServed(old(certs), i, issuers, reqs)
      ensures res.Ok? ==>
                && certs == AllUpserted(old(certs), i, issuers, reqs)
                && writes == old(writes) + Writes(old(certs), i, issuers, reqs)
                && secrets == old(secrets)
                && |res.value| == |reqs| && Found(old(certs), i, issuers, reqs, res.value)
      ensures res.Err? ==> Stopped(old(certs), old(secrets), i, issuers, reqs, res.error, certs, secrets)
    {
      ghost var kept, first := certs, writes;
      var found: seq<Cert> := [];
      for k := 0 to |reqs|
        invariant Progress(kept, i, issuers, reqs, k, certs, writes - first, found)
        invariant secrets == old(secrets)
      {
        ghost var before := certs;
        var one := ReconcileRequest(i, issuers, reqs[k]);
        if one.Err? {
          ProgressStops(kept, i, issuers, reqs, k, before, found);
          assert StoppedAt(kept, old(secrets), i, issuers, reqs, k, one.error, certs, secrets);
          return Err(one.error);
        }
        ProgressGoesOn(kept, i, issuers, reqs, k, before, found);
        found := found + [one.value];
      }
      assert reqs[..|reqs|] == reqs;
      return Ok(found);
    }

    /**
      A whole pass. It succeeds exactly when every requested certificate was already there and ready, and
      then the certificates are those kept, updated to what is asked for. Otherwise it stopped midway.
     */
    method ReconcileCertManager(i: Instance, issuers: Issuers)
      returns (res: Result<seq<Cert>>, ghost reqs: seq<Request>)
      modifies this
      ensures Arranged(Groups(i), reqs)
      ensures var stale := Stale(old(certs), i);
              var kept, swept := old(certs) - stale, old(secrets) - SecretsOf(old(certs), stale);
              && (res.Ok? <==> AllServed(kept, i, issuers, reqs))
              && (res.Ok? ==>
                    && certs == AllUpserted(kept, i, issuers, reqs)
                    && writes == old(writes) + |stale| + Writes(kept, i, issuers, reqs)
                    && secrets == swept
                    && |res.value| == |reqs| && Found(kept, i, issuers, reqs, res.value))
              && (res.Err? ==> Stopped(kept, swept, i, issuers, reqs, res.error, certs, secrets))
    {
      RemoveOldCertificates(i);
      var requests := RequestsOf(i);
      reqs := requests;
      res := ReconcileRequests(i, issuers, requests);
    }
  }
}
