/** The certificates given to nginx: user-defined entries and cert-manager's, one per certificate name. */
module NginxCertificates {
  import opened Ordering
  import opened InstanceSpec
  import CertReconcile

  type Cert = CertReconcile.Cert

  /** A certificate secret and its certificate-name label, empty if missing. */
  datatype LabelledSecret = LabelledSecret(name: string, certName: string)

  predicate BySecret(a: NginxTLS, b: NginxTLS) {
    Less(a.secretName, b.secretName)
  }

  /** The last label given to a secret of that name. */
  function LabelOf(secrets: seq<LabelledSecret>, name: string): string {
    if secrets == [] then ""
    else
      var rest, last := secrets[..|secrets| - 1], secrets[|secrets| - 1];
      if last.name == name && last.certName != "" then last.certName else LabelOf(rest, name)
  }

  function EntryOf(c: Cert): NginxTLS {
    NginxTLS(c.spec.secretName, c.spec.dnsNames)
  }

  /** The entry kept for each certificate name, once the given entries were seen. */
  function UserKept(secrets: seq<LabelledSecret>, user: seq<NginxTLS>): map<string, NginxTLS> {
    if user == [] then map[]
    else
      var rest, last := UserKept(secrets, user[..|user| - 1]), user[|user| - 1];
      var name := LabelOf(secrets, last.secretName);
      if name == "" then rest else rest[name := last]
  }

  function Kept(secrets: seq<LabelledSecret>, user: seq<NginxTLS>, managed: seq<Cert>): map<string, NginxTLS> {
    if managed == [] then UserKept(secrets, user)
    else
      var rest, last := Kept(secrets, user, managed[..|managed| - 1]), managed[|managed| - 1];
      if last.certName == "" then rest else rest[last.certName := EntryOf(last)]
  }

  ghost function Holders(kept: map<string, NginxTLS>, t: NginxTLS): set<string> {
    set n | n in kept && kept[n] == t
  }

  /** Every entry once for each name that kept it, in the order of secret names. */
  ghost predicate Lists(kept: map<string, NginxTLS>, tls: seq<NginxTLS>) {
    && (forall t :: multiset(tls)[t] == |Holders(kept, t)|)
    && Sorted(tls, BySecret)
  }

  // ---------- The code ----------

  method LabelSecrets(secrets: seq<LabelledSecret>) returns (labels: map<string, string>)
    ensures forall n :: (if n in labels then labels[n] else "") == LabelOf(secrets, n)
  {
    labels := map[];
    for i := 0 to |secrets|
      invariant forall n :: (if n in labels then labels[n] else "") == LabelOf(secrets[..i], n)
    {
      assert secrets[..i + 1][..i] == secrets[..i];
      if secrets[i].certName != "" {
        labels := labels[secrets[i].name := secrets[i].certName];
      }
    }
    assert secrets[..|secrets|] == secrets;
  }

  method KeepEntries(secrets: seq<LabelledSecret>, user: seq<NginxTLS>, managed: seq<Cert>)
    returns (kept: map<string, NginxTLS>)
    ensures kept == Kept(secrets, user, managed)
  {
    var labels := LabelSecrets(secrets);
    kept := map[];
    for i := 0 to |user|
      invariant kept == UserKept(secrets, user[..i])
    {
      assert user[..i + 1][..i] == user[..i];
      var certName := if user[i].secretName in labels then labels[user[i].secretName] else "";
      if certName == "" {
        continue;
      }
      kept := kept[certName := user[i]];
    }
    assert user[..|user|] == user;
    for i := 0 to |managed|
      invariant kept == Kept(secrets, user, managed[..i])
    {
      assert managed[..i + 1][..i] == managed[..i];
      if managed[i].certName == "" {
        continue;
      }
      kept := kept[managed[i].certName := EntryOf(managed[i])];
    }
    assert managed[..|managed|] == managed;
  }

  /** The entries of all names but those still to visit. */
  ghost predicate Counts(kept: map<string, NginxTLS>, todo: set<string>, tls: seq<NginxTLS>) {
    forall t :: multiset(tls)[t] == |Holders(kept, t) - todo|
  }

  lemma CountsNothing(kept: map<string, NginxTLS>)
    ensures Counts(kept, kept.Keys, [])
  {
    forall t
      ensures multiset([])[t] == |Holders(kept, t) - kept.Keys|
    {
      assert Holders(kept, t) - kept.Keys == {};
    }
  }

  lemma CountsMore(kept: map<string, NginxTLS>, todo: set<string>, tls: seq<NginxTLS>, n: string)
    requires Counts(kept, todo, tls) && n in todo && n in kept
    ensures Counts(kept, todo - {n}, tls + [kept[n]])
  {
    forall t
      ensures multiset(tls + [kept[n]])[t] == |Holders(kept, t) - (todo - {n})|
    {
      var before := Holders(kept, t) - todo;
      assert Holders(kept, t) - (todo - {n}) == if t == kept[n] then before + {n} else before;
    }
  }

  lemma CountsAll(kept: map<string, NginxTLS>, tls: seq<NginxTLS>)
    requires Counts(kept, {}, tls)
    ensures forall t :: multiset(tls)[t] == |Holders(kept, t)|
  {
    forall t
      ensures multiset(tls)[t] == |Holders(kept, t)|
    {
      assert Holders(kept, t) - {} == Holders(kept, t);
    }
  }

  /** The values of a map, visited in any order. */
  method Values(kept: map<string, NginxTLS>) returns (tls: seq<NginxTLS>)
    ensures forall t :: multiset(tls)[t] == |Holders(kept, t)|
  {
    tls := [];
    var todo := kept.Keys;
    CountsNothing(kept);
    while todo != {}
      invariant todo <= kept.Keys && Counts(kept, todo, tls)
    {
      var n :| n in todo;
      CountsMore(kept, todo, tls, n);
      tls := tls + [kept[n]];
      todo := todo - {n};
    }
    CountsAll(kept, tls);
  }

  lemma BySecretIsStrictOrder()
    ensures StrictOrder(BySecret)
  {
    forall x: NginxTLS
      ensures !BySecret(x, x)
    {
      LessIsStrictAndTotal(x.secretName, x.secretName);
    }
    forall x: NginxTLS, y: NginxTLS, z: NginxTLS | BySecret(x, y) && BySecret(y, z)
      ensures BySecret(x, z)
    {
      LessIsTransitive(x.secretName, y.secretName, z.secretName);
    }
  }

  method NewNginxTLS(secrets: seq<LabelledSecret>, user: seq<NginxTLS>, managed: seq<Cert>)
    returns (tls: seq<NginxTLS>)
    ensures Lists(Kept(secrets, user, managed), tls)
  {
    var kept := KeepEntries(secrets, user, managed);
    tls := Values(kept);
    if |tls| > 1 {
      BySecretIsStrictOrder();
      tls := SortBy(tls, BySecret);
    }
  }

  /** A secret's label is the last one given under its name; without one it is not a certificate's. */
  lemma {:induction false} LabelIsLastGiven(secrets: seq<LabelledSecret>, name: string, i: nat)
    requires i < |secrets| && secrets[i].name == name && secrets[i].certName != ""
    requires forall k :: i < k < |secrets| ==> secrets[k].name != name || secrets[k].certName == ""
    ensures LabelOf(secrets, name) == secrets[i].certName
  {
    if i < |secrets| - 1 {
      LabelIsLastGiven(secrets[..|secrets| - 1], name, i);
    }
  }

  lemma {:induction false} UnlabelledHasNone(secrets: seq<LabelledSecret>, name: string)
    requires forall k :: 0 <= k < |secrets| ==> secrets[k].name != name || secrets[k].certName == ""
    ensures LabelOf(secrets, name) == ""
  {
    if secrets != [] {
      UnlabelledHasNone(secrets[..|secrets| - 1], name);
    }
  }

  /** Entries come in the order of their secrets' names. */
  lemma ListedInOrder(kept: map<string, NginxTLS>, tls: seq<NginxTLS>, i: nat, j: nat)
    requires Lists(kept, tls) && i < j < |tls| && tls[i].secretName != tls[j].secretName
    ensures exists n :: DiffersAt(tls[i].secretName, tls[j].secretName, n)
  {
    assert !BySecret(tls[j], tls[i]);
    LessIsStrictAndTotal(tls[i].secretName, tls[j].secretName);
    LessIsByFirstDifference(tls[i].secretName, tls[j].secretName);
  }

  // ---------- Which entry is kept ----------

  ghost predicate LastManaged(managed: seq<Cert>, name: string, i: int) {
    0 <= i < |managed| && managed[i].certName == name && forall k :: i < k < |managed| ==> managed[k].certName != name
  }

  ghost predicate LastUser(secrets: seq<LabelledSecret>, user: seq<NginxTLS>, name: string, i: int) {
    && 0 <= i < |user| && LabelOf(secrets, user[i].secretName) == name
    && forall k :: i < k < |user| ==> LabelOf(secrets, user[k].secretName) != name
  }

  lemma {:induction false} UserKeptIsLast(secrets: seq<LabelledSecret>, user: seq<NginxTLS>, name: string)
    requires name != ""
    ensures name in UserKept(secrets, user) <==> exists i :: LastUser(secrets, user, name, i)
    ensures forall i :: LastUser(secrets, user, name, i) ==>
      name in UserKept(secrets, user) && UserKept(secrets, user)[name] == user[i]
  {
    if user != [] {
      var n := |user| - 1;
      var rest := user[..n];
      UserKeptIsLast(secrets, rest, name);
      if LabelOf(secrets, user[n].secretName) == name {
        assert LastUser(secrets, user, name, n);
      } else {
        forall i
          ensures LastUser(secrets, user, name, i) <==> LastUser(secrets, rest, name, i)
        {
          assert 0 <= i < n ==> user[i] == rest[i];
          if LastUser(secrets, rest, name, i) {
            forall k | i < k < |user|
              ensures LabelOf(secrets, user[k].secretName) != name
            {
              assert k < n ==> user[k] == rest[k];
            }
          }
        }
      }
    }
  }

  lemma LastOfRest(managed: seq<Cert>, name: string, i: int)
    requires managed != [] && managed[|managed| - 1].certName != name
    ensures LastManaged(managed, name, i) <==> LastManaged(managed[..|managed| - 1], name, i)
  {
    var n, rest := |managed| - 1, managed[..|managed| - 1];
    assert 0 <= i < n ==> managed[i] == rest[i];
    if LastManaged(rest, name, i) {
      forall k | i < k < |managed|
        ensures managed[k].certName != name
      {
        assert k < n ==> managed[k] == rest[k];
      }
    }
  }

  /** What `KeptIsLast` says of the cert-manager certificates. */
  ghost predicate ManagedComeFirst(
      secrets: seq<LabelledSecret>, user: seq<NginxTLS>, managed: seq<Cert>, name: string) {
    var kept := Kept(secrets, user, managed);
    && (forall i :: LastManaged(managed, name, i) ==> name in kept && kept[name] == EntryOf(managed[i]))
    && ((forall i :: !LastManaged(managed, name, i)) ==>
          && (name in kept <==> name in UserKept(secrets, user))
          && (name in kept ==> kept[name] == UserKept(secrets, user)[name]))
  }

  lemma {:induction false} KeptManaged(
      secrets: seq<LabelledSecret>, user: seq<NginxTLS>, managed: seq<Cert>, name: string)
    requires name != ""
    ensures ManagedComeFirst(secrets, user, managed, name)
  {
    if managed != [] {
      var n := |managed| - 1;
      KeptManaged(secrets, user, managed[..n], name);
      if managed[n].certName == name {
        assert LastManaged(managed, name, n);
      } else {
        forall i
          ensures LastManaged(managed, name, i) <==> LastManaged(managed[..n], name, i)
        {
          LastOfRest(managed, name, i);
        }
      }
    }
  }

  /** A name's entry is that of the last cert-manager certificate of the name, else of the last user entry. */
  lemma KeptIsLast(secrets: seq<LabelledSecret>, user: seq<NginxTLS>, managed: seq<Cert>, name: string)
    requires name != ""
    ensures var kept := Kept(secrets, user, managed);
            && (name in kept <==>
                  (exists i :: LastManaged(managed, name, i)) || (exists i :: LastUser(secrets, user, name, i)))
            && (forall i :: LastManaged(managed, name, i) ==> name in kept && kept[name] == EntryOf(managed[i]))
            && ((forall i :: !LastManaged(managed, name, i)) ==>
                  forall i :: LastUser(secrets, user, name, i) ==> name in kept && kept[name] == user[i])
  {
    KeptManaged(secrets, user, managed, name);
    UserKeptIsLast(secrets, user, name);
  }

  // ---------- When the order of the map cannot show ----------

  /** Names that kept entries of one secret kept equal entries. */
  ghost predicate SecretTellsEntry(kept: map<string, NginxTLS>) {
    forall m, n :: m in kept && n in kept && kept[m].secretName == kept[n].secretName ==> kept[m] == kept[n]
  }

  lemma ListedIsKept(kept: map<string, NginxTLS>, tls: seq<NginxTLS>)
    requires Lists(kept, tls)
    ensures forall t :: t in tls <==> exists n :: n in kept && kept[n] == t
  {
    forall t
      ensures t in tls <==> exists n :: n in kept && kept[n] == t
    {
      assert t in tls <==> t in multiset(tls);
      if t in tls {
        assert Holders(kept, t) != {};
        var n :| n in Holders(kept, t);
      }
      if n :| n in kept && kept[n] == t {
        assert n in Holders(kept, t);
      }
    }
  }

  lemma SwapLists(kept: map<string, NginxTLS>, tls: seq<NginxTLS>, i: nat, j: nat)
    requires Lists(kept, tls) && i < |tls| && j < |tls| && tls[i].secretName == tls[j].secretName
    ensures Lists(kept, tls[i := tls[j]][j := tls[i]])
  {
    var other := tls[i := tls[j]][j := tls[i]];
    SwapIsPermutation(tls, i, j);
    assert forall k :: 0 <= k < |tls| ==> other[k].secretName == tls[k].secretName;
    forall k, l | 0 <= k < l < |other|
      ensures !BySecret(other[l], other[k])
    {
      assert !BySecret(tls[l], tls[k]);
    }
  }

  lemma SwapIsPermutation(tls: seq<NginxTLS>, i: nat, j: nat)
    requires i < |tls| && j < |tls|
    ensures multiset(tls[i := tls[j]][j := tls[i]]) == multiset(tls)
  {
  }

  lemma OneListIfTold(kept: map<string, NginxTLS>, tls: seq<NginxTLS>, other: seq<NginxTLS>)
    requires Lists(kept, tls) && Lists(kept, other) && SecretTellsEntry(kept)
    ensures other == tls
  {
    ListedIsKept(kept, tls);
    forall x, y | x in tls && y in tls
      ensures x == y || BySecret(x, y) || BySecret(y, x)
    {
      LessIsStrictAndTotal(x.secretName, y.secretName);
    }
    assert multiset(other) == multiset(tls) by {
      assert forall t :: multiset(other)[t] == multiset(tls)[t];
    }
    SortedArrangementIsUnique(tls, other, BySecret);
  }

  lemma OtherListIfNot(kept: map<string, NginxTLS>, tls: seq<NginxTLS>)
    requires Lists(kept, tls) && !SecretTellsEntry(kept)
    ensures exists other :: Lists(kept, other) && other != tls
  {
    var m, n :| m in kept && n in kept && kept[m].secretName == kept[n].secretName && kept[m] != kept[n];
    ListedIsKept(kept, tls);
    assert kept[m] in tls && kept[n] in tls;
    var i, j :| 0 <= i < |tls| && 0 <= j < |tls| && tls[i] == kept[m] && tls[j] == kept[n];
    SwapLists(kept, tls, i, j);
    assert tls[i := tls[j]][j := tls[i]][j] != tls[j];
  }

  /** The result is the same for every order of the map exactly when entries kept for one secret are equal. */
  lemma OneListIff(kept: map<string, NginxTLS>, tls: seq<NginxTLS>)
    requires Lists(kept, tls)
    ensures (forall other :: Lists(kept, other) ==> other == tls) <==> SecretTellsEntry(kept)
  {
    if SecretTellsEntry(kept) {
      forall other | Lists(kept, other)
        ensures other == tls
      {
        OneListIfTold(kept, tls, other);
      }
    } else {
      OtherListIfNot(kept, tls);
    }
  }

  /** A certificate labelled otherwise than its secret shares it with a user entry: the order of the map shows. */
  lemma SharedSecretShowsOrder(secret: string, a: string, hosts: seq<string>, cert: Cert)
    requires a != "" && cert.certName != "" && cert.certName != a
    requires cert.spec.secretName == secret && cert.spec.dnsNames != hosts
    ensures var kept := Kept([LabelledSecret(secret, a)], [NginxTLS(secret, hosts)], [cert]);
            var x, y := NginxTLS(secret, hosts), EntryOf(cert);
            x != y && Lists(kept, [x, y]) && Lists(kept, [y, x])
  {
    var secrets, x, y := [LabelledSecret(secret, a)], NginxTLS(secret, hosts), EntryOf(cert);
    assert secrets[..0] == [] && [x][..0] == [] && [cert][..0] == [];
    assert LabelOf(secrets, secret) == a;
    assert UserKept(secrets, [x]) == map[a := x];
    assert Kept(secrets, [x], []) == map[a := x];
    var kept := Kept(secrets, [x], [cert]);
    assert kept == map[a := x, cert.certName := y];
    LessIsStrictAndTotal(secret, secret);
    forall t
      ensures multiset([x, y])[t] == |Holders(kept, t)|
    {
      assert Holders(kept, t) == if t == x then {a} else if t == y then {cert.certName} else {};
    }
    assert multiset([x, y]) == multiset([y, x]);
  }

  /** Certificates of the instance have secrets named after them, and those secrets are labelled so. */
  ghost predicate Consistent(secrets: seq<LabelledSecret>, managed: seq<Cert>, instance: string) {
    forall c :: c in managed && c.certName != "" ==>
      && c.spec.secretName == instance + "-" + c.certName
      && LabelOf(secrets, c.spec.secretName) in {"", c.certName}
  }

  lemma KeptSecretTellsName(
      secrets: seq<LabelledSecret>, user: seq<NginxTLS>, managed: seq<Cert>, instance: string, n: string)
    requires Consistent(secrets, managed, instance) && n in Kept(secrets, user, managed)
    ensures var secret := Kept(secrets, user, managed)[n].secretName;
            && n != ""
            && (LabelOf(secrets, secret) == n || (secret == instance + "-" + n && LabelOf(secrets, secret) == ""))
  {
    KeptNamesAreNotEmpty(secrets, user, managed);
    KeptIsLast(secrets, user, managed, n);
    if exists i :: LastManaged(managed, n, i) {
      var i :| LastManaged(managed, n, i);
      assert managed[i] in managed;
    }
  }

  lemma {:induction false} KeptNamesAreNotEmpty(secrets: seq<LabelledSecret>, user: seq<NginxTLS>, managed: seq<Cert>)
    ensures "" !in Kept(secrets, user, managed)
    decreases |managed|, |user|
  {
    if managed != [] {
      KeptNamesAreNotEmpty(secrets, user, managed[..|managed| - 1]);
    } else if user != [] {
      KeptNamesAreNotEmpty(secrets, user[..|user| - 1], []);
    }
  }

  lemma DashedNamesAreInjective(instance: string, a: string, b: string)
    requires instance + "-" + a == instance + "-" + b
    ensures a == b
  {
    assert a == (instance + "-" + a)[|instance| + 1..];
    assert b == (instance + "-" + b)[|instance| + 1..];
  }

  /** So for the certificates that reconciliation makes, the list does not depend on the order of the map. */
  lemma ConsistentIsDetermined(
      secrets: seq<LabelledSecret>, user: seq<NginxTLS>, managed: seq<Cert>, instance: string,
      a: seq<NginxTLS>, b: seq<NginxTLS>)
    requires Consistent(secrets, managed, instance)
    requires Lists(Kept(secrets, user, managed), a) && Lists(Kept(secrets, user, managed), b)
    ensures a == b
  {
    var kept := Kept(secrets, user, managed);
    forall m, n | m in kept && n in kept && kept[m].secretName == kept[n].secretName
      ensures kept[m] == kept[n]
    {
      KeptSecretTellsName(secrets, user, managed, instance, n);
      KeptSecretTellsName(secrets, user, managed, instance, m);
      if n != m {
        DashedNamesAreInjective(instance, n, m);
      }
    }
    OneListIff(kept, a);
  }
}
