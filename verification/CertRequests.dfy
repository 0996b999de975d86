/** Grouping of an instance's certificate requests: by name, and by issuer when they have none. */
module CertRequests {
  import opened Ordering

  datatype Request = Request(
    name: string, issuer: string, dnsNames: seq<string>, ipAddresses: seq<string>,
    dnsNamesDefault: bool, ignoreCertificateSpec: bool)

  /** The single request of older specs and the list of newer ones. */
  datatype Dynamic = Dynamic(single: Option<Request>, listed: seq<Request>)

  /** The instance's name and its DNS zone, empty if it has none. */
  datatype Context = Context(instance: string, zone: string)

  datatype Key = ByName(name: string) | ByIssuer(issuer: string)

  function KeyOf(r: Request): Key {
    if r.name != "" then ByName(r.name) else ByIssuer(r.issuer)
  }

  predicate AddsDefault(ctx: Context, r: Request) {
    r.dnsNamesDefault && ctx.zone != ""
  }

  function NamesOf(ctx: Context, r: Request): seq<string> {
    r.dnsNames + if AddsDefault(ctx, r) then [ctx.instance + "." + ctx.zone] else []
  }

  function Merged(ctx: Context, group: Request, r: Request): Request {
    group.(dnsNames := group.dnsNames + NamesOf(ctx, r), ipAddresses := group.ipAddresses + r.ipAddresses)
  }

  /** The groups as the loop builds them. The first listed request of a group is taken as it is. */
  function Grouped(ctx: Context, single: Option<Request>, listed: seq<Request>): map<Key, Request> {
    if listed == [] then
      match single
      case None => map[]
      case Some(r) => map[KeyOf(r) := r.(dnsNames := NamesOf(ctx, r))]
    else
      var n := |listed| - 1;
      var m, r := Grouped(ctx, single, listed[..n]), listed[n];
      m[KeyOf(r) := if KeyOf(r) in m then Merged(ctx, m[KeyOf(r)], r) else r]
  }

  predicate Before(a: Request, b: Request) {
    if a.name != b.name then Less(a.name, b.name) else Less(a.issuer, b.issuer)
  }

  /** One request per group, in strict order of name and issuer. */
  ghost predicate Arranged(groups: map<Key, Request>, reqs: seq<Request>) {
    && (forall r :: r in reqs <==> r in groups.Values)
    && (forall i, j :: 0 <= i < j < |reqs| ==> Before(reqs[i], reqs[j]))
  }

  // ---------- The code ----------

  /** The two maps of the source against the groups. */
  ghost predicate Represents(
      byName: map<string, Request>, byIssuer: map<string, Request>, groups: map<Key, Request>) {
    && (forall n :: n in byName <==> ByName(n) in groups)
    && (forall n :: n in byName ==> byName[n] == groups[ByName(n)])
    && (forall i :: i in byIssuer <==> ByIssuer(i) in groups)
    && (forall i :: i in byIssuer ==> byIssuer[i] == groups[ByIssuer(i)])
  }

  method CertManagerRequests(ctx: Context, dynamic: Option<Dynamic>) returns (reqs: seq<Request>)
    ensures dynamic.None? ==> reqs == []
    ensures dynamic.Some? ==> Arranged(Grouped(ctx, dynamic.value.single, dynamic.value.listed), reqs)
  {
    if dynamic.None? {
      return [];
    }
    var single, listed := dynamic.value.single, dynamic.value.listed;
    var byName, byIssuer := Start(ctx, single);
    for n := 0 to |listed|
      invariant Represents(byName, byIssuer, Grouped(ctx, single, listed[..n]))
    {
      assert listed[..n + 1][..n] == listed[..n];
      byName, byIssuer := AddRequest(ctx, listed[n], byName, byIssuer, Grouped(ctx, single, listed[..n]));
    }
    assert listed[..|listed|] == listed;
    reqs := Collect(byName, byIssuer, Grouped(ctx, single, listed), ctx, single, listed);
  }

  method Start(ctx: Context, single: Option<Request>)
    returns (byName: map<string, Request>, byIssuer: map<string, Request>)
    ensures Represents(byName, byIssuer, Grouped(ctx, single, []))
  {
    byName, byIssuer := map[], map[];
    if single.Some? {
      var r := single.value.(dnsNames := NamesOf(ctx, single.value));
      if single.value.name != "" {
        byName := byName[single.value.name := r];
      } else {
        byIssuer := byIssuer[r.issuer := r];
      }
    }
  }

  method AddRequest(
      ctx: Context, r: Request, names: map<string, Request>, issuers: map<string, Request>,
      ghost groups: map<Key, Request>)
    returns (byName: map<string, Request>, byIssuer: map<string, Request>)
    requires Represents(names, issuers, groups)
    ensures Represents(byName, byIssuer,
              groups[KeyOf(r) := if KeyOf(r) in groups then Merged(ctx, groups[KeyOf(r)], r) else r])
  {
    byName, byIssuer := names, issuers;
    if r.name != "" {
      if r.name in byName {
        byName := byName[r.name := Merged(ctx, byName[r.name], r)];
      } else {
        byName := byName[r.name := r];
      }
      return;
    }
    if r.issuer !in byIssuer {
      byIssuer := byIssuer[r.issuer := r];
      return;
    }
    byIssuer := byIssuer[r.issuer := Merged(ctx, byIssuer[r.issuer], r)];
  }

  /** Appends the values of a map in any order. */
  method AppendValues(m: map<string, Request>, initial: seq<Request>) returns (reqs: seq<Request>)
    requires NoRepeats(initial) && forall n :: n in m ==> m[n] !in initial
    requires forall a, b :: a in m && b in m && a != b ==> m[a] != m[b]
    ensures NoRepeats(reqs) && forall r :: r in reqs <==> r in initial || r in m.Values
  {
    reqs := initial;
    var todo := m.Keys;
    while todo != {}
      invariant todo <= m.Keys && NoRepeats(reqs)
      invariant forall r :: r in reqs <==> r in initial || exists n :: n in m && n !in todo && m[n] == r
    {
      var n :| n in todo;
      todo := todo - {n};
      assert m[n] !in reqs;
      reqs := reqs + [m[n]];
    }
  }

  method Collect(
      byName: map<string, Request>, byIssuer: map<string, Request>, ghost groups: map<Key, Request>,
      ghost ctx: Context, ghost single: Option<Request>, ghost listed: seq<Request>)
    returns (reqs: seq<Request>)
    requires Represents(byName, byIssuer, groups) && groups == Grouped(ctx, single, listed)
    ensures Arranged(groups, reqs)
  {
    GroupsKeepTheirKey(ctx, single, listed);
    assert forall n :: n in byName ==> ByName(n) in groups && KeyOf(byName[n]) == ByName(n);
    assert forall i :: i in byIssuer ==> ByIssuer(i) in groups && KeyOf(byIssuer[i]) == ByIssuer(i);
    var found := AppendValues(byName, []);
    found := AppendValues(byIssuer, found);
    ValuesAreBoth(byName, byIssuer, groups);
    BeforeIsStrictOrder();
    reqs := SortBy(found, Before);
    PermutationKeepsElements(found, reqs);
    PermutationKeepsNoRepeats(found, reqs);
    SortedGroupsAreArranged(groups, reqs);
  }

  lemma ValuesAreBoth(byName: map<string, Request>, byIssuer: map<string, Request>, groups: map<Key, Request>)
    requires Represents(byName, byIssuer, groups)
    ensures groups.Values == byName.Values + byIssuer.Values
  {
    forall r | r in groups.Values
      ensures r in byName.Values + byIssuer.Values
    {
      var k :| k in groups && groups[k] == r;
      match k
      case ByName(n) => assert byName[n] == r;
      case ByIssuer(i) => assert byIssuer[i] == r;
    }
    forall r | r in byName.Values
      ensures r in groups.Values
    {
      var n :| n in byName && byName[n] == r;
      assert groups[ByName(n)] == r;
    }
    forall r | r in byIssuer.Values
      ensures r in groups.Values
    {
      var i :| i in byIssuer && byIssuer[i] == r;
      assert groups[ByIssuer(i)] == r;
    }
  }

  ghost predicate KeysKept(groups: map<Key, Request>) {
    forall k :: k in groups ==> KeyOf(groups[k]) == k
  }

  lemma {:induction false} GroupsKeepTheirKey(ctx: Context, single: Option<Request>, listed: seq<Request>)
    ensures KeysKept(Grouped(ctx, single, listed))
  {
    if listed != [] {
      var n := |listed| - 1;
      var before, r := Grouped(ctx, single, listed[..n]), listed[n];
      GroupsKeepTheirKey(ctx, single, listed[..n]);
      assert KeyOf(r) in before ==> KeyOf(Merged(ctx, before[KeyOf(r)], r)) == KeyOf(before[KeyOf(r)]);
    }
  }

  lemma BeforeIsStrictOrder()
    ensures StrictOrder(Before)
  {
    forall x: Request
      ensures !Before(x, x)
    {
      LessIsStrictAndTotal(x.issuer, x.issuer);
    }
    forall x: Request, y: Request, z: Request | Before(x, y) && Before(y, z)
      ensures Before(x, z)
    {
      LessIsStrictAndTotal(x.name, y.name);
      LessIsStrictAndTotal(y.name, z.name);
      if x.name == y.name == z.name {
        LessIsTransitive(x.issuer, y.issuer, z.issuer);
      } else if x.name != y.name && y.name != z.name {
        LessIsTransitive(x.name, y.name, z.name);
        LessIsStrictAndTotal(x.name, z.name);
      }
    }
  }

  lemma GroupsAreOrdered(groups: map<Key, Request>, a: Request, b: Request)
    requires KeysKept(groups)
    requires a in groups.Values && b in groups.Values && a != b
    ensures Before(a, b) || Before(b, a)
  {
    assert KeyOf(a) in groups && groups[KeyOf(a)] == a && groups[KeyOf(b)] == b;
    LessIsStrictAndTotal(a.name, b.name);
    LessIsStrictAndTotal(a.issuer, b.issuer);
  }

  lemma SortedGroupsAreArranged(groups: map<Key, Request>, reqs: seq<Request>)
    requires KeysKept(groups)
    requires NoRepeats(reqs) && Sorted(reqs, Before) && forall r :: r in reqs <==> r in groups.Values
    ensures Arranged(groups, reqs)
  {
    forall i, j | 0 <= i < j < |reqs|
      ensures Before(reqs[i], reqs[j])
    {
      assert reqs[i] in reqs && reqs[j] in reqs;
      GroupsAreOrdered(groups, reqs[i], reqs[j]);
      assert !Before(reqs[j], reqs[i]);
    }
  }

  // ---------- What the result says ----------

  /** The order of iteration over the maps cannot show: there is one arrangement. */
  lemma ArrangementIsUnique(ctx: Context, dynamic: Dynamic, a: seq<Request>, b: seq<Request>)
    requires Arranged(Grouped(ctx, dynamic.single, dynamic.listed), a)
    requires Arranged(Grouped(ctx, dynamic.single, dynamic.listed), b)
    ensures a == b
  {
    var groups := Grouped(ctx, dynamic.single, dynamic.listed);
    GroupsKeepTheirKey(ctx, dynamic.single, dynamic.listed);
    ArrangedIsSorted(a);
    ArrangedIsSorted(b);
    SameElementsSameMultiset(a, b);
    forall x, y | x in a && y in a
      ensures x == y || Before(x, y) || Before(y, x)
    {
      if x != y {
        GroupsAreOrdered(groups, x, y);
      }
    }
    SortedArrangementIsUnique(a, b, Before);
  }

  lemma ArrangedIsSorted(reqs: seq<Request>)
    requires forall i, j :: 0 <= i < j < |reqs| ==> Before(reqs[i], reqs[j])
    ensures Sorted(reqs, Before) && NoRepeats(reqs)
  {
    BeforeIsStrictOrder();
    forall i, j | 0 <= i < j < |reqs|
      ensures !Before(reqs[j], reqs[i]) && reqs[i] != reqs[j]
    {
      assert Before(reqs[i], reqs[j]);
    }
  }

  function Inputs(dynamic: Dynamic): seq<Request> {
    (if dynamic.single.Some? then [dynamic.single.value] else []) + dynamic.listed
  }

  function Members(inputs: seq<Request>, k: Key): seq<Request> {
    if inputs == [] then []
    else
      var n := |inputs| - 1;
      if KeyOf(inputs[n]) == k then Members(inputs[..n], k) + [inputs[n]] else Members(inputs[..n], k)
  }

  function AllAddresses(reqs: seq<Request>): seq<string> {
    if reqs == [] then [] else AllAddresses(reqs[..|reqs| - 1]) + reqs[|reqs| - 1].ipAddresses
  }

  function AllNames(ctx: Context, reqs: seq<Request>): seq<string> {
    if reqs == [] then [] else AllNames(ctx, reqs[..|reqs| - 1]) + NamesOf(ctx, reqs[|reqs| - 1])
  }

  /** The names of a group, its first member's default name being dropped if that member was listed. */
  function NamesOfGroup(ctx: Context, members: seq<Request>, firstListed: bool): seq<string> {
    if members == [] then []
    else if |members| == 1 && firstListed then members[0].dnsNames
    else NamesOfGroup(ctx, members[..|members| - 1], firstListed) + NamesOf(ctx, members[|members| - 1])
  }

  predicate FirstIsListed(dynamic: Dynamic, k: Key) {
    dynamic.single.None? || KeyOf(dynamic.single.value) != k
  }

  lemma MembersAppend(inputs: seq<Request>, r: Request, k: Key)
    ensures Members(inputs + [r], k) == if KeyOf(r) == k then Members(inputs, k) + [r] else Members(inputs, k)
  {
    assert (inputs + [r])[..|inputs|] == inputs;
  }

  /** `m` holds, at `k`, the members given in order, made into one. */
  ghost predicate HoldsGroup(
      ctx: Context, m: map<Key, Request>, k: Key, members: seq<Request>, firstListed: bool) {
    && (k in m <==> members != [])
    && (k in m ==>
          && m[k].ipAddresses == AllAddresses(members)
          && m[k].dnsNames == NamesOfGroup(ctx, members, firstListed)
          && m[k] == members[0].(dnsNames := m[k].dnsNames, ipAddresses := m[k].ipAddresses))
  }

  lemma GroupGrows(
      ctx: Context, m: map<Key, Request>, k: Key, members: seq<Request>, firstListed: bool, r: Request)
    requires HoldsGroup(ctx, m, k, members, firstListed) && KeyOf(r) == k
    requires members == [] ==> firstListed
    ensures HoldsGroup(ctx, m[k := if k in m then Merged(ctx, m[k], r) else r], k, members + [r], firstListed)
  {
    assert (members + [r])[..|members|] == members;
  }

  /** There is a group for each key asked for, and it is made of its members in the order they were given. */
  ghost predicate IsItsMembers(ctx: Context, dynamic: Dynamic, k: Key) {
    HoldsGroup(ctx, Grouped(ctx, dynamic.single, dynamic.listed), k,
               Members(Inputs(dynamic), k), FirstIsListed(dynamic, k))
  }

  function With(dynamic: Dynamic, r: Request): Dynamic {
    Dynamic(dynamic.single, dynamic.listed + [r])
  }

  lemma GroupedAppend(ctx: Context, dynamic: Dynamic, r: Request)
    ensures var m := Grouped(ctx, dynamic.single, dynamic.listed);
            Grouped(ctx, dynamic.single, dynamic.listed + [r]) ==
            m[KeyOf(r) := if KeyOf(r) in m then Merged(ctx, m[KeyOf(r)], r) else r]
  {
    assert (dynamic.listed + [r])[..|dynamic.listed|] == dynamic.listed;
  }

  lemma InputsAppend(dynamic: Dynamic, r: Request, k: Key)
    ensures Members(Inputs(With(dynamic, r)), k) ==
            if KeyOf(r) == k then Members(Inputs(dynamic), k) + [r] else Members(Inputs(dynamic), k)
  {
    assert Inputs(With(dynamic, r)) == Inputs(dynamic) + [r];
    MembersAppend(Inputs(dynamic), r, k);
  }

  lemma MembersOfOne(r: Request, k: Key)
    ensures Members([r], k) == if KeyOf(r) == k then [r] else []
  {
    assert [r] == [] + [r];
    MembersAppend([], r, k);
  }

  lemma MergedOfOne(ctx: Context, r: Request)
    ensures AllAddresses([r]) == r.ipAddresses && NamesOfGroup(ctx, [r], false) == NamesOf(ctx, r)
  {
    assert [r][..0] == [];
    assert [] + r.ipAddresses == r.ipAddresses && [] + NamesOf(ctx, r) == NamesOf(ctx, r);
  }

  lemma GroupOfOne(ctx: Context, r: Request, k: Key)
    ensures IsItsMembers(ctx, Dynamic(Some(r), []), k)
  {
    assert Inputs(Dynamic(Some(r), [])) == [r];
    MembersOfOne(r, k);
    MergedOfOne(ctx, r);
  }

  lemma GroupOfMore(ctx: Context, dynamic: Dynamic, r: Request, k: Key)
    requires IsItsMembers(ctx, dynamic, k)
    ensures IsItsMembers(ctx, With(dynamic, r), k)
  {
    GroupedAppend(ctx, dynamic, r);
    InputsAppend(dynamic, r, k);
    if KeyOf(r) == k {
      var members := Members(Inputs(dynamic), k);
      if members == [] {
        SingleIsMember(dynamic, k);
      }
      GroupGrows(ctx, Grouped(ctx, dynamic.single, dynamic.listed), k, members, FirstIsListed(dynamic, k), r);
    }
  }

  /** What holds without listed requests, and goes on holding when one more is listed, holds. */
  lemma {:induction false} ByListing(holds: Dynamic -> bool, dynamic: Dynamic)
    requires holds(Dynamic(dynamic.single, []))
    requires forall d, r :: holds(d) ==> holds(With(d, r))
    ensures holds(dynamic)
    decreases |dynamic.listed|
  {
    if dynamic.listed == [] {
      assert dynamic == Dynamic(dynamic.single, []);
    } else {
      var n := |dynamic.listed| - 1;
      var before := Dynamic(dynamic.single, dynamic.listed[..n]);
      ByListing(holds, before);
      assert dynamic == With(before, dynamic.listed[n]);
    }
  }

  lemma GroupOfNone(ctx: Context, k: Key)
    ensures IsItsMembers(ctx, Dynamic(None, []), k)
  {
  }

  lemma GroupIsItsMembers(ctx: Context, dynamic: Dynamic, k: Key)
    ensures IsItsMembers(ctx, dynamic, k)
  {
    var holds := (d: Dynamic) => IsItsMembers(ctx, d, k);
    forall d, r | holds(d)
      ensures holds(With(d, r))
    {
      GroupOfMore(ctx, d, r, k);
    }
    match dynamic.single {
      case None => GroupOfNone(ctx, k);
      case Some(r) => GroupOfOne(ctx, r, k);
    }
    ByListing(holds, dynamic);
  }

  lemma {:induction false} SingleIsMember(dynamic: Dynamic, k: Key)
    requires Members(Inputs(dynamic), k) == []
    ensures FirstIsListed(dynamic, k)
    decreases |dynamic.listed|
  {
    if dynamic.listed != [] {
      var n := |dynamic.listed| - 1;
      var before := Dynamic(dynamic.single, dynamic.listed[..n]);
      assert dynamic == With(before, dynamic.listed[n]);
      InputsAppend(before, dynamic.listed[n], k);
      SingleIsMember(before, k);
    } else if dynamic.single.Some? {
      assert Inputs(dynamic) == [] + [dynamic.single.value];
      MembersAppend([], dynamic.single.value, k);
    }
  }

  lemma {:induction false} NamesOfGroupLength(ctx: Context, members: seq<Request>, firstListed: bool)
    requires members != []
    ensures var lost := if firstListed && AddsDefault(ctx, members[0]) then 1 else 0;
            |NamesOfGroup(ctx, members, firstListed)| + lost == |AllNames(ctx, members)|
    ensures !(firstListed && AddsDefault(ctx, members[0])) ==>
            NamesOfGroup(ctx, members, firstListed) == AllNames(ctx, members)
  {
    var rest := members[..|members| - 1];
    if rest != [] {
      NamesOfGroupLength(ctx, rest, firstListed);
    } else {
      assert AllNames(ctx, members) == [] + NamesOf(ctx, members[0]);
    }
  }

  /**
    A group's names are all the names its members ask for, default names included, exactly when its
    first member is not a listed one that asks for the default name.
   */
  lemma GroupHasAllNamesIff(ctx: Context, dynamic: Dynamic, k: Key)
    requires Members(Inputs(dynamic), k) != []
    ensures var m, members := Grouped(ctx, dynamic.single, dynamic.listed), Members(Inputs(dynamic), k);
            && k in m
            && (m[k].dnsNames == AllNames(ctx, members) <==>
                !(FirstIsListed(dynamic, k) && AddsDefault(ctx, members[0])))
  {
    GroupIsItsMembers(ctx, dynamic, k);
    NamesOfGroupLength(ctx, Members(Inputs(dynamic), k), FirstIsListed(dynamic, k));
  }

  /** A single listed request that asks for the default name does not get it. */
  lemma ListedDefaultIsIgnored()
    ensures var r := Request("", "issuer", [], [], true, false);
            var m := Grouped(Context("app", "example.org"), None, [r]);
            ByIssuer("issuer") in m && m[ByIssuer("issuer")].dnsNames == [] != NamesOf(Context("app", "example.org"), r)
  {
    var r := Request("", "issuer", [], [], true, false);
    assert [r][..0] == [];
  }

  // ---------- Field by field ----------

  /** The DNS names of one request: those listed, and the instance's own in its zone if it has one and is asked to. */
  lemma DefaultNameIsInZone(instance: string, zone: string, r: Request)
    ensures NamesOf(Context(instance, zone), r) ==
            if r.dnsNamesDefault && zone != "" then r.dnsNames + [instance + "." + zone] else r.dnsNames
  {
    assert r.dnsNames + [] == r.dnsNames;
  }

  /** Requests that are made into one: equal names, or no names and equal issuers. */
  predicate Alike(a: Request, b: Request) {
    a.name == b.name && (a.name == "" ==> a.issuer == b.issuer)
  }

  lemma {:induction false} HasMember(inputs: seq<Request>, k: Key, n: nat)
    requires n < |inputs| && KeyOf(inputs[n]) == k
    ensures Members(inputs, k) != []
  {
    if n < |inputs| - 1 {
      HasMember(inputs[..|inputs| - 1], k, n);
    }
  }

  lemma {:induction false} MemberIsInput(inputs: seq<Request>, k: Key)
    requires Members(inputs, k) != []
    ensures exists n :: 0 <= n < |inputs| && KeyOf(inputs[n]) == k
  {
    var last := |inputs| - 1;
    if KeyOf(inputs[last]) != k {
      MemberIsInput(inputs[..last], k);
      var n :| 0 <= n < last && KeyOf(inputs[..last][n]) == k;
      assert inputs[n] == inputs[..last][n];
    }
  }

  /** Every input has its request in the result, and every request in the result an input. */
  lemma InputsAndRequestsMatch(ctx: Context, dynamic: Dynamic, reqs: seq<Request>)
    requires Arranged(Grouped(ctx, dynamic.single, dynamic.listed), reqs)
    ensures forall r :: r in Inputs(dynamic) ==> exists g :: g in reqs && Alike(g, r)
    ensures forall g :: g in reqs ==> exists r :: r in Inputs(dynamic) && Alike(g, r)
  {
    var groups, inputs := Grouped(ctx, dynamic.single, dynamic.listed), Inputs(dynamic);
    GroupsKeepTheirKey(ctx, dynamic.single, dynamic.listed);
    forall r | r in inputs
      ensures exists g :: g in reqs && Alike(g, r)
    {
      var n :| 0 <= n < |inputs| && inputs[n] == r;
      HasMember(inputs, KeyOf(r), n);
      GroupIsItsMembers(ctx, dynamic, KeyOf(r));
      assert groups[KeyOf(r)] in reqs && Alike(groups[KeyOf(r)], r);
    }
    forall g | g in reqs
      ensures exists r :: r in inputs && Alike(g, r)
    {
      assert KeyOf(g) in groups;
      GroupIsItsMembers(ctx, dynamic, KeyOf(g));
      MemberIsInput(inputs, KeyOf(g));
      var n :| 0 <= n < |inputs| && KeyOf(inputs[n]) == KeyOf(g);
      assert Alike(g, inputs[n]) && inputs[n] in inputs;
    }
  }

  /** No two requests in the result are alike, and they come by name, those without by issuer. */
  lemma RequestsAreOrdered(groups: map<Key, Request>, reqs: seq<Request>, i: nat, j: nat)
    requires KeysKept(groups) && Arranged(groups, reqs) && i < j < |reqs|
    ensures !Alike(reqs[i], reqs[j])
    ensures if reqs[i].name == reqs[j].name
            then exists n :: DiffersAt(reqs[i].issuer, reqs[j].issuer, n)
            else exists n :: DiffersAt(reqs[i].name, reqs[j].name, n)
  {
    assert Before(reqs[i], reqs[j]);
    LessIsByFirstDifference(reqs[i].issuer, reqs[j].issuer);
    LessIsByFirstDifference(reqs[i].name, reqs[j].name);
    LessIsStrictAndTotal(reqs[i].issuer, reqs[j].issuer);
    assert reqs[i] in reqs && reqs[j] in reqs;
    assert groups[KeyOf(reqs[i])] == reqs[i] && groups[KeyOf(reqs[j])] == reqs[j];
  }
}
