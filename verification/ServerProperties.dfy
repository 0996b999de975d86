/** What the compiled servers serve. */
module ServerProperties {
  import opened Ordering
  import opened KeyedList
  import opened InstanceSpec
  import opened Servers
  import opened Mutation

  function PathOf(l: Location): string {
    l.path
  }

  // ---------- One result, whatever order the maps were visited in ----------

  lemma PrecedesIsStrictAndTotal(spec: Spec, tls: seq<NginxTLS>, a: Server, b: Server)
    requires a == ServerFor(spec, tls, a.name) && b == ServerFor(spec, tls, b.name)
    ensures !(Precedes(a, b) && Precedes(b, a))
    ensures a == b || Precedes(a, b) || Precedes(b, a)
  {
    LessIsStrictAndTotal(a.name, b.name);
  }

  /** Everything after the default server, in the order the sorting leaves. */
  ghost predicate IsTail(spec: Spec, tls: seq<NginxTLS>, t: seq<Server>) {
    && NoRepeats(t) && Sorted(t, Precedes) && TotalOn(t, Precedes)
    && forall s :: s in t <==> s.name in Names(spec, tls) && s == ServerFor(spec, tls, s.name)
  }

  lemma CompiledTail(spec: Spec, tls: seq<NginxTLS>, r: seq<Server>)
    requires Compiled(spec, tls, r)
    ensures IsTail(spec, tls, r[1..])
  {
    var t := r[1..];
    forall i, j | 0 <= i < j < |t|
      ensures t[i] != t[j] && !Precedes(t[j], t[i])
    {
      assert Precedes(r[i + 1], r[j + 1]);
      PrecedesIsStrictAndTotal(spec, tls, r[i + 1], r[j + 1]);
    }
    forall a, b | a in t && b in t
      ensures a == b || Precedes(a, b) || Precedes(b, a)
    {
      PrecedesIsStrictAndTotal(spec, tls, a, b);
    }
    forall s: Server | s.name in Names(spec, tls) && s == ServerFor(spec, tls, s.name)
      ensures s in t
    {
      var i :| 1 <= i < |r| && r[i].name == s.name;
      assert t[i - 1] == s;
    }
  }

  lemma TailIsUnique(spec: Spec, tls: seq<NginxTLS>, a: seq<Server>, b: seq<Server>)
    requires IsTail(spec, tls, a) && IsTail(spec, tls, b)
    ensures a == b
  {
    SameElementsSameMultiset(a, b);
    SortedArrangementIsUnique(a, b, Precedes);
  }

  lemma SameHeadAndTail(r: seq<Server>, q: seq<Server>)
    requires r != [] && q != [] && r[0] == q[0] && r[1..] == q[1..]
    ensures r == q
  {
    assert r == [r[0]] + r[1..] && q == [q[0]] + q[1..];
  }

  /** The description `Compiled` admits one result, so the source's map iteration order cannot show. */
  lemma CompilationIsUnique(spec: Spec, tls: seq<NginxTLS>, r: seq<Server>, q: seq<Server>)
    requires Compiled(spec, tls, r) && Compiled(spec, tls, q)
    ensures r == q
  {
    CompiledTail(spec, tls, r);
    CompiledTail(spec, tls, q);
    TailIsUnique(spec, tls, r[1..], q[1..]);
    SameHeadAndTail(r, q);
  }

  // ---------- The position index ----------

  ghost predicate IndexIsExact(defaults: seq<Location>) {
    forall i :: 0 <= i < |defaults| ==>
      defaults[i].path in PositionIndex(defaults) && PositionIndex(defaults)[defaults[i].path] == i
  }

  ghost predicate IndexKnows(defaults: seq<Location>) {
    forall p :: p in PositionIndex(defaults) <==> Lookup(defaults, PathOf, p).Some?
  }

  lemma IndexOfMore(rest: seq<Location>, last: Location)
    ensures PositionIndex(rest + [last]) == PositionIndex(rest)[last.path := |PositionIndex(rest)|]
  {
    assert (rest + [last])[..|rest|] == rest;
  }

  lemma IndexGrows(rest: seq<Location>, last: Location)
    requires Lookup(rest, PathOf, last.path).None?
    requires IndexIsExact(rest) && |PositionIndex(rest)| == |rest| && IndexKnows(rest)
    ensures IndexIsExact(rest + [last]) && |PositionIndex(rest + [last])| == |rest| + 1
  {
    IndexOfMore(rest, last);
    assert last.path !in PositionIndex(rest);
  }

  lemma IndexKnowsMore(rest: seq<Location>, last: Location)
    requires IndexKnows(rest)
    ensures IndexKnows(rest + [last])
  {
    IndexOfMore(rest, last);
    forall p
      ensures p in PositionIndex(rest + [last]) <==> Lookup(rest + [last], PathOf, p).Some?
    {
      LookupInAppend(rest, PathOf, last, p);
    }
  }

  lemma {:induction false} IndexKnowsPaths(defaults: seq<Location>)
    ensures IndexKnows(defaults)
  {
    if defaults != [] {
      var rest, last := defaults[..|defaults| - 1], defaults[|defaults| - 1];
      assert defaults == rest + [last];
      IndexKnowsPaths(rest);
      IndexKnowsMore(rest, last);
    }
  }

  lemma {:induction false} DistinctPathsIndexed(defaults: seq<Location>)
    requires Distinct(defaults, PathOf)
    ensures IndexIsExact(defaults) && |PositionIndex(defaults)| == |defaults| && IndexKnows(defaults)
  {
    IndexKnowsPaths(defaults);
    if defaults != [] {
      var rest, last := defaults[..|defaults| - 1], defaults[|defaults| - 1];
      assert defaults == rest + [last];
      DistinctAppend(rest, PathOf, last);
      DistinctPathsIndexed(rest);
      IndexGrows(rest, last);
    }
  }

  /** An index as large as the list has met no path twice. */
  lemma {:induction false} FullIndexMeansDistinct(defaults: seq<Location>)
    requires |PositionIndex(defaults)| == |defaults|
    ensures Distinct(defaults, PathOf)
  {
    if defaults != [] {
      var rest, last := defaults[..|defaults| - 1], defaults[|defaults| - 1];
      assert defaults == rest + [last];
      IndexOfMore(rest, last);
      assert last.path !in PositionIndex(rest);
      FullIndexMeansDistinct(rest);
      IndexKnowsPaths(rest);
      DistinctAppend(rest, PathOf, last);
    }
  }

  /** The index sends every default path to its own position exactly when no default path is listed twice. */
  lemma IndexIsExactIffPathsDistinct(defaults: seq<Location>)
    ensures IndexIsExact(defaults) <==> Distinct(defaults, PathOf)
  {
    if Distinct(defaults, PathOf) {
      DistinctPathsIndexed(defaults);
    }
  }

  function At(server: string, path: string): Location {
    Location(server, path, "app", None, false)
  }

  lemma OverriddenByOne(base: seq<Location>, own: Location, index: map<string, nat>)
    requires forall p :: p in index ==> index[p] < |base|
    ensures Overridden(base, [own], index) ==
            if own.path in index then base[index[own.path] := own] else base + [own]
  {
    assert [own][..0] == [];
    assert Overridden(base, [], index) == base;
  }

  /** With a default path listed twice, an override of the last route lands on the one before it. */
  lemma MisplacedOverride(a: Location, b: Location, c: Location, own: Location)
    requires a.serverName == b.serverName == c.serverName == "" && own.serverName == "x" && own.path == c.path
    requires a.path != b.path && a.path != c.path && b.path != c.path
    ensures LocationsOf([a, a, b, c, own], "x") == [a, a, own, c]
  {
    var defaults := [a, a, b, c];
    ListedByName([a, a, b, c, own], defaults, own);
    OverriddenByOne(defaults, own, PositionIndex(defaults));
    IndexOfDuplicates(a, b, c);
    assert defaults[2 := own] == [a, a, own, c];
  }

  /** So the route before it is not served at all. */
  lemma DuplicateDefaultLosesRoute(a: Location, b: Location, c: Location, own: Location)
    requires a.serverName == b.serverName == c.serverName == "" && own.serverName == "x" && own.path == c.path
    requires a.path != b.path && a.path != c.path && b.path != c.path
    ensures var locations := [a, a, b, c, own];
            && Lookup(locations, RouteKey, ("", b.path)).Some?
            && Lookup(LocationsOf(locations, "x"), PathOf, b.path).None?
  {
    MisplacedOverride(a, b, c, own);
    var locations, served := [a, a, b, c, own], [a, a, own, c];
    assert RouteKey(locations[2]) == ("", b.path);
    assert forall i :: 0 <= i < |served| ==> PathOf(served[i]) != b.path;
  }

  /** A spec of that kind, written out. */
  lemma MisplacedOverrideExample()
    ensures var a, b, c, own := At("", "/a"), At("", "/b"), At("", "/c"), At("x", "/c");
            LocationsOf([a, a, b, c, own], "x") == [a, a, own, c]
  {
    var a, b, c, own := At("", "/a"), At("", "/b"), At("", "/c"), At("x", "/c");
    assert a.path[1] == 'a' && b.path[1] == 'b' && c.path[1] == 'c';
    MisplacedOverride(a, b, c, own);
  }

  lemma ListedByName(locations: seq<Location>, defaults: seq<Location>, own: Location)
    requires locations == defaults + [own] && own.serverName == "x"
    requires forall l :: l in defaults ==> l.serverName == ""
    ensures Listed(locations, "") == defaults && Listed(locations, "x") == [own]
  {
    assert locations[..|defaults|] == defaults;
    for i := 0 to |defaults|
      invariant Listed(defaults[..i], "") == defaults[..i] && Listed(defaults[..i], "x") == []
    {
      assert defaults[i] in defaults;
      NextListed(defaults, i, "");
      NextListed(defaults, i, "x");
    }
    assert defaults[..|defaults|] == defaults;
  }

  lemma IndexOfDuplicates(a: Location, b: Location, c: Location)
    requires a.path != b.path && a.path != c.path && b.path != c.path
    ensures PositionIndex([a, a, b, c]) == map[a.path := 1, b.path := 1, c.path := 2]
  {
    assert [a][..0] == [] && PositionIndex([a]) == map[a.path := 0];
    assert [a, a][..1] == [a] && PositionIndex([a, a]) == map[a.path := 1];
    assert [a, a, b][..2] == [a, a] && PositionIndex([a, a, b]) == map[a.path := 1, b.path := 1];
    assert [a, a, b, c][..3] == [a, a, b];
  }

  // ---------- Locations ----------

  lemma {:induction false} LookupInListed(locations: seq<Location>, name: string, path: string)
    ensures Lookup(Listed(locations, name), PathOf, path) == Lookup(locations, RouteKey, (name, path))
  {
    if locations != [] {
      var rest, last := locations[..|locations| - 1], locations[|locations| - 1];
      assert locations == rest + [last];
      LookupInListed(rest, name, path);
      LookupInAppend(rest, RouteKey, last, (name, path));
      LookupInAppend(Listed(rest, name), PathOf, last, path);
    }
  }

  lemma {:induction false} ListedIsDistinct(locations: seq<Location>, name: string)
    requires Distinct(locations, RouteKey)
    ensures Distinct(Listed(locations, name), PathOf)
  {
    if locations != [] {
      var rest, last := locations[..|locations| - 1], locations[|locations| - 1];
      assert locations == rest + [last];
      DistinctAppend(rest, RouteKey, last);
      ListedIsDistinct(rest, name);
      DistinctAppend(Listed(rest, name), PathOf, last);
      LookupInListed(rest, name, last.path);
    }
  }

  lemma {:induction false} LastInListed(locations: seq<Location>, name: string, path: string)
    ensures LastWith(Listed(locations, name), PathOf, path) == LastWith(locations, RouteKey, (name, path))
  {
    if locations != [] {
      var rest, last := locations[..|locations| - 1], locations[|locations| - 1];
      assert locations == rest + [last];
      LastInListed(rest, name, path);
      LastWithAppend(rest, RouteKey, last, (name, path));
      LastWithAppend(Listed(rest, name), PathOf, last, path);
    }
  }

  /** The own locations at paths that no default location has, in order. */
  function Extra(own: seq<Location>, base: seq<Location>): seq<Location> {
    if own == [] then []
    else
      var rest, last := own[..|own| - 1], own[|own| - 1];
      if Lookup(base, PathOf, last.path).Some? then Extra(rest, base) else Extra(rest, base) + [last]
  }

  /** The places of the default locations hold default paths; the extra locations follow them. */
  lemma {:induction false} OverriddenParts(base: seq<Location>, own: seq<Location>)
    ensures var r := Overridden(base, own, PositionIndex(base));
            && (forall i :: 0 <= i < |base| ==> r[i].path in PositionIndex(base))
            && r[|base|..] == Extra(own, base)
  {
    IndexKnowsPaths(base);
    if own == [] {
      assert forall i :: 0 <= i < |base| ==> Find(base, PathOf, base[i].path).Some?;
    } else {
      OverriddenParts(base, own[..|own| - 1]);
    }
  }

  lemma {:induction false} DistinctPathsAreMany(xs: seq<Location>, paths: set<string>)
    requires Distinct(xs, PathOf) && forall i :: 0 <= i < |xs| ==> xs[i].path in paths
    ensures |xs| <= |paths|
  {
    if xs != [] {
      var rest, last := xs[..|xs| - 1], xs[|xs| - 1];
      assert forall i :: 0 <= i < |rest| ==> rest[i] == xs[i] && PathOf(xs[i]) != PathOf(last);
      DistinctPathsAreMany(rest, paths - {last.path});
    }
  }

  /** Paths of the result can only be distinct if those of the defaults and of the extra locations are. */
  lemma DistinctResultMeansDistinctParts(base: seq<Location>, own: seq<Location>)
    requires Distinct(Overridden(base, own, PositionIndex(base)), PathOf)
    ensures Distinct(base, PathOf) && Distinct(Extra(own, base), PathOf)
  {
    var r := Overridden(base, own, PositionIndex(base));
    OverriddenParts(base, own);
    DistinctPathsAreMany(r[..|base|], PositionIndex(base).Keys);
    FullIndexMeansDistinct(base);
  }

  lemma {:induction false} ExtraKeeps(own: seq<Location>, base: seq<Location>, path: string)
    requires Lookup(base, PathOf, path).None?
    ensures LastWith(own, PathOf, path) == LastWith(Extra(own, base), PathOf, path)
  {
    if own != [] {
      var rest, last := own[..|own| - 1], own[|own| - 1];
      ExtraKeeps(rest, base, path);
      LastWithAppend(Extra(rest, base), PathOf, last, path);
    }
  }

  /** Own locations first, the last of a path counting; then default ones. */
  function OwnElse(own: seq<Location>, base: seq<Location>, path: string): Option<Location> {
    if LastWith(own, PathOf, path).Some? then LastWith(own, PathOf, path) else Lookup(base, PathOf, path)
  }

  ghost predicate ServesOwnElse(r: seq<Location>, own: seq<Location>, base: seq<Location>) {
    && Distinct(r, PathOf) && |base| <= |r|
    && (forall i :: 0 <= i < |base| ==> r[i].path == base[i].path)
    && forall p :: Lookup(r, PathOf, p) == OwnElse(own, base, p)
  }

  lemma OverrideOne(base: seq<Location>, rest: seq<Location>, last: Location, r: seq<Location>)
    requires Distinct(base, PathOf) && Distinct(Extra(rest + [last], base), PathOf)
    requires ServesOwnElse(r, rest, base)
    ensures var index := PositionIndex(base);
            && (last.path in index ==> index[last.path] < |r| && r[index[last.path] := last] == Put(r, PathOf, last))
            && (last.path !in index ==> r + [last] == Put(r, PathOf, last))
  {
    DistinctPathsIndexed(base);
    assert (rest + [last])[..|rest|] == rest;
    if last.path in PositionIndex(base) {
      var i := Find(base, PathOf, last.path).value;
      FindAt(r, PathOf, i);
    } else {
      DistinctAppend(Extra(rest, base), PathOf, last);
      LastIsOnly(Extra(rest, base), PathOf, last.path);
      ExtraKeeps(rest, base, last.path);
      assert Lookup(r, PathOf, last.path).None?;
    }
  }

  lemma PutServes(base: seq<Location>, rest: seq<Location>, last: Location, r: seq<Location>)
    requires ServesOwnElse(r, rest, base)
    ensures ServesOwnElse(Put(r, PathOf, last), rest + [last], base)
  {
    PutKeepsDistinct(r, PathOf, last);
    forall p
      ensures Lookup(Put(r, PathOf, last), PathOf, p) == OwnElse(rest + [last], base, p)
    {
      LookupAfterPut(r, PathOf, last, p);
      LastWithAppend(rest, PathOf, last, p);
    }
  }

  /** An override keeps paths distinct and default positions, and answers a path with the own location first. */
  lemma {:induction false} OverrideServes(base: seq<Location>, own: seq<Location>)
    requires Distinct(base, PathOf) && Distinct(Extra(own, base), PathOf)
    ensures ServesOwnElse(Overridden(base, own, PositionIndex(base)), own, base)
  {
    if own != [] {
      var rest, last := own[..|own| - 1], own[|own| - 1];
      assert own == rest + [last];
      if Lookup(base, PathOf, last.path).None? {
        DistinctAppend(Extra(rest, base), PathOf, last);
      }
      OverrideServes(base, rest);
      var r := Overridden(base, rest, PositionIndex(base));
      OverrideOne(base, rest, last, r);
      PutServes(base, rest, last, r);
    }
  }

  /** What a request for `path` to `name` should reach: the name's own location, else the default one. */
  function Served(locations: seq<Location>, name: string, path: string): Option<Location> {
    var own := LastWith(locations, RouteKey, (name, path));
    if own.Some? then own else LastWith(locations, RouteKey, ("", path))
  }

  /** Each path once, and each path of the spec answered as it should. */
  ghost predicate ServesEachPathOnce(locations: seq<Location>, name: string) {
    && Distinct(LocationsOf(locations, name), PathOf)
    && forall p :: Lookup(LocationsOf(locations, name), PathOf, p) == Served(locations, name, p)
  }

  /** No default path is listed twice, and no path of the name's own that is not a default one. */
  ghost predicate PathsListedOnce(locations: seq<Location>, name: string) {
    var defaults := Listed(locations, "");
    Distinct(defaults, PathOf) && Distinct(Extra(Listed(locations, name), defaults), PathOf)
  }

  /** A compiled server answers every path as it should, each once, exactly when its paths are listed once. */
  lemma LocationsServedIff(locations: seq<Location>, name: string)
    requires name != ""
    ensures ServesEachPathOnce(locations, name) <==> PathsListedOnce(locations, name)
    ensures Distinct(LocationsOf(locations, name), PathOf) <==> PathsListedOnce(locations, name)
    ensures PathsListedOnce(locations, name) ==>
      forall i :: 0 <= i < |Listed(locations, "")| ==>
        LocationsOf(locations, name)[i].path == Listed(locations, "")[i].path
  {
    var defaults, own := Listed(locations, ""), Listed(locations, name);
    if PathsListedOnce(locations, name) {
      OverrideServes(defaults, own);
      forall p
        ensures OwnElse(own, defaults, p) == Served(locations, name, p)
      {
        LastInListed(locations, name, p);
        LastInListed(locations, "", p);
        LastIsOnly(defaults, PathOf, p);
      }
    }
    if Distinct(LocationsOf(locations, name), PathOf) {
      DistinctResultMeansDistinctParts(defaults, own);
    }
  }

  lemma {:induction false} ExtraIsDistinct(own: seq<Location>, base: seq<Location>)
    requires Distinct(own, PathOf)
    ensures Distinct(Extra(own, base), PathOf)
  {
    if own != [] {
      var rest, last := own[..|own| - 1], own[|own| - 1];
      assert own == rest + [last];
      DistinctAppend(rest, PathOf, last);
      ExtraIsDistinct(rest, base);
      if Lookup(base, PathOf, last.path).None? {
        LastIsOnly(rest, PathOf, last.path);
        ExtraKeeps(rest, base, last.path);
        LastIsOnly(Extra(rest, base), PathOf, last.path);
        DistinctAppend(Extra(rest, base), PathOf, last);
      }
    }
  }

  /** Specs with unique (server name, path) pairs are of that kind. */
  lemma DistinctRoutesAreListedOnce(locations: seq<Location>, name: string)
    requires Distinct(locations, RouteKey)
    ensures PathsListedOnce(locations, name)
  {
    ListedIsDistinct(locations, "");
    ListedIsDistinct(locations, name);
    ExtraIsDistinct(Listed(locations, name), Listed(locations, ""));
  }

  // ---------- Blocks ----------

  /** The block of one type: the last contribution under the name, else the instance's own. */
  lemma {:induction false} BlocksServed(
      blocks: map<string, Value>, serverBlocks: seq<ServerBlock>, name: string, t: string)
    requires name != ""
    ensures var own, served := LastWith(serverBlocks, BlockKey, (name, t)), BlocksOf(blocks, serverBlocks, name);
            && (t in served <==> own.Some? || t in blocks)
            && (t in served ==> served[t] == if own.Some? then Contribution(blocks, own.value) else blocks[t])
  {
    if serverBlocks != [] {
      var rest, last := serverBlocks[..|serverBlocks| - 1], serverBlocks[|serverBlocks| - 1];
      assert serverBlocks == rest + [last];
      BlocksServed(blocks, rest, name, t);
      LastWithAppend(rest, BlockKey, last, (name, t));
    }
  }

  /** An extending block is glued to the default block of its own type. */
  predicate ExtendsOwnType(blocks: map<string, Value>, b: ServerBlock) {
    b.extend && b.blockType in blocks ==>
      Contribution(blocks, b).value == blocks[b.blockType].value + "\n" + b.content.value
  }

  /** It is, exactly when its type is "server" or that default block happens to read the same. */
  lemma ExtendsOwnTypeIff(blocks: map<string, Value>, b: ServerBlock)
    requires b.extend && b.blockType in blocks
    ensures ExtendsOwnType(blocks, b) <==>
            b.blockType == SERVER_BLOCK ||
            blocks[b.blockType].value == if SERVER_BLOCK in blocks then blocks[SERVER_BLOCK].value else ""
  {
    var glued := if SERVER_BLOCK in blocks then blocks[SERVER_BLOCK].value else "";
    var wanted, tail := blocks[b.blockType].value, "\n" + b.content.value;
    if glued + "\n" + b.content.value == wanted + "\n" + b.content.value {
      assert glued + tail == glued + "\n" + b.content.value && wanted + tail == wanted + "\n" + b.content.value;
      assert |glued| == |wanted|;
      assert glued == (glued + tail)[..|glued|] == (wanted + tail)[..|wanted|] == wanted;
    }
  }

  /** A type other than "server", with no default block of type "server": the default of its own type is lost. */
  lemma ExtensionLosesDefault(t: string, base: Value, content: Value)
    requires t != SERVER_BLOCK && base.value != ""
    ensures !ExtendsOwnType(map[t := base], ServerBlock("x", t, content, true))
    ensures Contribution(map[t := base], ServerBlock("x", t, content, true)).value == "\n" + content.value
  {
    ExtendsOwnTypeIff(map[t := base], ServerBlock("x", t, content, true));
    assert "" + "\n" + content.value == "\n" + content.value;
  }

  // ---------- Certificates ----------

  ghost predicate LastToList(tls: seq<NginxTLS>, host: string, i: int) {
    0 <= i < |tls| && host in tls[i].hosts && forall k :: i < k < |tls| ==> host !in tls[k].hosts
  }

  lemma {:induction false} LastListingIsLast(tls: seq<NginxTLS>, host: string)
    ensures host in Hosts(tls) <==> LastListing(tls, host).Some?
    ensures forall i :: LastToList(tls, host, i) ==> LastListing(tls, host) == Some(tls[i].secretName)
    ensures LastListing(tls, host).Some? ==> exists i :: LastToList(tls, host, i)
  {
    if tls != [] {
      var n := |tls| - 1;
      var rest, last := tls[..n], tls[n];
      assert tls == rest + [last];
      HostsOfMore(rest, last);
      LastListingIsLast(rest, host);
      if host in last.hosts {
        assert LastToList(tls, host, n);
      } else {
        forall i | LastToList(tls, host, i)
          ensures LastToList(rest, host, i)
        {
        }
        if LastListing(rest, host).Some? {
          var i :| LastToList(rest, host, i);
          assert LastToList(tls, host, i);
        }
      }
    }
  }

  /**
    A server has TLS exactly when its name or the one-label wildcard over it is a certificate's host;
    its secret is that of the last certificate listing the name, else of the last listing the
    wildcard; and it is marked wildcard exactly when it has TLS and a wildcard name.
   */
  lemma CertificateServed(spec: Spec, tls: seq<NginxTLS>, name: string)
    ensures var s, over := ServerFor(spec, tls, name), CoveringWildcard(name);
            && (s.tls <==> name in Hosts(tls) || (over.Some? && over.value in Hosts(tls)))
            && (forall i :: LastToList(tls, name, i) ==> s.secretName == tls[i].secretName)
            && (name !in Hosts(tls) && over.Some? ==>
                  forall i :: LastToList(tls, over.value, i) ==> s.secretName == tls[i].secretName)
            && (s.wildcard <==> s.tls && IsWildcard(name))
  {
    LastListingIsLast(tls, name);
    if CoveringWildcard(name).Some? {
      LastListingIsLast(tls, CoveringWildcard(name).value);
    }
  }

  /** Some certificate lists the host. */
  ghost predicate HasListing(tls: seq<NginxTLS>, host: string) {
    exists t :: t in tls && host in t.hosts
  }

  lemma {:induction false} CutAtFirstDot(head: string, rest: string)
    requires '.' !in head
    ensures AfterFirstDot(head) == None && AfterFirstDot(head + "." + rest) == Some(rest)
  {
    if head == "" {
      assert head + "." + rest == "." + rest;
    } else {
      CutAtFirstDot(head[1..], rest);
      assert (head + "." + rest)[1..] == head[1..] + "." + rest;
    }
  }

  /** The compiled server of a name that some certificate lists: TLS, with the secret of the last one listing it. */
  lemma ListedNameHasTLS(spec: Spec, tls: seq<NginxTLS>, result: seq<Server>, k: nat)
    requires Compiled(spec, tls, result) && 1 <= k < |result| && HasListing(tls, result[k].name)
    ensures result[k].tls
    ensures forall i :: LastToList(tls, result[k].name, i) ==> result[k].secretName == tls[i].secretName
    ensures exists i :: LastToList(tls, result[k].name, i)
  {
    CertificateServed(spec, tls, result[k].name);
    LastListingIsLast(tls, result[k].name);
  }

  /**
    A name no certificate lists, its first label cut off: it has TLS exactly when some certificate lists the
    wildcard over the rest, with the secret of the last one that does.
   */
  lemma WildcardCoversOneLabel(
      spec: Spec, tls: seq<NginxTLS>, result: seq<Server>, k: nat, first: string, rest: string)
    requires Compiled(spec, tls, result) && 1 <= k < |result| && result[k].name == first + "." + rest
    requires '.' !in first && !HasListing(tls, result[k].name)
    ensures result[k].tls <==> HasListing(tls, "*." + rest)
    ensures forall i :: LastToList(tls, "*." + rest, i) ==> result[k].secretName == tls[i].secretName
    ensures !result[k].tls ==> result[k].secretName == ""
  {
    CutAtFirstDot(first, rest);
    CertificateServed(spec, tls, result[k].name);
    LastListingIsLast(tls, result[k].name);
    LastListingIsLast(tls, "*." + rest);
  }

  /** A name without a dot that no certificate lists has no TLS. */
  lemma DotlessNameHasNone(spec: Spec, tls: seq<NginxTLS>, result: seq<Server>, k: nat)
    requires Compiled(spec, tls, result) && 1 <= k < |result|
    requires '.' !in result[k].name && !HasListing(tls, result[k].name)
    ensures !result[k].tls && result[k].secretName == ""
  {
    CutAtFirstDot(result[k].name, "");
    CertificateServed(spec, tls, result[k].name);
    LastListingIsLast(tls, result[k].name);
  }

  /** The names that are compiled: those of locations, of server blocks and of certificates. */
  lemma CompiledNames(spec: Spec, tls: seq<NginxTLS>, result: seq<Server>, n: string)
    requires Compiled(spec, tls, result)
    ensures (exists k :: 1 <= k < |result| && result[k].name == n) <==>
      || (n != "" && exists l :: l in spec.locations && l.serverName == n)
      || (n != "" && exists b :: b in spec.serverBlocks && b.serverName == n)
      || HasListing(tls, n)
  {
    assert n in LocationNames(spec.locations) <==> n != "" && exists l :: l in spec.locations && l.serverName == n;
    assert n in BlockNames(spec.serverBlocks) <==> n != "" && exists b :: b in spec.serverBlocks && b.serverName == n;
    assert n in Hosts(tls) <==> HasListing(tls, n);
    assert n in Names(spec, tls) <==> exists k :: 1 <= k < |result| && result[k].name == n;
  }

  /** The default server comes first; wildcard servers are those with TLS whose name begins with "*.". */
  lemma CompiledMarks(spec: Spec, tls: seq<NginxTLS>, result: seq<Server>, k: nat)
    requires Compiled(spec, tls, result) && k < |result|
    ensures result[k].isDefault <==> k == 0
    ensures k == 0 ==> result[k].name == "" && !result[k].tls && result[k].blocks == spec.blocks
    ensures result[k].wildcard <==>
      result[k].tls && |result[k].name| >= 2 && result[k].name[0] == '*' && result[k].name[1] == '.'
  {
    if k > 0 {
      CertificateServed(spec, tls, result[k].name);
    }
  }

  /** The others follow, wildcard servers last, each kind in the order of names. */
  lemma CompiledOrder(spec: Spec, tls: seq<NginxTLS>, result: seq<Server>, i: nat, j: nat)
    requires Compiled(spec, tls, result) && 1 <= i < j < |result|
    ensures if result[i].wildcard == result[j].wildcard
            then exists n :: DiffersAt(result[i].name, result[j].name, n)
            else result[j].wildcard
  {
    assert Precedes(result[i], result[j]);
    LessIsByFirstDifference(result[i].name, result[j].name);
  }

  /** The text a server's block of a type is given, for a block listed last under its name. */
  lemma BlockTextServed(
      blocks: map<string, Value>, serverBlocks: seq<ServerBlock>, name: string, t: string, k: nat)
    requires name != "" && k < |serverBlocks|
    requires serverBlocks[k].serverName == name && serverBlocks[k].blockType == t
    requires forall l :: k < l < |serverBlocks| ==> serverBlocks[l].serverName != name || serverBlocks[l].blockType != t
    ensures var served, b := BlocksOf(blocks, serverBlocks, name), serverBlocks[k];
            var base := if "server" in blocks then blocks["server"].value else "";
            && t in served
            && (b.extend && t in blocks ==>
                  served[t].value == base + "\n" + b.content.value && served[t].valueFrom == None)
            && (!(b.extend && t in blocks) ==> served[t] == b.content)
  {
    BlocksServed(blocks, serverBlocks, name, t);
    LastWithAt(serverBlocks, BlockKey, k);
  }

  // ---------- From user operations to served routes ----------

  lemma EmptyIsWellFormed()
    ensures WellFormed(EMPTY_SPEC)
    ensures MeaningOf(EMPTY_SPEC) == Meaning(map[], map[], map[], [])
  {
  }

  /** The routes and blocks of one server, read off the finite maps. */
  ghost predicate ServesMeaning(m: Meaning, s: Server, path: string, t: string) {
    && Lookup(s.locations, PathOf, path) ==
         (if (s.name, path) in m.routes then Some(m.routes[(s.name, path)])
          else if ("", path) in m.routes then Some(m.routes[("", path)])
          else None)
    && (t in s.blocks <==> (s.name, t) in m.serverBlocks || t in m.blocks)
    && ((s.name, t) in m.serverBlocks ==>
          ExtendsOwnType(m.blocks, m.serverBlocks[(s.name, t)]) &&
          s.blocks[t] == Contribution(m.blocks, m.serverBlocks[(s.name, t)]))
    && ((s.name, t) !in m.serverBlocks && t in m.blocks ==> s.blocks[t] == m.blocks[t])
  }

  lemma WellFormedRoutesAreServed(spec: Spec, tls: seq<NginxTLS>, name: string, path: string)
    requires WellFormed(spec)
    ensures var m, s := MeaningOf(spec), ServerFor(spec, tls, name);
            && Distinct(s.locations, PathOf)
            && Lookup(s.locations, PathOf, path) ==
                 (if (name, path) in m.routes then Some(m.routes[(name, path)])
                  else if ("", path) in m.routes then Some(m.routes[("", path)])
                  else None)
  {
    AsMapIsLookup(spec.locations, RouteKey, (name, path));
    AsMapIsLookup(spec.locations, RouteKey, ("", path));
    if name == "" {
      ListedIsDistinct(spec.locations, "");
      LookupInListed(spec.locations, "", path);
    } else {
      DistinctRoutesAreListedOnce(spec.locations, name);
      LocationsServedIff(spec.locations, name);
      LastIsOnly(spec.locations, RouteKey, (name, path));
      LastIsOnly(spec.locations, RouteKey, ("", path));
    }
  }

  lemma {:induction false} NoBlocksForNoName(blocks: map<string, Value>, serverBlocks: seq<ServerBlock>)
    ensures BlocksOf(blocks, serverBlocks, "") == blocks
  {
    if serverBlocks != [] {
      NoBlocksForNoName(blocks, serverBlocks[..|serverBlocks| - 1]);
    }
  }

  lemma WellFormedSpecIsServed(spec: Spec, tls: seq<NginxTLS>, name: string, path: string, t: string)
    requires WellFormed(spec)
    ensures ServesMeaning(MeaningOf(spec), ServerFor(spec, tls, name), path, t)
  {
    WellFormedRoutesAreServed(spec, tls, name, path);
    AsMapIsLookup(spec.serverBlocks, BlockKey, (name, t));
    var own := Find(spec.serverBlocks, BlockKey, (name, t));
    if own.Some? {
      assert spec.serverBlocks[own.value] in spec.serverBlocks;
    }
    if name == "" {
      NoBlocksForNoName(spec.blocks, spec.serverBlocks);
    } else {
      BlocksServed(spec.blocks, spec.serverBlocks, name, t);
      LastIsOnly(spec.serverBlocks, BlockKey, (name, t));
    }
  }

  /** The default server serves what a server without a name or certificate would. */
  lemma DefaultServesMeaning(spec: Spec, path: string, t: string)
    requires WellFormed(spec)
    ensures Distinct(DefaultServer(spec).locations, PathOf)
    ensures ServesMeaning(MeaningOf(spec), DefaultServer(spec), path, t)
  {
    WellFormedRoutesAreServed(spec, [], "", path);
    WellFormedSpecIsServed(spec, [], "", path, t);
    NoBlocksForNoName(spec.blocks, spec.serverBlocks);
    assert ServerFor(spec, [], "") == Plain(spec, "");
  }

  /**
    After any sequence of user operations, every compiled server answers every path with the route
    that the same operations, read as put and remove on a finite map, leave under its name, else
    with the one they leave for all servers; its paths are distinct; and its blocks follow the same
    reading, an extending block being glued to the default block of its own type.
   */
  lemma EveryReachedSpecIsServed(
      c: Checks, ops: seq<Op>, tls: seq<NginxTLS>, result: seq<Server>, i: nat, path: string, t: string)
    requires Compiled(Run(c, EMPTY_SPEC, ops), tls, result) && i < |result|
    ensures var m := IntendedRun(c, Meaning(map[], map[], map[], []), ops);
            Distinct(result[i].locations, PathOf) && ServesMeaning(m, result[i], path, t)
  {
    EmptyIsWellFormed();
    RunRefines(c, EMPTY_SPEC, ops);
    var spec, name := Run(c, EMPTY_SPEC, ops), result[i].name;
    if i == 0 {
      DefaultServesMeaning(spec, path, t);
    } else {
      WellFormedRoutesAreServed(spec, tls, name, path);
      WellFormedSpecIsServed(spec, tls, name, path, t);
    }
  }
}
