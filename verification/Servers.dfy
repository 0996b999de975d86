/**
  The compiler from an instance's flat locations, server blocks and certificates to nginx servers.
  Each server struct of the source is reachable from one map entry only, so an update through its
  pointer is an update of that entry here.
 */
module Servers {
  import opened Ordering
  import opened KeyedList
  import opened InstanceSpec

  datatype Server = Server(
    name: string, tls: bool, secretName: string, isDefault: bool, wildcard: bool,
    httpOptions: string, httpsOptions: string, blocks: map<string, Value>, locations: seq<Location>)

  function Bare(name: string, blocks: map<string, Value>): Server {
    Server(name, false, "", false, false, "", "", blocks, [])
  }

  predicate IsWildcard(host: string) {
    "*." <= host
  }

  function AfterFirstDot(host: string): Option<string> {
    if host == "" then None
    else if host[0] == '.' then Some(host[1..])
    else AfterFirstDot(host[1..])
  }

  // ---------- What each part of a server is made from ----------

  /** The locations listed under one server name, in the order of the spec. */
  function Listed(locations: seq<Location>, name: string): seq<Location> {
    if locations == [] then []
    else
      var rest, last := locations[..|locations| - 1], locations[|locations| - 1];
      if last.serverName == name then Listed(rest, name) + [last] else Listed(rest, name)
  }

  /** The index the source builds: a path is sent to the number of distinct paths met before it. */
  function PositionIndex(defaults: seq<Location>): (index: map<string, nat>)
    ensures |index| <= |defaults|
    ensures forall p :: p in index ==> index[p] < |defaults|
  {
    if defaults == [] then map[]
    else
      var rest, last := defaults[..|defaults| - 1], defaults[|defaults| - 1];
      var index := PositionIndex(rest);
      index[last.path := |index|]
  }

  /** The base list with each own location put at its indexed position, or appended. */
  function Overridden(base: seq<Location>, own: seq<Location>, index: map<string, nat>): (r: seq<Location>)
    requires forall p :: p in index ==> index[p] < |base|
    ensures |base| <= |r|
  {
    if own == [] then base
    else
      var rest, last := own[..|own| - 1], own[|own| - 1];
      var r := Overridden(base, rest, index);
      if last.path in index then r[index[last.path] := last] else r + [last]
  }

  function LocationsOf(locations: seq<Location>, name: string): seq<Location> {
    var defaults := Listed(locations, "");
    Overridden(defaults, if name == "" then [] else Listed(locations, name), PositionIndex(defaults))
  }

  /** An extending block is glued to the default block of type "server", whatever its own type. */
  function Contribution(blocks: map<string, Value>, b: ServerBlock): Value {
    if b.extend && b.blockType in blocks then
      Text((if SERVER_BLOCK in blocks then blocks[SERVER_BLOCK].value else "") + "\n" + b.content.value)
    else b.content
  }

  function BlocksOf(blocks: map<string, Value>, serverBlocks: seq<ServerBlock>, name: string): map<string, Value> {
    if serverBlocks == [] then blocks
    else
      var rest, last := serverBlocks[..|serverBlocks| - 1], serverBlocks[|serverBlocks| - 1];
      var before := BlocksOf(blocks, rest, name);
      if last.serverName == name && name != "" then before[last.blockType := Contribution(blocks, last)] else before
  }

  /** The secret of the last certificate that lists the host. */
  function LastListing(tls: seq<NginxTLS>, host: string): Option<string> {
    if tls == [] then None
    else
      var rest, last := tls[..|tls| - 1], tls[|tls| - 1];
      if host in last.hosts then Some(last.secretName) else LastListing(rest, host)
  }

  function CoveringWildcard(host: string): Option<string> {
    match AfterFirstDot(host) case None => None case Some(rest) => Some("*." + rest)
  }

  function SecretOf(tls: seq<NginxTLS>, name: string): Option<string> {
    match LastListing(tls, name)
    case Some(s) => Some(s)
    case None =>
      match CoveringWildcard(name)
      case None => None
      case Some(wildcard) => LastListing(tls, wildcard)
  }

  function LocationNames(locations: seq<Location>): set<string> {
    set l | l in locations && l.serverName != "" :: l.serverName
  }

  function BlockNames(serverBlocks: seq<ServerBlock>): set<string> {
    set b | b in serverBlocks && b.serverName != "" :: b.serverName
  }

  function Hosts(tls: seq<NginxTLS>): set<string> {
    set t, h | t in tls && h in t.hosts :: h
  }

  function Names(spec: Spec, tls: seq<NginxTLS>): set<string> {
    LocationNames(spec.locations) + BlockNames(spec.serverBlocks) + Hosts(tls)
  }

  function WithSecret(s: Server, secret: Option<string>): Server {
    match secret
    case None => s
    case Some(n) => s.(tls := true, secretName := n, wildcard := IsWildcard(s.name))
  }

  /** The server named `name` before certificates are looked at. */
  function Plain(spec: Spec, name: string): Server {
    Bare(name, BlocksOf(spec.blocks, spec.serverBlocks, name)).(locations := LocationsOf(spec.locations, name))
  }

  function ServerFor(spec: Spec, tls: seq<NginxTLS>, name: string): Server {
    WithSecret(Plain(spec, name), SecretOf(tls, name))
  }

  function DefaultServer(spec: Spec): Server {
    Bare("", spec.blocks).(isDefault := true, locations := Listed(spec.locations, ""))
  }

  /** Servers with the `wildcard` mark come after those without; within each group names ascend. */
  predicate Precedes(a: Server, b: Server) {
    if a.wildcard == b.wildcard then Less(a.name, b.name) else b.wildcard
  }

  /** Says everything about the result: which servers, what is in each, and in which order. */
  ghost predicate Compiled(spec: Spec, tls: seq<NginxTLS>, result: seq<Server>) {
    && result != []
    && result[0] == DefaultServer(spec)
    && (forall n :: n in Names(spec, tls) <==> exists i :: 1 <= i < |result| && result[i].name == n)
    && (forall i :: 1 <= i < |result| ==> result[i] == ServerFor(spec, tls, result[i].name))
    && (forall i, j :: 1 <= i < j < |result| ==> Precedes(result[i], result[j]))
  }

  // ---------- The code ----------

  method NameServers(spec: Spec) returns (named: map<string, Server>)
    ensures named == map n | n in LocationNames(spec.locations) :: Bare(n, spec.blocks)
  {
    named := map[];
    for i := 0 to |spec.locations|
      invariant named == map n | n in LocationNames(spec.locations[..i]) :: Bare(n, spec.blocks)
    {
      var location := spec.locations[i];
      assert spec.locations[..i + 1] == spec.locations[..i] + [location];
      if location.serverName != "" {
        named := named[location.serverName := Bare(location.serverName, spec.blocks)];
      }
    }
    assert spec.locations[..|spec.locations|] == spec.locations;
  }

  lemma NextBlock(blocks: map<string, Value>, serverBlocks: seq<ServerBlock>, i: nat, name: string)
    requires i < |serverBlocks|
    ensures BlocksOf(blocks, serverBlocks[..i + 1], name) ==
            var before, b := BlocksOf(blocks, serverBlocks[..i], name), serverBlocks[i];
            if b.serverName == name && name != "" then before[b.blockType := Contribution(blocks, b)] else before
  {
    assert serverBlocks[..i + 1][..i] == serverBlocks[..i];
  }

  lemma NextBlockName(serverBlocks: seq<ServerBlock>, i: nat)
    requires i < |serverBlocks|
    ensures BlockNames(serverBlocks[..i + 1]) ==
            BlockNames(serverBlocks[..i])
            + if serverBlocks[i].serverName != "" then {serverBlocks[i].serverName} else {}
  {
    assert serverBlocks[..i + 1] == serverBlocks[..i] + [serverBlocks[i]];
  }

  method ApplyServerBlock(spec: Spec, b: ServerBlock, initial: map<string, Server>) returns (named: map<string, Server>)
    requires b.serverName != ""
    ensures var server := if b.serverName in initial then initial[b.serverName] else Bare(b.serverName, spec.blocks);
            var blocks := server.blocks[b.blockType := Contribution(spec.blocks, b)];
            named == initial[b.serverName := server.(blocks := blocks)]
  {
    named := initial;
    if b.serverName !in named {
      named := named[b.serverName := Bare(b.serverName, spec.blocks)];
    }
    var server := named[b.serverName];
    if b.extend && b.blockType in spec.blocks {
      var base := if SERVER_BLOCK in spec.blocks then spec.blocks[SERVER_BLOCK].value else "";
      var content := Text(base + "\n" + b.content.value);
      named := named[b.serverName := server.(blocks := server.blocks[b.blockType := content])];
    } else {
      named := named[b.serverName := server.(blocks := server.blocks[b.blockType := b.content])];
    }
  }

  /** The servers once the given server blocks are in. */
  ghost function WithBlocks(
      names: set<string>, blocks: map<string, Value>, serverBlocks: seq<ServerBlock>): map<string, Server> {
    map n | n in names + BlockNames(serverBlocks) :: Bare(n, BlocksOf(blocks, serverBlocks, n))
  }

  lemma {:induction false} UnnamedKeepsBlocks(blocks: map<string, Value>, serverBlocks: seq<ServerBlock>, name: string)
    requires name !in BlockNames(serverBlocks)
    ensures BlocksOf(blocks, serverBlocks, name) == blocks
  {
    if serverBlocks != [] {
      var rest := serverBlocks[..|serverBlocks| - 1];
      assert serverBlocks == rest + [serverBlocks[|serverBlocks| - 1]];
      UnnamedKeepsBlocks(blocks, rest, name);
    }
  }

  lemma NextWithBlocks(names: set<string>, blocks: map<string, Value>, serverBlocks: seq<ServerBlock>, i: nat)
    requires i < |serverBlocks|
    ensures var before, b := WithBlocks(names, blocks, serverBlocks[..i]), serverBlocks[i];
            var server := if b.serverName in before then before[b.serverName] else Bare(b.serverName, blocks);
            WithBlocks(names, blocks, serverBlocks[..i + 1]) ==
            if b.serverName == "" then before
            else before[b.serverName := server.(blocks := server.blocks[b.blockType := Contribution(blocks, b)])]
  {
    var b := serverBlocks[i];
    NextBlockName(serverBlocks, i);
    if b.serverName !in WithBlocks(names, blocks, serverBlocks[..i]) {
      UnnamedKeepsBlocks(blocks, serverBlocks[..i], b.serverName);
    }
    forall n {
      NextBlock(blocks, serverBlocks, i, n);
    }
  }

  method ApplyServerBlocks(spec: Spec, initial: map<string, Server>) returns (named: map<string, Server>)
    requires initial == WithBlocks(initial.Keys, spec.blocks, [])
    ensures named == WithBlocks(initial.Keys, spec.blocks, spec.serverBlocks)
  {
    named := initial;
    for i := 0 to |spec.serverBlocks|
      invariant named == WithBlocks(initial.Keys, spec.blocks, spec.serverBlocks[..i])
    {
      NextWithBlocks(initial.Keys, spec.blocks, spec.serverBlocks, i);
      if spec.serverBlocks[i].serverName != "" {
        named := ApplyServerBlock(spec, spec.serverBlocks[i], named);
      }
    }
    assert spec.serverBlocks[..|spec.serverBlocks|] == spec.serverBlocks;
  }

  ghost function Appended(named: map<string, Server>, extra: seq<Location>): map<string, Server> {
    map n | n in named :: named[n].(locations := named[n].locations + extra)
  }

  lemma AppendedTwice(named: map<string, Server>, a: seq<Location>, b: seq<Location>)
    ensures Appended(Appended(named, a), b) == Appended(named, a + b)
  {
    forall n | n in named
      ensures named[n].locations + a + b == named[n].locations + (a + b)
    {
    }
  }

  /** Appends one location to every server of the map, visiting them in any order. */
  method AppendToAll(initial: map<string, Server>, location: Location) returns (named: map<string, Server>)
    ensures named == Appended(initial, [location])
  {
    named := initial;
    var todo := initial.Keys;
    while todo != {}
      invariant todo <= initial.Keys == named.Keys
      invariant forall n :: n in named ==>
        named[n] == if n in todo then initial[n] else Appended(initial, [location])[n]
    {
      var n :| n in todo;
      named := named[n := named[n].(locations := named[n].locations + [location])];
      todo := todo - {n};
    }
  }

  lemma NextListed(locations: seq<Location>, i: nat, name: string)
    requires i < |locations|
    ensures Listed(locations[..i + 1], name) ==
            if locations[i].serverName == name then Listed(locations[..i], name) + [locations[i]]
            else Listed(locations[..i], name)
  {
    assert locations[..i + 1][..i] == locations[..i];
  }

  method SpreadDefaults(spec: Spec, initial: map<string, Server>)
    returns (defaultServer: Server, index: map<string, nat>, named: map<string, Server>)
    ensures defaultServer == DefaultServer(spec)
    ensures index == PositionIndex(Listed(spec.locations, ""))
    ensures named == Appended(initial, Listed(spec.locations, ""))
  {
    var defaults: seq<Location>;
    defaults, index, named := [], map[], initial;
    assert forall n :: n in initial ==> initial[n].locations + [] == initial[n].locations;
    for i := 0 to |spec.locations|
      invariant defaults == Listed(spec.locations[..i], "")
      invariant index == PositionIndex(defaults)
      invariant named == Appended(initial, defaults)
    {
      NextListed(spec.locations, i, "");
      if spec.locations[i].serverName != "" {
        continue;
      }
      index := NextIndex(defaults, spec.locations[i], index);
      AppendedTwice(initial, defaults, [spec.locations[i]]);
      defaults := defaults + [spec.locations[i]];
      named := AppendToAll(named, spec.locations[i]);
    }
    assert spec.locations[..|spec.locations|] == spec.locations;
    defaultServer := Bare("", spec.blocks).(isDefault := true, locations := defaults);
  }

  method NextIndex(ghost defaults: seq<Location>, location: Location, index: map<string, nat>)
    returns (next: map<string, nat>)
    requires index == PositionIndex(defaults)
    ensures next == PositionIndex(defaults + [location])
  {
    next := index[location.path := |index|];
    assert (defaults + [location])[..|defaults|] == defaults;
  }

  ghost function NextOverridden(
      defaults: seq<Location>, locations: seq<Location>, i: nat, name: string): seq<Location>
    requires i < |locations|
  {
    var l, index := locations[i], PositionIndex(defaults);
    var r := Overridden(defaults, Listed(locations[..i], name), index);
    if l.serverName != name then r
    else if l.path in index then r[index[l.path] := l]
    else r + [l]
  }

  lemma NextOverride(defaults: seq<Location>, locations: seq<Location>, i: nat, name: string)
    requires i < |locations|
    ensures Overridden(defaults, Listed(locations[..i + 1], name), PositionIndex(defaults)) ==
            NextOverridden(defaults, locations, i, name)
  {
    var own := Listed(locations[..i], name);
    NextListed(locations, i, name);
    assert (own + [locations[i]])[..|own|] == own;
  }

  /** The servers, all starting from the default locations, once the given locations have overridden theirs. */
  ghost function WithOverrides(
      initial: map<string, Server>, defaults: seq<Location>, locations: seq<Location>): map<string, Server> {
    map n | n in initial ::
      initial[n].(locations := Overridden(defaults, Listed(locations, n), PositionIndex(defaults)))
  }

  lemma NextWithOverrides(
      initial: map<string, Server>, defaults: seq<Location>, locations: seq<Location>, i: nat)
    requires i < |locations| && "" !in initial
    requires locations[i].serverName in initial || locations[i].serverName == ""
    ensures var before, l := WithOverrides(initial, defaults, locations[..i]), locations[i];
            WithOverrides(initial, defaults, locations[..i + 1]) ==
            if l.serverName == "" then before
            else before[l.serverName :=
              before[l.serverName].(locations := NextOverridden(defaults, locations, i, l.serverName))]
  {
    var before := WithOverrides(initial, defaults, locations[..i]);
    var after := WithOverrides(initial, defaults, locations[..i + 1]);
    forall n | n in initial
      ensures after[n] == before[n].(locations := NextOverridden(defaults, locations, i, n))
    {
      NextOverride(defaults, locations, i, n);
    }
  }

  method OverrideLocations(spec: Spec, index: map<string, nat>, initial: map<string, Server>)
    returns (named: map<string, Server>)
    requires index == PositionIndex(Listed(spec.locations, ""))
    requires LocationNames(spec.locations) <= initial.Keys && "" !in initial
    requires forall n :: n in initial ==> initial[n].locations == Listed(spec.locations, "")
    ensures named == WithOverrides(initial, Listed(spec.locations, ""), spec.locations)
  {
    named := initial;
    ghost var defaults := Listed(spec.locations, "");
    for i := 0 to |spec.locations|
      invariant named == WithOverrides(initial, defaults, spec.locations[..i])
    {
      var location := spec.locations[i];
      assert location.serverName != "" ==> location.serverName in LocationNames(spec.locations);
      NextWithOverrides(initial, defaults, spec.locations, i);
      if location.serverName == "" {
        continue;
      }
      var server := named[location.serverName];
      if location.path in index {
        named := named[location.serverName :=
          server.(locations := server.locations[index[location.path] := location])];
      } else {
        named := named[location.serverName := server.(locations := server.locations + [location])];
      }
    }
    assert spec.locations[..|spec.locations|] == spec.locations;
  }

  /** `wild` maps each listed wildcard host to its secret. */
  ghost predicate Collected(tls: seq<NginxTLS>, wild: map<string, string>) {
    && (forall h :: h in wild <==> IsWildcard(h) && LastListing(tls, h).Some?)
    && (forall h :: h in wild ==> LastListing(tls, h) == Some(wild[h]))
  }

  method CollectHosts(ghost tls: seq<NginxTLS>, t: NginxTLS, initial: map<string, string>)
    returns (wild: map<string, string>)
    requires Collected(tls, initial)
    ensures Collected(tls + [t], wild)
  {
    wild := initial;
    for j := 0 to |t.hosts|
      invariant forall h :: h in wild <==> h in initial || (IsWildcard(h) && h in t.hosts[..j])
      invariant forall h :: h in wild ==> wild[h] == if h in t.hosts[..j] then t.secretName else initial[h]
    {
      if IsWildcard(t.hosts[j]) {
        wild := wild[t.hosts[j] := t.secretName];
      }
    }
    assert t.hosts[..|t.hosts|] == t.hosts;
    assert (tls + [t])[..|tls|] == tls;
  }

  method CollectWildcards(tls: seq<NginxTLS>) returns (wild: map<string, string>)
    ensures Collected(tls, wild)
  {
    wild := map[];
    for i := 0 to |tls|
      invariant Collected(tls[..i], wild)
    {
      wild := CollectHosts(tls[..i], tls[i], wild);
      assert tls[..i + 1] == tls[..i] + [tls[i]];
    }
    assert tls[..|tls|] == tls;
  }

  /** The servers once the given certificates are in, `plain` telling what they were without. */
  ghost function WithListings(plain: string -> Server, names: set<string>, tls: seq<NginxTLS>): map<string, Server> {
    map n | n in names + Hosts(tls) :: WithSecret(plain(n), LastListing(tls, n))
  }

  /** Servers are named after their key, and one outside `names` would only have the defaults. */
  ghost predicate PlainOutside(plain: string -> Server, names: set<string>, defaultServer: Server) {
    && (forall n :: plain(n).name == n && !plain(n).wildcard && !plain(n).tls)
    && (forall n :: n !in names ==> plain(n) == Bare(n, defaultServer.blocks).(locations := defaultServer.locations))
  }

  lemma {:induction false} UnlistedHasNoOwn(locations: seq<Location>, name: string)
    requires name !in LocationNames(locations) && name != ""
    ensures Listed(locations, name) == []
  {
    if locations != [] {
      var rest := locations[..|locations| - 1];
      assert locations == rest + [locations[|locations| - 1]];
      UnlistedHasNoOwn(rest, name);
    }
  }

  /** A host that no location or block names gets the defaults. */
  lemma PlainOfNewHost(spec: Spec, name: string)
    requires name !in LocationNames(spec.locations) + BlockNames(spec.serverBlocks)
    ensures Plain(spec, name) == Bare(name, spec.blocks).(locations := Listed(spec.locations, ""))
  {
    UnnamedKeepsBlocks(spec.blocks, spec.serverBlocks, name);
    if name != "" {
      UnlistedHasNoOwn(spec.locations, name);
    }
  }

  lemma HostsOfMore(tls: seq<NginxTLS>, t: NginxTLS)
    ensures Hosts(tls + [t]) == Hosts(tls) + set h | h in t.hosts
  {
    forall h
      ensures h in Hosts(tls + [t]) <==> h in Hosts(tls) || h in t.hosts
    {
      if h in Hosts(tls) {
        var u :| u in tls && h in u.hosts;
        assert u in tls + [t];
      }
      if h in t.hosts {
        assert t in tls + [t];
      }
    }
  }

  /** Listing one more host at the end of the last certificate. */
  lemma ListingOneMore(tls: seq<NginxTLS>, secret: string, hosts: seq<string>, host: string)
    ensures var before, after := tls + [NginxTLS(secret, hosts)], tls + [NginxTLS(secret, hosts + [host])];
            && Hosts(after) == Hosts(before) + {host}
            && forall n :: LastListing(after, n) == if n == host then Some(secret) else LastListing(before, n)
  {
    var before, after := tls + [NginxTLS(secret, hosts)], tls + [NginxTLS(secret, hosts + [host])];
    assert before[..|tls|] == tls == after[..|tls|];
    HostsOfMore(tls, NginxTLS(secret, hosts));
    HostsOfMore(tls, NginxTLS(secret, hosts + [host]));
  }

  lemma ListingNothing(plain: string -> Server, names: set<string>, tls: seq<NginxTLS>, secret: string)
    ensures WithListings(plain, names, tls + [NginxTLS(secret, [])]) == WithListings(plain, names, tls)
  {
    HostsOfMore(tls, NginxTLS(secret, []));
    assert (tls + [NginxTLS(secret, [])])[..|tls|] == tls;
  }

  ghost function WithTLSServer(
      named: map<string, Server>, defaultServer: Server, host: string, secret: string): map<string, Server> {
    var server := if host in named then named[host]
                  else Bare(host, defaultServer.blocks).(locations := defaultServer.locations);
    named[host := server.(tls := true, secretName := secret, wildcard := IsWildcard(host))]
  }

  /** Sets the certificate of one host, creating its server if it has none. */
  method AppendTLSServer(
      initial: map<string, Server>, defaultServer: Server, host: string, secret: string)
    returns (named: map<string, Server>)
    ensures named == WithTLSServer(initial, defaultServer, host, secret)
  {
    named := initial;
    if host !in named {
      named := named[host := Bare(host, defaultServer.blocks).(locations := defaultServer.locations)];
    }
    named := named[host := named[host].(tls := true, secretName := secret, wildcard := IsWildcard(host))];
  }

  lemma NextWithListings(
      plain: string -> Server, names: set<string>, defaultServer: Server,
      tls: seq<NginxTLS>, secret: string, hosts: seq<string>, host: string)
    requires PlainOutside(plain, names, defaultServer)
    ensures var before := WithListings(plain, names, tls + [NginxTLS(secret, hosts)]);
            WithListings(plain, names, tls + [NginxTLS(secret, hosts + [host])]) ==
            WithTLSServer(before, defaultServer, host, secret)
  {
    ListingOneMore(tls, secret, hosts, host);
  }

  method ApplyTLS(
      ghost plain: string -> Server, defaultServer: Server, tls: seq<NginxTLS>, initial: map<string, Server>)
    returns (named: map<string, Server>)
    requires PlainOutside(plain, initial.Keys, defaultServer)
    requires initial == WithListings(plain, initial.Keys, [])
    ensures named == WithListings(plain, initial.Keys, tls)
  {
    named := initial;
    for i := 0 to |tls|
      invariant named == WithListings(plain, initial.Keys, tls[..i])
    {
      ListingNothing(plain, initial.Keys, tls[..i], tls[i].secretName);
      named := ApplyHosts(plain, initial.Keys, defaultServer, tls[..i], tls[i], named);
      assert tls[..i + 1] == tls[..i] + [tls[i]];
    }
    assert tls[..|tls|] == tls;
  }

  method ApplyHosts(
      ghost plain: string -> Server, ghost names: set<string>, defaultServer: Server,
      ghost tls: seq<NginxTLS>, t: NginxTLS, initial: map<string, Server>)
    returns (named: map<string, Server>)
    requires PlainOutside(plain, names, defaultServer)
    requires initial == WithListings(plain, names, tls + [NginxTLS(t.secretName, [])])
    ensures named == WithListings(plain, names, tls + [t])
  {
    named := initial;
    for j := 0 to |t.hosts|
      invariant named == WithListings(plain, names, tls + [NginxTLS(t.secretName, t.hosts[..j])])
    {
      NextWithListings(plain, names, defaultServer, tls, t.secretName, t.hosts[..j], t.hosts[j]);
      assert t.hosts[..j + 1] == t.hosts[..j] + [t.hosts[j]];
      named := AppendTLSServer(named, defaultServer, t.hosts[j], t.secretName);
    }
    assert t.hosts[..|t.hosts|] == t.hosts;
  }

  lemma FallbackSecret(tls: seq<NginxTLS>, wild: map<string, string>, host: string)
    requires Collected(tls, wild) && LastListing(tls, host).None?
    ensures var wildcard := CoveringWildcard(host);
            SecretOf(tls, host) == if wildcard.Some? && wildcard.value in wild then Some(wild[wildcard.value]) else None
  {
    assert CoveringWildcard(host).Some? ==> IsWildcard(CoveringWildcard(host).value);
  }

  /** Gives servers without a certificate the one of their covering wildcard, visiting them in any order. */
  method ApplyWildcards(
      ghost plain: string -> Server, defaultServer: Server, tls: seq<NginxTLS>, wild: map<string, string>,
      initial: map<string, Server>)
    returns (named: map<string, Server>)
    requires forall n :: plain(n).name == n && !plain(n).tls
    requires Collected(tls, wild)
    requires initial == WithListings(plain, initial.Keys, tls)
    ensures named == map n | n in initial :: WithSecret(plain(n), SecretOf(tls, n))
  {
    named := initial;
    var todo := initial.Keys;
    while todo != {}
      invariant todo <= initial.Keys == named.Keys
      invariant forall n :: n in named ==>
        named[n] == WithSecret(plain(n), if n in todo then LastListing(tls, n) else SecretOf(tls, n))
    {
      var host :| host in todo;
      todo := todo - {host};
      if named[host].tls {
        continue;
      }
      FallbackSecret(tls, wild, host);
      var wildcard := CoveringWildcard(host);
      if wildcard.Some? && wildcard.value in wild {
        named := AppendTLSServer(named, defaultServer, host, wild[wildcard.value]);
      }
    }
  }

  predicate ByName(a: Server, b: Server) {
    Less(a.name, b.name)
  }

  lemma ByNameIsStrictOrder()
    ensures StrictOrder(ByName)
  {
    forall x: Server
      ensures !ByName(x, x)
    {
      LessIsStrictAndTotal(x.name, x.name);
    }
    forall x: Server, y: Server, z: Server | ByName(x, y) && ByName(y, z)
      ensures ByName(x, z)
    {
      LessIsTransitive(x.name, y.name, z.name);
    }
  }

  /** Exactly the servers of the map with the given mark, names ascending. */
  ghost predicate IsGroup(named: map<string, Server>, wildcard: bool, group: seq<Server>) {
    && (forall s :: s in group <==> s.name in named && named[s.name] == s && s.wildcard == wildcard)
    && (forall i, j :: 0 <= i < j < |group| ==> Less(group[i].name, group[j].name))
  }

  /** Takes the servers with the given mark out of the map, in any order, and sorts them. */
  method Group(named: map<string, Server>, wildcard: bool) returns (group: seq<Server>)
    requires forall n :: n in named ==> named[n].name == n
    ensures IsGroup(named, wildcard, group)
  {
    var found: seq<Server>, todo := [], named.Keys;
    while todo != {}
      invariant todo <= named.Keys
      invariant forall s :: s in found <==>
        s.name in named && s.name !in todo && named[s.name] == s && s.wildcard == wildcard
      invariant NoRepeats(found)
    {
      var n :| n in todo;
      if named[n].wildcard == wildcard {
        assert named[n] !in found;
        found := found + [named[n]];
      }
      todo := todo - {n};
    }
    ByNameIsStrictOrder();
    group := SortBy(found, ByName);
    PermutationKeepsNoRepeats(found, group);
    PermutationKeepsElements(found, group);
    forall i, j | 0 <= i < j < |group|
      ensures Less(group[i].name, group[j].name)
    {
      assert !ByName(group[j], group[i]);
      assert group[i] in group && group[j] in group;
      LessIsStrictAndTotal(group[i].name, group[j].name);
    }
  }

  /** Every server named by a location or a block, before certificates. */
  ghost function PlainServers(spec: Spec): map<string, Server> {
    map n | n in LocationNames(spec.locations) + BlockNames(spec.serverBlocks) :: Plain(spec, n)
  }

  lemma NamesAreNotEmpty(spec: Spec)
    ensures "" !in LocationNames(spec.locations) + BlockNames(spec.serverBlocks)
  {
  }

  /** What the first loops make of one name. */
  lemma StagesOfName(spec: Spec, name: string)
    requires name != ""
    ensures var defaults := Listed(spec.locations, "");
            var own := Overridden(defaults, Listed(spec.locations, name), PositionIndex(defaults));
            Plain(spec, name) == Bare(name, BlocksOf(spec.blocks, spec.serverBlocks, name)).(locations := own)
  {
  }

  lemma StagesCompose(spec: Spec, blocked: map<string, Server>)
    requires blocked == WithBlocks(LocationNames(spec.locations), spec.blocks, spec.serverBlocks)
    ensures var spread := Appended(blocked, Listed(spec.locations, ""));
            && (forall n :: n in spread ==> spread[n].locations == Listed(spec.locations, ""))
            && WithOverrides(spread, Listed(spec.locations, ""), spec.locations) == PlainServers(spec)
  {
    var defaults := Listed(spec.locations, "");
    NamesAreNotEmpty(spec);
    forall n | n in blocked
      ensures Appended(blocked, defaults)[n].locations == defaults
    {
      assert [] + defaults == defaults;
    }
    StagesMatch(spec, blocked, defaults);
  }

  lemma StageOfServer(spec: Spec, blocked: map<string, Server>, defaults: seq<Location>, n: string)
    requires n in blocked && n != "" && defaults == Listed(spec.locations, "")
    requires blocked[n] == Bare(n, BlocksOf(spec.blocks, spec.serverBlocks, n))
    ensures WithOverrides(Appended(blocked, defaults), defaults, spec.locations)[n] == Plain(spec, n)
  {
    StagesOfName(spec, n);
  }

  lemma StagesMatch(spec: Spec, blocked: map<string, Server>, defaults: seq<Location>)
    requires blocked == WithBlocks(LocationNames(spec.locations), spec.blocks, spec.serverBlocks)
    requires defaults == Listed(spec.locations, "") && "" !in blocked
    ensures WithOverrides(Appended(blocked, defaults), defaults, spec.locations) == PlainServers(spec)
  {
    var after := WithOverrides(Appended(blocked, defaults), defaults, spec.locations);
    forall n | n in after
      ensures after[n] == Plain(spec, n)
    {
      StageOfServer(spec, blocked, defaults, n);
    }
    assert after.Keys == LocationNames(spec.locations) + BlockNames(spec.serverBlocks);
  }

  /** The loops that fill the map and ignore certificates. */
  method NamedServers(spec: Spec) returns (defaultServer: Server, named: map<string, Server>)
    ensures defaultServer == DefaultServer(spec)
    ensures named == PlainServers(spec)
  {
    named := NameServers(spec);
    var blocked := ApplyServerBlocks(spec, named);
    StagesCompose(spec, blocked);
    var index;
    defaultServer, index, named := SpreadDefaults(spec, blocked);
    named := OverrideLocations(spec, index, named);
  }

  lemma PlainServersHaveNoListing(spec: Spec, plain: string -> Server)
    requires forall n :: plain(n) == Plain(spec, n)
    ensures PlainServers(spec) == WithListings(plain, PlainServers(spec).Keys, [])
    ensures PlainOutside(plain, PlainServers(spec).Keys, DefaultServer(spec))
  {
    forall n | n !in PlainServers(spec)
      ensures plain(n) == Bare(n, spec.blocks).(locations := Listed(spec.locations, ""))
    {
      PlainOfNewHost(spec, n);
    }
  }

  lemma CertifiedPlainServers(spec: Spec, tls: seq<NginxTLS>, plain: string -> Server, named: map<string, Server>)
    requires forall n :: plain(n) == Plain(spec, n)
    requires named == map n | n in PlainServers(spec).Keys + Hosts(tls) :: WithSecret(plain(n), SecretOf(tls, n))
    ensures named == map n | n in Names(spec, tls) :: ServerFor(spec, tls, n)
  {
    assert PlainServers(spec).Keys + Hosts(tls) == Names(spec, tls);
  }

  /** The loops about certificates. */
  method Certify(
      ghost plain: string -> Server, defaultServer: Server, tls: seq<NginxTLS>, initial: map<string, Server>)
    returns (named: map<string, Server>)
    requires PlainOutside(plain, initial.Keys, defaultServer)
    requires initial == WithListings(plain, initial.Keys, [])
    ensures named == map n | n in initial.Keys + Hosts(tls) :: WithSecret(plain(n), SecretOf(tls, n))
  {
    var wild := CollectWildcards(tls);
    named := ApplyTLS(plain, defaultServer, tls, initial);
    named := ApplyWildcards(plain, defaultServer, tls, wild, named);
  }

  /** The map once every loop before the grouping has run. */
  method CertifiedServers(spec: Spec, tls: seq<NginxTLS>) returns (defaultServer: Server, named: map<string, Server>)
    ensures defaultServer == DefaultServer(spec)
    ensures named == map n | n in Names(spec, tls) :: ServerFor(spec, tls, n)
  {
    ghost var plain := n => Plain(spec, n);
    defaultServer, named := NamedServers(spec);
    PlainServersHaveNoListing(spec, plain);
    named := Certify(plain, defaultServer, tls, named);
    CertifiedPlainServers(spec, tls, plain, named);
  }

  lemma ArrangedServers(named: map<string, Server>, exact: seq<Server>, wildcards: seq<Server>, i: nat)
    requires IsGroup(named, false, exact) && IsGroup(named, true, wildcards)
    requires i < |exact + wildcards|
    ensures var s := (exact + wildcards)[i];
            s.name in named && named[s.name] == s && s.wildcard == (i >= |exact|)
  {
    assert (exact + wildcards)[i] in if i < |exact| then exact else wildcards;
  }

  lemma ArrangedNames(named: map<string, Server>, exact: seq<Server>, wildcards: seq<Server>, n: string)
    requires IsGroup(named, false, exact) && IsGroup(named, true, wildcards)
    requires n in named && named[n].name == n
    ensures exists i :: 0 <= i < |exact + wildcards| && (exact + wildcards)[i].name == n
  {
    var all := exact + wildcards;
    if named[n].wildcard {
      var k :| 0 <= k < |wildcards| && wildcards[k] == named[n];
      assert all[|exact| + k].name == n;
    } else {
      var k :| 0 <= k < |exact| && exact[k] == named[n];
      assert all[k].name == n;
    }
  }

  lemma ArrangedOrder(named: map<string, Server>, exact: seq<Server>, wildcards: seq<Server>, i: nat, j: nat)
    requires IsGroup(named, false, exact) && IsGroup(named, true, wildcards)
    requires i < j < |exact + wildcards|
    ensures Precedes((exact + wildcards)[i], (exact + wildcards)[j])
  {
    ArrangedServers(named, exact, wildcards, i);
    ArrangedServers(named, exact, wildcards, j);
  }

  lemma ArrangedIndices(named: map<string, Server>, exact: seq<Server>, wildcards: seq<Server>, first: Server)
    requires IsGroup(named, false, exact) && IsGroup(named, true, wildcards)
    requires forall n :: n in named ==> named[n].name == n
    ensures var result := [first] + (exact + wildcards);
            && (forall n :: n in named <==> exists i :: 1 <= i < |result| && result[i].name == n)
            && (forall i :: 1 <= i < |result| ==> result[i].name in named && result[i] == named[result[i].name])
  {
    var arranged, result := exact + wildcards, [first] + (exact + wildcards);
    forall i | 1 <= i < |result|
      ensures result[i].name in named && result[i] == named[result[i].name]
    {
      ArrangedServers(named, exact, wildcards, i - 1);
    }
    forall n | n in named
      ensures exists i :: 1 <= i < |result| && result[i].name == n
    {
      ArrangedNames(named, exact, wildcards, n);
      var i :| 0 <= i < |arranged| && arranged[i].name == n;
      assert result[i + 1].name == n;
    }
  }

  lemma ArrangedPrecede(named: map<string, Server>, exact: seq<Server>, wildcards: seq<Server>, first: Server)
    requires IsGroup(named, false, exact) && IsGroup(named, true, wildcards)
    ensures var result := [first] + (exact + wildcards);
            forall i, j :: 1 <= i < j < |result| ==> Precedes(result[i], result[j])
  {
    var result := [first] + (exact + wildcards);
    forall i, j | 1 <= i < j < |result|
      ensures Precedes(result[i], result[j])
    {
      ArrangedOrder(named, exact, wildcards, i - 1, j - 1);
    }
  }

  lemma IndexedIsCompiled(spec: Spec, tls: seq<NginxTLS>, named: map<string, Server>, result: seq<Server>)
    requires named == map n | n in Names(spec, tls) :: ServerFor(spec, tls, n)
    requires result != [] && result[0] == DefaultServer(spec)
    requires forall n :: n in named <==> exists i :: 1 <= i < |result| && result[i].name == n
    requires forall i :: 1 <= i < |result| ==> result[i].name in named && result[i] == named[result[i].name]
    requires forall i, j :: 1 <= i < j < |result| ==> Precedes(result[i], result[j])
    ensures Compiled(spec, tls, result)
  {
    assert named.Keys == Names(spec, tls);
  }

  lemma ArrangementCompiles(
      spec: Spec, tls: seq<NginxTLS>, named: map<string, Server>, exact: seq<Server>, wildcards: seq<Server>)
    requires named == map n | n in Names(spec, tls) :: ServerFor(spec, tls, n)
    requires IsGroup(named, false, exact) && IsGroup(named, true, wildcards)
    ensures Compiled(spec, tls, [DefaultServer(spec)] + (exact + wildcards))
  {
    ArrangedIndices(named, exact, wildcards, DefaultServer(spec));
    ArrangedPrecede(named, exact, wildcards, DefaultServer(spec));
    IndexedIsCompiled(spec, tls, named, [DefaultServer(spec)] + (exact + wildcards));
  }

  method ProduceServers(spec: Spec, tls: seq<NginxTLS>) returns (result: seq<Server>)
    ensures Compiled(spec, tls, result)
  {
    var defaultServer, named := CertifiedServers(spec, tls);
    var exact := Group(named, false);
    var wildcards := Group(named, true);
    result := [defaultServer] + (exact + wildcards);
    ArrangementCompiles(spec, tls, named, exact, wildcards);
  }

  /** The default server gets the HTTP options and the first TLS server the HTTPS options. */
  method InitListenOptions(servers: seq<Server>, httpOptions: string, httpsOptions: string)
    returns (result: seq<Server>)
    ensures |result| == |servers|
    ensures forall i :: 0 <= i < |servers| ==>
      result[i] == servers[i].(
        httpOptions := if servers[i].isDefault && forall k :: 0 <= k < i ==> !servers[k].isDefault
                       then httpOptions else servers[i].httpOptions,
        httpsOptions := if servers[i].tls && forall k :: 0 <= k < i ==> !servers[k].tls
                        then httpsOptions else servers[i].httpsOptions)
  {
    result := servers;
    for i := 0 to |servers|
      invariant result == servers
      invariant forall k :: 0 <= k < i ==> !servers[k].isDefault
    {
      if servers[i].isDefault {
        result := result[i := result[i].(httpOptions := httpOptions)];
        break;
      }
    }
    ghost var before := result;
    for i := 0 to |servers|
      invariant result == before
      invariant forall k :: 0 <= k < i ==> !servers[k].tls
    {
      if servers[i].tls {
        result := result[i := result[i].(httpsOptions := httpsOptions)];
        break;
      }
    }
  }
}
