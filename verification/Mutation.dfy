/**
  The six operations a user can apply to an instance's spec, as the source performs them in place,
  and the finite-map reading they refine.
 */
module Mutation {
  import opened Ordering
  import opened KeyedList
  import opened InstanceSpec

  datatype Error = Validation | NotFound | Conflict | MalformedURL

  datatype Outcome<+T> = Done(value: T) | Failed(error: Error)

  datatype URL = URL(scheme: string, host: string)

  /** What the operations ask of code outside this model: deny patterns, DNS-1123 names, URL parsing. */
  datatype Checks = Checks(
    contentAllowed: string -> bool, isSubdomain: string -> bool, parseURL: string -> Option<URL>)

  datatype Route = Route(serverName: string, path: string, destination: string, content: string, httpsOnly: bool)

  datatype Block = Block(name: string, serverName: string, content: string, extend: bool)

  datatype BindArgs = BindArgs(
    appName: string, appHosts: seq<string>, appInternalHosts: seq<string>, appClusterName: string)

  datatype Op =
    | UpdateRoute(route: Route)
    | DeleteRoute(serverName: string, path: string)
    | UpdateBlock(block: Block)
    | DeleteBlock(blockServer: string, blockName: string)
    | BindApp(args: BindArgs, internalBind: bool)
    | UnbindApp(appName: string)

  const BLOCK_TYPES := {"root", "http", "server", "lua-server", "lua-worker"}

  // ---------- Admission ----------

  function TrimWildcard(name: string): string {
    if "*." <= name then name[2..] else name
  }

  predicate BlockAdmitted(c: Checks, b: Block) {
    && b.name in BLOCK_TYPES
    && b.content != ""
    && c.contentAllowed(b.content)
    && (b.serverName != "" ==>
          && b.name == SERVER_BLOCK
          && |b.serverName| <= 64
          && c.isSubdomain(TrimWildcard(b.serverName)))
  }

  /** The path pattern is anchored only on the left, so after the leading slash anything matches. */
  predicate RouteAdmitted(c: Checks, r: Route) {
    && r.path != "" && r.path[0] == '/'
    && (r.content == "" <==> r.destination != "")
    && (r.content != "" ==> !r.httpsOnly && c.contentAllowed(r.content))
  }

  /** The host a bind request is about, before its URL is looked at. */
  function RequestedHost(args: BindArgs, internalBind: bool): Option<string> {
    var hosts := if args.appClusterName != "" && internalBind then args.appInternalHosts else args.appHosts;
    if hosts == [] || hosts[0] == "" then None else Some(hosts[0])
  }

  /** The host stored in the bind. */
  function BoundHost(c: Checks, args: BindArgs, internalBind: bool): Outcome<string> {
    match RequestedHost(args, internalBind)
    case None => Failed(Validation)
    case Some(host) =>
      match c.parseURL(host)
      case None => Failed(MalformedURL)
      case Some(u) =>
        if u.scheme == "udp" then Failed(Validation)
        else Done(if u.scheme == "tcp" then u.host else host)
  }

  function ToLocation(r: Route): Location {
    Location(r.serverName, r.path, r.destination, if r.content == "" then None else Some(Text(r.content)), r.httpsOnly)
  }

  function ToServerBlock(b: Block): ServerBlock {
    ServerBlock(b.serverName, b.name, Text(b.content), b.extend)
  }

  // ---------- What each operation does to the slices ----------

  function Apply(c: Checks, spec: Spec, op: Op): Outcome<Spec> {
    match op
    case UpdateRoute(r) =>
      if !RouteAdmitted(c, r) then Failed(Validation)
      else Done(spec.(locations := Put(spec.locations, RouteKey, ToLocation(r))))
    case DeleteRoute(server, path) =>
      if Find(spec.locations, RouteKey, (server, path)).None? then Failed(NotFound)
      else Done(spec.(locations := Remove(spec.locations, RouteKey, (server, path))))
    case UpdateBlock(b) =>
      if !BlockAdmitted(c, b) then Failed(Validation)
      else if b.serverName == "" then Done(spec.(blocks := spec.blocks[b.name := Text(b.content)]))
      else Done(spec.(serverBlocks := Put(spec.serverBlocks, BlockKey, ToServerBlock(b))))
    case DeleteBlock(server, name) =>
      if server == "" then
        if name !in spec.blocks then Failed(NotFound) else Done(spec.(blocks := spec.blocks - {name}))
      else if Find(spec.serverBlocks, BlockKey, (server, name)).None? then Failed(NotFound)
      else Done(spec.(serverBlocks := Remove(spec.serverBlocks, BlockKey, (server, name))))
    case BindApp(args, internalBind) =>
      (match BoundHost(c, args, internalBind)
       case Failed(e) => Failed(e)
       case Done(host) =>
         if Find(spec.binds, HostOf, host).Some? then Failed(Conflict)
         else Done(spec.(binds := spec.binds + [Bind(args.appName, host)])))
    case UnbindApp(name) =>
      if name == "" then Failed(Validation)
      else if Find(spec.binds, NameOf, name).None? then Failed(NotFound)
      else Done(spec.(binds := Remove(spec.binds, NameOf, name)))
  }

  /** The spec after the operation: on an error it is the spec before. */
  function After(c: Checks, spec: Spec, op: Op): Spec {
    match Apply(c, spec, op) case Done(s) => s case Failed(_) => spec
  }

  /** The operation took `before` to `after` and answered `err`. */
  ghost predicate Performed(c: Checks, before: Spec, op: Op, after: Spec, err: Option<Error>) {
    && after == After(c, before, op)
    && err == match Apply(c, before, op) case Done(_) => None case Failed(e) => Some(e)
  }

  function Run(c: Checks, spec: Spec, ops: seq<Op>): Spec
    decreases |ops|
  {
    if ops == [] then spec else Run(c, After(c, spec, ops[0]), ops[1..])
  }

  // ---------- The code ----------

  /** Edits a spec in place, one operation per call. */
  class Mutator {
    var spec: Spec
    const checks: Checks

    constructor (spec: Spec, checks: Checks)
      ensures this.spec == spec && this.checks == checks
    {
      this.spec, this.checks := spec, checks;
    }

    method HasPath(serverName: string, path: string) returns (index: nat, found: bool)
      ensures Find(spec.locations, RouteKey, (serverName, path)) == if found then Some(index) else None
    {
      index := 0;
      while index < |spec.locations|
        invariant index <= |spec.locations|
        invariant forall i :: 0 <= i < index ==> RouteKey(spec.locations[i]) != (serverName, path)
      {
        if spec.locations[index].serverName == serverName && spec.locations[index].path == path {
          return index, true;
        }
        index := index + 1;
      }
      index, found := 0, false;
    }

    method HasServerBlock(serverName: string, blockType: string) returns (index: nat, found: bool)
      ensures Find(spec.serverBlocks, BlockKey, (serverName, blockType)) == if found then Some(index) else None
    {
      index := 0;
      while index < |spec.serverBlocks|
        invariant index <= |spec.serverBlocks|
        invariant forall i :: 0 <= i < index ==> BlockKey(spec.serverBlocks[i]) != (serverName, blockType)
      {
        if spec.serverBlocks[index].serverName == serverName && spec.serverBlocks[index].blockType == blockType {
          return index, true;
        }
        index := index + 1;
      }
      index, found := 0, false;
    }

    method UpdateRoute(route: Route) returns (err: Option<Error>)
      modifies this
      ensures Performed(checks, old(spec), Op.UpdateRoute(route), spec, err)
    {
      err := ValidateRoute(route);
      if err.Some? {
        return;
      }
      var location := ToLocation(route);
      var index, found := HasPath(route.serverName, route.path);
      if found {
        spec := spec.(locations := spec.locations[index := location]);
      } else {
        spec := spec.(locations := spec.locations + [location]);
      }
    }

    method DeleteRoute(serverName: string, path: string) returns (err: Option<Error>)
      modifies this
      ensures Performed(checks, old(spec), Op.DeleteRoute(serverName, path), spec, err)
    {
      var index, found := HasPath(serverName, path);
      if !found {
        return Some(NotFound);
      }
      spec := spec.(locations := spec.locations[..index] + spec.locations[index + 1..]);
      err := None;
    }

    method UpdateBlock(block: Block) returns (err: Option<Error>)
      modifies this
      ensures Performed(checks, old(spec), Op.UpdateBlock(block), spec, err)
    {
      err := ValidateBlock(block);
      if err.Some? {
        return;
      }
      if block.serverName == "" {
        spec := spec.(blocks := spec.blocks[block.name := Text(block.content)]);
      } else {
        var serverBlock := ToServerBlock(block);
        var index, found := HasServerBlock(block.serverName, block.name);
        if found {
          spec := spec.(serverBlocks := spec.serverBlocks[index := serverBlock]);
        } else {
          spec := spec.(serverBlocks := spec.serverBlocks + [serverBlock]);
        }
      }
    }

    method DeleteBlock(serverName: string, blockName: string) returns (err: Option<Error>)
      modifies this
      ensures Performed(checks, old(spec), Op.DeleteBlock(serverName, blockName), spec, err)
    {
      if serverName == "" {
        if blockName !in spec.blocks {
          return Some(NotFound);
        }
        spec := spec.(blocks := spec.blocks - {blockName});
      } else {
        var index, found := HasServerBlock(serverName, blockName);
        if !found {
          return Some(NotFound);
        }
        spec := spec.(serverBlocks := spec.serverBlocks[..index] + spec.serverBlocks[index + 1..]);
      }
      err := None;
    }

    method BindApp(args: BindArgs, internalBind: bool) returns (err: Option<Error>)
      modifies this
      ensures Performed(checks, old(spec), Op.BindApp(args, internalBind), spec, err)
    {
      var host: string;
      if args.appClusterName != "" && internalBind {
        if |args.appInternalHosts| == 0 || args.appInternalHosts[0] == "" {
          return Some(Validation);
        }
        host := args.appInternalHosts[0];
      } else {
        if |args.appHosts| == 0 || args.appHosts[0] == "" {
          return Some(Validation);
        }
        host := args.appHosts[0];
      }
      var u := checks.parseURL(host);
      if u.None? {
        return Some(MalformedURL);
      }
      if u.value.scheme == "tcp" {
        host := u.value.host;
      }
      if u.value.scheme == "udp" {
        return Some(Validation);
      }
      var i := 0;
      while i < |spec.binds|
        invariant i <= |spec.binds|
        invariant forall j :: 0 <= j < i ==> HostOf(spec.binds[j]) != host
      {
        if spec.binds[i].host == host {
          return Some(Conflict);
        }
        i := i + 1;
      }
      spec := spec.(binds := spec.binds + [Bind(args.appName, host)]);
      err := None;
    }

    method UnbindApp(appName: string) returns (err: Option<Error>)
      modifies this
      ensures Performed(checks, old(spec), Op.UnbindApp(appName), spec, err)
    {
      if appName == "" {
        return Some(Validation);
      }
      var i := 0;
      while i < |spec.binds|
        invariant i <= |spec.binds|
        invariant forall j :: 0 <= j < i ==> NameOf(spec.binds[j]) != appName
      {
        if spec.binds[i].name == appName {
          spec := spec.(binds := spec.binds[..i] + spec.binds[i + 1..]);
          return None;
        }
        i := i + 1;
      }
      err := Some(NotFound);
    }

    method ValidateRoute(r: Route) returns (err: Option<Error>)
      ensures err == if RouteAdmitted(checks, r) then None else Some(Validation)
    {
      if r.path == "" {
        return Some(Validation);
      }
      if r.path[0] != '/' {
        return Some(Validation);
      }
      if r.content == "" && r.destination == "" {
        return Some(Validation);
      }
      if r.content != "" && r.destination != "" {
        return Some(Validation);
      }
      if r.content != "" && r.httpsOnly {
        return Some(Validation);
      }
      if r.content != "" && !checks.contentAllowed(r.content) {
        return Some(Validation);
      }
      err := None;
    }

    method ValidateBlock(b: Block) returns (err: Option<Error>)
      ensures err == if BlockAdmitted(checks, b) then None else Some(Validation)
    {
      if b.name !in BLOCK_TYPES {
        return Some(Validation);
      }
      if b.content == "" {
        return Some(Validation);
      }
      if !checks.contentAllowed(b.content) {
        return Some(Validation);
      }
      if b.serverName != "" {
        if b.name != SERVER_BLOCK {
          return Some(Validation);
        }
        if |b.serverName| > 64 {
          return Some(Validation);
        }
        if !checks.isSubdomain(TrimWildcard(b.serverName)) {
          return Some(Validation);
        }
      }
      err := None;
    }

    /** One operation of any kind. */
    method Perform(op: Op) returns (err: Option<Error>)
      modifies this
      ensures Performed(checks, old(spec), op, spec, err)
    {
      match op
      case UpdateRoute(r) => err := UpdateRoute(r);
      case DeleteRoute(server, path) => err := DeleteRoute(server, path);
      case UpdateBlock(b) => err := UpdateBlock(b);
      case DeleteBlock(server, name) => err := DeleteBlock(server, name);
      case BindApp(args, internalBind) => err := BindApp(args, internalBind);
      case UnbindApp(name) => err := UnbindApp(name);
    }
  }

  // ---------- The finite-map reading ----------

  /** What a spec means: routes and blocks by key, binds in the order they were made. */
  datatype Meaning = Meaning(
    routes: map<(string, string), Location>,
    blocks: map<string, Value>,
    serverBlocks: map<(string, string), ServerBlock>,
    binds: seq<Bind>)

  ghost function MeaningOf(spec: Spec): Meaning {
    Meaning(AsMap(spec.locations, RouteKey), spec.blocks, AsMap(spec.serverBlocks, BlockKey), spec.binds)
  }

  /** The operations as put and remove on finite maps, told without positions. */
  ghost function Intended(c: Checks, m: Meaning, op: Op): Outcome<Meaning> {
    match op
    case UpdateRoute(r) =>
      if !RouteAdmitted(c, r) then Failed(Validation)
      else Done(m.(routes := m.routes[(r.serverName, r.path) := ToLocation(r)]))
    case DeleteRoute(server, path) =>
      if (server, path) !in m.routes then Failed(NotFound)
      else Done(m.(routes := m.routes - {(server, path)}))
    case UpdateBlock(b) =>
      if !BlockAdmitted(c, b) then Failed(Validation)
      else if b.serverName == "" then Done(m.(blocks := m.blocks[b.name := Text(b.content)]))
      else Done(m.(serverBlocks := m.serverBlocks[(b.serverName, b.name) := ToServerBlock(b)]))
    case DeleteBlock(server, name) =>
      if server == "" then
        if name !in m.blocks then Failed(NotFound) else Done(m.(blocks := m.blocks - {name}))
      else if (server, name) !in m.serverBlocks then Failed(NotFound)
      else Done(m.(serverBlocks := m.serverBlocks - {(server, name)}))
    case BindApp(args, internalBind) =>
      (match BoundHost(c, args, internalBind)
       case Failed(e) => Failed(e)
       case Done(host) =>
         if exists b :: b in m.binds && b.host == host then Failed(Conflict)
         else Done(m.(binds := m.binds + [Bind(args.appName, host)])))
    case UnbindApp(name) =>
      if name == "" then Failed(Validation)
      else if !exists b :: b in m.binds && b.name == name then Failed(NotFound)
      else Done(m.(binds := WithoutFirst(m.binds, name)))
  }

  ghost function WithoutFirst(binds: seq<Bind>, name: string): seq<Bind> {
    if binds == [] then []
    else if binds[0].name == name then binds[1..]
    else [binds[0]] + WithoutFirst(binds[1..], name)
  }

  ghost function IntendedAfter(c: Checks, m: Meaning, op: Op): Meaning {
    match Intended(c, m, op) case Done(n) => n case Failed(_) => m
  }

  ghost function IntendedRun(c: Checks, m: Meaning, ops: seq<Op>): Meaning
    decreases |ops|
  {
    if ops == [] then m else IntendedRun(c, IntendedAfter(c, m, ops[0]), ops[1..])
  }

  /** What every reached spec satisfies. */
  ghost predicate WellFormed(spec: Spec) {
    && Distinct(spec.locations, RouteKey)
    && Distinct(spec.serverBlocks, BlockKey)
    && Distinct(spec.binds, HostOf)
    && (forall l :: l in spec.locations ==> l.path != "")
    && (forall b :: b in spec.serverBlocks ==> b.serverName != "" && b.blockType == SERVER_BLOCK)
    && spec.blocks.Keys <= BLOCK_TYPES
  }

  lemma RemoveAfterHead(binds: seq<Bind>, name: string)
    requires binds != [] && binds[0].name != name
    ensures Remove(binds, NameOf, name) == [binds[0]] + Remove(binds[1..], NameOf, name)
  {
    match Find(binds[1..], NameOf, name)
    case None =>
      assert binds == [binds[0]] + binds[1..];
    case Some(i) =>
      assert binds[..i + 1] == [binds[0]] + binds[1..][..i];
      assert binds[i + 2..] == binds[1..][i + 1..];
  }

  lemma RemoveHead(binds: seq<Bind>, name: string)
    requires binds != [] && binds[0].name == name
    ensures Remove(binds, NameOf, name) == binds[1..]
  {
  }

  lemma {:induction false} CutIsWithoutFirst(binds: seq<Bind>, name: string)
    ensures Remove(binds, NameOf, name) == WithoutFirst(binds, name)
  {
    if binds == [] {
    } else if binds[0].name == name {
      RemoveHead(binds, name);
    } else {
      RemoveAfterHead(binds, name);
      CutIsWithoutFirst(binds[1..], name);
    }
  }

  lemma CutKeepsHostsDistinct(binds: seq<Bind>, name: string)
    requires Distinct(binds, HostOf)
    ensures Distinct(Remove(binds, NameOf, name), HostOf)
  {
    if Find(binds, NameOf, name).Some? {
      var i := Find(binds, NameOf, name).value;
      var cut := binds[..i] + binds[i + 1..];
      assert forall j :: 0 <= j < |cut| ==> cut[j] == binds[if j < i then j else j + 1];
    }
  }

  lemma UpdateRouteRefines(c: Checks, spec: Spec, r: Route)
    requires WellFormed(spec)
    ensures WellFormed(After(c, spec, UpdateRoute(r)))
    ensures Refines(Apply(c, spec, UpdateRoute(r)), Intended(c, MeaningOf(spec), UpdateRoute(r)))
  {
    if RouteAdmitted(c, r) {
      PutIsMapUpdate(spec.locations, RouteKey, ToLocation(r));
    }
  }

  lemma DeleteRouteRefines(c: Checks, spec: Spec, server: string, path: string)
    requires WellFormed(spec)
    ensures WellFormed(After(c, spec, DeleteRoute(server, path)))
    ensures Refines(Apply(c, spec, DeleteRoute(server, path)), Intended(c, MeaningOf(spec), DeleteRoute(server, path)))
  {
    RemoveIsMapDelete(spec.locations, RouteKey, (server, path));
    AsMapIsLookup(spec.locations, RouteKey, (server, path));
  }

  lemma UpdateBlockRefines(c: Checks, spec: Spec, b: Block)
    requires WellFormed(spec)
    ensures WellFormed(After(c, spec, UpdateBlock(b)))
    ensures Refines(Apply(c, spec, UpdateBlock(b)), Intended(c, MeaningOf(spec), UpdateBlock(b)))
  {
    if BlockAdmitted(c, b) && b.serverName != "" {
      PutIsMapUpdate(spec.serverBlocks, BlockKey, ToServerBlock(b));
    }
  }

  lemma DeleteBlockRefines(c: Checks, spec: Spec, server: string, name: string)
    requires WellFormed(spec)
    ensures WellFormed(After(c, spec, DeleteBlock(server, name)))
    ensures Refines(Apply(c, spec, DeleteBlock(server, name)), Intended(c, MeaningOf(spec), DeleteBlock(server, name)))
  {
    if server != "" {
      RemoveIsMapDelete(spec.serverBlocks, BlockKey, (server, name));
      AsMapIsLookup(spec.serverBlocks, BlockKey, (server, name));
    }
  }

  lemma BindStepRefines(c: Checks, spec: Spec, op: Op)
    requires WellFormed(spec) && (op.BindApp? || op.UnbindApp?)
    ensures WellFormed(After(c, spec, op))
    ensures Refines(Apply(c, spec, op), Intended(c, MeaningOf(spec), op))
  {
    match op
    case BindApp(args, internalBind) =>
      var host := BoundHost(c, args, internalBind);
      if host.Done? {
        var at := Find(spec.binds, HostOf, host.value);
        assert at.Some? ==> spec.binds[at.value] in spec.binds;
      }
    case UnbindApp(name) =>
      var at := Find(spec.binds, NameOf, name);
      assert at.Some? ==> spec.binds[at.value] in spec.binds;
      CutIsWithoutFirst(spec.binds, name);
      CutKeepsHostsDistinct(spec.binds, name);
  }

  /** The slices and their meaning agree: same error, or corresponding states. */
  ghost predicate Refines(concrete: Outcome<Spec>, abstract_: Outcome<Meaning>) {
    match (concrete, abstract_)
    case (Done(s), Done(m)) => m == MeaningOf(s)
    case (Failed(e), Failed(f)) => e == f
    case _ => false
  }

  lemma StepRefines(c: Checks, spec: Spec, op: Op)
    requires WellFormed(spec)
    ensures WellFormed(After(c, spec, op))
    ensures Refines(Apply(c, spec, op), Intended(c, MeaningOf(spec), op))
  {
    match op
    case UpdateRoute(r) => UpdateRouteRefines(c, spec, r);
    case DeleteRoute(server, path) => DeleteRouteRefines(c, spec, server, path);
    case UpdateBlock(b) => UpdateBlockRefines(c, spec, b);
    case DeleteBlock(server, name) => DeleteBlockRefines(c, spec, server, name);
    case BindApp(_, _) => BindStepRefines(c, spec, op);
    case UnbindApp(_) => BindStepRefines(c, spec, op);
  }

  /** Every run over the slices is a run over the finite maps, and ends well formed. */
  lemma {:induction false} RunRefines(c: Checks, spec: Spec, ops: seq<Op>)
    requires WellFormed(spec)
    ensures WellFormed(Run(c, spec, ops))
    ensures MeaningOf(Run(c, spec, ops)) == IntendedRun(c, MeaningOf(spec), ops)
    decreases |ops|
  {
    if ops != [] {
      StepRefines(c, spec, ops[0]);
      RunRefines(c, After(c, spec, ops[0]), ops[1..]);
    }
  }

  /** Under any operation routes keep their positions: an update may append a key, a delete cuts one out. */
  lemma RouteOrderIsKept(c: Checks, spec: Spec, op: Op)
    ensures var before, after := Keys(spec.locations, RouteKey), Keys(After(c, spec, op).locations, RouteKey);
            match op
            case UpdateRoute(r) => GrownBy(before, after, (r.serverName, r.path))
            case DeleteRoute(server, path) => CutBy(before, after, (server, path))
            case _ => after == before
  {
    match op
    case UpdateRoute(r) => KeysAfterPut(spec.locations, RouteKey, ToLocation(r));
    case DeleteRoute(server, path) => KeysAfterRemove(spec.locations, RouteKey, (server, path));
    case _ =>
  }

  /** Server blocks keep their positions likewise. */
  lemma BlockOrderIsKept(c: Checks, spec: Spec, op: Op)
    ensures var before, after := Keys(spec.serverBlocks, BlockKey), Keys(After(c, spec, op).serverBlocks, BlockKey);
            match op
            case UpdateBlock(b) => GrownBy(before, after, (b.serverName, b.name))
            case DeleteBlock(server, name) => CutBy(before, after, (server, name))
            case _ => after == before
  {
    match op
    case UpdateBlock(b) => KeysAfterPut(spec.serverBlocks, BlockKey, ToServerBlock(b));
    case DeleteBlock(server, name) => KeysAfterRemove(spec.serverBlocks, BlockKey, (server, name));
    case _ =>
  }

  /** And so do binds, of which the first of the name is cut out. */
  lemma BindOrderIsKept(c: Checks, spec: Spec, op: Op)
    ensures
      var before, after := spec.binds, After(c, spec, op).binds;
      || after == before
      || (op.BindApp? && exists host :: after == before + [Bind(op.args.appName, host)])
      || (op.UnbindApp? && exists i: nat :: i < |before| && before[i].name == op.appName &&
                                             (forall k :: 0 <= k < i ==> before[k].name != op.appName) &&
                                             after == before[..i] + before[i + 1..])
  {
    if op.UnbindApp? {
      var at := Find(spec.binds, NameOf, op.appName);
      assert at.Some? ==> forall k :: 0 <= k < at.value ==> NameOf(spec.binds[k]) != op.appName;
    }
  }

  /** After its leading slash a path may hold anything, spaces included. */
  lemma PathMayHoldAnything(c: Checks, server: string, rest: string, destination: string, httpsOnly: bool)
    requires destination != ""
    ensures RouteAdmitted(c, Route(server, "/" + rest, destination, "", httpsOnly))
  {
  }

  /** Deleting what was just added, under a key that was free, gives back the spec. */
  lemma DeleteUndoesUpdate(c: Checks, spec: Spec, r: Route)
    requires RouteAdmitted(c, r) && Find(spec.locations, RouteKey, (r.serverName, r.path)).None?
    ensures Run(c, spec, [UpdateRoute(r), DeleteRoute(r.serverName, r.path)]) == spec
  {
    var added := After(c, spec, UpdateRoute(r));
    var n := |spec.locations|;
    assert added.locations == spec.locations + [ToLocation(r)];
    assert Find(added.locations, RouteKey, (r.serverName, r.path)) == Some(n) by {
      assert forall i :: 0 <= i < n ==> added.locations[i] == spec.locations[i];
      assert RouteKey(added.locations[n]) == (r.serverName, r.path);
    }
    assert added.locations[..n] + added.locations[n + 1..] == spec.locations;
    var undo := DeleteRoute(r.serverName, r.path);
    assert After(c, added, undo) == spec;
    assert Run(c, spec, [UpdateRoute(r), undo]) == Run(c, added, [undo]) by {
      assert [UpdateRoute(r), undo][1..] == [undo];
    }
    assert Run(c, added, [undo]) == Run(c, spec, []) by {
      assert [undo][1..] == [];
    }
  }

  // ---------- Field by field ----------

  /**
    A route is accepted exactly when its path begins with a slash, it has either content or a destination, and
    content, if it has it, is allowed and not asked to force HTTPS. What is then stored is what was given.
   */
  lemma RouteIsStoredAsGiven(c: Checks, spec: Spec, r: Route)
    requires WellFormed(spec)
    ensures var done := Apply(c, spec, UpdateRoute(r));
            && (done.Done? <==>
                  && |r.path| > 0 && r.path[0] == '/'
                  && ((r.content == "" && r.destination != "") ||
                      (r.content != "" && r.destination == "" && !r.httpsOnly && c.contentAllowed(r.content))))
            && (done.Failed? ==> done.error == Validation)
            && (done.Done? ==>
                  var l := Lookup(done.value.locations, RouteKey, (r.serverName, r.path));
                  && l.Some? && l.value.serverName == r.serverName && l.value.path == r.path
                  && l.value.destination == r.destination && l.value.forceHTTPS == r.httpsOnly
                  && (if r.content == "" then l.value.content == None
                      else l.value.content == Some(Value(r.content, None))))
  {
    LookupAfterPut(spec.locations, RouteKey, ToLocation(r), (r.serverName, r.path));
  }

  /**
    A block is accepted exactly when its type is known, its content is not empty and allowed, and a server name,
    if it has one, comes with type "server", has at most 64 characters and is a DNS name after a leading "*.".
   */
  lemma BlockIsStoredAsGiven(c: Checks, spec: Spec, b: Block)
    requires WellFormed(spec)
    ensures var done := Apply(c, spec, UpdateBlock(b));
            var dns := if |b.serverName| >= 2 && b.serverName[0] == '*' && b.serverName[1] == '.'
                       then b.serverName[2..] else b.serverName;
            && (done.Done? <==>
                  && b.name in {"root", "http", "server", "lua-server", "lua-worker"}
                  && b.content != "" && c.contentAllowed(b.content)
                  && (b.serverName == "" || (b.name == "server" && |b.serverName| <= 64 && c.isSubdomain(dns))))
            && (done.Failed? ==> done.error == Validation)
            && (done.Done? && b.serverName == "" ==>
                  b.name in done.value.blocks && done.value.blocks[b.name] == Value(b.content, None))
            && (done.Done? && b.serverName != "" ==>
                  Lookup(done.value.serverBlocks, BlockKey, (b.serverName, b.name)) ==
                  Some(ServerBlock(b.serverName, b.name, Value(b.content, None), b.extend)))
  {
    if b.serverName != "" {
      LookupAfterPut(spec.serverBlocks, BlockKey, ToServerBlock(b), (b.serverName, b.name));
    }
  }

  /**
    A bind takes the first of the app's internal hosts, if it is internal and the app names its cluster, and of its
    other hosts otherwise; keeps only the host of a "tcp" URL; refuses "udp", and a host that is bound.
   */
  lemma BindIsStoredAsGiven(c: Checks, spec: Spec, args: BindArgs, internalBind: bool)
    ensures var hosts := if internalBind && args.appClusterName != "" then args.appInternalHosts else args.appHosts;
            var done := Apply(c, spec, BindApp(args, internalBind));
            if |hosts| == 0 || hosts[0] == "" then done == Failed(Validation)
            else match c.parseURL(hosts[0])
              case None => done == Failed(MalformedURL)
              case Some(u) =>
                if u.scheme == "udp" then done == Failed(Validation)
                else
                  var host := if u.scheme == "tcp" then u.host else hosts[0];
                  if exists b :: b in spec.binds && b.host == host then done == Failed(Conflict)
                  else done == Done(spec.(binds := spec.binds + [Bind(args.appName, host)]))
  {
    var host := BoundHost(c, args, internalBind);
    if host.Done? {
      var at := Find(spec.binds, HostOf, host.value);
      assert at.Some? ==> spec.binds[at.value] in spec.binds;
    }
  }
}
