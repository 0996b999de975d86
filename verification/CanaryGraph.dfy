/** What holds of the upstream options in every state that calls can reach. */
module CanaryGraph {
  import opened Ordering
  import opened KeyedList
  import opened InstanceSpec
  import opened Upstream
  import opened Whitespace

  /** The canary graph: options by primary, an edge from each to its canaries. */
  ghost predicate DepthOneMatching(m: map<string, Options>) {
    NodesAllowed(m) && EdgesAllowed(m) && ParentsUnique(m)
  }

  /** Keyed by primary; at most one canary each, and no shaping beside it. */
  ghost predicate NodesAllowed(m: map<string, Options>) {
    forall p :: p in m ==>
      && p != "" && m[p].primary == p && |m[p].canaries| <= 1
      && (m[p].canaries != [] ==> !HasShaping(m[p].policy))
  }

  /** Every canary is another node, and has none itself. */
  ghost predicate EdgesAllowed(m: map<string, Options>) {
    forall p, c :: p in m && c in m[p].canaries ==> c != p && c in m && m[c].canaries == []
  }

  ghost predicate ParentsUnique(m: map<string, Options>) {
    forall p, q, c :: p in m && q in m && c in m[p].canaries && c in m[q].canaries ==> p == q
  }

  /** What the last call to set an option made sure of, apart from the graph. */
  predicate WellSet(o: Options) {
    && o.loadBalance in {ROUND_ROBIN, CONSISTENT_HASH, EWMA}
    && (o.loadBalance == CONSISTENT_HASH <==> !Blank(o.hashKey))
    && (!Blank(o.policy.header) ==> !Blank(o.policy.headerValue) || !Blank(o.policy.headerPattern))
    && (Blank(o.policy.headerValue) || Blank(o.policy.headerPattern))
    && (o.policy.weight > 0 ==> o.policy.weightTotal != 0)
  }

  ghost predicate Sound(options: seq<Options>) {
    && Distinct(options, PrimaryOf)
    && DepthOneMatching(AsMap(options, PrimaryOf))
    && forall o :: o in options ==> WellSet(o)
  }

  /** The options of the list, as entries of the map. */
  lemma EntriesAreElements(options: seq<Options>)
    requires Distinct(options, PrimaryOf)
    ensures forall o :: o in options <==>
      o.primary in AsMap(options, PrimaryOf) && AsMap(options, PrimaryOf)[o.primary] == o
  {
    var m := AsMap(options, PrimaryOf);
    forall o
      ensures o in options <==> o.primary in m && m[o.primary] == o
    {
      AsMapIsLookup(options, PrimaryOf, o.primary);
      if o in options {
        var i :| 0 <= i < |options| && options[i] == o;
        FindAt(options, PrimaryOf, i);
      }
    }
  }

  /** The settings of a call that do not depend on other options. */
  predicate ArgumentsAllowed(binds: seq<Bind>, args: Options) {
    && (exists b :: b in binds && b.name == args.primary)
    && (!Blank(args.policy.header) ==> !Blank(args.policy.headerValue) || !Blank(args.policy.headerPattern))
    && (Blank(args.policy.headerValue) || Blank(args.policy.headerPattern))
    && BalanceAllowed(args)
  }

  lemma ParentIsTheOne(options: seq<Options>, bind: string)
    requires Sound(options)
    ensures ParentOf(options, bind) != "" ==>
      exists o :: o in options && o.primary == ParentOf(options, bind) && bind in o.canaries
    ensures ParentOf(options, bind) == "" ==> forall o :: o in options ==> bind !in o.canaries
  {
    EntriesAreElements(options);
    ParentIsFirst(options, bind);
  }

  lemma {:induction false} ParentIsFirst(options: seq<Options>, bind: string)
    requires forall o :: o in options ==> o.primary != ""
    ensures ParentOf(options, bind) != "" ==>
      exists o :: o in options && o.primary == ParentOf(options, bind) && bind in o.canaries
    ensures ParentOf(options, bind) == "" ==> forall o :: o in options ==> bind !in o.canaries
  {
    if options != [] {
      assert options[0] in options;
      assert forall o :: o in options[1..] ==> o in options;
      assert forall o :: o in options ==> o == options[0] || o in options[1..];
      ParentIsFirst(options[1..], bind);
    }
  }

  /** Of two canaries under one upstream there is only one, so the weight rule never has anything to reject. */
  lemma WeightRuleNeverFails(options: seq<Options>, bind: string)
    requires Sound(options)
    ensures !WeightTaken(options, bind, true)
  {
    var parent := ParentOf(options, bind);
    if parent != "" {
      ParentIsTheOne(options, bind);
      var o :| o in options && o.primary == parent && bind in o.canaries;
      OnlyCanary(options, o);
      AsMapIsLookup(options, PrimaryOf, parent);
    }
  }

  lemma OnlyCanary(options: seq<Options>, o: Options)
    requires Sound(options) && o in options
    ensures o.primary in AsMap(options, PrimaryOf) && AsMap(options, PrimaryOf)[o.primary] == o
    ensures |o.canaries| <= 1
    ensures forall c, d :: c in o.canaries && d in o.canaries ==> c == d
  {
    EntriesAreElements(options);
  }

  /** A bind referenced as a canary already has its own option, so the rule is only ever asked about an update. */
  lemma ReferencedHasOption(options: seq<Options>, bind: string)
    requires Sound(options) && Referenced(options, bind)
    ensures Lookup(options, PrimaryOf, bind).Some?
  {
    ReferencedInGraph(options, bind);
    AsMapIsLookup(options, PrimaryOf, bind);
  }

  /** In the graph: a node without canaries that is no canary of another primary. */
  ghost predicate CanaryFits(m: map<string, Options>, primary: string, canary: string) {
    && canary in m && canary != primary && m[canary].canaries == []
    && forall q :: q in m && q != primary ==> canary !in m[q].canaries
  }

  lemma CanaryAllowedInGraph(options: seq<Options>, primary: string, canary: string)
    requires Sound(options)
    ensures CanaryAllowed(options, primary, canary) <==> CanaryFits(AsMap(options, PrimaryOf), primary, canary)
  {
    var m := AsMap(options, PrimaryOf);
    EntriesAreElements(options);
    if canary in m {
      assert m[canary] in options;
    }
    forall q | q in m
      ensures m[q] in options
    {
    }
  }

  ghost predicate HasEdgeTo(m: map<string, Options>, bind: string) {
    exists q :: q in m && q != bind && bind in m[q].canaries
  }

  /** The five checks, in terms of the graph they look at. */
  ghost predicate AcceptedInGraph(binds: seq<Bind>, m: map<string, Options>, args: Options) {
    && args.primary != "" && |args.canaries| <= 1
    && (HasEdgeTo(m, args.primary) ==> args.canaries == [])
    && (forall c :: c in args.canaries ==> CanaryFits(m, args.primary, c))
    && (args.canaries != [] ==> !HasShaping(args.policy))
    && ArgumentsAllowed(binds, args)
  }

  lemma ReferencedInGraph(options: seq<Options>, bind: string)
    requires Sound(options)
    ensures Referenced(options, bind) <==> HasEdgeTo(AsMap(options, PrimaryOf), bind)
  {
    var m := AsMap(options, PrimaryOf);
    EntriesAreElements(options);
    forall q | q in m
      ensures m[q] in options
    {
    }
  }

  lemma CanariesAllowedInGraph(options: seq<Options>, primary: string, canaries: seq<string>)
    requires Sound(options)
    ensures (forall c :: c in canaries ==> CanaryAllowed(options, primary, c)) <==>
            (forall c :: c in canaries ==> CanaryFits(AsMap(options, PrimaryOf), primary, c))
  {
    forall c
      ensures CanaryAllowed(options, primary, c) <==> CanaryFits(AsMap(options, PrimaryOf), primary, c)
    {
      CanaryAllowedInGraph(options, primary, c);
    }
  }

  lemma AcceptedWithoutWeightRule(binds: seq<Bind>, options: seq<Options>, args: Options)
    requires Sound(options)
    ensures Accepted(binds, options, args) <==>
      && args.primary != "" && |args.canaries| <= 1
      && (Referenced(options, args.primary) ==> args.canaries == [])
      && (forall c :: c in args.canaries ==> CanaryAllowed(options, args.primary, c))
      && (args.canaries != [] ==> !HasShaping(args.policy))
      && ArgumentsAllowed(binds, args)
  {
    WeightRuleNeverFails(options, args.primary);
    if Referenced(options, args.primary) {
      ReferencedHasOption(options, args.primary);
    }
  }

  lemma AcceptedAsGraph(binds: seq<Bind>, options: seq<Options>, args: Options)
    requires Sound(options)
    ensures Accepted(binds, options, args) <==> AcceptedInGraph(binds, AsMap(options, PrimaryOf), args)
  {
    AcceptedWithoutWeightRule(binds, options, args);
    ReferencedInGraph(options, args.primary);
    CanariesAllowedInGraph(options, args.primary, args.canaries);
  }

  lemma AcceptedKeepsGraph(binds: seq<Bind>, m: map<string, Options>, args: Options, x: Options)
    requires DepthOneMatching(m) && AcceptedInGraph(binds, m, args)
    requires x.primary == args.primary && x.canaries == args.canaries && HasShaping(x.policy) == HasShaping(args.policy)
    ensures DepthOneMatching(m[x.primary := x])
  {
  }

  lemma GraphKeptOnlyIfAccepted(binds: seq<Bind>, m: map<string, Options>, args: Options, x: Options)
    requires DepthOneMatching(m) && DepthOneMatching(m[x.primary := x]) && ArgumentsAllowed(binds, args)
    requires x.primary == args.primary && x.canaries == args.canaries && HasShaping(x.policy) == HasShaping(args.policy)
    ensures AcceptedInGraph(binds, m, args)
  {
    var n := m[x.primary := x];
    assert n[x.primary] == x;
    forall q | q in m && q != x.primary
      ensures n[q] == m[q]
    {
    }
    if HasEdgeTo(m, x.primary) {
      var q :| q in m && q != x.primary && x.primary in m[q].canaries;
      assert x.primary in n[q].canaries;
      assert n[x.primary].canaries == [];
    }
    forall c | c in x.canaries
      ensures CanaryFits(m, x.primary, c)
    {
      assert c in n[x.primary].canaries;
      assert c != x.primary && c in n && n[c] == m[c];
    }
  }

  /**
    In a sound state a call is accepted exactly when its own settings are allowed and storing it
    would keep the graph a depth-one matching: the five checks together are neither too weak nor
    too strong.
   */
  lemma AcceptedIffGraphKept(binds: seq<Bind>, options: seq<Options>, args: Options)
    requires Sound(options)
    ensures Accepted(binds, options, args) <==>
      ArgumentsAllowed(binds, args) && DepthOneMatching(AsMap(Stored(options, args), PrimaryOf))
  {
    var m := AsMap(options, PrimaryOf);
    var x := Normalised(args, Lookup(options, PrimaryOf, args.primary).Some?);
    PutIsMapUpdate(options, PrimaryOf, x);
    AcceptedAsGraph(binds, options, args);
    if AcceptedInGraph(binds, m, args) {
      AcceptedKeepsGraph(binds, m, args, x);
    } else if ArgumentsAllowed(binds, args) && DepthOneMatching(m[x.primary := x]) {
      GraphKeptOnlyIfAccepted(binds, m, args, x);
    }
  }

  // ---------- Deleting ----------

  lemma {:induction false} WithoutFilters(names: seq<string>, name: string)
    ensures forall n :: n in Without(names, name) <==> n in names && n != name
    ensures |Without(names, name)| <= |names|
  {
    if names != [] {
      var rest, last := names[..|names| - 1], names[|names| - 1];
      assert names == rest + [last];
      WithoutFilters(rest, name);
    }
  }

  /** A deletion takes the primary out of the map and out of every list of canaries. */
  lemma {:induction false} LookupInDropped(options: seq<Options>, primary: string, p: string)
    ensures Lookup(Dropped(options, primary), PrimaryOf, p) ==
      match Lookup(options, PrimaryOf, p)
      case None => None
      case Some(o) => if p == primary then None else Some(o.(canaries := Without(o.canaries, primary)))
  {
    if options != [] {
      var rest, last := options[..|options| - 1], options[|options| - 1];
      assert options == rest + [last];
      LookupInDropped(rest, primary, p);
      LookupInAppend(rest, PrimaryOf, last, p);
      LookupInAppend(Dropped(rest, primary), PrimaryOf, last.(canaries := Without(last.canaries, primary)), p);
    }
  }

  lemma {:induction false} DroppedIsDistinct(options: seq<Options>, primary: string)
    requires Distinct(options, PrimaryOf)
    ensures Distinct(Dropped(options, primary), PrimaryOf)
  {
    if options != [] {
      var rest, last := options[..|options| - 1], options[|options| - 1];
      assert options == rest + [last];
      DistinctAppend(rest, PrimaryOf, last);
      DroppedIsDistinct(rest, primary);
      LookupInDropped(rest, primary, last.primary);
      DistinctAppend(Dropped(rest, primary), PrimaryOf, last.(canaries := Without(last.canaries, primary)));
    }
  }

  lemma {:induction false} DroppedIsWellSet(options: seq<Options>, primary: string)
    requires forall o :: o in options ==> WellSet(o)
    ensures forall o :: o in Dropped(options, primary) ==> WellSet(o)
  {
    if options != [] {
      var rest, last := options[..|options| - 1], options[|options| - 1];
      assert options == rest + [last];
      DroppedIsWellSet(rest, primary);
      assert WellSet(last) && WellSet(last.(canaries := Without(last.canaries, primary)));
    }
  }

  lemma DeleteKeepsSound(options: seq<Options>, primary: string)
    requires Sound(options)
    ensures Sound(Dropped(options, primary))
    ensures primary !in AsMap(Dropped(options, primary), PrimaryOf)
    ensures forall o :: o in Dropped(options, primary) ==> primary !in o.canaries
  {
    var m, n := AsMap(options, PrimaryOf), AsMap(Dropped(options, primary), PrimaryOf);
    DroppedIsDistinct(options, primary);
    DroppedIsWellSet(options, primary);
    forall p
      ensures p in n <==> p in m && p != primary
      ensures p in n ==> n[p] == m[p].(canaries := Without(m[p].canaries, primary))
    {
      AsMapIsLookup(options, PrimaryOf, p);
      AsMapIsLookup(Dropped(options, primary), PrimaryOf, p);
      LookupInDropped(options, primary, p);
    }
    PruningKeepsGraph(m, n, primary);
    EntriesAreElements(Dropped(options, primary));
    forall o | o in Dropped(options, primary)
      ensures primary !in o.canaries
    {
      WithoutFilters(m[o.primary].canaries, primary);
    }
  }

  /** `n` is `m` without `primary`, its canary lists shrunk. */
  ghost predicate Shrunk(m: map<string, Options>, n: map<string, Options>, primary: string) {
    && n.Keys == m.Keys - {primary}
    && (forall p :: p in n ==> n[p].primary == m[p].primary && n[p].policy == m[p].policy)
    && (forall p :: p in n ==> |n[p].canaries| <= |m[p].canaries|)
    && (forall p, c :: p in n && c in n[p].canaries ==> c in m[p].canaries && c != primary)
  }

  lemma ShrinkingKeepsNodes(m: map<string, Options>, n: map<string, Options>, primary: string)
    requires NodesAllowed(m) && Shrunk(m, n, primary)
    ensures NodesAllowed(n)
  {
    forall p | p in n
      ensures p in m && |n[p].canaries| <= |m[p].canaries|
    {
    }
  }

  lemma ShrinkingKeepsEdges(m: map<string, Options>, n: map<string, Options>, primary: string)
    requires EdgesAllowed(m) && Shrunk(m, n, primary)
    ensures EdgesAllowed(n)
  {
    forall p, c | p in n && c in n[p].canaries
      ensures c != p && c in n && n[c].canaries == []
    {
      assert c in m[p].canaries && m[c].canaries == [];
      assert |n[c].canaries| <= |m[c].canaries|;
    }
  }

  lemma ShrinkingKeepsParents(m: map<string, Options>, n: map<string, Options>, primary: string)
    requires ParentsUnique(m) && Shrunk(m, n, primary)
    ensures ParentsUnique(n)
  {
    forall p, q, c | p in n && q in n && c in n[p].canaries && c in n[q].canaries
      ensures p == q
    {
      assert c in m[p].canaries && c in m[q].canaries;
    }
  }

  lemma PruningKeepsGraph(m: map<string, Options>, n: map<string, Options>, primary: string)
    requires DepthOneMatching(m)
    requires forall p :: p in n <==> p in m && p != primary
    requires forall p :: p in n ==> n[p] == m[p].(canaries := Without(m[p].canaries, primary))
    ensures DepthOneMatching(n)
  {
    forall p | p in n
      ensures forall c :: c in n[p].canaries ==> c in m[p].canaries && c != primary
      ensures |n[p].canaries| <= |m[p].canaries|
    {
      WithoutFilters(m[p].canaries, primary);
    }
    assert n.Keys == m.Keys - {primary};
    ShrinkingKeepsNodes(m, n, primary);
    ShrinkingKeepsEdges(m, n, primary);
    ShrinkingKeepsParents(m, n, primary);
  }

  // ---------- Runs ----------

  datatype Call = Ensure(args: Options) | Delete(primary: string)

  /** One call, the instance's binds being whatever they are when it is made. */
  function After(binds: seq<Bind>, options: seq<Options>, call: Call): seq<Options> {
    match call
    case Ensure(args) => if Accepted(binds, options, args) then Stored(options, args) else options
    case Delete(p) => if p != "" && Lookup(options, PrimaryOf, p).Some? then Dropped(options, p) else options
  }

  function Run(options: seq<Options>, calls: seq<(seq<Bind>, Call)>): seq<Options>
    decreases |calls|
  {
    if calls == [] then options else Run(After(calls[0].0, options, calls[0].1), calls[1..])
  }

  lemma EnsureKeepsSound(binds: seq<Bind>, options: seq<Options>, args: Options)
    requires Sound(options) && Accepted(binds, options, args)
    ensures Sound(Stored(options, args))
  {
    AcceptedIffGraphKept(binds, options, args);
    var x := Normalised(args, Lookup(options, PrimaryOf, args.primary).Some?);
    PutIsMapUpdate(options, PrimaryOf, x);
    assert WellSet(x);
  }

  /** Every state reached by sequential calls, binds changing freely between them, is sound. */
  lemma {:induction false} EveryReachedStateIsSound(options: seq<Options>, calls: seq<(seq<Bind>, Call)>)
    requires Sound(options)
    ensures Sound(Run(options, calls))
    decreases |calls|
  {
    if calls != [] {
      var (binds, call) := calls[0];
      match call {
        case Ensure(args) =>
          if Accepted(binds, options, args) {
            EnsureKeepsSound(binds, options, args);
          }
        case Delete(p) =>
          DeleteKeepsSound(options, p);
      }
      EveryReachedStateIsSound(After(binds, options, call), calls[1..]);
    }
  }

  /** Starting from no options, the weight rule is never what rejects a call. */
  lemma WeightRuleNeverRejects(calls: seq<(seq<Bind>, Call)>, bind: string)
    ensures var options := Run([], calls);
            Referenced(options, bind) ==>
              && Lookup(options, PrimaryOf, bind).Some?
              && !WeightTaken(options, bind, Lookup(options, PrimaryOf, bind).Some?)
  {
    EveryReachedStateIsSound([], calls);
    var options := Run([], calls);
    if Referenced(options, bind) {
      ReferencedHasOption(options, bind);
      WeightRuleNeverFails(options, bind);
    }
  }

  // ---------- Field by field ----------

  /** What the graph asks of a call, in terms of the options there are. */
  ghost predicate KeepsGraph(options: seq<Options>, args: Options) {
    && |args.canaries| <= 1
    && (args.canaries != [] ==>
          forall o :: o in options && o.primary != args.primary ==> args.primary !in o.canaries)
    && forall c :: c in args.canaries ==>
         && c != args.primary
         && (exists o :: o in options && o.primary == c && o.canaries == [])
         && forall o :: o in options && o.primary != args.primary ==> c !in o.canaries
  }

  lemma CanaryAllowedAsListed(options: seq<Options>, primary: string, c: string)
    requires Distinct(options, PrimaryOf)
    ensures CanaryAllowed(options, primary, c) <==>
            && c != primary
            && (exists o :: o in options && o.primary == c && o.canaries == [])
            && forall o :: o in options && o.primary != primary ==> c !in o.canaries
  {
    forall o, p | o in options && p in options && o.primary == p.primary
      ensures o == p
    {
      var i :| 0 <= i < |options| && options[i] == o;
      var j :| 0 <= j < |options| && options[j] == p;
      assert i == j || PrimaryOf(options[i]) != PrimaryOf(options[j]);
    }
  }

  /**
    In a sound state a call is accepted exactly when: it names a bind of the instance; the graph is kept; beside
    canaries there is no weight, header or cookie; a header comes with a value or a pattern, of which there is
    at most one; and the algorithm is a known one, with a hash key exactly for consistent hashing.
   */
  lemma AcceptedIff(binds: seq<Bind>, options: seq<Options>, args: Options)
    requires Sound(options)
    ensures Accepted(binds, options, args) <==>
      && args.primary != "" && (exists b :: b in binds && b.name == args.primary)
      && KeepsGraph(options, args)
      && (args.canaries != [] ==>
            args.policy.weight <= 0 && Blank(args.policy.header) && Blank(args.policy.cookie))
      && (Blank(args.policy.header) || !Blank(args.policy.headerValue) || !Blank(args.policy.headerPattern))
      && !(!Blank(args.policy.headerValue) && !Blank(args.policy.headerPattern))
      && args.loadBalance in {"", "round_robin", "chash", "ewma"}
      && (if args.loadBalance == "chash" then !Blank(args.hashKey) else Blank(args.hashKey))
  {
    AcceptedWithoutWeightRule(binds, options, args);
    assert (forall c :: c in args.canaries ==> CanaryAllowed(options, args.primary, c)) <==>
           (forall c :: c in args.canaries ==>
              && c != args.primary
              && (exists o :: o in options && o.primary == c && o.canaries == [])
              && forall o :: o in options && o.primary != args.primary ==> c !in o.canaries) by {
      forall c
        ensures CanaryAllowed(options, args.primary, c) <==>
                && c != args.primary
                && (exists o :: o in options && o.primary == c && o.canaries == [])
                && forall o :: o in options && o.primary != args.primary ==> c !in o.canaries
      {
        CanaryAllowedAsListed(options, args.primary, c);
      }
    }
  }

  /** In every reached state an upstream with canaries has no weight, header or cookie of its own. */
  lemma CanariesExcludeShaping(calls: seq<(seq<Bind>, Call)>, o: Options)
    requires o in Run([], calls) && o.canaries != []
    ensures o.policy.weight <= 0 && Blank(o.policy.header) && Blank(o.policy.cookie)
  {
    EveryReachedStateIsSound([], calls);
    EntriesAreElements(Run([], calls));
  }

  /**
    The option stored for an accepted call: what was given, round robin where no algorithm was, and for a weight
    without a total 100, or ten times the weight if it exceeds 100. Every other option is left.
   */
  lemma StoredAsGiven(binds: seq<Bind>, options: seq<Options>, args: Options, p: string)
    requires Sound(options) && Accepted(binds, options, args)
    ensures var o, given := Lookup(Stored(options, args), PrimaryOf, args.primary), args.policy;
            && o.Some? && o.value.primary == args.primary && o.value.canaries == args.canaries
            && o.value.hashKey == args.hashKey
            && o.value.loadBalance == (if args.loadBalance == "" then "round_robin" else args.loadBalance)
            && var stored := o.value.policy;
            && stored.weight == given.weight && stored.header == given.header && stored.cookie == given.cookie
            && (!Blank(given.headerValue) ==> stored.headerValue == given.headerValue)
            && (!Blank(given.headerPattern) ==> stored.headerPattern == given.headerPattern)
            && (Blank(given.headerValue) ==> Blank(stored.headerValue))
            && (Blank(given.headerPattern) ==> Blank(stored.headerPattern))
            && stored.weightTotal ==
                 (if given.weight <= 0 || given.weightTotal != 0 then given.weightTotal
                  else if given.weight <= 100 then 100
                  else given.weight * 10)
    ensures p != args.primary ==> Lookup(Stored(options, args), PrimaryOf, p) == Lookup(options, PrimaryOf, p)
  {
    var x := Normalised(args, Lookup(options, PrimaryOf, args.primary).Some?);
    LookupAfterPut(options, PrimaryOf, x, args.primary);
    LookupAfterPut(options, PrimaryOf, x, p);
  }

  /** A deletion keeps the other canaries, each as often as it was listed, and the order of the other options. */
  lemma {:induction false} WithoutKeepsOthers(names: seq<string>, name: string, n: string)
    ensures multiset(Without(names, name))[n] == if n == name then 0 else multiset(names)[n]
  {
    if names != [] {
      var rest, last := names[..|names| - 1], names[|names| - 1];
      assert names == rest + [last];
      WithoutKeepsOthers(rest, name, n);
    }
  }

  lemma {:induction false} DroppedKeepsOrder(options: seq<Options>, primary: string)
    ensures Keys(Dropped(options, primary), PrimaryOf) == Without(Keys(options, PrimaryOf), primary)
  {
    if options != [] {
      var rest, last := options[..|options| - 1], options[|options| - 1];
      DroppedKeepsOrder(rest, primary);
      assert Keys(options, PrimaryOf)[..|options| - 1] == Keys(rest, PrimaryOf);
    }
  }

  lemma {:induction false} ParentIsFirstLister(options: seq<Options>, bind: string, i: nat)
    requires forall o :: o in options ==> o.primary != ""
    requires i < |options| && bind in options[i].canaries && forall k :: 0 <= k < i ==> bind !in options[k].canaries
    ensures ParentOf(options, bind) == options[i].primary
  {
    if i > 0 {
      assert options[0] in options;
      assert forall o :: o in options[1..] ==> o in options;
      ParentIsFirstLister(options[1..], bind, i - 1);
    } else {
      assert options[0] in options;
    }
  }

  /**
    The weight rule, option by option: it stands in the way exactly when the first upstream that lists the bind
    lists another canary, or the bind itself when it is new, that some option gives a weight.
   */
  lemma WeightTakenIff(options: seq<Options>, bind: string, updating: bool, i: nat)
    requires Distinct(options, PrimaryOf) && forall o :: o in options ==> o.primary != ""
    requires i < |options| && bind in options[i].canaries && forall k :: 0 <= k < i ==> bind !in options[k].canaries
    ensures WeightTaken(options, bind, updating) <==>
            exists c, o :: c in options[i].canaries && !(updating && c == bind) &&
                           o in options && o.primary == c && o.policy.weight > 0
  {
    ParentIsFirstLister(options, bind, i);
    FindAt(options, PrimaryOf, i);
    assert options[i] in options;
    var group := options[i].canaries;
    assert WeightTaken(options, bind, updating) <==>
           exists c :: c in group && !(updating && c == bind) && Weighted(options, c);
    if WeightTaken(options, bind, updating) {
      var c :| c in group && !(updating && c == bind) && Weighted(options, c);
      var o :| o in options && o.primary == c && o.policy.weight > 0;
    }
    if c, o :| c in group && !(updating && c == bind) && o in options && o.primary == c && o.policy.weight > 0 {
      assert Weighted(options, c);
    }
  }
}
