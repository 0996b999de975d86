/** Upstream options: the calls that set and delete them, and the graph of canaries they maintain. */
module Upstream {
  import opened Ordering
  import opened KeyedList
  import opened InstanceSpec
  import opened Whitespace

  datatype Policy = Policy(
    weight: int, weightTotal: int, header: string, headerValue: string, headerPattern: string, cookie: string)

  /** Stored options, and the arguments of a call that sets them. */
  datatype Options = Options(
    primary: string, canaries: seq<string>, policy: Policy, loadBalance: string, hashKey: string)

  datatype Error = Validation | NotFound

  const ROUND_ROBIN := "round_robin"
  const CONSISTENT_HASH := "chash"
  const EWMA := "ewma"

  function PrimaryOf(o: Options): string {
    o.primary
  }

  // ---------- The five checks, each as the question it answers ----------

  /** Some option other than that of `bind` names it as a canary. */
  predicate Referenced(options: seq<Options>, bind: string) {
    exists o :: o in options && o.primary != bind && bind in o.canaries
  }

  predicate HasShaping(p: Policy) {
    p.weight > 0 || !Blank(p.header) || !Blank(p.cookie)
  }

  /** A canary is the primary of another option, which has no canaries, and is nobody else's canary. */
  predicate CanaryAllowed(options: seq<Options>, primary: string, canary: string) {
    && (exists o :: o in options && o.primary != primary && o.primary == canary)
    && (forall o :: o in options && o.primary != primary ==> canary !in o.canaries)
    && (forall o :: o in options && o.primary != primary && o.primary == canary ==> o.canaries == [])
  }

  /** The weight found for a canary, that of the first option with its name. */
  function WeightOf(options: seq<Options>, primary: string, canary: string): int {
    var option := Lookup(options, PrimaryOf, canary);
    if canary != primary && option.Some? then option.value.policy.weight else 0
  }

  /** The canaries with a weight, in the order given. */
  function WithWeight(options: seq<Options>, primary: string, canaries: seq<string>): (heavy: seq<string>)
    ensures |heavy| <= |canaries|
  {
    if canaries == [] then []
    else
      var rest, last := canaries[..|canaries| - 1], canaries[|canaries| - 1];
      WithWeight(options, primary, rest) + if WeightOf(options, primary, last) > 0 then [last] else []
  }

  /** The first n canaries are allowed. */
  predicate FirstAllowed(options: seq<Options>, primary: string, canaries: seq<string>, n: nat)
    requires n <= |canaries|
  {
    n == 0 || (FirstAllowed(options, primary, canaries, n - 1) && CanaryAllowed(options, primary, canaries[n - 1]))
  }

  lemma FirstAllowedMore(options: seq<Options>, primary: string, canaries: seq<string>, n: nat)
    requires n < |canaries|
    requires FirstAllowed(options, primary, canaries, n) && CanaryAllowed(options, primary, canaries[n])
    ensures FirstAllowed(options, primary, canaries, n + 1)
  {
  }

  lemma {:induction false} FirstAllowedAt(options: seq<Options>, primary: string, canaries: seq<string>, n: nat, k: nat)
    requires k < n <= |canaries| && FirstAllowed(options, primary, canaries, n)
    ensures CanaryAllowed(options, primary, canaries[k])
  {
    if k < n - 1 {
      FirstAllowedAt(options, primary, canaries, n - 1, k);
    }
  }

  lemma AllAllowed(options: seq<Options>, primary: string, canaries: seq<string>)
    requires FirstAllowed(options, primary, canaries, |canaries|)
    ensures forall c :: c in canaries ==> CanaryAllowed(options, primary, c)
  {
    forall c | c in canaries
      ensures CanaryAllowed(options, primary, c)
    {
      var k :| 0 <= k < |canaries| && canaries[k] == c;
      FirstAllowedAt(options, primary, canaries, |canaries|, k);
    }
  }

  predicate ShapingAllowed(args: Options) {
    && (args.canaries != [] ==> !HasShaping(args.policy))
    && (!Blank(args.policy.header) ==> !Blank(args.policy.headerValue) || !Blank(args.policy.headerPattern))
    && (Blank(args.policy.headerValue) || Blank(args.policy.headerPattern))
  }

  predicate BalanceAllowed(args: Options) {
    && args.loadBalance in {"", ROUND_ROBIN, CONSISTENT_HASH, EWMA}
    && (args.loadBalance == CONSISTENT_HASH <==> !Blank(args.hashKey))
  }

  /** The upstream that has `bind` as a canary. */
  function ParentOf(options: seq<Options>, bind: string): string {
    if options == [] then ""
    else if bind in options[0].canaries && options[0].primary != "" then options[0].primary
    else ParentOf(options[1..], bind)
  }

  predicate Weighted(options: seq<Options>, bind: string) {
    exists o :: o in options && o.primary == bind && o.policy.weight > 0
  }

  /** Another canary under the same upstream already has a weight. */
  predicate WeightTaken(options: seq<Options>, bind: string, updating: bool) {
    var parent := Lookup(options, PrimaryOf, ParentOf(options, bind));
    && ParentOf(options, bind) != ""
    && parent.Some?
    && exists c :: c in parent.value.canaries && !(updating && c == bind) && Weighted(options, c)
  }

  predicate Accepted(binds: seq<Bind>, options: seq<Options>, args: Options) {
    && args.primary != "" && |args.canaries| <= 1
    && (exists b :: b in binds && b.name == args.primary)
    && !(Referenced(options, args.primary) && args.canaries != [])
    && (forall c :: c in args.canaries ==> CanaryAllowed(options, args.primary, c))
    && ShapingAllowed(args)
    && !(args.policy.weight > 0 && Referenced(options, args.primary) &&
         WeightTaken(options, args.primary, Lookup(options, PrimaryOf, args.primary).Some?))
    && BalanceAllowed(args)
  }

  // ---------- What is stored ----------

  function DefaultTotal(p: Policy): Policy {
    if p.weight > 0 && p.weightTotal == 0 then
      p.(weightTotal := if p.weight <= 100 then 100 else p.weight * 10)
    else p
  }

  function ClearOther(p: Policy): Policy {
    if !Blank(p.headerValue) then p.(headerPattern := "")
    else if !Blank(p.headerPattern) then p.(headerValue := "")
    else p
  }

  function Normalised(args: Options, updating: bool): Options {
    args.(policy := DefaultTotal(if updating then ClearOther(args.policy) else args.policy),
          loadBalance := if args.loadBalance == "" then ROUND_ROBIN else args.loadBalance)
  }

  function Stored(options: seq<Options>, args: Options): seq<Options> {
    Put(options, PrimaryOf, Normalised(args, Lookup(options, PrimaryOf, args.primary).Some?))
  }

  function Without(names: seq<string>, name: string): seq<string> {
    if names == [] then []
    else
      var n := |names| - 1;
      if names[n] != name then Without(names[..n], name) + [names[n]] else Without(names[..n], name)
  }

  /** The options without that of `primary` and without any mention of it as a canary. */
  function Dropped(options: seq<Options>, primary: string): seq<Options> {
    if options == [] then []
    else
      var n := |options| - 1;
      if options[n].primary != primary then
        Dropped(options[..n], primary) + [options[n].(canaries := Without(options[n].canaries, primary))]
      else Dropped(options[..n], primary)
  }

  // ---------- The code ----------

  class UpstreamManager {
    var binds: seq<Bind>
    var options: seq<Options>

    method EnsureUpstreamOptions(given: Options) returns (err: Option<Error>)
      modifies this
      ensures binds == old(binds)
      ensures err == if Accepted(binds, old(options), given) then None else Some(Validation)
      ensures options == if Accepted(binds, old(options), given) then Stored(old(options), given) else old(options)
    {
      var args := given;
      if args.primary == "" || |args.canaries| > 1 {
        return Some(Validation);
      }
      var bindExists := false;
      for i := 0 to |binds|
        invariant bindExists <==> exists k :: 0 <= k < i && binds[k].name == args.primary
      {
        if binds[i].name == args.primary {
          bindExists := true;
          break;
        }
      }
      if !bindExists {
        return Some(Validation);
      }
      assert exists b :: b in binds && b.name == args.primary;
      var index, exists_ := FindOption(args.primary);
      var referenced := IsReferencedAsCanary(args.primary);
      if referenced && |args.canaries| > 0 {
        return Some(Validation);
      }
      err := ValidateCanaryBinds(args);
      if err.Some? {
        return;
      }
      err := ValidateTrafficShapingOptions(args);
      if err.Some? {
        return;
      }
      if args.policy.weight > 0 && referenced {
        err := ValidateCanaryWeightRule(args.primary, args.policy.weight, exists_);
        if err.Some? {
          return;
        }
      }
      err := ValidateLoadBalanceOptions(args);
      if err.Some? {
        return;
      }
      if exists_ {
        if !Blank(args.policy.headerValue) {
          args := args.(policy := args.policy.(headerPattern := ""));
        } else if !Blank(args.policy.headerPattern) {
          args := args.(policy := args.policy.(headerValue := ""));
        }
      }
      args := ApplyDefaults(args);
      if exists_ {
        options := options[index := args];
      } else {
        options := options + [args];
      }
    }

    method DeleteUpstreamOptions(primary: string) returns (err: Option<Error>)
      modifies this
      ensures binds == old(binds)
      ensures primary == "" ==> err == Some(Validation)
      ensures primary != "" ==>
        err == if Lookup(old(options), PrimaryOf, primary).Some? then None else Some(NotFound)
      ensures options == if err.None? then Dropped(old(options), primary) else old(options)
    {
      if primary == "" {
        return Some(Validation);
      }
      var found, kept := false, [];
      for i := 0 to |options|
        invariant found <==> exists k :: 0 <= k < i && PrimaryOf(options[k]) == primary
        invariant kept == Dropped(options[..i], primary)
      {
        assert options[..i + 1][..i] == options[..i];
        if options[i].primary == primary {
          found := true;
          continue;
        }
        var canaries, updated := options[i].canaries, [];
        for j := 0 to |canaries|
          invariant updated == Without(canaries[..j], primary)
        {
          assert canaries[..j + 1][..j] == canaries[..j];
          if canaries[j] != primary {
            updated := updated + [canaries[j]];
          }
        }
        assert canaries[..|canaries|] == canaries;
        kept := kept + [options[i].(canaries := updated)];
      }
      assert options[..|options|] == options;
      if !found {
        return Some(NotFound);
      }
      options := kept;
      err := None;
    }

    method FindOption(primary: string) returns (index: nat, found: bool)
      ensures Find(options, PrimaryOf, primary) == if found then Some(index) else None
    {
      index := 0;
      while index < |options|
        invariant index <= |options|
        invariant forall k :: 0 <= k < index ==> PrimaryOf(options[k]) != primary
      {
        if options[index].primary == primary {
          return index, true;
        }
        index := index + 1;
      }
      index, found := 0, false;
    }

    method IsReferencedAsCanary(bind: string) returns (referenced: bool)
      ensures referenced == Referenced(options, bind)
    {
      for i := 0 to |options|
        invariant forall k :: 0 <= k < i ==> options[k].primary == bind || bind !in options[k].canaries
      {
        if options[i].primary == bind {
          continue;
        }
        for j := 0 to |options[i].canaries|
          invariant bind !in options[i].canaries[..j]
        {
          if options[i].canaries[j] == bind {
            assert options[i] in options;
            return true;
          }
        }
        assert options[i].canaries[..|options[i].canaries|] == options[i].canaries;
      }
      referenced := false;
    }

    /** At most one canary is given by the time this is called, so the last check never fails there. */
    method ValidateCanaryBinds(args: Options) returns (err: Option<Error>)
      ensures err == if (forall c :: c in args.canaries ==> CanaryAllowed(options, args.primary, c)) &&
                        |WithWeight(options, args.primary, args.canaries)| <= 1
                     then None else Some(Validation)
    {
      var allowed, weighted := CheckCanaries(args.primary, args.canaries);
      err := if allowed && |weighted| <= 1 then None else Some(Validation);
    }

    /** Stops at the first canary that is not allowed. */
    method CheckCanaries(primary: string, canaries: seq<string>) returns (allowed: bool, weighted: seq<string>)
      ensures allowed <==> forall c :: c in canaries ==> CanaryAllowed(options, primary, c)
      ensures allowed ==> weighted == WithWeight(options, primary, canaries)
    {
      weighted := [];
      for n := 0 to |canaries|
        invariant weighted == WithWeight(options, primary, canaries[..n])
        invariant FirstAllowed(options, primary, canaries, n)
      {
        assert canaries[..n + 1][..n] == canaries[..n];
        var weight;
        allowed, weight := CheckCanary(primary, canaries[n]);
        if !allowed {
          assert canaries[n] in canaries;
          return;
        }
        if weight > 0 {
          weighted := weighted + [canaries[n]];
        }
        FirstAllowedMore(options, primary, canaries, n);
      }
      assert canaries[..|canaries|] == canaries;
      AllAllowed(options, primary, canaries);
      allowed := true;
    }

    method CheckCanary(primary: string, canary: string) returns (allowed: bool, weight: int)
      ensures allowed <==> CanaryAllowed(options, primary, canary)
      ensures weight == WeightOf(options, primary, canary)
    {
      var exists_;
      exists_, weight := CanaryExists(primary, canary);
      if !exists_ {
        return false, weight;
      }
      allowed := CanaryIsFree(primary, canary);
    }

    method CanaryExists(primary: string, canary: string) returns (found: bool, weight: int)
      ensures found <==> exists o :: o in options && o.primary != primary && o.primary == canary
      ensures weight == WeightOf(options, primary, canary)
    {
      for i := 0 to |options|
        invariant forall k :: 0 <= k < i ==> options[k].primary == primary || options[k].primary != canary
      {
        if options[i].primary != primary && options[i].primary == canary {
          assert options[i] in options;
          assert PrimaryOf(options[i]) == canary;
          return true, options[i].policy.weight;
        }
      }
      found, weight := false, 0;
    }

    /** Nobody else's canary, and without canaries of its own. */
    method CanaryIsFree(primary: string, canary: string) returns (free: bool)
      ensures free <==> forall o :: o in options && o.primary != primary ==>
        canary !in o.canaries && (o.primary == canary ==> o.canaries == [])
    {
      for i := 0 to |options|
        invariant forall k :: 0 <= k < i && options[k].primary != primary ==> canary !in options[k].canaries
      {
        if options[i].primary != primary && canary in options[i].canaries {
          assert options[i] in options;
          return false;
        }
      }
      for i := 0 to |options|
        invariant forall k :: 0 <= k < i && options[k].primary != primary && options[k].primary == canary ==>
          options[k].canaries == []
      {
        if options[i].primary != primary && options[i].primary == canary && |options[i].canaries| > 0 {
          assert options[i] in options;
          return false;
        }
      }
      free := true;
    }

    method ValidateTrafficShapingOptions(args: Options) returns (err: Option<Error>)
      ensures err == if ShapingAllowed(args) then None else Some(Validation)
    {
      if |args.canaries| > 0 && HasShaping(args.policy) {
        return Some(Validation);
      }
      if !Blank(args.policy.header) {
        if Blank(args.policy.headerValue) && Blank(args.policy.headerPattern) {
          return Some(Validation);
        }
      }
      if !Blank(args.policy.headerValue) && !Blank(args.policy.headerPattern) {
        return Some(Validation);
      }
      err := None;
    }

    method ValidateCanaryWeightRule(bind: string, weight: int, updating: bool) returns (err: Option<Error>)
      ensures err == if weight > 0 && WeightTaken(options, bind, updating) then Some(Validation) else None
    {
      var parent := "";
      for i := 0 to |options|
        invariant parent == ""
        invariant ParentOf(options, bind) == ParentOf(options[i..], bind)
      {
        if bind in options[i].canaries {
          parent := options[i].primary;
        }
        if parent != "" {
          break;
        }
      }
      if parent == "" {
        return None;
      }
      assert parent == ParentOf(options, bind);
      var index, found := FindOption(parent);
      var group := if found then options[index].canaries else [];
      var count := 0;
      for n := 0 to |group|
        invariant count >= 0
        invariant count >= 1 <==>
          exists k :: 0 <= k < n && !(updating && group[k] == bind) && Weighted(options, group[k])
      {
        if updating && group[n] == bind {
          continue;
        }
        var weighted := IsWeighted(group[n]);
        if weighted {
          count := count + 1;
        }
      }
      assert count >= 1 <==> exists c :: c in group && !(updating && c == bind) && Weighted(options, c);
      if weight > 0 && count >= 1 {
        return Some(Validation);
      }
      err := None;
    }

    method IsWeighted(bind: string) returns (weighted: bool)
      ensures weighted == Weighted(options, bind)
    {
      for i := 0 to |options|
        invariant forall k :: 0 <= k < i ==> options[k].primary != bind || options[k].policy.weight <= 0
      {
        if options[i].primary == bind && options[i].policy.weight > 0 {
          assert options[i] in options;
          return true;
        }
      }
      weighted := false;
    }

    method ValidateLoadBalanceOptions(args: Options) returns (err: Option<Error>)
      ensures err == if BalanceAllowed(args) then None else Some(Validation)
    {
      if args.loadBalance != "" {
        if args.loadBalance !in {ROUND_ROBIN, CONSISTENT_HASH, EWMA} {
          return Some(Validation);
        }
      }
      if args.loadBalance == CONSISTENT_HASH && Blank(args.hashKey) {
        return Some(Validation);
      }
      if args.loadBalance != CONSISTENT_HASH && !Blank(args.hashKey) {
        return Some(Validation);
      }
      err := None;
    }

    method ApplyDefaults(args: Options) returns (r: Options)
      ensures r == Normalised(args, false)
    {
      r := args;
      if r.loadBalance == "" {
        r := r.(loadBalance := ROUND_ROBIN);
      }
      if r.policy.weight > 0 && r.policy.weightTotal == 0 {
        if r.policy.weight <= 100 {
          r := r.(policy := r.policy.(weightTotal := 100));
        } else {
          r := r.(policy := r.policy.(weightTotal := r.policy.weight * 10));
        }
      }
    }
  }
}
