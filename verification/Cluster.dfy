/**
  The API server as the validation protocol sees it: one instance, its validation resource, the pod
  and the ConfigMap the controller makes for it, and every step any actor can take.
 */
module Cluster {
  import opened Ordering
  import opened InstanceSpec

  type Labels = map<string, string>

  /** SHA-256 over spec and certificate annotations, taken as injective. */
  datatype Hash = Hash(spec: Spec, certificates: Labels)

  datatype Status = Status(revisionHash: Option<Hash>, observedGeneration: nat, valid: Option<bool>, error: string)

  /** A validation resource at one version. Its generation counts changes of spec. */
  datatype Resource = Resource(spec: Spec, labels: Labels, generation: nat, version: nat, status: Status)

  datatype Instance = Instance(spec: Spec, labels: Labels)

  datatype Phase = Pending | Running | Succeeded | Failed | Unknown

  datatype Terminated = Terminated(exitCode: int, message: string)

  /** A rendered nginx configuration and the spec it was rendered from. */
  datatype Config = Config(spec: Spec, text: string)

  /** `mounted` is the configuration the pod's container started with. */
  datatype Pod = Pod(
    uid: nat, hash: Hash, shape: string, phase: Phase, containers: seq<Option<Terminated>>, mounted: Option<Config>)

  /** `seen` and `podsSeen` hold every version that ever existed: what a cache may still show. */
  datatype World = World(
    instance: Option<Instance>,
    validation: Option<Resource>, seen: set<Resource>, lastVersion: nat,
    pod: Option<Pod>, podsSeen: set<Pod>, lastUid: nat,
    config: Option<Config>)

  const NO_STATUS := Status(None, 0, None, "")

  datatype Step =
    | SetInstance(instance: Instance)                                        // any other API call
    | Submit(spec: Spec, labels: Labels, read: Option<nat>)                  // create, or update of the version read
    | DropValidation
    | WriteConfig(config: Config)                                            // controller
    | CreatePod(hash: Hash, shape: string)                                   // controller
    | DeletePod                                                              // controller
    | WriteStatus(version: nat, status: Status)                              // controller
    | StartPod                                                               // kubelet
    | ReportPod(phase: Phase, containers: seq<Option<Terminated>>)           // kubelet

  predicate Settled(r: Resource) {
    r.status.observedGeneration == r.generation && r.status.valid.Some?
  }

  /** What a pod's end says, if it says anything. */
  function Verdict(p: Pod): Option<bool> {
    if p.containers == [] || p.containers[0].None? then None
    else if p.phase == Succeeded && p.containers[0].value.exitCode == 0 then Some(true)
    else if p.phase == Failed && p.containers[0].value.exitCode != 0 then Some(false)
    else None
  }

  function Message(p: Pod): string
    requires Verdict(p).Some?
  {
    if Verdict(p) == Some(true) then "" else p.containers[0].value.message
  }

  /** The first container has terminated. */
  predicate Terminates(p: Pod) {
    p.containers != [] && p.containers[0].Some?
  }

  /** Phase and exit code of a pod that ended: well, with nothing to tell, or badly, with its termination message. */
  predicate EndedAs(p: Pod, valid: bool, message: string) {
    && Terminates(p)
    && if valid then p.phase == Succeeded && p.containers[0].value.exitCode == 0 && message == ""
       else p.phase == Failed && p.containers[0].value.exitCode != 0 && message == p.containers[0].value.message
  }

  /** A verdict is what phase and exit code say, and there is none otherwise. */
  lemma VerdictIsPhaseAndCode(p: Pod)
    ensures forall valid :: Verdict(p) == Some(valid) <==> exists message :: EndedAs(p, valid, message)
    ensures forall message :: EndedAs(p, true, message) || EndedAs(p, false, message) ==> Message(p) == message
  {
    forall valid
      ensures Verdict(p) == Some(valid) <==> exists message :: EndedAs(p, valid, message)
    {
      if Verdict(p) == Some(valid) {
        assert EndedAs(p, valid, Message(p));
      }
    }
  }

  function Store(w: World, r: Resource): World {
    w.(validation := Some(r), seen := w.seen + {r}, lastVersion := r.version)
  }

  function StorePod(w: World, p: Pod): World {
    w.(pod := Some(p), podsSeen := w.podsSeen + {p})
  }

  /** Creation ignores any status sent along. */
  function Created(w: World, spec: Spec, labels: Labels): World {
    Store(w, Resource(spec, labels, 1, w.lastVersion + 1, NO_STATUS))
  }

  /** An update of the main resource leaves the status alone and starts a generation if the spec differs. */
  function Updated(w: World, r: Resource, spec: Spec, labels: Labels): World {
    if r.spec == spec && r.labels == labels then w
    else
      var generation := if r.spec == spec then r.generation else r.generation + 1;
      Store(w, Resource(spec, labels, generation, w.lastVersion + 1, r.status))
  }

  /** The server looks at the version a status write carries, and at nothing else. */
  function WithStatus(w: World, version: nat, status: Status): World {
    if w.validation.Some? && w.validation.value.version == version then
      Store(w, w.validation.value.(version := w.lastVersion + 1, status := status))
    else w
  }

  /** One step; a request the API server refuses, or a step nobody can take, changes nothing. */
  function Apply(w: World, step: Step): World {
    match step
    case SetInstance(i) => w.(instance := Some(i))
    case Submit(spec, labels, None) =>
      if w.validation.None? then Created(w, spec, labels) else w
    case Submit(spec, labels, Some(version)) =>
      if w.validation.Some? && w.validation.value.version == version
      then Updated(w, w.validation.value, spec, labels) else w
    case DropValidation => w.(validation := None)
    case WriteConfig(config) => w.(config := Some(config))
    case CreatePod(hash, shape) =>
      if w.pod.None? then
        StorePod(w, Pod(w.lastUid + 1, hash, shape, Pending, [], None)).(lastUid := w.lastUid + 1)
      else w
    case DeletePod => w.(pod := None)
    case WriteStatus(version, status) => WithStatus(w, version, status)
    case StartPod =>
      if w.pod.Some? && w.pod.value.mounted.None? && w.config.Some?
      then StorePod(w, w.pod.value.(phase := Running, mounted := w.config)) else w
    case ReportPod(phase, containers) =>
      if w.pod.Some? && (w.pod.value.mounted.Some? || forall c :: c in containers ==> c.None?)
      then StorePod(w, w.pod.value.(phase := phase, containers := containers)) else w
  }

  function Run(w: World, steps: seq<Step>): World
    decreases |steps|
  {
    if steps == [] then w else Run(Apply(w, steps[0]), steps[1..])
  }

  lemma {:induction false} RunAppend(w: World, a: seq<Step>, b: seq<Step>)
    ensures Run(w, a + b) == Run(Run(w, a), b)
    decreases |a|
  {
    if a == [] {
      assert a + b == b;
    } else {
      assert (a + b)[1..] == a[1..] + b;
      RunAppend(Apply(w, a[0]), a[1..], b);
    }
  }

  lemma RunOne(w: World, a: seq<Step>, s: Step)
    ensures Run(w, a + [s]) == Apply(Run(w, a), s)
  {
    RunAppend(w, a, [s]);
    assert [s][1..] == [];
    assert Run(Apply(Run(w, a), s), []) == Apply(Run(w, a), s);
    assert Run(Run(w, a), [s]) == Run(Apply(Run(w, a), [s][0]), [s][1..]);
  }

  const EMPTY_WORLD := World(None, None, {}, 0, None, {}, 0, None)

  /** Nothing that ever existed is forgotten. */
  lemma {:induction false} RunRemembers(w: World, steps: seq<Step>)
    ensures w.seen <= Run(w, steps).seen && w.podsSeen <= Run(w, steps).podsSeen
    decreases |steps|
  {
    if steps != [] {
      RunRemembers(Apply(w, steps[0]), steps[1..]);
    }
  }

  // ---------- What the controller owes the server ----------

  /** The status the controller writes for a version it read and a pod it read. */
  function StatusFor(read: Resource, p: Pod): Status
    requires Verdict(p).Some?
  {
    Status(Some(p.hash), read.generation, Verdict(p), Message(p))
  }

  /** An unsettled version that existed, and an ended pod that existed and was made for the version's spec. */
  predicate Judges(read: Resource, p: Pod, version: nat, status: Status) {
    && !Settled(read) && read.version == version
    && p.hash.spec == read.spec && Verdict(p).Some? && status == StatusFor(read, p)
  }

  /** A status write is backed by two reads, however old, that bear it out. Other requests owe nothing. */
  ghost predicate Backed(seen: set<Resource>, podsSeen: set<Pod>, step: Step) {
    step.WriteStatus? ==>
      exists read, p :: read in seen && p in podsSeen && Judges(read, p, step.version, step.status)
  }

  /** Every status write is backed where it is made. */
  ghost predicate Honest(w: World, steps: seq<Step>)
    decreases |steps|
  {
    steps == [] || (Backed(w.seen, w.podsSeen, steps[0]) && Honest(Apply(w, steps[0]), steps[1..]))
  }

  lemma {:induction false} HonestAppend(w: World, a: seq<Step>, b: seq<Step>)
    ensures Honest(w, a + b) <==> Honest(w, a) && Honest(Run(w, a), b)
    decreases |a|
  {
    if a == [] {
      assert a + b == b;
    } else {
      assert (a + b)[1..] == a[1..] + b;
      HonestAppend(Apply(w, a[0]), a[1..], b);
    }
  }

  lemma HonestOne(w: World, a: seq<Step>, s: Step)
    ensures Honest(w, a + [s]) <==> Honest(w, a) && Backed(Run(w, a).seen, Run(w, a).podsSeen, s)
  {
    HonestAppend(w, a, [s]);
    assert [s][1..] == [];
    assert Honest(Apply(Run(w, a), s), []);
  }

  // ---------- The invariant ----------

  /** Some pod made for the spec ended with this verdict and message. */
  ghost predicate Witnessed(w: World, spec: Spec, valid: bool, message: string) {
    exists p :: p in w.podsSeen && p.hash.spec == spec && EndedAs(p, valid, message)
  }

  /** A version names one content, and its observed generation is never ahead of its generation. */
  ghost predicate Versioned(w: World) {
    && (w.validation.Some? ==> w.validation.value in w.seen)
    && (forall r :: r in w.seen ==> r.version <= w.lastVersion && r.status.observedGeneration <= r.generation)
    && (forall r, s :: r in w.seen && s in w.seen && r.version == s.version ==> r == s)
  }

  /** The hash recorded with the status is of this spec. */
  predicate HashIsOf(status: Status, spec: Spec) {
    status.revisionHash.Some? && status.revisionHash.value.spec == spec
  }

  /**
    Besides, a settled verdict, in any version there ever was, is that of a pod made for that version's spec,
    and the hash beside it is of that spec.
   */
  ghost predicate Consistent(w: World) {
    && Versioned(w)
    && (w.pod.Some? ==> w.pod.value in w.podsSeen)
    && (forall r :: r in w.seen && Settled(r) ==> Witnessed(w, r.spec, r.status.valid.value, r.status.error))
    && (forall r :: r in w.seen && Settled(r) ==> HashIsOf(r.status, r.spec))
  }

  lemma WitnessesStay(w: World, v: World)
    requires w.podsSeen <= v.podsSeen
    ensures forall spec, valid, message :: Witnessed(w, spec, valid, message) ==> Witnessed(v, spec, valid, message)
  {
    forall spec, valid, message | Witnessed(w, spec, valid, message)
      ensures Witnessed(v, spec, valid, message)
    {
      var p :| p in w.podsSeen && p.hash.spec == spec && EndedAs(p, valid, message);
      assert p in v.podsSeen;
    }
  }

  lemma StoreKeepsConsistent(w: World, r: Resource)
    requires Consistent(w) && r.version == w.lastVersion + 1
    requires r.status.observedGeneration <= r.generation
    requires Settled(r) ==> Witnessed(w, r.spec, r.status.valid.value, r.status.error) && HashIsOf(r.status, r.spec)
    ensures Consistent(Store(w, r))
  {
    WitnessesStay(w, Store(w, r));
  }

  lemma StorePodKeepsConsistent(w: World, p: Pod)
    requires Consistent(w)
    ensures Consistent(StorePod(w, p))
  {
    WitnessesStay(w, StorePod(w, p));
  }

  /** A backed write from stale reads either meets the very version that was read, or is refused. */
  lemma StatusKeepsConsistent(w: World, version: nat, status: Status)
    requires Consistent(w) && Backed(w.seen, w.podsSeen, WriteStatus(version, status))
    ensures Consistent(WithStatus(w, version, status))
  {
    if w.validation.Some? && w.validation.value.version == version {
      var read, p :| read in w.seen && p in w.podsSeen && Judges(read, p, version, status);
      assert w.validation.value == read;
      var r := read.(version := w.lastVersion + 1, status := status);
      VerdictIsPhaseAndCode(p);
      assert EndedAs(p, status.valid.value, status.error);
      assert Witnessed(w, r.spec, status.valid.value, status.error);
      StoreKeepsConsistent(w, r);
    }
  }

  lemma StepKeepsConsistent(w: World, step: Step)
    requires Consistent(w) && Backed(w.seen, w.podsSeen, step)
    ensures Consistent(Apply(w, step))
  {
    var v := Apply(w, step);
    match step
    case Submit(spec, labels, None) =>
      if w.validation.None? {
        StoreKeepsConsistent(w, Resource(spec, labels, 1, w.lastVersion + 1, NO_STATUS));
      }
    case Submit(spec, labels, Some(version)) =>
      if w.validation.Some? && v != w {
        StoreKeepsConsistent(w, v.validation.value);
      }
    case CreatePod(hash, shape) =>
      if v != w {
        StorePodKeepsConsistent(w, v.pod.value);
        WitnessesStay(w, v);
      }
    case WriteStatus(version, status) =>
      StatusKeepsConsistent(w, version, status);
    case StartPod =>
      if v != w {
        StorePodKeepsConsistent(w, v.pod.value);
      }
    case ReportPod(_, _) =>
      if v != w {
        StorePodKeepsConsistent(w, v.pod.value);
      }
    case _ =>
      WitnessesStay(w, v);
  }

  /** Every interleaving of every actor's steps, status writes being backed, keeps the invariant. */
  lemma {:induction false} RunKeepsConsistent(w: World, steps: seq<Step>)
    requires Consistent(w) && Honest(w, steps)
    ensures Consistent(Run(w, steps))
    decreases |steps|
  {
    if steps != [] {
      StepKeepsConsistent(w, steps[0]);
      RunKeepsConsistent(Apply(w, steps[0]), steps[1..]);
    }
  }

  /** The server alone does not keep it: one status write that is not backed is enough to break it. */
  lemma UnbackedWriteBreaksConsistent(w: World)
    requires Consistent(w) && w.validation.Some?
    requires forall p :: p in w.podsSeen ==> p.hash.spec != w.validation.value.spec
    ensures var r := w.validation.value;
            !Consistent(Apply(w, WriteStatus(r.version, Status(None, r.generation, Some(true), ""))))
  {
    var r := w.validation.value;
    var v := Apply(w, WriteStatus(r.version, Status(None, r.generation, Some(true), "")));
    assert v.validation.value in v.seen && Settled(v.validation.value);
    assert !Witnessed(v, r.spec, true, "");
  }

  // ---------- Which spec is held ----------

  function HeldSpec(w: World): Option<Spec> {
    if w.validation.Some? then Some(w.validation.value.spec) else None
  }

  /** The server takes a creation if there is nothing, an update if the version read is still the current one. */
  predicate Admitted(w: World, read: Option<nat>) {
    read == if w.validation.None? then None else Some(w.validation.value.version)
  }

  /** The spec of the last submission the server took, nothing if the resource was dropped since, else `held`. */
  function LastTaken(held: Option<Spec>, w: World, steps: seq<Step>): Option<Spec>
    decreases |steps|
  {
    if steps == [] then held
    else
      var next := match steps[0]
        case Submit(spec, _, read) => if Admitted(w, read) then Some(spec) else held
        case DropValidation => None
        case _ => held;
      LastTaken(next, Apply(w, steps[0]), steps[1..])
  }

  lemma {:induction false} LastTakenIsHeld(w: World, steps: seq<Step>)
    ensures LastTaken(HeldSpec(w), w, steps) == HeldSpec(Run(w, steps))
    decreases |steps|
  {
    if steps != [] {
      LastTakenIsHeld(Apply(w, steps[0]), steps[1..]);
    }
  }

  // ---------- A verdict is final ----------

  /** The resource holds this generation, settled with this status. */
  predicate Holds(w: World, generation: nat, status: Status) {
    && w.validation.Some? && w.validation.value.generation == generation
    && Settled(w.validation.value) && w.validation.value.status == status
  }

  /** It holds that, or has moved on to a later generation. */
  predicate HoldsOrMovedOn(w: World, generation: nat, status: Status) {
    Holds(w, generation, status) || (w.validation.Some? && w.validation.value.generation > generation)
  }

  lemma StepKeepsVerdict(w: World, step: Step, generation: nat, status: Status)
    requires Versioned(w) && Backed(w.seen, w.podsSeen, step) && step != DropValidation
    requires HoldsOrMovedOn(w, generation, status)
    ensures HoldsOrMovedOn(Apply(w, step), generation, status)
  {
    if step.WriteStatus? && w.validation.value.version == step.version {
      var read, p :| read in w.seen && p in w.podsSeen && Judges(read, p, step.version, step.status);
      assert read == w.validation.value;
    }
  }

  /** Once settled, a generation keeps its verdict: no later write, stale or not, replaces it. */
  lemma {:induction false} VerdictIsFinal(w: World, steps: seq<Step>, generation: nat, status: Status)
    requires Consistent(w) && Honest(w, steps) && DropValidation !in steps
    requires HoldsOrMovedOn(w, generation, status)
    ensures HoldsOrMovedOn(Run(w, steps), generation, status)
    decreases |steps|
  {
    if steps != [] {
      StepKeepsConsistent(w, steps[0]);
      StepKeepsVerdict(w, steps[0], generation, status);
      VerdictIsFinal(Apply(w, steps[0]), steps[1..], generation, status);
    }
  }

  // ---------- What the pod actually tested ----------

  /** Every pod that ever started mounted the configuration of the spec it was made for. */
  ghost predicate TestedOwnConfig(w: World) {
    forall p :: p in w.podsSeen && p.mounted.Some? ==> p.mounted.value.spec == p.hash.spec
  }

  /** A pod starts: the ConfigMap there is gets mounted. */
  predicate Starts(w: World, step: Step) {
    step.StartPod? && w.pod.Some? && w.pod.value.mounted.None? && w.config.Some?
  }

  /** Wherever a pod starts, the ConfigMap in place is of its spec. */
  ghost predicate StartsOnOwnConfig(w: World, steps: seq<Step>)
    decreases |steps|
  {
    steps == [] ||
    ((Starts(w, steps[0]) ==> w.config.value.spec == w.pod.value.hash.spec) &&
     StartsOnOwnConfig(Apply(w, steps[0]), steps[1..]))
  }

  lemma StepTestsOwnConfigIff(w: World, step: Step)
    requires TestedOwnConfig(w) && (w.pod.Some? ==> w.pod.value in w.podsSeen)
    ensures TestedOwnConfig(Apply(w, step)) <==>
            (Starts(w, step) ==> w.config.value.spec == w.pod.value.hash.spec)
    ensures Apply(w, step).pod.Some? ==> Apply(w, step).pod.value in Apply(w, step).podsSeen
  {
    if Starts(w, step) {
      var v := Apply(w, step);
      assert v.pod.value in v.podsSeen;
    }
  }

  /**
    Every pod that started in a run mounted its own spec's configuration exactly when the ConfigMap in
    place at each start was of the starting pod's spec.
   */
  lemma {:induction false} TestedOwnConfigIff(w: World, steps: seq<Step>)
    requires TestedOwnConfig(w) && (w.pod.Some? ==> w.pod.value in w.podsSeen)
    ensures TestedOwnConfig(Run(w, steps)) <==> StartsOnOwnConfig(w, steps)
    decreases |steps|
  {
    if steps != [] {
      var v := Apply(w, steps[0]);
      StepTestsOwnConfigIff(w, steps[0]);
      if TestedOwnConfig(v) {
        TestedOwnConfigIff(v, steps[1..]);
      } else {
        RunRemembers(v, steps[1..]);
      }
    }
  }

  /** No container of a pod that has not started has terminated. */
  ghost predicate UnstartedIsSilent(w: World) {
    && (w.pod.Some? ==> w.pod.value in w.podsSeen)
    && forall p :: p in w.podsSeen && p.mounted.None? ==> !Terminates(p)
  }

  lemma {:induction false} RunLeavesUnstartedSilent(w: World, steps: seq<Step>)
    requires UnstartedIsSilent(w)
    ensures UnstartedIsSilent(Run(w, steps))
    decreases |steps|
  {
    if steps != [] {
      StepLeavesUnstartedSilent(w, steps[0]);
      RunLeavesUnstartedSilent(Apply(w, steps[0]), steps[1..]);
    }
  }

  lemma StepLeavesUnstartedSilent(w: World, step: Step)
    requires UnstartedIsSilent(w)
    ensures UnstartedIsSilent(Apply(w, step))
  {
    if step.ReportPod? && step.containers != [] {
      assert step.containers[0] in step.containers;
    }
  }

  /** Some pod ended with this verdict after nginx read this spec's own configuration. */
  ghost predicate Tested(w: World, spec: Spec, valid: bool) {
    exists p, message :: p in w.podsSeen && p.hash.spec == spec && EndedAs(p, valid, message) &&
                         p.mounted.Some? && p.mounted.value.spec == spec
  }

  /** Where pods start on their own configuration, a settled verdict, in any version there ever was, was tested. */
  lemma SettledVerdictWasTested(steps: seq<Step>, r: Resource)
    requires Honest(EMPTY_WORLD, steps) && StartsOnOwnConfig(EMPTY_WORLD, steps)
    requires r in Run(EMPTY_WORLD, steps).seen && Settled(r)
    ensures Tested(Run(EMPTY_WORLD, steps), r.spec, r.status.valid.value)
  {
    RunKeepsConsistent(EMPTY_WORLD, steps);
    TestedOwnConfigIff(EMPTY_WORLD, steps);
    RunLeavesUnstartedSilent(EMPTY_WORLD, steps);
    var w := Run(EMPTY_WORLD, steps);
    assert Witnessed(w, r.spec, r.status.valid.value, r.status.error);
    var p :| p in w.podsSeen && p.hash.spec == r.spec && EndedAs(p, r.status.valid.value, r.status.error);
    assert p.mounted.Some? && p.mounted.value.spec == r.spec;
  }

  // ---------- A run in which they do not ----------

  function Disturbance(a: Spec, b: Spec): seq<Step> {
    var none: Labels := map[];
    var ended := Pod(1, Hash(a, none), "nginx", Succeeded, [Some(Terminated(0, ""))], Some(Config(b, "b")));
    [Submit(a, none, None), WriteConfig(Config(a, "a")), CreatePod(Hash(a, none), "nginx"),
     Submit(b, none, Some(1)), WriteConfig(Config(b, "b")), StartPod,
     Submit(a, none, Some(2)), WriteConfig(Config(a, "a")), ReportPod(Succeeded, [Some(Terminated(0, ""))]),
     WriteStatus(3, StatusFor(Resource(a, none, 3, 3, NO_STATUS), ended))]
  }

  function ThreeSteps(w: World, a: Step, b: Step, c: Step): World {
    Apply(Apply(Apply(w, a), b), c)
  }

  lemma RunThree(w: World, steps: seq<Step>)
    requires |steps| >= 3
    ensures Run(w, steps) == Run(ThreeSteps(w, steps[0], steps[1], steps[2]), steps[3..])
    ensures !steps[0].WriteStatus? && !steps[1].WriteStatus? && !steps[2].WriteStatus? ==>
      (Honest(w, steps) <==> Honest(ThreeSteps(w, steps[0], steps[1], steps[2]), steps[3..]))
  {
    assert steps[1..][1..] == steps[2..] && steps[2..][1..] == steps[3..];
    var v := Apply(w, steps[0]);
    assert Run(w, steps) == Run(v, steps[1..]);
    assert Run(v, steps[1..]) == Run(Apply(v, steps[1]), steps[2..]);
    assert Honest(v, steps[1..]) <==>
           Backed(v.seen, v.podsSeen, steps[1]) && Honest(Apply(v, steps[1]), steps[2..]);
  }

  /** After the first nine steps: `a` is asked for again, and its pod ended on the configuration of `b`. */
  function Disturbed(a: Spec, b: Spec): World {
    var s := Disturbance(a, b);
    ThreeSteps(ThreeSteps(ThreeSteps(EMPTY_WORLD, s[0], s[1], s[2]), s[3], s[4], s[5]), s[6], s[7], s[8])
  }

  lemma DisturbanceLeadsThere(a: Spec, b: Spec)
    ensures var s := Disturbance(a, b);
            && Run(EMPTY_WORLD, s) == Apply(Disturbed(a, b), s[9])
            && (Honest(EMPTY_WORLD, s) <==> Backed(Disturbed(a, b).seen, Disturbed(a, b).podsSeen, s[9]))
  {
    var s := Disturbance(a, b);
    var w3 := ThreeSteps(EMPTY_WORLD, s[0], s[1], s[2]);
    var w6 := ThreeSteps(w3, s[3], s[4], s[5]);
    var w9 := Disturbed(a, b);
    RunThree(EMPTY_WORLD, s);
    RunThree(w3, s[3..]);
    RunThree(w6, s[3..][3..]);
    assert s[3..][3..][3..] == [] + [s[9]];
    RunOne(w9, [], s[9]);
    HonestOne(w9, [], s[9]);
  }

  lemma DisturbedState(a: Spec, b: Spec)
    requires a != b
    ensures var w, none: Labels := Disturbed(a, b), map[];
            var ended := Pod(1, Hash(a, none), "nginx", Succeeded, [Some(Terminated(0, ""))], Some(Config(b, "b")));
            && w.validation == Some(Resource(a, none, 3, 3, NO_STATUS)) && w.validation.value in w.seen
            && ended in w.podsSeen
            && forall p :: p in w.podsSeen && Terminates(p) ==> p.mounted == Some(Config(b, "b"))
  {
  }

  /**
    Submit `a`, submit `b` before the pod for `a` starts, submit `a` again. The pod for `a` then runs on
    the configuration of `b`, and its success is recorded as the verdict on `a`, although every write is
    backed by current reads.
   */
  lemma VerdictMayBeOnAnotherSpec(a: Spec, b: Spec)
    requires a != b
    ensures Honest(EMPTY_WORLD, Disturbance(a, b)) && !StartsOnOwnConfig(EMPTY_WORLD, Disturbance(a, b))
    ensures var w := Run(EMPTY_WORLD, Disturbance(a, b));
            && w.validation.Some? && Settled(w.validation.value)
            && w.validation.value.spec == a && w.validation.value.status.valid == Some(true)
            && !Tested(w, a, true)
  {
    DisturbanceLeadsThere(a, b);
    DisturbedState(a, b);
    var s, w9, none: Labels := Disturbance(a, b), Disturbed(a, b), map[];
    var ended := Pod(1, Hash(a, none), "nginx", Succeeded, [Some(Terminated(0, ""))], Some(Config(b, "b")));
    assert Judges(w9.validation.value, ended, 3, s[9].status);
    assert ended in Run(EMPTY_WORLD, s).podsSeen;
    TestedOwnConfigIff(EMPTY_WORLD, s);
  }
}
