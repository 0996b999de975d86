/** One pass of the validation controller, other actors moving between any two of its requests. */
module ValidationController {
  import opened Ordering
  import opened InstanceSpec
  import opened Cluster

  /** What plan, flavors, certificates and template make of a spec: an error, or the parts of the pod. */
  datatype Rendering = Rendering(certificates: Labels, text: string, shape: string)

  datatype Result = Nothing | Requeued | MadePod | Finished | Erred

  /** The steps others take before the k-th request. */
  function Before(schedule: seq<seq<Step>>, k: nat): seq<Step> {
    if k < |schedule| then schedule[k] else []
  }

  // ---------- Histories ----------

  /** A step of the pass, or of anybody else. */
  datatype Move = Own(step: Step) | Other(step: Step)

  function StepsOf(moves: seq<Move>): (steps: seq<Step>)
    ensures |steps| == |moves|
  {
    seq(|moves|, i requires 0 <= i < |moves| => moves[i].step)
  }

  function OwnOf(moves: seq<Move>): seq<Step> {
    if moves == [] then []
    else OwnOf(moves[..|moves| - 1]) + if moves[|moves| - 1].Own? then [moves[|moves| - 1].step] else []
  }

  function OthersOf(moves: seq<Move>): seq<Step> {
    if moves == [] then []
    else OthersOf(moves[..|moves| - 1]) + if moves[|moves| - 1].Other? then [moves[|moves| - 1].step] else []
  }

  /** What others do before the first k requests. */
  function Scheduled(schedule: seq<seq<Step>>, k: nat): seq<Step> {
    if k == 0 then [] else Scheduled(schedule, k - 1) + Before(schedule, k - 1)
  }

  /** The pass's own steps are backed in the world each one meets. */
  ghost predicate OwnBacked(start: World, moves: seq<Move>) {
    forall i :: 0 <= i < |moves| && moves[i].Own? ==> BackedAt(start, moves, i)
  }

  ghost predicate OthersBacked(start: World, moves: seq<Move>) {
    forall i :: 0 <= i < |moves| && moves[i].Other? ==> BackedAt(start, moves, i)
  }

  ghost predicate BackedAt(start: World, moves: seq<Move>, i: nat)
    requires i < |moves|
  {
    var w := Run(start, StepsOf(moves[..i]));
    Backed(w.seen, w.podsSeen, moves[i].step)
  }

  /**
    `moves` lead from `start` to `now`: the pass's own steps in their order, each backed where it is made,
    and between them what the schedule gives others before the first k requests, in its order.
   */
  ghost predicate History(
      start: World, moves: seq<Move>, own: seq<Step>, schedule: seq<seq<Step>>, k: nat, now: World) {
    && now == Run(start, StepsOf(moves))
    && OwnOf(moves) == own && OthersOf(moves) == Scheduled(schedule, k)
    && OwnBacked(start, moves)
  }

  lemma MovesAppend(moves: seq<Move>, m: Move)
    ensures StepsOf(moves + [m]) == StepsOf(moves) + [m.step]
    ensures OwnOf(moves + [m]) == OwnOf(moves) + if m.Own? then [m.step] else []
    ensures OthersOf(moves + [m]) == OthersOf(moves) + if m.Other? then [m.step] else []
  {
    assert (moves + [m])[..|moves|] == moves;
  }

  lemma OwnBackedAppend(start: World, moves: seq<Move>, m: Move)
    requires OwnBacked(start, moves)
    requires m.Own? ==>
      Backed(Run(start, StepsOf(moves)).seen, Run(start, StepsOf(moves)).podsSeen, m.step)
    ensures OwnBacked(start, moves + [m])
  {
    var more := moves + [m];
    forall i | 0 <= i < |more| && more[i].Own?
      ensures BackedAt(start, more, i)
    {
      assert more[..i] == moves[..i];
      if i < |moves| {
        assert BackedAt(start, moves, i);
      } else {
        assert moves[..i] == moves;
      }
    }
  }

  function AsOthers(steps: seq<Step>): seq<Move> {
    seq(|steps|, i requires 0 <= i < |steps| => Other(steps[i]))
  }

  /** `more` is `moves` followed by these steps of others. */
  ghost predicate Continues(start: World, moves: seq<Move>, steps: seq<Step>, more: seq<Move>) {
    && StepsOf(more) == StepsOf(moves) + steps
    && OwnOf(more) == OwnOf(moves) && OthersOf(more) == OthersOf(moves) + steps
    && OwnBacked(start, more)
  }

  lemma ContinuesOne(start: World, moves: seq<Move>, steps: seq<Step>, more: seq<Move>, s: Step)
    requires Continues(start, moves, steps, more)
    ensures Continues(start, moves, steps + [s], more + [Other(s)])
  {
    MovesAppend(more, Other(s));
    OwnBackedAppend(start, more, Other(s));
    assert StepsOf(moves) + steps + [s] == StepsOf(moves) + (steps + [s]);
    assert OthersOf(moves) + steps + [s] == OthersOf(moves) + (steps + [s]);
  }

  /** Others take their steps. */
  lemma {:induction false} OthersMove(start: World, moves: seq<Move>, steps: seq<Step>)
    requires OwnBacked(start, moves)
    ensures Continues(start, moves, steps, moves + AsOthers(steps))
    decreases |steps|
  {
    if steps == [] {
      assert moves + AsOthers(steps) == moves;
    } else {
      var rest, last := steps[..|steps| - 1], steps[|steps| - 1];
      OthersMove(start, moves, rest);
      ContinuesOne(start, moves, rest, moves + AsOthers(rest), last);
      assert moves + AsOthers(steps) == moves + AsOthers(rest) + [Other(last)];
      assert steps == rest + [last];
    }
  }

  /** If others back their status writes too, the whole history is honest. */
  lemma {:induction false} AllBackedIsHonest(start: World, moves: seq<Move>, n: nat)
    requires OwnBacked(start, moves) && OthersBacked(start, moves) && n <= |moves|
    ensures Honest(start, StepsOf(moves[..n]))
  {
    if n > 0 {
      AllBackedIsHonest(start, moves, n - 1);
      assert BackedAt(start, moves, n - 1);
      assert StepsOf(moves[..n]) == StepsOf(moves[..n - 1]) + [moves[n - 1].step];
      HonestOne(start, StepsOf(moves[..n - 1]), moves[n - 1].step);
    }
  }

  /** A stretch of a run is a pass's history, step `j` of the run being one of the pass's own. */
  ghost predicate InPass(start: World, steps: seq<Step>, j: nat, from: nat, moves: seq<Move>) {
    && from <= j < from + |moves| <= |steps|
    && StepsOf(moves) == steps[from..from + |moves|]
    && OwnBacked(Run(start, steps[..from]), moves)
    && moves[j - from].Own?
  }

  /** Every status write of a run is made by some pass. Passes may overlap, of one controller or of several. */
  ghost predicate FromPasses(start: World, steps: seq<Step>) {
    forall j :: 0 <= j < |steps| && steps[j].WriteStatus? ==>
      exists from, moves :: InPass(start, steps, j, from, moves)
  }

  lemma PassBacksStep(start: World, steps: seq<Step>, j: nat, from: nat, moves: seq<Move>)
    requires InPass(start, steps, j, from, moves)
    ensures Backed(Run(start, steps[..j]).seen, Run(start, steps[..j]).podsSeen, steps[j])
  {
    var w, i := Run(start, steps[..from]), j - from;
    assert BackedAt(w, moves, i);
    assert StepsOf(moves[..i]) == StepsOf(moves)[..i] == steps[from..j];
    assert steps[..j] == steps[..from] + steps[from..j];
    RunAppend(start, steps[..from], steps[from..j]);
    assert moves[i].step == StepsOf(moves)[i] == steps[j];
  }

  lemma {:induction false} FirstAreHonest(start: World, steps: seq<Step>, n: nat)
    requires FromPasses(start, steps) && n <= |steps|
    ensures Honest(start, steps[..n])
  {
    if n > 0 {
      FirstAreHonest(start, steps, n - 1);
      if steps[n - 1].WriteStatus? {
        var from, moves :| InPass(start, steps, n - 1, from, moves);
        PassBacksStep(start, steps, n - 1, from, moves);
      }
      assert steps[..n] == steps[..n - 1] + [steps[n - 1]];
      HonestOne(start, steps[..n - 1], steps[n - 1]);
    }
  }

  /** A run whose status writes are all made by passes is honest. */
  lemma PassesAreHonest(start: World, steps: seq<Step>)
    requires FromPasses(start, steps)
    ensures Honest(start, steps)
  {
    FirstAreHonest(start, steps, |steps|);
    assert steps[..|steps|] == steps;
  }

  class ApiServer {
    var w: World

    constructor (w: World)
      ensures this.w == w
    {
      this.w := w;
    }

    method Let(steps: seq<Step>)
      modifies this
      ensures w == Run(old(w), steps)
    {
      w := Run(w, steps);
    }

    method Take(step: Step) returns (changed: bool)
      modifies this
      ensures w == Apply(old(w), step) && changed == (w != old(w))
    {
      changed := w != Apply(w, step);
      w := Apply(w, step);
    }

    /** A read through the controller's cache: nothing, or any version there ever was. */
    method CachedValidation() returns (r: Option<Resource>)
      ensures r.Some? ==> r.value in w.seen
    {
      r :| r in {None} + set s | s in w.seen :: Some(s);
    }

    method CachedPod() returns (p: Option<Pod>)
      ensures p.Some? ==> p.value in w.podsSeen
    {
      p :| p in {None} + set s | s in w.podsSeen :: Some(s);
    }
  }

  // ---------- One pass ----------

  /** The pod was made for this spec and these certificates, and its end says something. */
  predicate Ended(pod: Option<Pod>, cached: Resource, rendering: Rendering) {
    pod.Some? && pod.value.hash == Hash(cached.spec, rendering.certificates) && Verdict(pod.value).Some?
  }

  function VerdictOn(cached: Resource, p: Pod): Step
    requires Verdict(p).Some?
  {
    WriteStatus(cached.version, StatusFor(cached, p))
  }

  /**
    The requests of a pass and its answer, given the two reads of the pod and whether the last request
    was accepted. A refused request is the last one.
   */
  ghost predicate Follows(
      cached: Resource, rendering: Rendering, derives: (string, string) -> bool,
      first: Option<Pod>, second: Option<Pod>, own: seq<Step>, accepted: bool, result: Result) {
    var write := WriteConfig(Config(cached.spec, rendering.text));
    var create := CreatePod(Hash(cached.spec, rendering.certificates), rendering.shape);
    if Ended(first, cached, rendering) then
      || (own == [write, VerdictOn(cached, first.value)] && !accepted && result == Erred)
      || (own == [write, VerdictOn(cached, first.value), DeletePod] &&
          result == if accepted then Finished else Erred)
    else if second.Some? && derives(rendering.shape, second.value.shape) then
      own == [write] && result == Requeued
    else if second.Some? && own == [write, DeletePod] then
      !accepted && result == Erred
    else
      && own == [write] + (if second.Some? then [DeletePod] else []) + [create]
      && result == if accepted then MadePod else Erred
  }

  /**
    When a pass writes a status, and which: exactly when the first pod it read bears the wanted hash and either
    ended in phase Succeeded, its first container with exit code 0, or in phase Failed, that one with another.
    The status says "valid" without an error in the first case and "invalid" with the termination message in the
    second, with the generation that was read in both.
   */
  lemma StatusWrittenIff(
      cached: Resource, rendering: Rendering, derives: (string, string) -> bool,
      first: Option<Pod>, second: Option<Pod>, own: seq<Step>, accepted: bool, result: Result, j: nat)
    requires Follows(cached, rendering, derives, first, second, own, accepted, result)
    ensures var hash := Hash(cached.spec, rendering.certificates);
            var ended := first.Some? && first.value.hash == hash &&
                         first.value.containers != [] && first.value.containers[0].Some?;
            var well := ended && first.value.phase == Succeeded && first.value.containers[0].value.exitCode == 0;
            var badly := ended && first.value.phase == Failed && first.value.containers[0].value.exitCode != 0;
            && (j < |own| && own[j].WriteStatus? <==> j == 1 && (well || badly))
            && (j == 1 && well ==>
                  own[j] == WriteStatus(cached.version, Status(Some(hash), cached.generation, Some(true), "")))
            && (j == 1 && badly ==>
                  own[j] == WriteStatus(cached.version, Status(
                    Some(hash), cached.generation, Some(false), first.value.containers[0].value.message)))
  {
    if first.Some? {
      VerdictIsPhaseAndCode(first.value);
    }
  }

  /** Others move, and then the cache is asked. */
  method Wait(
      server: ApiServer, schedule: seq<seq<Step>>, k: nat,
      ghost start: World, ghost own: seq<Step>, ghost moves: seq<Move>)
    returns (ghost moves': seq<Move>)
    requires History(start, moves, own, schedule, k, server.w)
    modifies server
    ensures History(start, moves', own, schedule, k + 1, server.w)
    ensures old(server.w.seen) <= server.w.seen && old(server.w.podsSeen) <= server.w.podsSeen
  {
    OthersMove(start, moves, Before(schedule, k));
    RunAppend(start, StepsOf(moves), Before(schedule, k));
    RunRemembers(server.w, Before(schedule, k));
    server.Let(Before(schedule, k));
    moves' := moves + AsOthers(Before(schedule, k));
  }

  /** Others move, and then one request is made. */
  method Request(
      server: ApiServer, schedule: seq<seq<Step>>, k: nat, step: Step,
      ghost start: World, ghost own: seq<Step>, ghost moves: seq<Move>)
    returns (accepted: bool, ghost own': seq<Step>, ghost moves': seq<Move>)
    requires History(start, moves, own, schedule, k, server.w)
    requires Backed(server.w.seen, server.w.podsSeen, step)
    modifies server
    ensures History(start, moves', own', schedule, k + 1, server.w) && own' == own + [step]
    ensures old(server.w.seen) <= server.w.seen && old(server.w.podsSeen) <= server.w.podsSeen
  {
    moves' := Wait(server, schedule, k, start, own, moves);
    MovesAppend(moves', Own(step));
    OwnBackedAppend(start, moves', Own(step));
    RunOne(start, StepsOf(moves'), step);
    RunRemembers(server.w, [step]);
    RunOne(server.w, [], step);
    accepted := server.Take(step);
    own', moves' := own + [step], moves' + [Own(step)];
  }

  /**
    What a pass read, what it asked for and answered, and the history it is part of: its requests follow
    from its reads, and its status write is backed in the world it meets.
   */
  method Pass(
      server: ApiServer, schedule: seq<seq<Step>>,
      render: Spec -> Option<Rendering>, derives: (string, string) -> bool)
    returns (
      result: Result, ghost cached: Option<Resource>, ghost first: Option<Pod>, ghost second: Option<Pod>,
      accepted: bool, ghost own: seq<Step>, ghost moves: seq<Move>, k: nat)
    modifies server
    ensures History(old(server.w), moves, own, schedule, k, server.w)
    ensures own == [] <==> cached.None? || Settled(cached.value) || render(cached.value.spec).None?
    ensures own == [] ==> result == if cached.None? || Settled(cached.value) then Nothing else Erred
    ensures own != [] ==>
      Follows(cached.value, render(cached.value.spec).value, derives, first, second, own, accepted, result)
  {
    ghost var start := server.w;
    own, k, accepted, first, second := [], 1, true, None, None;
    moves := Wait(server, schedule, 0, start, [], []);
    var validation := server.CachedValidation();
    cached := validation;
    if validation.None? {
      result := Nothing;
      return;
    }
    var r := validation.value;
    if r.status.observedGeneration == r.generation && r.status.valid.Some? {
      result := Nothing;
      return;
    }
    var rendered := render(r.spec);
    if rendered.None? {
      result := Erred;
      return;
    }
    result, first, second, accepted, own, moves, k :=
      Validate(server, schedule, r, rendered.value, derives, start, moves);
  }

  /** The part of a pass that makes requests. */
  method Validate(
      server: ApiServer, schedule: seq<seq<Step>>, r: Resource, rendering: Rendering,
      derives: (string, string) -> bool, ghost start: World, ghost before: seq<Move>)
    returns (
      result: Result, ghost first: Option<Pod>, ghost second: Option<Pod>,
      accepted: bool, ghost own: seq<Step>, ghost moves: seq<Move>, k: nat)
    requires History(start, before, [], schedule, 1, server.w)
    requires r in server.w.seen && !Settled(r)
    modifies server
    ensures History(start, moves, own, schedule, k, server.w)
    ensures own != [] && Follows(r, rendering, derives, first, second, own, accepted, result)
  {
    second := None;
    var hash := Hash(r.spec, rendering.certificates);
    accepted, own, moves :=
      Request(server, schedule, 1, WriteConfig(Config(r.spec, rendering.text)), start, [], before);
    moves := Wait(server, schedule, 2, start, own, moves);
    var existing := server.CachedPod();
    first := existing;
    if existing.Some? {
      var finished;
      finished, result, accepted, own, moves, k :=
        FinishValidation(server, schedule, r, existing.value, hash, start, own, moves);
      if finished {
        return;
      }
    }
    result, second, accepted, own, moves, k :=
      ReconcilePod(server, schedule, hash, rendering.shape, derives, start, own, moves);
  }

  /** What the end of a pod says, as the source finds it out. */
  method Judge(pod: Pod) returns (valid: Option<bool>, message: string)
    ensures valid == Verdict(pod) && (valid.Some? ==> message == Message(pod))
  {
    valid, message := None, "";
    if pod.phase == Succeeded && |pod.containers| > 0 {
      if pod.containers[0].Some? {
        if pod.containers[0].value.exitCode == 0 {
          valid := Some(true);
        }
      }
    }
    if pod.phase == Failed && |pod.containers| > 0 {
      if pod.containers[0].Some? {
        if pod.containers[0].value.exitCode != 0 {
          valid := Some(false);
          message := pod.containers[0].value.message;
        }
      }
    }
  }

  /** Writes the verdict, if the pod is the wanted one and its end says something, and then deletes the pod. */
  method FinishValidation(
      server: ApiServer, schedule: seq<seq<Step>>, r: Resource, pod: Pod, hash: Hash,
      ghost start: World, ghost before: seq<Step>, ghost moves: seq<Move>)
    returns (
      finished: bool, result: Result, accepted: bool, ghost own: seq<Step>, ghost moves': seq<Move>, k: nat)
    requires History(start, moves, before, schedule, 3, server.w)
    requires r in server.w.seen && pod in server.w.podsSeen && !Settled(r) && hash.spec == r.spec
    modifies server
    ensures History(start, moves', own, schedule, k, server.w)
    ensures finished <==> pod.hash == hash && Verdict(pod).Some?
    ensures !finished ==> own == before && k == 3
    ensures finished ==>
      || (own == before + [VerdictOn(r, pod)] && !accepted && result == Erred)
      || (own == before + [VerdictOn(r, pod)] + [DeletePod] && result == if accepted then Finished else Erred)
  {
    finished, result, accepted, own, moves', k := false, Nothing, true, before, moves, 3;
    if pod.hash != hash {
      return;
    }
    var valid, message := Judge(pod);
    if valid.None? {
      return;
    }
    finished := true;
    var status := Status(Some(hash), r.generation, valid, if valid.value then "" else message);
    assert Judges(r, pod, r.version, status);
    accepted, own, moves' := Request(server, schedule, 3, WriteStatus(r.version, status), start, before, moves);
    k := 4;
    if !accepted {
      result := Erred;
      return;
    }
    accepted, own, moves' := Request(server, schedule, 4, DeletePod, start, own, moves');
    k := 5;
    result := if accepted then Finished else Erred;
  }

  /** Creates the pod, deleting one in the way first unless it derives from the wanted one. */
  method ReconcilePod(
      server: ApiServer, schedule: seq<seq<Step>>, hash: Hash, shape: string, derives: (string, string) -> bool,
      ghost start: World, ghost before: seq<Step>, ghost moves: seq<Move>)
    returns (
      result: Result, ghost found: Option<Pod>, accepted: bool, ghost own: seq<Step>, ghost moves': seq<Move>,
      k: nat)
    requires History(start, moves, before, schedule, 3, server.w)
    modifies server
    ensures History(start, moves', own, schedule, k, server.w)
    ensures if found.Some? && derives(shape, found.value.shape) then own == before && result == Requeued
            else if found.Some? && own == before + [DeletePod] then !accepted && result == Erred
            else && own == before + (if found.Some? then [DeletePod] else []) + [CreatePod(hash, shape)]
                 && result == if accepted then MadePod else Erred
  {
    accepted, own, k := true, before, 4;
    moves' := Wait(server, schedule, 3, start, before, moves);
    var existing := server.CachedPod();
    found := existing;
    if existing.Some? {
      if derives(shape, existing.value.shape) {
        result := Requeued;
        return;
      }
      accepted, own, moves' := Request(server, schedule, 4, DeletePod, start, own, moves');
      k := 5;
      if !accepted {
        result := Erred;
        return;
      }
    }
    accepted, own, moves' := Request(server, schedule, k, CreatePod(hash, shape), start, own, moves');
    k := k + 1;
    result := if accepted then MadePod else Erred;
  }

  /** A pass keeps the invariant, whatever it read and whoever moved in between, if others back their writes too. */
  method Reconcile(
      server: ApiServer, schedule: seq<seq<Step>>,
      render: Spec -> Option<Rendering>, derives: (string, string) -> bool)
    returns (result: Result, ghost own: seq<Step>, ghost moves: seq<Move>, k: nat)
    requires Consistent(server.w)
    modifies server
    ensures History(old(server.w), moves, own, schedule, k, server.w)
    ensures OthersBacked(old(server.w), moves) ==> Consistent(server.w)
  {
    ghost var start := server.w;
    ghost var cached, first, second;
    var accepted;
    result, cached, first, second, accepted, own, moves, k := Pass(server, schedule, render, derives);
    if OthersBacked(start, moves) {
      AllBackedIsHonest(start, moves, |moves|);
      assert moves[..|moves|] == moves;
      RunKeepsConsistent(start, StepsOf(moves));
    }
  }
}
