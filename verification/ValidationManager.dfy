/**
  The API side: submit a candidate spec, poll for its verdict, and only then change the instance.
  A schedule says which steps of other actors come before each request; every claim is for all
  schedules.
 */
module ValidationManager {
  import opened Ordering
  import opened InstanceSpec
  import opened Cluster
  import opened ValidationController
  import M = Mutation

  datatype Answer = Ok | Invalid(message: string) | TimedOut | Refused

  const MAX_RETRIES: nat := 60
  const CLUSTER_NAME_LABEL := "rpaas.extensions.tsuru.io/cluster-name"

  predicate BelongsToCluster(labels: Labels, cluster: string) {
    CLUSTER_NAME_LABEL in labels && labels[CLUSTER_NAME_LABEL] != "" && labels[CLUSTER_NAME_LABEL] == cluster
  }

  function AnswerOf(r: Resource): Answer
    requires Settled(r)
  {
    if r.status.valid.value then Ok else Invalid(r.status.error)
  }

  /** Polling, `retries` reads left. */
  function Polled(w: World, schedule: seq<seq<Step>>, k: nat, retries: nat): (Answer, World)
    decreases retries
  {
    if retries == 0 then (TimedOut, w)
    else
      var v := Run(w, Before(schedule, k));
      if v.validation.None? then (Refused, v)
      else if Settled(v.validation.value) then (AnswerOf(v.validation.value), v)
      else Polled(v, schedule, k + 1, retries - 1)
  }

  function Waited(w: World, spec: Spec, labels: Labels, schedule: seq<seq<Step>>): (Answer, World) {
    var v := Run(w, Before(schedule, 0));
    if v.validation.Some? && v.validation.value.spec == spec && Settled(v.validation.value) then
      (AnswerOf(v.validation.value), v)
    else
      var read := if v.validation.Some? then Some(v.validation.value.version) else None;
      var x := Run(v, Before(schedule, 1));
      if !Admitted(x, read) then (Refused, x)
      else Polled(Apply(x, Submit(spec, labels, read)), schedule, 2, MAX_RETRIES)
  }

  method WaitController(server: ApiServer, spec: Spec, labels: Labels, schedule: seq<seq<Step>>)
    returns (answer: Answer)
    modifies server
    ensures (answer, server.w) == Waited(old(server.w), spec, labels, schedule)
    ensures WaitOwes(old(server.w), spec, labels, schedule, answer)
  {
    WaitAnswersAsOwed(server.w, spec, labels, schedule);
    server.Let(Before(schedule, 0));
    var existing := server.w.validation;
    if existing.None? {
      server.Let(Before(schedule, 1));
      if server.w.validation.Some? {
        return Refused;
      }
      var _ := server.Take(Submit(spec, labels, None));
    } else {
      if existing.value.spec == spec && existing.value.status.valid.Some?
         && existing.value.generation == existing.value.status.observedGeneration {
        return if existing.value.status.valid.value then Ok else Invalid(existing.value.status.error);
      }
      server.Let(Before(schedule, 1));
      if server.w.validation.None? || server.w.validation.value.version != existing.value.version {
        return Refused;
      }
      var _ := server.Take(Submit(spec, labels, Some(existing.value.version)));
    }
    answer := Poll(server, schedule);
  }

  method Poll(server: ApiServer, schedule: seq<seq<Step>>) returns (answer: Answer)
    modifies server
    ensures (answer, server.w) == Polled(old(server.w), schedule, 2, MAX_RETRIES)
  {
    for retry := 0 to MAX_RETRIES
      invariant Polled(old(server.w), schedule, 2, MAX_RETRIES) ==
                Polled(server.w, schedule, 2 + retry, MAX_RETRIES - retry)
    {
      server.Let(Before(schedule, 2 + retry));
      var existing := server.w.validation;
      if existing.None? {
        return Refused;
      }
      if existing.value.generation == existing.value.status.observedGeneration && existing.value.status.valid.Some? {
        return if existing.value.status.valid.value then Ok else Invalid(existing.value.status.error);
      }
    }
    answer := TimedOut;
  }

  // ---------- When which answer is owed ----------

  /** Its status is for the current generation and has a verdict. */
  predicate HasVerdict(w: World) {
    && w.validation.Some? && w.validation.value.status.observedGeneration == w.validation.value.generation
    && w.validation.value.status.valid.Some?
  }

  /** The answer a read that finds the resource gone, or with a verdict, calls for. */
  ghost predicate ReadCallsFor(w: World, answer: Answer) {
    && (w.validation.None? ==> answer == Refused)
    && (HasVerdict(w) && w.validation.value.status.valid == Some(true) ==> answer == Ok)
    && (HasVerdict(w) && w.validation.value.status.valid == Some(false) ==>
          answer == Invalid(w.validation.value.status.error))
  }

  /** What the j-th read would meet, the earlier ones having been to no avail. */
  function ReadAt(w: World, schedule: seq<seq<Step>>, k: nat, j: nat): World {
    Run(if j == 0 then w else ReadAt(w, schedule, k, j - 1), Before(schedule, k + j))
  }

  predicate StillPending(w: World) {
    w.validation.Some? && !HasVerdict(w)
  }

  /** The first `n` reads are all to no avail. */
  ghost predicate PendingFor(w: World, schedule: seq<seq<Step>>, k: nat, n: nat) {
    forall j :: 0 <= j < n ==> StillPending(ReadAt(w, schedule, k, j))
  }

  /** Past `n` reads to no avail the poll goes on from the world the last of them met. */
  lemma {:induction false} PendingPollGoesOn(w: World, schedule: seq<seq<Step>>, k: nat, n: nat, retries: nat)
    requires 1 <= n <= retries && PendingFor(w, schedule, k, n)
    ensures Polled(w, schedule, k, retries) == Polled(ReadAt(w, schedule, k, n - 1), schedule, k + n, retries - n)
  {
    assert StillPending(ReadAt(w, schedule, k, n - 1));
    if n > 1 {
      PendingPollGoesOn(w, schedule, k, n - 1, retries);
      assert ReadAt(w, schedule, k, n - 1) == Run(ReadAt(w, schedule, k, n - 2), Before(schedule, k + (n - 1)));
    }
  }

  /** The poll answers with its first read that is not to no avail, if that is among the first `retries`. */
  lemma PollAnswersFirst(w: World, schedule: seq<seq<Step>>, k: nat, retries: nat, n: nat)
    requires n < retries && PendingFor(w, schedule, k, n) && !StillPending(ReadAt(w, schedule, k, n))
    ensures ReadCallsFor(ReadAt(w, schedule, k, n), Polled(w, schedule, k, retries).0)
    ensures Polled(w, schedule, k, retries).0 != TimedOut
  {
    if n > 0 {
      PendingPollGoesOn(w, schedule, k, n, retries);
    }
  }

  /** Which answer a poll of 60 reads owes. */
  ghost predicate PollOwes(w: World, schedule: seq<seq<Step>>, answer: Answer) {
    && (answer == TimedOut <==> PendingFor(w, schedule, 2, 60))
    && forall n :: 0 <= n < 60 && PendingFor(w, schedule, 2, n) && !StillPending(ReadAt(w, schedule, 2, n)) ==>
         ReadCallsFor(ReadAt(w, schedule, 2, n), answer)
  }

  lemma {:induction false} FirstRead(w: World, schedule: seq<seq<Step>>, k: nat, retries: nat) returns (n: nat)
    requires !PendingFor(w, schedule, k, retries)
    ensures n < retries && PendingFor(w, schedule, k, n) && !StillPending(ReadAt(w, schedule, k, n))
  {
    if PendingFor(w, schedule, k, retries - 1) {
      n := retries - 1;
    } else {
      n := FirstRead(w, schedule, k, retries - 1);
    }
  }

  lemma PollAnswersAsOwed(w: World, schedule: seq<seq<Step>>)
    ensures PollOwes(w, schedule, Polled(w, schedule, 2, MAX_RETRIES).0)
  {
    forall n | 0 <= n < 60 && PendingFor(w, schedule, 2, n) && !StillPending(ReadAt(w, schedule, 2, n))
      ensures ReadCallsFor(ReadAt(w, schedule, 2, n), Polled(w, schedule, 2, MAX_RETRIES).0)
    {
      PollAnswersFirst(w, schedule, 2, MAX_RETRIES, n);
    }
    if PendingFor(w, schedule, 2, 60) {
      PendingPollGoesOn(w, schedule, 2, 60, MAX_RETRIES);
    } else {
      var n := FirstRead(w, schedule, 2, 60);
      PollAnswersFirst(w, schedule, 2, MAX_RETRIES, n);
    }
  }

  /**
    Which answer a wait owes: that of the verdict there is, if it is one on this very spec; a refusal, if the
    resource came, went or changed between the first read and the submission; else that of the poll.
   */
  ghost predicate WaitOwes(w: World, spec: Spec, labels: Labels, schedule: seq<seq<Step>>, answer: Answer) {
    var v := Run(w, Before(schedule, 0));
    var x := Run(v, Before(schedule, 1));
    if HasVerdict(v) && v.validation.value.spec == spec then ReadCallsFor(v, answer)
    else if v.validation.None? then
      if x.validation.Some? then answer == Refused
      else PollOwes(Apply(x, Submit(spec, labels, None)), schedule, answer)
    else
      if x.validation.None? || x.validation.value.version != v.validation.value.version then answer == Refused
      else PollOwes(Apply(x, Submit(spec, labels, Some(v.validation.value.version))), schedule, answer)
  }

  lemma WaitAnswersAsOwed(w: World, spec: Spec, labels: Labels, schedule: seq<seq<Step>>)
    ensures WaitOwes(w, spec, labels, schedule, Waited(w, spec, labels, schedule).0)
  {
    var v := Run(w, Before(schedule, 0));
    if !(v.validation.Some? && v.validation.value.spec == spec && Settled(v.validation.value)) {
      var x := Run(v, Before(schedule, 1));
      var read := if v.validation.Some? then Some(v.validation.value.version) else None;
      if Admitted(x, read) {
        PollAnswersAsOwed(Apply(x, Submit(spec, labels, read)), schedule);
      }
    }
  }

  // ---------- What an answer means ----------

  /** What an answer says about a spec. */
  ghost predicate Truthful(answer: Answer, w: World, spec: Spec) {
    match answer
    case Ok => Witnessed(w, spec, true, "")
    case Invalid(message) => Witnessed(w, spec, false, message)
    case _ => true
  }

  predicate IsVerdict(answer: Answer) {
    answer == Ok || answer.Invalid?
  }

  /** The verdict that was read was given on this spec: so says the hash recorded beside it. */
  predicate GivenOn(w: World, spec: Spec) {
    w.validation.Some? && HashIsOf(w.validation.value.status, spec)
  }

  /** A verdict that ends a wait is the one on the spec the resource holds at that moment. */
  ghost predicate AboutHeldSpec(result: (Answer, World)) {
    && Consistent(result.1)
    && (IsVerdict(result.0) ==>
          && result.1.validation.Some?
          && GivenOn(result.1, result.1.validation.value.spec)
          && Truthful(result.0, result.1, result.1.validation.value.spec))
  }

  lemma SettledIsTruthful(w: World)
    requires Consistent(w) && w.validation.Some? && Settled(w.validation.value)
    ensures Truthful(AnswerOf(w.validation.value), w, w.validation.value.spec)
    ensures GivenOn(w, w.validation.value.spec)
  {
    var r := w.validation.value;
    assert Witnessed(w, r.spec, r.status.valid.value, r.status.error);
  }

  /** Everything that happens while polling. */
  function PolledSteps(w: World, schedule: seq<seq<Step>>, k: nat, retries: nat): seq<Step>
    decreases retries
  {
    if retries == 0 then []
    else
      var others := Before(schedule, k);
      var v := Run(w, others);
      if v.validation.None? || Settled(v.validation.value) then others
      else others + PolledSteps(v, schedule, k + 1, retries - 1)
  }

  /** Everything that happens during a wait, its own submission included. */
  function WaitedSteps(w: World, spec: Spec, labels: Labels, schedule: seq<seq<Step>>): seq<Step> {
    var v := Run(w, Before(schedule, 0));
    if v.validation.Some? && v.validation.value.spec == spec && Settled(v.validation.value) then Before(schedule, 0)
    else
      var read := if v.validation.Some? then Some(v.validation.value.version) else None;
      var x := Run(v, Before(schedule, 1));
      Before(schedule, 0) + (Before(schedule, 1) +
        if !Admitted(x, read) then []
        else [Submit(spec, labels, read)] + PolledSteps(Apply(x, Submit(spec, labels, read)), schedule, 2, MAX_RETRIES))
  }

  lemma {:induction false} PollIsRun(w: World, schedule: seq<seq<Step>>, k: nat, retries: nat)
    ensures Polled(w, schedule, k, retries).1 == Run(w, PolledSteps(w, schedule, k, retries))
    decreases retries
  {
    if retries > 0 {
      var v := Run(w, Before(schedule, k));
      if v.validation.Some? && !Settled(v.validation.value) {
        PollIsRun(v, schedule, k + 1, retries - 1);
        RunAppend(w, Before(schedule, k), PolledSteps(v, schedule, k + 1, retries - 1));
      }
    }
  }

  lemma WaitIsRun(w: World, spec: Spec, labels: Labels, schedule: seq<seq<Step>>)
    ensures Waited(w, spec, labels, schedule).1 == Run(w, WaitedSteps(w, spec, labels, schedule))
  {
    var v := Run(w, Before(schedule, 0));
    if !(v.validation.Some? && v.validation.value.spec == spec && Settled(v.validation.value)) {
      var read := if v.validation.Some? then Some(v.validation.value.version) else None;
      var x := Run(v, Before(schedule, 1));
      var submitted := Apply(x, Submit(spec, labels, read));
      var polled := PolledSteps(submitted, schedule, 2, MAX_RETRIES);
      var tail := if !Admitted(x, read) then [] else [Submit(spec, labels, read)] + polled;
      RunAppend(w, Before(schedule, 0), Before(schedule, 1) + tail);
      RunAppend(v, Before(schedule, 1), tail);
      PollIsRun(submitted, schedule, 2, MAX_RETRIES);
    }
  }

  lemma {:induction false} PollIsAboutHeldSpec(w: World, schedule: seq<seq<Step>>, k: nat, retries: nat)
    requires Consistent(w) && Honest(w, PolledSteps(w, schedule, k, retries))
    ensures AboutHeldSpec(Polled(w, schedule, k, retries))
    decreases retries
  {
    if retries > 0 {
      var v := Run(w, Before(schedule, k));
      if v.validation.Some? && !Settled(v.validation.value) {
        HonestAppend(w, Before(schedule, k), PolledSteps(v, schedule, k + 1, retries - 1));
        RunKeepsConsistent(w, Before(schedule, k));
        PollIsAboutHeldSpec(v, schedule, k + 1, retries - 1);
      } else {
        RunKeepsConsistent(w, Before(schedule, k));
        if v.validation.Some? {
          SettledIsTruthful(v);
        }
      }
    }
  }

  /** Once submitted: the rest of an honest wait is an honest poll. */
  lemma HonestWaitPolls(w: World, spec: Spec, labels: Labels, schedule: seq<seq<Step>>)
    requires Consistent(w) && Honest(w, WaitedSteps(w, spec, labels, schedule))
    ensures var v := Run(w, Before(schedule, 0));
            var quick := v.validation.Some? && v.validation.value.spec == spec && Settled(v.validation.value);
            var read := if v.validation.Some? then Some(v.validation.value.version) else None;
            var x := Run(v, Before(schedule, 1));
            && Consistent(v)
            && (!quick ==> Consistent(x))
            && (!quick && Admitted(x, read) ==>
                  var y := Apply(x, Submit(spec, labels, read));
                  Consistent(y) && Honest(y, PolledSteps(y, schedule, 2, MAX_RETRIES)))
  {
    var v := Run(w, Before(schedule, 0));
    if v.validation.Some? && v.validation.value.spec == spec && Settled(v.validation.value) {
      RunKeepsConsistent(w, Before(schedule, 0));
    } else {
      var read := if v.validation.Some? then Some(v.validation.value.version) else None;
      var x := Run(v, Before(schedule, 1));
      var submit := Submit(spec, labels, read);
      var y := Apply(x, submit);
      var polled := PolledSteps(y, schedule, 2, MAX_RETRIES);
      var tail := if !Admitted(x, read) then [] else [submit] + polled;
      HonestAppend(w, Before(schedule, 0), Before(schedule, 1) + tail);
      RunKeepsConsistent(w, Before(schedule, 0));
      HonestAppend(v, Before(schedule, 1), tail);
      RunKeepsConsistent(v, Before(schedule, 1));
      if Admitted(x, read) {
        assert tail[0] == submit && tail[1..] == polled;
        StepKeepsConsistent(x, submit);
      }
    }
  }

  /** The answer of a wait, other controllers backing their writes, is about the spec the resource holds at its end. */
  lemma WaitIsAboutHeldSpec(w: World, spec: Spec, labels: Labels, schedule: seq<seq<Step>>)
    requires Consistent(w) && Honest(w, WaitedSteps(w, spec, labels, schedule))
    ensures AboutHeldSpec(Waited(w, spec, labels, schedule))
  {
    HonestWaitPolls(w, spec, labels, schedule);
    var v := Run(w, Before(schedule, 0));
    if v.validation.Some? && v.validation.value.spec == spec && Settled(v.validation.value) {
      SettledIsTruthful(v);
    } else {
      var x := Run(v, Before(schedule, 1));
      var read := if v.validation.Some? then Some(v.validation.value.version) else None;
      if Admitted(x, read) {
        PollIsAboutHeldSpec(Apply(x, Submit(spec, labels, read)), schedule, 2, MAX_RETRIES);
      }
    }
  }

  // ---------- Which spec an answer is about ----------

  /** The spec of the last submission the server took, by the end of the wait. */
  function LastTakenIn(w: World, spec: Spec, labels: Labels, schedule: seq<seq<Step>>): Option<Spec> {
    LastTaken(HeldSpec(w), w, WaitedSteps(w, spec, labels, schedule))
  }

  /**
    A verdict that ends a wait was given on the spec asked for exactly when the last submission the server took
    before it was read, by whomever, was of that spec. Submissions refused on their version, made after the
    answering read, or superseded by the same spec do no harm.
   */
  lemma VerdictGivenOnSpecIff(w: World, spec: Spec, labels: Labels, schedule: seq<seq<Step>>)
    requires Consistent(w) && Honest(w, WaitedSteps(w, spec, labels, schedule))
    requires IsVerdict(Waited(w, spec, labels, schedule).0)
    ensures GivenOn(Waited(w, spec, labels, schedule).1, spec) <==>
            LastTakenIn(w, spec, labels, schedule) == Some(spec)
  {
    WaitIsAboutHeldSpec(w, spec, labels, schedule);
    WaitIsRun(w, spec, labels, schedule);
    LastTakenIsHeld(w, WaitedSteps(w, spec, labels, schedule));
  }

  /**
    Then the answer is the truth about it: "valid" means a pod made for it ended Succeeded with exit code 0,
    "invalid" that one ended Failed with a non-zero code and this message.
   */
  lemma WaitIsTruthful(w: World, spec: Spec, labels: Labels, schedule: seq<seq<Step>>)
    requires Consistent(w) && Honest(w, WaitedSteps(w, spec, labels, schedule))
    requires LastTakenIn(w, spec, labels, schedule) == Some(spec)
    ensures Truthful(Waited(w, spec, labels, schedule).0, Waited(w, spec, labels, schedule).1, spec)
    ensures var (answer, x) := Waited(w, spec, labels, schedule);
            && (answer == Ok ==>
                  exists p :: p in x.podsSeen && p.hash.spec == spec && p.containers != [] && p.containers[0].Some? &&
                              p.phase == Succeeded && p.containers[0].value.exitCode == 0)
            && (answer.Invalid? ==>
                  exists p :: p in x.podsSeen && p.hash.spec == spec && p.containers != [] && p.containers[0].Some? &&
                              p.phase == Failed && p.containers[0].value.exitCode != 0 &&
                              p.containers[0].value.message == answer.message)
  {
    WaitIsAboutHeldSpec(w, spec, labels, schedule);
    WaitIsRun(w, spec, labels, schedule);
    LastTakenIsHeld(w, WaitedSteps(w, spec, labels, schedule));
    var (answer, x) := Waited(w, spec, labels, schedule);
    if answer == Ok {
      var p :| p in x.podsSeen && p.hash.spec == spec && EndedAs(p, true, "");
    } else if answer.Invalid? {
      var p :| p in x.podsSeen && p.hash.spec == spec && EndedAs(p, false, answer.message);
    }
  }

  /** The same where every status write there ever was is a step of a pass of the controller. */
  lemma WaitAmongPassesIsTruthful(
      start: World, past: seq<Step>, spec: Spec, labels: Labels, schedule: seq<seq<Step>>)
    requires Consistent(start)
    requires FromPasses(start, past + WaitedSteps(Run(start, past), spec, labels, schedule))
    ensures var w := Run(start, past);
            var (answer, x) := Waited(w, spec, labels, schedule);
            && (IsVerdict(answer) ==> (GivenOn(x, spec) <==> LastTakenIn(w, spec, labels, schedule) == Some(spec)))
            && (LastTakenIn(w, spec, labels, schedule) == Some(spec) ==> Truthful(answer, x, spec))
  {
    var w := Run(start, past);
    PassesAreHonest(start, past + WaitedSteps(w, spec, labels, schedule));
    HonestAppend(start, past, WaitedSteps(w, spec, labels, schedule));
    RunKeepsConsistent(start, past);
    if IsVerdict(Waited(w, spec, labels, schedule).0) {
      VerdictGivenOnSpecIff(w, spec, labels, schedule);
    }
    if LastTakenIn(w, spec, labels, schedule) == Some(spec) {
      WaitIsTruthful(w, spec, labels, schedule);
    }
  }

  // ---------- No other client writes another spec ----------

  ghost predicate OnlySubmits(steps: seq<Step>, spec: Spec) {
    forall s :: s in steps && s.Submit? ==> s.spec == spec
  }

  predicate HoldsOnly(w: World, spec: Spec) {
    w.validation.Some? ==> w.validation.value.spec == spec
  }

  lemma {:induction false} RunHoldsOnly(w: World, steps: seq<Step>, spec: Spec)
    requires HoldsOnly(w, spec) && OnlySubmits(steps, spec)
    ensures HoldsOnly(Run(w, steps), spec)
    decreases |steps|
  {
    if steps != [] {
      assert steps[0] in steps;
      assert HoldsOnly(Apply(w, steps[0]), spec);
      RunHoldsOnly(Apply(w, steps[0]), steps[1..], spec);
    }
  }

  /** The premise: from the k-th request on, nobody else submits another spec. */
  ghost predicate OthersSubmitOnly(schedule: seq<seq<Step>>, k: nat, spec: Spec) {
    forall i :: k <= i < |schedule| ==> OnlySubmits(schedule[i], spec)
  }

  lemma {:induction false} PollHoldsOnly(w: World, schedule: seq<seq<Step>>, k: nat, retries: nat, spec: Spec)
    requires HoldsOnly(w, spec) && OthersSubmitOnly(schedule, k, spec)
    ensures HoldsOnly(Polled(w, schedule, k, retries).1, spec)
    decreases retries
  {
    if retries > 0 {
      RunHoldsOnly(w, Before(schedule, k), spec);
      PollHoldsOnly(Run(w, Before(schedule, k)), schedule, k + 1, retries - 1, spec);
    }
  }

  /** It is enough that nobody submits another spec once this one is in. */
  lemma UndisputedWaitIsTruthful(w: World, spec: Spec, labels: Labels, schedule: seq<seq<Step>>)
    requires Consistent(w) && Honest(w, WaitedSteps(w, spec, labels, schedule))
    requires OthersSubmitOnly(schedule, 2, spec) && IsVerdict(Waited(w, spec, labels, schedule).0)
    ensures LastTakenIn(w, spec, labels, schedule) == Some(spec)
    ensures Truthful(Waited(w, spec, labels, schedule).0, Waited(w, spec, labels, schedule).1, spec)
  {
    WaitHoldsOnly(w, spec, labels, schedule);
    WaitIsAboutHeldSpec(w, spec, labels, schedule);
    WaitIsRun(w, spec, labels, schedule);
    LastTakenIsHeld(w, WaitedSteps(w, spec, labels, schedule));
  }

  lemma WaitHoldsOnly(w: World, spec: Spec, labels: Labels, schedule: seq<seq<Step>>)
    requires OthersSubmitOnly(schedule, 2, spec) && IsVerdict(Waited(w, spec, labels, schedule).0)
    ensures HoldsOnly(Waited(w, spec, labels, schedule).1, spec)
  {
    var v := Run(w, Before(schedule, 0));
    if !(v.validation.Some? && v.validation.value.spec == spec && Settled(v.validation.value)) {
      var x := Run(v, Before(schedule, 1));
      var read := if v.validation.Some? then Some(v.validation.value.version) else None;
      if Admitted(x, read) {
        PollHoldsOnly(Apply(x, Submit(spec, labels, read)), schedule, 2, MAX_RETRIES, spec);
      }
    }
  }

  /** Another client's spec, judged between the submission and the first poll. */
  function Intrusion(a: Spec, b: Spec): seq<Step> {
    var none: Labels := map[];
    var ended := Pod(1, Hash(b, none), "nginx", Succeeded, [Some(Terminated(0, ""))], Some(Config(b, "b")));
    [Submit(b, none, Some(1)), WriteConfig(Config(b, "b")), CreatePod(Hash(b, none), "nginx"),
     StartPod, ReportPod(Succeeded, [Some(Terminated(0, ""))]),
     WriteStatus(2, StatusFor(Resource(b, none, 2, 2, NO_STATUS), ended))]
  }

  /** The world before the last of those steps: `b` is held, and its pod ended well. */
  function Intruded(a: Spec, b: Spec): World {
    var w, s := Apply(EMPTY_WORLD, Submit(a, map[], None)), Intrusion(a, b);
    Apply(Apply(ThreeSteps(w, s[0], s[1], s[2]), s[3]), s[4])
  }

  lemma IntrusionLeadsThere(a: Spec, b: Spec)
    ensures var w, s := Apply(EMPTY_WORLD, Submit(a, map[], None)), Intrusion(a, b);
            && Run(w, s) == Apply(Intruded(a, b), s[5])
            && (Honest(w, s) <==> Backed(Intruded(a, b).seen, Intruded(a, b).podsSeen, s[5]))
  {
    var w, s := Apply(EMPTY_WORLD, Submit(a, map[], None)), Intrusion(a, b);
    var w3 := ThreeSteps(w, s[0], s[1], s[2]);
    var w4 := Apply(w3, s[3]);
    RunThree(w, s);
    assert s[3..] == [] + [s[3]] + [s[4]] + [s[5]];
    RunOne(w3, [], s[3]);
    RunOne(w3, [] + [s[3]], s[4]);
    RunOne(w3, [] + [s[3]] + [s[4]], s[5]);
    HonestOne(w3, [], s[3]);
    HonestOne(w3, [] + [s[3]], s[4]);
    HonestOne(w3, [] + [s[3]] + [s[4]], s[5]);
  }

  lemma IntrudedState(a: Spec, b: Spec)
    requires a != b
    ensures var w, none: Labels := Intruded(a, b), map[];
            var ended := Pod(1, Hash(b, none), "nginx", Succeeded, [Some(Terminated(0, ""))], Some(Config(b, "b")));
            && w.validation == Some(Resource(b, none, 2, 2, NO_STATUS)) && w.validation.value in w.seen
            && ended in w.podsSeen && forall p :: p in w.podsSeen ==> p.hash.spec == b
  {
  }

  /** Otherwise the answer is about another spec: here `Ok` for `a`, which no pod was ever made for. */
  lemma IntrusionMisleads(a: Spec, b: Spec)
    requires a != b
    ensures var schedule := [[], [], Intrusion(a, b)];
            var (answer, w) := Waited(EMPTY_WORLD, a, map[], schedule);
            && Honest(EMPTY_WORLD, WaitedSteps(EMPTY_WORLD, a, map[], schedule))
            && LastTakenIn(EMPTY_WORLD, a, map[], schedule) == Some(b)
            && answer == Ok && forall p :: p in w.podsSeen ==> p.hash.spec != a
  {
    var schedule, none: Labels := [[], [], Intrusion(a, b)], map[];
    var submit := Submit(a, none, None);
    var w1, s := Apply(EMPTY_WORLD, submit), Intrusion(a, b);
    IntrusionLeadsThere(a, b);
    IntrudedState(a, b);
    var ended := Pod(1, Hash(b, none), "nginx", Succeeded, [Some(Terminated(0, ""))], Some(Config(b, "b")));
    assert Judges(Intruded(a, b).validation.value, ended, 2, s[5].status);
    var w7 := Apply(Intruded(a, b), s[5]);
    assert Polled(w1, schedule, 2, MAX_RETRIES) == (Ok, w7);
    assert PolledSteps(w1, schedule, 2, MAX_RETRIES) == s;
    assert WaitedSteps(EMPTY_WORLD, a, none, schedule) == [submit] + s;
    HonestAppend(EMPTY_WORLD, [submit], s);
    HonestOne(EMPTY_WORLD, [], submit);
    RunOne(EMPTY_WORLD, [], submit);
    assert [] + [submit] == [submit];
    RunAppend(EMPTY_WORLD, [submit], s);
    LastTakenIsHeld(EMPTY_WORLD, [submit] + s);
  }

  // ---------- The validated calls ----------

  datatype Reply = Done | NoInstance | Rejected(error: M.Error) | NotValidated(answer: Answer)

  /** Whether a bind is internal is read off the instance's labels. */
  function Resolved(op: M.Op, labels: Labels): M.Op {
    if op.BindApp? then op.(internalBind := BelongsToCluster(labels, op.args.appClusterName)) else op
  }

  /** The unvalidated call: read, mutate, store. */
  function Direct(c: M.Checks, w: World, op: M.Op): (Reply, World) {
    match w.instance
    case None => (NoInstance, w)
    case Some(i) =>
      match M.Apply(c, i.spec, Resolved(op, i.labels))
      case Failed(e) => (Rejected(e), w)
      case Done(spec) => (Reply.Done, w.(instance := Some(i.(spec := spec))))
  }

  function Validated(
      c: M.Checks, w: World, op: M.Op, first: seq<Step>, during: seq<seq<Step>>, last: seq<Step>): (Reply, World) {
    var v := Run(w, first);
    match v.instance
    case None => (NoInstance, v)
    case Some(i) =>
      match M.Apply(c, i.spec, Resolved(op, i.labels))
      case Failed(e) => (Rejected(e), v)
      case Done(spec) =>
        var (answer, x) := Waited(v, spec, i.labels, during);
        if answer != Ok then (NotValidated(answer), x) else Direct(c, Run(x, last), op)
  }

  method CallDirectly(server: ApiServer, c: M.Checks, op: M.Op) returns (reply: Reply)
    modifies server
    ensures (reply, server.w) == Direct(c, old(server.w), op)
  {
    var instance := server.w.instance;
    if instance.None? {
      return NoInstance;
    }
    var m := new M.Mutator(instance.value.spec, c);
    var err := m.Perform(Resolved(op, instance.value.labels));
    if err.Some? {
      return Rejected(err.value);
    }
    var _ := server.Take(SetInstance(instance.value.(spec := m.spec)));
    reply := Reply.Done;
  }

  /** UpdateRoute, DeleteRoute, UpdateBlock, DeleteBlock, BindApp and UnbindApp differ only in `op`. */
  method Call(
      server: ApiServer, c: M.Checks, op: M.Op, first: seq<Step>, during: seq<seq<Step>>, last: seq<Step>)
    returns (reply: Reply)
    modifies server
    ensures (reply, server.w) == Validated(c, old(server.w), op, first, during, last)
  {
    server.Let(first);
    var instance := server.w.instance;
    if instance.None? {
      return NoInstance;
    }
    var validation := new M.Mutator(instance.value.spec, c);
    var err := validation.Perform(Resolved(op, instance.value.labels));
    if err.Some? {
      return Rejected(err.value);
    }
    var answer := WaitController(server, validation.spec, instance.value.labels, during);
    if answer != Ok {
      return NotValidated(answer);
    }
    server.Let(last);
    reply := CallDirectly(server, c, op);
  }

  ghost predicate LeavesInstance(steps: seq<Step>) {
    forall s :: s in steps ==> !s.SetInstance?
  }

  lemma {:induction false} RunLeavesInstance(w: World, steps: seq<Step>)
    requires LeavesInstance(steps)
    ensures Run(w, steps).instance == w.instance
    decreases |steps|
  {
    if steps != [] {
      assert steps[0] in steps;
      RunLeavesInstance(Apply(w, steps[0]), steps[1..]);
    }
  }

  lemma {:induction false} PollLeavesInstance(w: World, schedule: seq<seq<Step>>, k: nat, retries: nat)
    requires forall i :: 0 <= i < |schedule| ==> LeavesInstance(schedule[i])
    ensures Polled(w, schedule, k, retries).1.instance == w.instance
    decreases retries
  {
    if retries > 0 {
      RunLeavesInstance(w, Before(schedule, k));
      PollLeavesInstance(Run(w, Before(schedule, k)), schedule, k + 1, retries - 1);
    }
  }

  lemma WaitLeavesInstance(w: World, spec: Spec, labels: Labels, schedule: seq<seq<Step>>)
    requires forall i :: 0 <= i < |schedule| ==> LeavesInstance(schedule[i])
    ensures Waited(w, spec, labels, schedule).1.instance == w.instance
  {
    var v := Run(w, Before(schedule, 0));
    RunLeavesInstance(w, Before(schedule, 0));
    var x := Run(v, Before(schedule, 1));
    RunLeavesInstance(v, Before(schedule, 1));
    var read := if v.validation.Some? then Some(v.validation.value.version) else None;
    PollLeavesInstance(Apply(x, Submit(spec, labels, read)), schedule, 2, MAX_RETRIES);
  }

  /** The spec a call is about, if it gets that far, by the instance there is when it is first read. */
  function Candidate(c: M.Checks, w: World, op: M.Op): M.Outcome<Spec>
    requires w.instance.Some?
  {
    M.Apply(c, w.instance.value.spec, Resolved(op, w.instance.value.labels))
  }

  ghost predicate AllLeaveInstance(schedule: seq<seq<Step>>) {
    forall i :: 0 <= i < |schedule| ==> LeavesInstance(schedule[i])
  }

  /**
    If nobody else touches the instance once it was read, a call leaves there what was read, or the candidate
    in its place; and the latter only if it succeeds, which takes a wait that ended "valid". This holds
    whatever others submit and write.
   */
  lemma OnlySuccessChangesInstance(
      c: M.Checks, w: World, op: M.Op, first: seq<Step>, during: seq<seq<Step>>, last: seq<Step>)
    requires AllLeaveInstance(during) && LeavesInstance(last)
    ensures var v := Run(w, first);
            var (reply, x) := Validated(c, w, op, first, during, last);
            && (reply != Reply.Done ==> x.instance == v.instance)
            && (reply == Reply.Done ==>
                  && v.instance.Some? && Candidate(c, v, op).Done?
                  && x.instance == Some(v.instance.value.(spec := Candidate(c, v, op).value))
                  && Waited(v, Candidate(c, v, op).value, v.instance.value.labels, during).0 == Ok)
  {
    var v := Run(w, first);
    if v.instance.Some? && Candidate(c, v, op).Done? {
      var spec, labels := Candidate(c, v, op).value, v.instance.value.labels;
      WaitLeavesInstance(v, spec, labels, during);
      RunLeavesInstance(Waited(v, spec, labels, during).1, last);
    }
  }

  /** A bind is internal exactly when the instance's cluster label is there, not empty, and names the app's cluster. */
  lemma InternalBindIff(args: M.BindArgs, given: bool, labels: Labels)
    ensures var key, op := "rpaas.extensions.tsuru.io/cluster-name", Resolved(M.BindApp(args, given), labels);
            && op.BindApp? && op.args == args
            && (op.internalBind <==> key in labels && labels[key] != "" && labels[key] == args.appClusterName)
  {
  }

  /**
    Which reply a call owes: its failure to find or change the instance, when it fails there, that of the wait,
    when that did not end "valid", and success otherwise.
   */
  lemma CallRepliesAsOwed(
      c: M.Checks, w: World, op: M.Op, first: seq<Step>, during: seq<seq<Step>>, last: seq<Step>)
    requires AllLeaveInstance(during) && LeavesInstance(last)
    ensures var v := Run(w, first);
            var reply := Validated(c, w, op, first, during, last).0;
            if v.instance.None? then reply == NoInstance
            else match Candidate(c, v, op)
              case Failed(e) => reply == Rejected(e)
              case Done(spec) =>
                exists answer :: WaitOwes(v, spec, v.instance.value.labels, during, answer) &&
                                 reply == if answer == Ok then Reply.Done else NotValidated(answer)
  {
    var v := Run(w, first);
    if v.instance.Some? && Candidate(c, v, op).Done? {
      var spec, labels := Candidate(c, v, op).value, v.instance.value.labels;
      WaitLeavesInstance(v, spec, labels, during);
      WaitAnswersAsOwed(v, spec, labels, during);
      RunLeavesInstance(Waited(v, spec, labels, during).1, last);
    }
  }

  /**
    Besides, if others back their status writes: the verdict a successful call went by was given on the spec it
    stored exactly when the last submission taken during the wait was of that spec; and then a pod had ended
    well for it.
   */
  lemma ValidatedCallStoresOnlyValidSpecs(
      c: M.Checks, w: World, op: M.Op, first: seq<Step>, during: seq<seq<Step>>, last: seq<Step>)
    requires Consistent(w) && Honest(w, first)
    requires AllLeaveInstance(during) && LeavesInstance(last)
    requires Validated(c, w, op, first, during, last).0 == Reply.Done
    requires var v := Run(w, first);
             v.instance.Some? && Candidate(c, v, op).Done? ==>
               Honest(v, WaitedSteps(v, Candidate(c, v, op).value, v.instance.value.labels, during))
    ensures var v, x := Run(w, first), Validated(c, w, op, first, during, last).1;
            && v.instance.Some? && x.instance.Some?
            && var stored, labels := x.instance.value.spec, v.instance.value.labels;
            && (GivenOn(Waited(v, stored, labels, during).1, stored) <==>
                LastTakenIn(v, stored, labels, during) == Some(stored))
            && (LastTakenIn(v, stored, labels, during) == Some(stored) ==> Witnessed(x, stored, true, ""))
  {
    var v := Run(w, first);
    OnlySuccessChangesInstance(c, w, op, first, during, last);
    RunKeepsConsistent(w, first);
    var stored, labels := Candidate(c, v, op).value, v.instance.value.labels;
    VerdictGivenOnSpecIff(v, stored, labels, during);
    if LastTakenIn(v, stored, labels, during) == Some(stored) {
      WaitIsTruthful(v, stored, labels, during);
      var waited := Waited(v, stored, labels, during).1;
      RunRemembers(waited, last);
      WitnessesStay(waited, Run(waited, last));
    }
  }
}
