/** The ConfigMaps an instance's reconciles leave behind, and the trimming that bounds them. */
module ConfigHistory {
  import opened Ordering
  import opened KeyedList

  /** Named after a hash of its content; `created` is the server's creation time. */
  datatype ConfigMap = ConfigMap(name: string, created: int)

  /** The stored ConfigMaps, in whatever order the server lists them, and the one Nginx uses. */
  datatype State = State(configs: seq<ConfigMap>, live: Option<string>)

  const DEFAULT_LIMIT: nat := 10

  function NameOf(c: ConfigMap): string {
    c.name
  }

  function Limit(configured: Option<int>): (limit: nat)
    ensures limit >= 1
  {
    if configured.Some? && configured.value > 0 then configured.value else DEFAULT_LIMIT
  }

  ghost predicate Distinctly(configs: seq<ConfigMap>) {
    && Distinct(configs, NameOf)
    && forall i, j :: 0 <= i < j < |configs| ==> configs[i].created != configs[j].created
  }

  ghost predicate IsOldest(configs: seq<ConfigMap>, i: int) {
    0 <= i < |configs| && forall j :: 0 <= j < |configs| ==> configs[i].created <= configs[j].created
  }

  predicate OlderThan(a: ConfigMap, b: ConfigMap) {
    a.created < b.created
  }

  class Reconciler {
    var configs: seq<ConfigMap>
    var live: Option<string>

    ghost function S(): State
      reads this
    {
      State(configs, live)
    }

    /** The part of a pass that writes ConfigMaps and Nginx; `now` is the server's clock. */
    method Reconcile(name: string, now: int, configured: Option<int>)
      modifies this
      ensures After(old(S()), name, now, Limit(configured), S())
    {
      var found := ReconcileConfigMap(name, now);
      if |configs| > Limit(configured) {
        DeleteOldConfig();
      }
      live := Some(name);
    }

    method ReconcileConfigMap(name: string, now: int) returns (changed: bool)
      modifies this`configs
      ensures configs == Written(old(configs), name, now)
    {
      var i := 0;
      while i < |configs|
        invariant i <= |configs|
        invariant forall j :: 0 <= j < i ==> NameOf(configs[j]) != name
      {
        if configs[i].name == name {
          return false;
        }
        i := i + 1;
      }
      configs := configs + [ConfigMap(name, now)];
      changed := true;
    }

    /** Deletes an oldest one, unless Nginx uses it. */
    method DeleteOldConfig()
      requires configs != []
      modifies this`configs
      ensures exists i :: IsOldest(old(configs), i) && configs == Trimmed(old(configs), live, i)
    {
      OlderThanIsStrictOrder();
      var sorted := SortBy(configs, OlderThan);
      PermutationKeepsElements(configs, sorted);
      var oldest := sorted[0];
      assert |sorted| > 0 by {
        assert |multiset(sorted)| == |multiset(configs)|;
      }
      assert oldest in configs;
      var i := 0;
      while configs[i] != oldest
        invariant i < |configs|
        invariant oldest in configs[i..]
        decreases |configs| - i
      {
        i := i + 1;
      }
      forall j | 0 <= j < |configs|
        ensures configs[i].created <= configs[j].created
      {
        assert configs[j] in sorted;
        var k :| 0 <= k < |sorted| && sorted[k] == configs[j];
        assert k == 0 || !OlderThan(sorted[k], sorted[0]);
      }
      assert IsOldest(configs, i);
      if Some(oldest.name) == live {
        return;
      }
      configs := configs[..i] + configs[i + 1..];
    }
  }

  lemma OlderThanIsStrictOrder()
    ensures StrictOrder(OlderThan)
  {
  }

  // ---------- One pass ----------

  function Written(configs: seq<ConfigMap>, name: string, now: int): seq<ConfigMap> {
    if Find(configs, NameOf, name).Some? then configs else configs + [ConfigMap(name, now)]
  }

  function Trimmed(configs: seq<ConfigMap>, live: Option<string>, oldest: int): seq<ConfigMap>
    requires 0 <= oldest < |configs|
  {
    if Some(configs[oldest].name) == live then configs else configs[..oldest] + configs[oldest + 1..]
  }

  ghost predicate After(s: State, name: string, now: int, limit: nat, t: State) {
    var written := Written(s.configs, name, now);
    && t.live == Some(name)
    && (|written| <= limit ==> t.configs == written)
    && (|written| > limit ==> exists i :: IsOldest(written, i) && t.configs == Trimmed(written, s.live, i))
  }

  /** The server's clock has moved past every creation so far. */
  ghost predicate ClockAhead(s: State, now: int) {
    forall c :: c in s.configs ==> c.created < now
  }

  // ---------- The bound ----------

  ghost predicate OldestIsNotLive(s: State) {
    forall i :: IsOldest(s.configs, i) ==> Some(s.configs[i].name) != s.live
  }

  /** At most `bound` ConfigMaps, and at the bound the oldest may go. */
  ghost predicate Bounded(s: State, bound: nat) {
    && Distinctly(s.configs)
    && |s.configs| <= bound
    && (|s.configs| == bound ==> OldestIsNotLive(s))
  }

  lemma WrittenIsDistinct(s: State, name: string, now: int)
    requires Distinctly(s.configs) && ClockAhead(s, now)
    ensures Distinctly(Written(s.configs, name, now))
  {
    var written := Written(s.configs, name, now);
    if Find(s.configs, NameOf, name).None? {
      assert forall j :: 0 <= j < |s.configs| ==> written[j] == s.configs[j] && written[j] in s.configs;
    }
  }

  lemma TrimmedAt(configs: seq<ConfigMap>, live: Option<string>, i: int, j: int)
    requires 0 <= i < |configs| && 0 <= j < |Trimmed(configs, live, i)|
    ensures Trimmed(configs, live, i)[j] in configs
    ensures Trimmed(configs, live, i) != configs ==> Trimmed(configs, live, i)[j] == configs[if j < i then j else j + 1]
  {
  }

  lemma TrimmedIsDistinct(configs: seq<ConfigMap>, live: Option<string>, i: int)
    requires Distinctly(configs) && 0 <= i < |configs|
    ensures Distinctly(Trimmed(configs, live, i))
  {
    var cut := Trimmed(configs, live, i);
    if cut != configs {
      forall j, k | 0 <= j < k < |cut|
        ensures NameOf(cut[j]) != NameOf(cut[k]) && cut[j].created != cut[k].created
      {
        TrimmedAt(configs, live, i, j);
        TrimmedAt(configs, live, i, k);
      }
    }
  }

  /** If everything but the live one is older than it, and there is something else, the oldest is not live. */
  lemma YoungestIsNotOldest(configs: seq<ConfigMap>, name: string, now: int)
    requires Distinctly(configs) && |configs| >= 2
    requires forall c :: c in configs ==> c == ConfigMap(name, now) || (c.name != name && c.created < now)
    ensures OldestIsNotLive(State(configs, Some(name)))
  {
    assert configs[0].created != configs[1].created;
    assert configs[0] in configs && configs[1] in configs;
    forall i | IsOldest(configs, i)
      ensures configs[i].name != name
    {
      assert configs[i] in configs;
      assert configs[i].created <= configs[0].created && configs[i].created <= configs[1].created;
    }
  }

  lemma WrittenElements(s: State, name: string, now: int)
    requires ClockAhead(s, now) && Find(s.configs, NameOf, name).None?
    ensures forall c :: c in Written(s.configs, name, now) ==>
      c == ConfigMap(name, now) || (c.name != name && c.created < now)
  {
    forall c | c in s.configs
      ensures c.name != name
    {
      var j :| 0 <= j < |s.configs| && s.configs[j] == c;
      assert NameOf(s.configs[j]) != name;
    }
  }

  /** A pass over the limit at the bound deletes; below the bound it adds at most one. */
  lemma PassKeepsSize(s: State, name: string, now: int, limit: nat, t: State, bound: nat)
    requires limit >= 1 && bound >= limit + 1
    requires Bounded(s, bound) && ClockAhead(s, now) && After(s, name, now, limit, t)
    ensures |t.configs| <= bound
    ensures |t.configs| == bound ==> Find(s.configs, NameOf, name).None?
  {
    var written := Written(s.configs, name, now);
    if |written| > limit && |s.configs| == bound {
      var i :| IsOldest(written, i) && t.configs == Trimmed(written, s.live, i);
      OldestOfWritten(s, name, now, i);
      assert Some(s.configs[i].name) != s.live;
    }
  }

  lemma OldestOfWritten(s: State, name: string, now: int, i: int)
    requires ClockAhead(s, now) && s.configs != [] && IsOldest(Written(s.configs, name, now), i)
    ensures IsOldest(s.configs, i) && s.configs[i] == Written(s.configs, name, now)[i]
  {
    var written := Written(s.configs, name, now);
    assert s.configs[0] in s.configs && written[0] == s.configs[0];
    assert written[i].created <= written[0].created < now;
    forall j | 0 <= j < |s.configs|
      ensures s.configs[i].created <= s.configs[j].created
    {
      assert written[j] == s.configs[j];
    }
  }

  /** One pass keeps any bound above the limit, whatever name it is for. */
  lemma PassKeepsBound(s: State, name: string, now: int, limit: nat, t: State, bound: nat)
    requires limit >= 1 && bound >= limit + 1
    requires Bounded(s, bound) && ClockAhead(s, now) && After(s, name, now, limit, t)
    ensures Bounded(t, bound)
  {
    var written := Written(s.configs, name, now);
    WrittenIsDistinct(s, name, now);
    PassKeepsSize(s, name, now, limit, t, bound);
    var i: int;
    if |written| > limit {
      i :| IsOldest(written, i) && t.configs == Trimmed(written, s.live, i);
      TrimmedIsDistinct(written, s.live, i);
      if |t.configs| == bound {
        WrittenElements(s, name, now);
        forall c | c in t.configs
          ensures c in written
        {
          var j :| 0 <= j < |t.configs| && t.configs[j] == c;
          TrimmedAt(written, s.live, i, j);
        }
        YoungestIsNotOldest(t.configs, name, now);
      }
    }
  }

  datatype Event = Event(name: string, now: int)

  ghost predicate Passes(s: State, e: Event, limit: nat, t: State) {
    ClockAhead(s, e.now) && After(s, e.name, e.now, limit, t)
  }

  /** Each state follows from the one before by a pass under the same limit. */
  ghost predicate IsRun(states: seq<State>, events: seq<Event>, limit: nat) {
    && |states| == |events| + 1
    && forall k :: 0 <= k < |events| ==> Passes(states[k], events[k], limit, states[k + 1])
  }

  lemma {:induction false} RunKeepsBound(states: seq<State>, events: seq<Event>, limit: nat, bound: nat, k: nat)
    requires limit >= 1 && bound >= limit + 1
    requires IsRun(states, events, limit) && Bounded(states[0], bound) && k < |states|
    ensures Bounded(states[k], bound)
  {
    if k > 0 {
      RunKeepsBound(states, events, limit, bound, k - 1);
      PassKeepsBound(states[k - 1], events[k - 1].name, events[k - 1].now, limit, states[k], bound);
    }
  }

  /** Starting with nothing stored, no pass ever leaves more than one ConfigMap over the limit. */
  lemma HistoryIsBounded(states: seq<State>, events: seq<Event>, configured: Option<int>, k: nat)
    requires IsRun(states, events, Limit(configured)) && states[0] == State([], None) && k < |states|
    ensures |states[k].configs| <= (if configured.Some? && configured.value > 0 then configured.value else 10) + 1
  {
    RunKeepsBound(states, events, Limit(configured), Limit(configured) + 1, k);
  }

  /** From any other start, it never grows by more than one, nor past the limit by more than one. */
  lemma HistoryStaysBounded(states: seq<State>, events: seq<Event>, configured: Option<int>, k: nat)
    requires IsRun(states, events, Limit(configured)) && Distinctly(states[0].configs) && k < |states|
    ensures |states[k].configs| <= |states[0].configs| + 1 || |states[k].configs| <= Limit(configured) + 1
  {
    var n, l := |states[0].configs| + 1, Limit(configured) + 1;
    RunKeepsBound(states, events, Limit(configured), if n < l then l else n, k);
  }

  // ---------- Which ConfigMap goes ----------

  ghost predicate Stored(configs: seq<ConfigMap>, name: string) {
    exists c :: c in configs && c.name == name
  }

  lemma TrimmedKeepsOthers(configs: seq<ConfigMap>, live: Option<string>, i: int, j: int)
    requires 0 <= i < |configs| && 0 <= j < |configs| && j != i
    ensures configs[j] in Trimmed(configs, live, i)
  {
    var cut := Trimmed(configs, live, i);
    if cut != configs {
      assert cut[if j < i then j else j - 1] == configs[j];
    }
  }

  lemma TrimmedDropsOne(configs: seq<ConfigMap>, live: Option<string>, i: int, name: string)
    requires Distinctly(configs) && 0 <= i < |configs| && configs[i].name == name && live != Some(name)
    ensures !Stored(Trimmed(configs, live, i), name)
  {
    var cut := configs[..i] + configs[i + 1..];
    forall j | 0 <= j < |cut|
      ensures cut[j].name != name
    {
      var at := if j < i then j else j + 1;
      assert cut[j] == configs[at] && NameOf(configs[at]) != NameOf(configs[i]);
    }
  }

  lemma StoredAfterTrim(configs: seq<ConfigMap>, live: Option<string>, i: int, name: string)
    requires Distinctly(configs) && 0 <= i < |configs|
    ensures Stored(Trimmed(configs, live, i), name) <==>
            Stored(configs, name) && !(configs[i].name == name && live != Some(name))
  {
    if configs[i].name == name && live != Some(name) {
      TrimmedDropsOne(configs, live, i, name);
    } else {
      if Stored(configs, name) {
        var j :| 0 <= j < |configs| && configs[j].name == name;
        if j != i {
          TrimmedKeepsOthers(configs, live, i, j);
        }
      }
      if Stored(Trimmed(configs, live, i), name) {
        var j :| 0 <= j < |Trimmed(configs, live, i)| && Trimmed(configs, live, i)[j].name == name;
        TrimmedAt(configs, live, i, j);
      }
    }
  }

  /** What Nginx used when the pass began is still stored when it switches. */
  lemma LiveConfigIsNeverTrimmed(s: State, name: string, now: int, limit: nat, t: State)
    requires Distinctly(s.configs) && ClockAhead(s, now) && After(s, name, now, limit, t)
    requires s.live.Some? && Stored(s.configs, s.live.value)
    ensures Stored(t.configs, s.live.value)
  {
    var written := Written(s.configs, name, now);
    WrittenIsDistinct(s, name, now);
    var c :| c in s.configs && c.name == s.live.value;
    assert c in written;
    if |written| > limit {
      var i :| IsOldest(written, i) && t.configs == Trimmed(written, s.live, i);
      StoredAfterTrim(written, s.live, i, s.live.value);
    }
  }

  /**
    What Nginx is switched to is stored, except when a pass goes back to the oldest ConfigMap with
    the history over its limit: that one is deleted just before Nginx is pointed at it.
   */
  lemma NewConfigSurvivesIff(s: State, name: string, now: int, limit: nat, t: State)
    requires Distinctly(s.configs) && ClockAhead(s, now) && After(s, name, now, limit, t)
    ensures var written := Written(s.configs, name, now);
      Stored(t.configs, name) <==>
      !(|written| > limit && s.live != Some(name) && exists i :: IsOldest(written, i) && written[i].name == name)
  {
    var written := Written(s.configs, name, now);
    WrittenIsDistinct(s, name, now);
    assert Stored(written, name) by {
      var at := Find(s.configs, NameOf, name);
      assert written[if at.Some? then at.value else |s.configs|] in written;
    }
    if |written| > limit {
      var i :| IsOldest(written, i) && t.configs == Trimmed(written, s.live, i);
      StoredAfterTrim(written, s.live, i, name);
      forall j | IsOldest(written, j)
        ensures j == i
      {
        assert written[i].created <= written[j].created <= written[i].created;
      }
    }
  }

  /** The limit in force: the one configured, if it is positive, and else ten. */
  lemma LimitInForce(configured: Option<int>)
    ensures Limit(configured) == match configured
                                 case Some(limit) => if limit > 0 then limit else 10
                                 case None => 10
  {
  }

  lemma OldestStays(s: State, name: string, now: int)
    requires ClockAhead(s, now) && s.configs != []
    ensures forall i :: IsOldest(s.configs, i) <==> IsOldest(Written(s.configs, name, now), i)
    ensures forall i :: 0 <= i < |s.configs| ==> s.configs[i] == Written(s.configs, name, now)[i]
  {
    var written := Written(s.configs, name, now);
    forall i
      ensures IsOldest(s.configs, i) <==> IsOldest(written, i)
    {
      if IsOldest(written, i) {
        OldestOfWritten(s, name, now, i);
      }
      if IsOldest(s.configs, i) {
        assert s.configs[i] in s.configs;
      }
    }
  }

  lemma StoredAfterWrite(s: State, name: string, now: int, n: string)
    ensures Stored(Written(s.configs, name, now), n) <==> Stored(s.configs, n) || n == name
    ensures |Written(s.configs, name, now)| == |s.configs| + if Stored(s.configs, name) then 0 else 1
  {
    var written, at := Written(s.configs, name, now), Find(s.configs, NameOf, name);
    if at.Some? {
      assert s.configs[at.value] in s.configs && s.configs[at.value].name == name;
    } else {
      assert written[|s.configs|] in written && forall c :: c in s.configs ==> c in written;
      forall c | c in s.configs
        ensures c.name != name
      {
        var j :| 0 <= j < |s.configs| && s.configs[j] == c;
        assert NameOf(s.configs[j]) != name;
      }
    }
  }

  /**
    What a pass leaves stored, name by name: everything there was and the new name, but for the oldest one, which
    goes exactly if that is more than the limit and nginx did not use it when the pass began.
   */
  lemma StoredAfterPassIff(s: State, name: string, now: int, configured: Option<int>, t: State, n: string)
    requires Distinctly(s.configs) && ClockAhead(s, now) && After(s, name, now, Limit(configured), t)
    ensures var limit := if configured.Some? && configured.value > 0 then configured.value else 10;
            var count := |s.configs| + if exists c :: c in s.configs && c.name == name then 0 else 1;
            && t.live == Some(name)
            && (Stored(t.configs, n) <==>
                  && (Stored(s.configs, n) || n == name)
                  && !(count > limit && s.live != Some(n) &&
                       exists i :: IsOldest(s.configs, i) && s.configs[i].name == n))
  {
    var written, limit := Written(s.configs, name, now), Limit(configured);
    WrittenIsDistinct(s, name, now);
    StoredAfterWrite(s, name, now, n);
    if |written| > limit {
      OldestStays(s, name, now);
      var i :| IsOldest(written, i) && t.configs == Trimmed(written, s.live, i);
      StoredAfterTrim(written, s.live, i, n);
      forall j | IsOldest(written, j)
        ensures j == i
      {
        assert written[i].created <= written[j].created <= written[i].created;
      }
    }
  }

  /** With a limit of two: `a`, then `b`, back to `a`, then `c`, and back to `a` again. */
  function RollbackEvents(a: string, b: string, c: string): seq<Event> {
    [Event(a, 1), Event(b, 2), Event(a, 3), Event(c, 4), Event(a, 5)]
  }

  function RollbackStates(a: string, b: string, c: string): seq<State> {
    var ofA, ofB, ofC := ConfigMap(a, 1), ConfigMap(b, 2), ConfigMap(c, 4);
    [State([], None), State([ofA], Some(a)), State([ofA, ofB], Some(b)), State([ofA, ofB], Some(a)),
     State([ofA, ofB, ofC], Some(c)), State([ofB, ofC], Some(a))]
  }

  /** A pass that writes a new name and stays within the limit. */
  lemma PassesAdding(s: State, name: string, now: int, limit: nat)
    requires ClockAhead(s, now) && |s.configs| + 1 <= limit
    requires forall i :: 0 <= i < |s.configs| ==> NameOf(s.configs[i]) != name
    ensures Passes(s, Event(name, now), limit, State(s.configs + [ConfigMap(name, now)], Some(name)))
  {
  }

  /** A pass that writes a new name over the limit while nginx uses the oldest: nothing can go. */
  lemma PassesOver(s: State, name: string, now: int, limit: nat)
    requires ClockAhead(s, now) && s.configs != [] && |s.configs| + 1 > limit
    requires forall i :: 0 <= i < |s.configs| ==> NameOf(s.configs[i]) != name
    requires s.live == Some(s.configs[0].name) && IsOldest(s.configs, 0)
    ensures Passes(s, Event(name, now), limit, State(s.configs + [ConfigMap(name, now)], Some(name)))
  {
    var written := s.configs + [ConfigMap(name, now)];
    assert s.configs[0] in s.configs;
    assert IsOldest(written, 0);
    assert Trimmed(written, s.live, 0) == written;
  }

  /** A pass back to the oldest stored, within the limit or over it. */
  lemma PassesBack(s: State, now: int, limit: nat)
    requires ClockAhead(s, now) && s.configs != [] && IsOldest(s.configs, 0)
    requires s.live != Some(s.configs[0].name)
    ensures var left := if |s.configs| > limit then s.configs[1..] else s.configs;
            Passes(s, Event(s.configs[0].name, now), limit, State(left, Some(s.configs[0].name)))
  {
    assert NameOf(s.configs[0]) == s.configs[0].name;
    assert s.configs[..0] + s.configs[0 + 1..] == s.configs[1..];
    assert Trimmed(s.configs, s.live, 0) == s.configs[1..];
  }

  lemma RollbackIsRun(a: string, b: string, c: string)
    requires a != b && a != c && b != c
    ensures IsRun(RollbackStates(a, b, c), RollbackEvents(a, b, c), 2)
  {
    var states, events := RollbackStates(a, b, c), RollbackEvents(a, b, c);
    PassesAdding(states[0], a, 1, 2);
    assert states[1].configs == [] + [ConfigMap(a, 1)];
    PassesAdding(states[1], b, 2, 2);
    assert states[2].configs == states[1].configs + [ConfigMap(b, 2)];
    PassesBack(states[2], 3, 2);
    PassesOver(states[3], c, 4, 2);
    assert states[4].configs == states[3].configs + [ConfigMap(c, 4)];
    PassesBack(states[4], 5, 2);
    assert states[5].configs == states[4].configs[1..];
    forall k | 0 <= k < |events|
      ensures Passes(states[k], events[k], 2, states[k + 1])
    {
      assert k == 0 || k == 1 || k == 2 || k == 3 || k == 4;
    }
  }

  /** So from nothing stored, a run of plain changes and rollbacks leaves Nginx on a ConfigMap that is gone. */
  lemma RollbackLosesConfig(a: string, b: string, c: string)
    requires a != b && a != c && b != c
    ensures var states := RollbackStates(a, b, c);
            && IsRun(states, RollbackEvents(a, b, c), 2) && states[0] == State([], None)
            && states[5].live == Some(a) && !Stored(states[5].configs, a)
  {
    RollbackIsRun(a, b, c);
  }
}
