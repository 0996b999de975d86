/** The events of one object: filtered in place, then listed newest first. */
module Events {
  import opened Ordering

  datatype Event = Event(kind: string, uid: string, name: string, created: int, message: string)

  predicate Newer(a: Event, b: Event) {
    a.created > b.created
  }

  function Matching(events: seq<Event>, matches: Event -> bool): seq<Event> {
    if events == [] then []
    else (if matches(events[0]) then [events[0]] else []) + Matching(events[1..], matches)
  }

  lemma {:induction false} MatchingKeepsOccurrences(events: seq<Event>, matches: Event -> bool, e: Event)
    ensures multiset(Matching(events, matches))[e] == if matches(e) then multiset(events)[e] else 0
  {
    if events != [] {
      assert events == [events[0]] + events[1..];
      MatchingKeepsOccurrences(events[1..], matches, e);
    }
  }

  /** The event at `i` is overwritten with the last one, and the last place is given up. */
  function SwapRemoved(events: seq<Event>, i: nat): (left: seq<Event>)
    requires i < |events|
    ensures |left| == |events| - 1
    ensures forall k :: 0 <= k < |left| && k != i ==> left[k] == events[k]
  {
    events[i := events[|events| - 1]][..|events| - 1]
  }

  /** That loses the one event only. */
  lemma SwapRemoveLosesOne(events: seq<Event>, i: nat)
    requires i < |events|
    ensures multiset(events) == multiset(SwapRemoved(events, i)) + multiset{events[i]}
  {
    var last := |events| - 1;
    var left := SwapRemoved(events, i);
    assert events == events[..last] + [events[last]];
    if i < last {
      assert events[..last] == events[..i] + [events[i]] + events[i + 1..last];
      assert left == events[..i] + [events[last]] + events[i + 1..last];
    } else {
      assert left == events[..last];
    }
  }

  lemma SwapRemoveKeepsMatches(events: seq<Event>, i: nat, matches: Event -> bool)
    requires i < |events| && !matches(events[i])
    ensures multiset(Matching(SwapRemoved(events, i), matches)) == multiset(Matching(events, matches))
  {
    var left := SwapRemoved(events, i);
    SwapRemoveLosesOne(events, i);
    forall e
      ensures multiset(Matching(left, matches))[e] == multiset(Matching(events, matches))[e]
    {
      MatchingKeepsOccurrences(events, matches, e);
      MatchingKeepsOccurrences(left, matches, e);
    }
  }

  lemma {:induction false} AllMatch(events: seq<Event>, matches: Event -> bool)
    requires forall k :: 0 <= k < |events| ==> matches(events[k])
    ensures Matching(events, matches) == events
  {
    if events != [] {
      assert forall k :: 0 <= k < |events| - 1 ==> events[1..][k] == events[k + 1];
      AllMatch(events[1..], matches);
    }
  }

  /** What the loop leaves when it has come to place `i`. */
  function Sieved(events: seq<Event>, i: nat, matches: Event -> bool): seq<Event>
    requires i <= |events|
    decreases |events| - i
  {
    if i == |events| then events
    else if matches(events[i]) then Sieved(events, i + 1, matches)
    else Sieved(SwapRemoved(events, i), i, matches)
  }

  /** The loop, parametric in what is kept. The first `n` places are left in use. */
  method KeepMatching(events: array<Event>, matches: Event -> bool) returns (n: nat)
    modifies events
    ensures n <= events.Length
    ensures events[..n] == Sieved(old(events[..]), 0, matches)
  {
    n := events.Length;
    var i: int := 0;
    assert events[..n] == events[..];
    while i < n
      invariant 0 <= i <= n <= events.Length
      invariant Sieved(events[..n], i, matches) == Sieved(old(events[..]), 0, matches)
      decreases n - i
    {
      if !matches(events[i]) {
        ghost var held := events[..n];
        events[i] := events[n - 1];
        n := n - 1;
        assert events[..n] == SwapRemoved(held, i);
        i := i - 1;
      }
      i := i + 1;
    }
  }

  /** Swapping and removing forgets the order, but keeps exactly the matching events. */
  lemma {:induction false} SieveKeepsMatching(events: seq<Event>, i: nat, matches: Event -> bool)
    requires i <= |events| && forall k :: 0 <= k < i ==> matches(events[k])
    ensures multiset(Sieved(events, i, matches)) == multiset(Matching(events, matches))
    decreases |events| - i
  {
    if i == |events| {
      AllMatch(events, matches);
    } else if matches(events[i]) {
      SieveKeepsMatching(events, i + 1, matches);
    } else {
      SieveKeepsMatching(SwapRemoved(events, i), i, matches);
      SwapRemoveKeepsMatches(events, i, matches);
    }
  }

  /** What is asked for: the matching events, each as often as listed, newest first. */
  ghost predicate NewestFirst(listed: seq<Event>, matches: Event -> bool, events: seq<Event>) {
    && multiset(events) == multiset(Matching(listed, matches))
    && Sorted(events, Newer)
  }

  method EventsForObject(listed: array<Event>, kind: string, uid: string) returns (events: seq<Event>)
    modifies listed
    ensures NewestFirst(old(listed[..]), (e: Event) => e.kind == kind && e.uid == uid, events)
  {
    var n := KeepMatching(listed, (e: Event) => e.kind == kind && e.uid == uid);
    events := SortBy(listed[..n], Newer);
    SieveKeepsMatching(old(listed[..]), 0, (e: Event) => e.kind == kind && e.uid == uid);
  }

  method EventsForObjectName(listed: array<Event>, kind: string, name: string) returns (events: seq<Event>)
    modifies listed
    ensures NewestFirst(old(listed[..]), (e: Event) => e.kind == kind && e.name == name, events)
  {
    var n := KeepMatching(listed, (e: Event) => e.kind == kind && e.name == name);
    events := SortBy(listed[..n], Newer);
    SieveKeepsMatching(old(listed[..]), 0, (e: Event) => e.kind == kind && e.name == name);
  }

  function Times(events: seq<Event>): seq<int> {
    seq(|events|, i requires 0 <= i < |events| => events[i].created)
  }

  /** The order in which the API listed the events shows only among events of the same instant. */
  lemma ListingOrderIsForgotten(
      a: seq<Event>, b: seq<Event>, matches: Event -> bool, x: seq<Event>, y: seq<Event>)
    requires multiset(a) == multiset(b)
    requires NewestFirst(a, matches, x) && NewestFirst(b, matches, y)
    ensures Times(x) == Times(y)
    ensures TotalOn(x, Newer) ==> x == y
  {
    forall e
      ensures multiset(x)[e] == multiset(y)[e]
    {
      MatchingKeepsOccurrences(a, matches, e);
      MatchingKeepsOccurrences(b, matches, e);
    }
    SameEventsSameTimes(x, y);
    SortedArrangementIsUnique(Times(x), Times(y), (s, t) => s > t);
    if TotalOn(x, Newer) {
      SortedArrangementIsUnique(x, y, Newer);
    }
  }

  function Without(x: seq<Event>, j: nat): seq<Event>
    requires j < |x|
  {
    x[..j] + x[j + 1..]
  }

  lemma WithoutLosesOne(x: seq<Event>, j: nat)
    requires j < |x|
    ensures multiset(x) == multiset(Without(x, j)) + multiset{x[j]}
    ensures multiset(Times(x)) == multiset(Times(Without(x, j))) + multiset{x[j].created}
  {
    assert x == x[..j] + [x[j]] + x[j + 1..];
    var times := Times(x);
    assert times == times[..j] + [x[j].created] + times[j + 1..];
    assert Times(Without(x, j)) == times[..j] + times[j + 1..];
  }

  lemma {:induction false} SameEventsSameTimes(x: seq<Event>, y: seq<Event>)
    requires multiset(x) == multiset(y)
    ensures multiset(Times(x)) == multiset(Times(y))
    decreases |x|
  {
    if x == [] {
      assert |multiset(y)| == 0;
    } else {
      assert x[0] in multiset(y);
      var j :| 0 <= j < |y| && y[j] == x[0];
      WithoutLosesOne(x, 0);
      WithoutLosesOne(y, j);
      assert multiset(Without(x, 0)) == multiset(x) - multiset{x[0]};
      assert multiset(Without(y, j)) == multiset(y) - multiset{x[0]};
      SameEventsSameTimes(Without(x, 0), Without(y, j));
    }
  }

  /** Newest first: no event is older than one after it. */
  lemma NewestComesFirst(listed: seq<Event>, matches: Event -> bool, events: seq<Event>, i: nat, j: nat)
    requires NewestFirst(listed, matches, events) && i < j < |events|
    ensures events[i].created >= events[j].created
    ensures matches(events[i]) && events[i] in listed
  {
    assert !Newer(events[j], events[i]);
    assert events[i] in multiset(events);
    MatchingKeepsOccurrences(listed, matches, events[i]);
    assert events[i] in multiset(listed);
  }
}
