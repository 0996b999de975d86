/**
  TLS session-ticket keys: the Secret the controller keeps, slot 0 the current key, and the rotation
  its cron job applies to it as a JSON patch.
 */
module SessionTickets {
  import opened Ordering

  type Key = seq<bv8>

  /** The Secret's data, slot i standing for the entry "ticket.i.key". */
  type Data = map<nat, Key>

  datatype PatchOp = Copy(from: nat, to: nat) | Replace(at: nat, key: Key)

  /** What an instance asks for: nothing, or the current key and this many old ones. */
  datatype Wish = Disabled | Keep(lastKeys: nat)

  function KeysOf(wish: Wish): nat {
    (if wish.Keep? then wish.lastKeys else 0) + 1
  }

  function Slots(n: nat): (slots: set<nat>)
    ensures forall i: nat :: i in slots <==> i < n
  {
    if n == 0 then {} else Slots(n - 1) + {n - 1}
  }

  // ---------- Rotation ----------

  /** The script's payload: copies from the last slot down, then the new key. */
  function Copies(n: nat): seq<PatchOp>
    decreases n
  {
    if n <= 1 then [] else [Copy(n - 2, n - 1)] + Copies(n - 1)
  }

  function Payload(n: nat, key: Key): seq<PatchOp> {
    Copies(n) + [Replace(0, key)]
  }

  method JsonPatchPayload(n: nat, key: Key) returns (ops: seq<PatchOp>)
    ensures ops == Payload(n, key)
  {
    ops := [];
    var i := n - 1;
    while i >= 1
      invariant i <= n - 1
      invariant ops + Copies(if i >= 0 then i + 1 else 0) == Copies(n)
      decreases i
    {
      ghost var before := ops;
      ops := ops + [Copy(i - 1, i)];
      assert before + ([Copy(i - 1, i)] + Copies(i)) == ops + Copies(i);
      i := i - 1;
    }
    ops := ops + [Replace(0, key)];
  }

  /** One operation of RFC 6902: copy needs its source (section 4.5), replace its target (section 4.3). */
  function ApplyOp(data: Data, op: PatchOp): Option<Data> {
    match op
    case Copy(from, to) => if from in data then Some(data[to := data[from]]) else None
    case Replace(at, key) => if at in data then Some(data[at := key]) else None
  }

  /** Operations apply in order, and the document is left alone if one fails (sections 3 and 5). */
  function ApplyPatch(data: Data, ops: seq<PatchOp>): Option<Data>
    decreases |ops|
  {
    if ops == [] then Some(data)
    else match ApplyOp(data, ops[0]) case None => None case Some(d) => ApplyPatch(d, ops[1..])
  }

  function Rotated(data: Data, n: nat, key: Key): Data {
    match ApplyPatch(data, Payload(n, key)) case Some(d) => d case None => data
  }

  lemma {:induction false} PatchAppend(data: Data, a: seq<PatchOp>, b: seq<PatchOp>)
    ensures ApplyPatch(data, a + b) ==
            match ApplyPatch(data, a) case None => None case Some(d) => ApplyPatch(d, b)
    decreases |a|
  {
    if a == [] {
      assert a + b == b;
    } else {
      assert (a + b)[1..] == a[1..] + b;
      match ApplyOp(data, a[0])
      case None =>
      case Some(d) => PatchAppend(d, a[1..], b);
    }
  }

  /** The slots a rotation for n keys copies from. */
  predicate HasSources(data: Data, n: nat) {
    forall i: nat :: i + 1 < n ==> i in data
  }

  /** `d` is `data` with each slot below n taking the key of the one before it, slot 0 aside. */
  ghost predicate IsShift(data: Data, n: nat, d: Data) {
    && (forall i {:trigger i in d} :: i in d <==> i in data || 0 < i < n)
    && (forall i {:trigger d[i]} :: i in d ==>
          if 0 < i < n then i - 1 in data && d[i] == data[i - 1] else i in data && d[i] == data[i])
  }

  lemma CopiesUnfold(data: Data, n: nat)
    requires n >= 2
    ensures n - 2 !in data ==> ApplyPatch(data, Copies(n)).None?
    ensures n - 2 in data ==> ApplyPatch(data, Copies(n)) == ApplyPatch(data[n - 1 := data[n - 2]], Copies(n - 1))
  {
    assert Copies(n)[1..] == Copies(n - 1);
  }

  lemma {:induction false} CopiesFail(data: Data, n: nat)
    requires !HasSources(data, n)
    ensures ApplyPatch(data, Copies(n)).None?
    decreases n
  {
    if n >= 2 {
      CopiesUnfold(data, n);
      if n - 2 in data {
        var d := data[n - 1 := data[n - 2]];
        var i: nat :| i + 1 < n && i !in data;
        assert i + 1 < n - 1 && i !in d;
        CopiesFail(d, n - 1);
      }
    }
  }

  lemma {:induction false} CopiesShift(data: Data, n: nat)
    requires HasSources(data, n)
    ensures ApplyPatch(data, Copies(n)).Some? && IsShift(data, n, ApplyPatch(data, Copies(n)).value)
    decreases n
  {
    if n >= 2 {
      CopiesUnfold(data, n);
      assert (n - 2) + 1 < n;
      var d := data[n - 1 := data[n - 2]];
      CopiesShift(d, n - 1);
    }
  }

  /** After a rotation for n keys. */
  function Turned(data: Data, n: nat, key: Key): Data
    requires HasSources(data, n)
  {
    map i | i in data.Keys + Slots(n) :: if i == 0 then key else if i < n then data[i - 1] else data[i]
  }

  /**
    A rotation for n keys goes through exactly when slot 0 and every slot below n - 1 are there;
    then every slot below n holds the key of the one before it, slot 0 the new key, and the rest
    what they held.
   */
  lemma RotationSucceedsIff(data: Data, n: nat, key: Key)
    ensures ApplyPatch(data, Payload(n, key)).Some? <==> 0 in data && HasSources(data, n)
    ensures 0 in data && HasSources(data, n) ==> ApplyPatch(data, Payload(n, key)) == Some(Turned(data, n, key))
  {
    PatchAppend(data, Copies(n), [Replace(0, key)]);
    if HasSources(data, n) {
      CopiesShift(data, n);
      var d := ApplyPatch(data, Copies(n)).value;
      assert [Replace(0, key)][1..] == [];
      assert ApplyPatch(d, [Replace(0, key)]) ==
             match ApplyOp(d, Replace(0, key)) case None => None case Some(e) => ApplyPatch(e, []);
      if 0 in data {
        assert d[0 := key] == Turned(data, n, key);
      }
    } else {
      CopiesFail(data, n);
    }
  }

  // ---------- The controller ----------

  /** Drawn keys fill the slots the Secret lacks; slots beyond the wish go. */
  function Kept(have: Data, drawn: Data): Data {
    map i | i in drawn :: if i in have then have[i] else drawn[i]
  }

  /** Visits both maps in any order. */
  method NewSessionTicketData(have: Data, drawn: Data) returns (newest: Data)
    ensures newest == Kept(have, drawn)
  {
    newest := map[];
    var todo := drawn.Keys;
    while todo != {}
      invariant todo <= drawn.Keys
      invariant newest == map i | i in drawn && i !in todo :: if i in have then have[i] else drawn[i]
    {
      var i :| i in todo;
      todo := todo - {i};
      if i in have {
        newest := newest[i := have[i]];
        continue;
      }
      newest := newest[i := drawn[i]];
    }
    todo := have.Keys;
    while todo != {}
      invariant todo <= have.Keys && newest == Kept(have, drawn)
    {
      var i :| i in todo;
      todo := todo - {i};
      if i in drawn {
        newest := newest[i := have[i]];
      }
    }
  }

  function Reconciled(secret: Option<Data>, wish: Wish, drawn: Data): Option<Data> {
    if wish == Disabled then None
    else Some(if secret.None? then drawn else Kept(secret.value, drawn))
  }

  class TicketReconciler {
    var secret: Option<Data>

    /** `random` stands for the keys drawn afresh on every pass. */
    method ReconcileSecret(wish: Wish, random: nat -> Key) returns (changed: bool)
      modifies this
      ensures secret == Reconciled(old(secret), wish, map i | i in Slots(KeysOf(wish)) :: random(i))
      ensures changed <==> secret != old(secret)
    {
      var drawn: Data := map[];
      for i := 0 to KeysOf(wish)
        invariant drawn == map j | j in Slots(i) :: random(j)
      {
        drawn := drawn[i := random(i)];
      }
      if secret.None? {
        if wish == Disabled {
          return false;
        }
        secret := Some(drawn);
        return true;
      }
      if wish == Disabled {
        secret := None;
        return true;
      }
      var newest := NewSessionTicketData(secret.value, drawn);
      if newest != secret.value {
        secret := Some(newest);
        return true;
      }
      changed := false;
    }
  }

  // ---------- Runs ----------

  /** The cron job rotates as many keys as the last pass asked for. */
  datatype Event = Reconcile(wish: Wish, drawn: Data) | Rotate(key: Key)

  /** `asked` is the number of keys the last pass asked for, zero when it disabled tickets. */
  datatype State = State(secret: Option<Data>, asked: nat)

  predicate Drawn(e: Event) {
    e.Reconcile? ==> e.drawn.Keys == Slots(KeysOf(e.wish))
  }

  function Next(s: State, e: Event): State {
    match e
    case Reconcile(wish, drawn) =>
      State(Reconciled(s.secret, wish, drawn), if wish == Disabled then 0 else KeysOf(wish))
    case Rotate(key) =>
      if s.secret.None? then s else State(Some(Rotated(s.secret.value, s.asked, key)), s.asked)
  }

  function Run(s: State, events: seq<Event>): State
    decreases |events|
  {
    if events == [] then s else Run(Next(s, events[0]), events[1..])
  }

  /** The slots are exactly 0 to asked - 1, or there is no Secret. */
  predicate Aligned(s: State) {
    match s.secret case None => s.asked == 0 case Some(d) => s.asked >= 1 && d.Keys == Slots(s.asked)
  }

  lemma RotationOfAligned(data: Data, n: nat, key: Key)
    requires n >= 1 && data.Keys == Slots(n)
    ensures Rotated(data, n, key) == map i | i in Slots(n) :: if i == 0 then key else data[i - 1]
  {
    RotationSucceedsIff(data, n, key);
  }

  lemma {:induction false} RunKeepsAligned(s: State, events: seq<Event>)
    requires Aligned(s) && forall e :: e in events ==> Drawn(e)
    ensures Aligned(Run(s, events))
    decreases |events|
  {
    if events != [] {
      assert events[0] in events;
      if events[0].Rotate? && s.secret.Some? {
        RotationOfAligned(s.secret.value, s.asked, events[0].key);
      }
      RunKeepsAligned(Next(s, events[0]), events[1..]);
    }
  }

  /** The keys rotated in, newest first. */
  function Rotations(events: seq<Event>): seq<Key>
    decreases |events|
  {
    if events == [] then []
    else Rotations(events[1..]) + if events[0].Rotate? then [events[0].key] else []
  }

  function AsSeq(data: Data, n: nat): seq<Key>
    requires data.Keys == Slots(n)
  {
    seq(n, i requires 0 <= i < n => data[i])
  }

  /** Passes that ask for the same number of keys, and rotations. */
  predicate Steady(events: seq<Event>, n: nat) {
    forall e :: e in events ==> Drawn(e) && (e.Reconcile? ==> e.wish.Keep? && KeysOf(e.wish) == n)
  }

  lemma RotationInOrder(data: Data, n: nat, key: Key)
    requires n >= 1 && data.Keys == Slots(n)
    ensures Rotated(data, n, key).Keys == Slots(n)
    ensures AsSeq(Rotated(data, n, key), n) == ([key] + AsSeq(data, n))[..n]
  {
    RotationOfAligned(data, n, key);
  }

  lemma RotationsAfter(e: Event, events: seq<Event>, tail: seq<Key>)
    ensures Rotations([e] + events) + tail == Rotations(events) + ((if e.Rotate? then [e.key] else []) + tail)
  {
    assert ([e] + events)[1..] == events;
  }

  /**
    While the number of keys stays n, the slots read in order are the keys rotated in, newest first,
    followed by the original ones, cut to n: slot i holds the key that was slot 0 exactly i rotations
    ago. Passes in between change nothing, although each draws fresh keys.
   */
  lemma {:induction false} SlotsAreTheLatestKeys(data: Data, n: nat, events: seq<Event>)
    requires n >= 1 && data.Keys == Slots(n) && Steady(events, n)
    ensures var t := Run(State(Some(data), n), events);
            && t.asked == n && t.secret.Some? && t.secret.value.Keys == Slots(n)
            && AsSeq(t.secret.value, n) == (Rotations(events) + AsSeq(data, n))[..n]
    decreases |events|
  {
    if events != [] {
      var e, rest := events[0], events[1..];
      assert events == [e] + rest;
      assert e in events;
      RotationsAfter(e, rest, AsSeq(data, n));
      if e.Rotate? {
        var d := Rotated(data, n, e.key);
        RotationInOrder(data, n, e.key);
        SlotsAreTheLatestKeys(d, n, rest);
        CutOfCut(Rotations(rest), [e.key] + AsSeq(data, n), n);
      } else {
        assert Kept(data, e.drawn) == data;
        SlotsAreTheLatestKeys(data, n, rest);
        assert [] + AsSeq(data, n) == AsSeq(data, n);
      }
    }
  }

  lemma CutOfCut(a: seq<Key>, b: seq<Key>, n: nat)
    requires n <= |b|
    ensures (a + b[..n])[..n] == (a + b)[..n]
  {
  }

  /** Asking for another number of keys keeps every slot that both numbers have, and makes the slots match it. */
  lemma ResizeKeepsSurvivors(data: Data, wish: Wish, drawn: Data)
    requires wish.Keep? && drawn.Keys == Slots(KeysOf(wish))
    ensures var d := Reconciled(Some(data), wish, drawn);
            && d.Some? && d.value.Keys == Slots(KeysOf(wish))
            && (forall i :: i in data && i < KeysOf(wish) ==> d.value[i] == data[i])
            && (forall i: nat :: i !in data && i < KeysOf(wish) ==> d.value[i] == drawn[i])
  {
  }

  /**
    After a pass that asks to keep `lastKeys` old keys, the slots are 0 to `lastKeys`: those that were there as they
    were, the others freshly drawn. A pass that asks for none leaves no Secret.
   */
  lemma PassGivesSlots(secret: Option<Data>, wish: Wish, drawn: Data, i: nat)
    requires drawn.Keys == Slots(KeysOf(wish))
    ensures wish == Disabled ==> Reconciled(secret, wish, drawn) == None
    ensures wish.Keep? ==>
      var d := Reconciled(secret, wish, drawn);
      && d.Some? && (i in d.value <==> i <= wish.lastKeys) && (i in drawn <==> i <= wish.lastKeys)
      && (i in d.value ==> d.value[i] == if secret.Some? && i in secret.value then secret.value[i] else drawn[i])
  {
  }

  /** A repeated pass changes nothing, whatever keys it draws. */
  lemma RepeatedPassIsIdle(secret: Option<Data>, wish: Wish, drawn: Data, again: Data)
    requires drawn.Keys == again.Keys == Slots(KeysOf(wish))
    ensures Reconciled(Reconciled(secret, wish, drawn), wish, again) == Reconciled(secret, wish, drawn)
  {
    var d := Reconciled(secret, wish, drawn);
    if d.Some? {
      assert Kept(d.value, again) == d.value;
    }
  }
}
