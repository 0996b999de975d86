/** Flavor rules over an instance's creation and updates, for one catalogue of flavors. */
module Flavors {
  import opened Ordering

  datatype Flavor = Flavor(name: string, creationOnly: bool, incompatible: seq<string>)

  type Catalogue = seq<Flavor>

  datatype Error =
    | InstanceExists
    | InstanceNotFound
    | SetTwice(flavor: string)
    | FlavorNotFound(flavor: string)
    | OnlyInCreation(flavor: string)
    | Incompatible(flavor: string, other: string)
    | CannotUnset(flavor: string)

  /** The first flavor of that name. */
  function SelectFlavor(all: Catalogue, name: string): (r: Option<Flavor>)
    ensures r.Some? ==> r.value in all && r.value.name == name
    ensures r.None? ==> forall f :: f in all ==> f.name != name
  {
    if all == [] then None
    else if all[0].name == name then Some(all[0])
    else SelectFlavor(all[1..], name)
  }

  /** Of several flavors of one name the first counts. */
  lemma {:induction false} FirstFlavorCounts(all: Catalogue, i: nat)
    requires i < |all| && forall k :: 0 <= k < i ==> all[k].name != all[i].name
    ensures SelectFlavor(all, all[i].name) == Some(all[i])
  {
    if i > 0 {
      FirstFlavorCounts(all[1..], i - 1);
    }
  }

  predicate IsCreationOnly(all: Catalogue, name: string) {
    SelectFlavor(all, name).Some? && SelectFlavor(all, name).value.creationOnly
  }

  /** `f` is in the catalogue and lists `g` as incompatible. */
  predicate Excludes(all: Catalogue, f: string, g: string) {
    SelectFlavor(all, f).Some? && g in SelectFlavor(all, f).value.incompatible
  }

  function Existing(instance: Option<seq<string>>): seq<string> {
    if instance.Some? then instance.value else []
  }

  // ---------- The rules ----------

  ghost predicate AddedIsFine(all: Catalogue, creation: bool, wanted: seq<string>, f: string) {
    && SelectFlavor(all, f).Some?
    && (IsCreationOnly(all, f) ==> creation)
    && forall g :: g in wanted ==> !Excludes(all, f, g)
  }

  /** A list is acceptable: no repetition, every added flavor usable now, no creation-only flavor unset. */
  ghost predicate Acceptable(all: Catalogue, instance: Option<seq<string>>, wanted: seq<string>) {
    && NoRepeats(wanted)
    && (forall f :: f in wanted && f !in Existing(instance) ==> AddedIsFine(all, instance.None?, wanted, f))
    && (forall f :: f in Existing(instance) && f !in wanted ==> !IsCreationOnly(all, f))
  }

  /** The complaint is true. */
  ghost predicate Offends(all: Catalogue, instance: Option<seq<string>>, wanted: seq<string>, e: Error) {
    match e
    case InstanceExists => instance.Some?
    case InstanceNotFound => instance.None?
    case SetTwice(f) => multiset(wanted)[f] > 1
    case FlavorNotFound(f) => f in wanted && f !in Existing(instance) && SelectFlavor(all, f).None?
    case OnlyInCreation(f) => f in wanted && f !in Existing(instance) && IsCreationOnly(all, f) && instance.Some?
    case Incompatible(f, g) => f in wanted && f !in Existing(instance) && g in wanted && Excludes(all, f, g)
    case CannotUnset(f) => f in Existing(instance) && f !in wanted && IsCreationOnly(all, f)
  }

  // ---------- The code ----------

  method DiffFlavors(existing: seq<string>, updated: seq<string>) returns (added: seq<string>, removed: seq<string>)
    ensures forall f :: f in added <==> f in updated && f !in existing
    ensures forall f :: f in removed <==> f in existing && f !in updated
  {
    added, removed := [], [];
    for i := 0 to |updated|
      invariant forall f :: f in added <==> f in updated[..i] && f !in existing
    {
      if updated[i] !in existing {
        added := added + [updated[i]];
      }
    }
    for i := 0 to |existing|
      invariant forall f :: f in removed <==> f in existing[..i] && f !in updated
    {
      if existing[i] !in updated {
        removed := removed + [existing[i]];
      }
    }
  }

  method CheckForIncompatibleFlavors(incompatible: seq<string>, all: seq<string>) returns (found: Option<string>)
    ensures found.None? <==> forall g :: g in incompatible ==> g !in all
    ensures found.Some? ==> found.value in incompatible && found.value in all
  {
    for i := 0 to |incompatible|
      invariant forall g :: g in incompatible[..i] ==> g !in all
    {
      if incompatible[i] in all {
        return Some(incompatible[i]);
      }
    }
    return None;
  }

  /** The first flavor given a second time. */
  method FindRepeated(wanted: seq<string>) returns (found: Option<string>)
    ensures found.None? <==> NoRepeats(wanted)
    ensures found.Some? ==> multiset(wanted)[found.value] > 1
  {
    var encountered: set<string> := {};
    for i := 0 to |wanted|
      invariant NoRepeats(wanted[..i])
      invariant forall f :: f in encountered <==> f in wanted[..i]
    {
      if wanted[i] in encountered {
        assert wanted == wanted[..i] + [wanted[i]] + wanted[i + 1..];
        NoRepeatsIsMultiplicityOne(wanted);
        return Some(wanted[i]);
      }
      encountered := encountered + {wanted[i]};
      assert wanted[..i + 1] == wanted[..i] + [wanted[i]];
    }
    assert wanted[..|wanted|] == wanted;
    return None;
  }

  method CheckAdded(all: Catalogue, instance: Option<seq<string>>, wanted: seq<string>, f: string)
    returns (error: Option<Error>)
    requires f in wanted && f !in Existing(instance)
    ensures error.None? <==> AddedIsFine(all, instance.None?, wanted, f)
    ensures error.Some? ==> Offends(all, instance, wanted, error.value)
  {
    var flavor := SelectFlavor(all, f);
    if flavor.None? {
      return Some(FlavorNotFound(f));
    }
    if flavor.value.creationOnly && instance.Some? {
      return Some(OnlyInCreation(f));
    }
    var other := CheckForIncompatibleFlavors(flavor.value.incompatible, wanted);
    if other.Some? {
      assert Excludes(all, f, other.value);
      return Some(Incompatible(f, other.value));
    }
    return None;
  }

  method ValidateFlavors(all: Catalogue, instance: Option<seq<string>>, wanted: seq<string>)
    returns (error: Option<Error>)
    ensures error.None? <==> Acceptable(all, instance, wanted)
    ensures error.Some? ==> Offends(all, instance, wanted, error.value)
  {
    var repeated := FindRepeated(wanted);
    if repeated.Some? {
      return Some(SetTwice(repeated.value));
    }
    var added, removed := DiffFlavors(Existing(instance), wanted);
    for i := 0 to |added|
      invariant forall f :: f in added[..i] ==> AddedIsFine(all, instance.None?, wanted, f)
    {
      assert added[i] in added;
      error := CheckAdded(all, instance, wanted, added[i]);
      if error.Some? {
        return;
      }
    }
    for i := 0 to |removed|
      invariant forall f :: f in removed[..i] ==> !IsCreationOnly(all, f)
    {
      assert removed[i] in removed;
      var flavor := SelectFlavor(all, removed[i]);
      if flavor.Some? && flavor.value.creationOnly {
        return Some(CannotUnset(removed[i]));
      }
    }
    return None;
  }

  datatype Call = Create(wanted: seq<string>) | Update(wanted: seq<string>)

  /** What a call leaves: the wanted list if it is accepted, and otherwise what there was. */
  ghost function After(all: Catalogue, instance: Option<seq<string>>, call: Call): Option<seq<string>> {
    if call.Create? == instance.None? && Acceptable(all, instance, call.wanted) then Some(call.wanted) else instance
  }

  ghost function Run(all: Catalogue, instance: Option<seq<string>>, calls: seq<Call>): Option<seq<string>> {
    if calls == [] then instance else After(all, Run(all, instance, calls[..|calls| - 1]), calls[|calls| - 1])
  }

  /** One instance's flavors, as stored. */
  class Manager {
    const catalogue: Catalogue
    var instance: Option<seq<string>>

    constructor (catalogue: Catalogue)
      ensures this.catalogue == catalogue && instance == None
    {
      this.catalogue := catalogue;
      this.instance := None;
    }

    method CreateInstance(wanted: seq<string>) returns (error: Option<Error>)
      modifies this
      ensures instance == After(catalogue, old(instance), Create(wanted))
      ensures error.None? <==> old(instance).None? && Acceptable(catalogue, None, wanted)
      ensures error.Some? ==> Offends(catalogue, old(instance), wanted, error.value)
    {
      if instance.Some? {
        return Some(InstanceExists);
      }
      error := ValidateFlavors(catalogue, None, wanted);
      if error.None? {
        instance := Some(wanted);
      }
    }

    method UpdateInstance(wanted: seq<string>) returns (error: Option<Error>)
      modifies this
      ensures instance == After(catalogue, old(instance), Update(wanted))
      ensures error.None? <==> old(instance).Some? && Acceptable(catalogue, old(instance), wanted)
      ensures error.Some? ==> Offends(catalogue, old(instance), wanted, error.value)
    {
      if instance.None? {
        return Some(InstanceNotFound);
      }
      error := ValidateFlavors(catalogue, instance, wanted);
      if error.None? {
        instance := Some(wanted);
      }
    }
  }

  /**
    Which lists are accepted, flavor by flavor, in a catalogue without equal names: no flavor twice; each one added
    is in the catalogue, is not creation-only unless the instance is new, and excludes none of the list; and each
    one taken away is not creation-only.
   */
  lemma AcceptableIff(all: Catalogue, instance: Option<seq<string>>, wanted: seq<string>)
    requires forall i, j :: 0 <= i < j < |all| ==> all[i].name != all[j].name
    ensures Acceptable(all, instance, wanted) <==>
      && (forall i, j :: 0 <= i < j < |wanted| ==> wanted[i] != wanted[j])
      && (forall f :: f in wanted && (instance.None? || f !in instance.value) ==>
            exists o :: o in all && o.name == f && (o.creationOnly ==> instance.None?) &&
                        forall g :: g in wanted ==> g !in o.incompatible)
      && (forall f, o :: instance.Some? && f in instance.value && f !in wanted && o in all && o.name == f ==>
            !o.creationOnly)
  {
    forall o | o in all
      ensures SelectFlavor(all, o.name) == Some(o)
    {
      var i :| 0 <= i < |all| && all[i] == o;
      FirstFlavorCounts(all, i);
    }
    forall f
      ensures AddedIsFine(all, instance.None?, wanted, f) <==>
              exists o :: o in all && o.name == f && (o.creationOnly ==> instance.None?) &&
                          forall g :: g in wanted ==> g !in o.incompatible
    {
      var o := SelectFlavor(all, f);
      if o.Some? && AddedIsFine(all, instance.None?, wanted, f) {
        assert forall g :: g in wanted ==> !Excludes(all, f, g);
      }
    }
  }

  // ---------- What every run keeps ----------

  ghost function CreationOnlyAmong(all: Catalogue, flavors: seq<string>): set<string> {
    set f | f in flavors && IsCreationOnly(all, f)
  }

  /** Every flavor is in the catalogue, can be set at all, and is set once. */
  ghost predicate Usable(all: Catalogue, flavors: seq<string>) {
    NoRepeats(flavors) && forall f :: f in flavors ==> SelectFlavor(all, f).Some? && !Excludes(all, f, f)
  }

  lemma AcceptedIsUsable(all: Catalogue, instance: Option<seq<string>>, wanted: seq<string>)
    requires Acceptable(all, instance, wanted) && Usable(all, Existing(instance))
    ensures Usable(all, wanted)
    ensures instance.Some? ==> CreationOnlyAmong(all, wanted) == CreationOnlyAmong(all, instance.value)
  {
    forall f | f in wanted
      ensures SelectFlavor(all, f).Some? && !Excludes(all, f, f)
    {
      if f !in Existing(instance) {
        assert AddedIsFine(all, instance.None?, wanted, f);
      }
    }
    forall f | f in wanted && f !in Existing(instance) && instance.Some?
      ensures !IsCreationOnly(all, f)
    {
      assert AddedIsFine(all, instance.None?, wanted, f);
    }
  }

  /**
    Whatever is created and however it is updated after: flavors stay in the catalogue, without
    repetition, and the creation-only ones are those of the creation.
   */
  lemma {:induction false} RunKeepsCreationOnly(all: Catalogue, created: seq<string>, calls: seq<Call>)
    requires Acceptable(all, None, created)
    ensures var now := Run(all, Some(created), calls);
            && now.Some?
            && Usable(all, now.value)
            && CreationOnlyAmong(all, now.value) == CreationOnlyAmong(all, created)
    decreases |calls|
  {
    if calls == [] {
      AcceptedIsUsable(all, None, created);
    } else {
      var before, call := Run(all, Some(created), calls[..|calls| - 1]), calls[|calls| - 1];
      RunKeepsCreationOnly(all, created, calls[..|calls| - 1]);
      if call.Update? && Acceptable(all, before, call.wanted) {
        AcceptedIsUsable(all, before, call.wanted);
      }
    }
  }

  ghost predicate ConflictFree(all: Catalogue, flavors: seq<string>) {
    forall f, g :: f in flavors && g in flavors ==> !Excludes(all, f, g)
  }

  ghost predicate CanBeSet(all: Catalogue, f: string) {
    SelectFlavor(all, f).Some? && !Excludes(all, f, f)
  }

  /**
    A flavor that could be added later excludes, in turn, every flavor that excludes it. Flavors that
    exclude themselves are left aside: they can never be set.
   */
  ghost predicate MutualWhereNeeded(all: Catalogue) {
    forall f, g :: CanBeSet(all, f) && CanBeSet(all, g) && Excludes(all, f, g) && !IsCreationOnly(all, g)
                   ==> Excludes(all, g, f)
  }

  /** Every run from nothing ends without two flavors one of which excludes the other. */
  ghost predicate NeverConflicts(all: Catalogue) {
    forall calls :: ConflictFree(all, Existing(Run(all, None, calls)))
  }

  lemma AcceptedIsConflictFree(all: Catalogue, instance: Option<seq<string>>, wanted: seq<string>)
    requires MutualWhereNeeded(all)
    requires Usable(all, Existing(instance)) && ConflictFree(all, Existing(instance))
    requires Acceptable(all, instance, wanted)
    ensures ConflictFree(all, wanted)
  {
    AcceptedIsUsable(all, instance, wanted);
    forall f, g | f in wanted && g in wanted
      ensures !Excludes(all, f, g)
    {
      if f !in Existing(instance) {
        assert AddedIsFine(all, instance.None?, wanted, f);
      } else if g !in Existing(instance) {
        assert AddedIsFine(all, instance.None?, wanted, g);
        assert CanBeSet(all, f) && CanBeSet(all, g);
      }
    }
  }

  lemma {:induction false} RunIsConflictFree(all: Catalogue, calls: seq<Call>)
    requires MutualWhereNeeded(all)
    ensures var now := Existing(Run(all, None, calls)); Usable(all, now) && ConflictFree(all, now)
    decreases |calls|
  {
    if calls != [] {
      var before, call := Run(all, None, calls[..|calls| - 1]), calls[|calls| - 1];
      RunIsConflictFree(all, calls[..|calls| - 1]);
      if Acceptable(all, before, call.wanted) {
        AcceptedIsUsable(all, before, call.wanted);
        AcceptedIsConflictFree(all, before, call.wanted);
      }
    }
  }

  /** Setting `f` alone and `g` later gets past the check, which only looks at the lists of added flavors. */
  lemma LaterAdditionConflicts(all: Catalogue, f: string, g: string)
    requires CanBeSet(all, f) && CanBeSet(all, g) && !IsCreationOnly(all, g)
    requires Excludes(all, f, g) && !Excludes(all, g, f)
    ensures Run(all, None, [Create([f]), Update([f, g])]) == Some([f, g])
    ensures !ConflictFree(all, [f, g])
  {
    var calls := [Create([f]), Update([f, g])];
    assert calls[..1] == [Create([f])] && calls[..1][..0] == [];
    assert Run(all, None, []) == None;
    assert AddedIsFine(all, true, [f], f);
    assert Acceptable(all, None, [f]);
    assert Run(all, None, [Create([f])]) == Some([f]);
    assert AddedIsFine(all, false, [f, g], g);
    assert Acceptable(all, Some([f]), [f, g]);
    assert f in [f, g] && g in [f, g];
  }

  /** No run ever holds two incompatible flavors exactly when the lists are mutual where that matters. */
  lemma NeverConflictsIff(all: Catalogue)
    ensures NeverConflicts(all) <==> MutualWhereNeeded(all)
  {
    if MutualWhereNeeded(all) {
      forall calls
        ensures ConflictFree(all, Existing(Run(all, None, calls)))
      {
        RunIsConflictFree(all, calls);
      }
    } else {
      var f, g :| CanBeSet(all, f) && CanBeSet(all, g) && Excludes(all, f, g) && !IsCreationOnly(all, g)
                  && !Excludes(all, g, f);
      LaterAdditionConflicts(all, f, g);
      assert !ConflictFree(all, Existing(Run(all, None, [Create([f]), Update([f, g])])));
    }
  }
}
