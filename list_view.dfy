/**
 * The list view of `ListComponent`: the displayed villagers and their count,
 * derived from the loaded list, the sort option and the active filter, and
 * the state those are kept in.
 */
module ListView {
  import opened Options
  import opened Birthdays
  import opened Villagers
  import opened Sorting
  import opened Filtering

  // ---------------------------------------------------------------------------
  // The derivation: `combineLatest([villagers$, sortOption$, filterOptions$])`

  /** The list after the sort option: re-sorted when an option is set, as loaded otherwise. */
  function Arranged(base: seq<Villager>, sortKey: Option<SortKey>): seq<Villager>
  {
    if sortKey.Some? then SortList(sortKey.value, base) else base
  }

  /**
   * The displayed villagers: the arranged list, filtered when the active
   * filter is non-empty. An empty filter shows everything (filtering with it
   * would keep nothing).
   */
  function DisplayedList(base: seq<Villager>, sortKey: Option<SortKey>, active: seq<string>): (r: seq<Villager>)
    ensures |r| <= |base|
    ensures |active| == 0 ==> multiset(r) == multiset(base)
  {
    var arranged := Arranged(base, sortKey);
    assert |arranged| == |base| by {
      assert |multiset(arranged)| == |multiset(base)|;
    }
    if |active| > 0 then FilterList(arranged, active) else arranged
  }

  /** A villager is displayed exactly when it is loaded and, if a filter is active, has a selected value. */
  lemma DisplayedMembership(base: seq<Villager>, sortKey: Option<SortKey>, active: seq<string>)
    ensures forall v :: v in DisplayedList(base, sortKey, active) <==> v in base && (|active| == 0 || HasTrait(v, active))
  {
    var arranged := Arranged(base, sortKey);
    forall v
      ensures v in DisplayedList(base, sortKey, active) <==> v in base && (|active| == 0 || HasTrait(v, active))
    {
      assert v in arranged <==> v in multiset(arranged);
      assert v in base <==> v in multiset(base);
      FilterMembership(arranged, active, v);
    }
  }

  /** Filtering comes after sorting and does not reorder: the display is a subsequence of the arranged list. */
  lemma DisplayedKeepsArrangedOrder(base: seq<Villager>, sortKey: Option<SortKey>, active: seq<string>)
    ensures IsSubsequence(DisplayedList(base, sortKey, active), Arranged(base, sortKey))
  {
    var arranged := Arranged(base, sortKey);
    if |active| > 0 {
      FilterIsSubsequence(arranged, active);
    } else {
      SubsequenceReflexive(arranged);
    }
  }

  lemma {:induction false} SubsequenceReflexive<T>(s: seq<T>)
    ensures IsSubsequence(s, s)
  {
    if s != [] {
      SubsequenceReflexive(s[1..]);
    }
  }

  /**
   * With a sort option set, the display is in that option's order (for the
   * birthday option, when every loaded birthday is a valid date).
   */
  lemma DisplayedOrdered(base: seq<Villager>, key: SortKey, active: seq<string>)
    requires Consistent(key, base)
    ensures Ordered(Comparator(key), DisplayedList(base, Some(key), active))
  {
    if |active| > 0 {
      SortKeepsConsistent(key, base);
      FilterKeepsOrder(key, SortList(key, base), active);
    }
  }

  /** With no sort option and no filter, the display is the loaded list itself. */
  lemma DisplayedDefault(base: seq<Villager>)
    ensures DisplayedList(base, None, []) == base
  {
  }

  /** The loaded list is sorted by name once; with no sort option, the display keeps that order. */
  lemma DefaultOrderIsByName(fetched: seq<Villager>, active: seq<string>)
    ensures Ordered(Comparator(Name), DisplayedList(SortList(Name, fetched), None, active))
  {
    var base := SortList(Name, fetched);
    if |active| > 0 {
      FilterKeepsOrder(Name, base, active);
    }
  }

  /**
   * Villagers the chosen key ties keep the name order the list was loaded in
   * (for birthdays, when the dates are valid): sorting by hobby lists the
   * villagers of one hobby by name.
   */
  lemma TiesInNameOrder(fetched: seq<Villager>, key: SortKey, e: Villager)
    requires Consistent(key, fetched)
    requires key == Birthday ==> AsWrittenDayNumber(e.birthday).Some?
    ensures Ordered(Comparator(Name), Ties(Comparator(key), e, SortList(key, SortList(Name, fetched))))
  {
    var base := SortList(Name, fetched);
    assert Consistent(key, base) by {
      assert forall v :: v in base ==> v in multiset(fetched);
    }
    SortListStable(key, base, e);
    ComparatorTransitive(Name, base);
    TiesOrdered(Comparator(Name), Comparator(key), e, base);
  }

  // ---------------------------------------------------------------------------
  // The component's state

  /** The `getVillagers()` result as `villagers$` delivers it: not yet, the name-sorted list, or an error. */
  datatype Load = Pending | Ready(villagers: seq<Villager>) | Failed

  /** What `displayedVillagers$` shows: nothing yet, a list, or the error that ended the stream. */
  datatype View = Waiting | Shown(villagers: seq<Villager>) | LoadError

  class ListEngine {
    /** The loaded list, sorted by name once and then shared (`shareReplay`). */
    var base: Load
    /** `checkSelection`: the checkbox values selected since the last apply or reset. */
    var staged: seq<string>
    /** The latest value of the merged filter stream: what the last apply or reset put there. */
    var active: seq<string>
    /** The latest value of the merged sort stream: the select's last option, or none after a reset. */
    var sortKey: Option<SortKey>

    ghost predicate Valid()
      reads this
    {
      base.Ready? ==> Ordered(Comparator(Name), base.villagers)
    }

    /** The state `ngOnInit` starts from: nothing loaded, nothing selected, no filter, no sort. */
    constructor ()
      ensures Valid()
      ensures base == Pending && staged == [] && active == [] && sortKey == None
    {
      base := Pending;
      staged := [];
      active := [];
      sortKey := None;
    }

    /** `getVillagers()` delivers the list: it is sorted by name and kept. */
    method Receive(fetched: seq<Villager>)
      requires Valid() && base == Pending
      modifies this`base
      ensures Valid()
      ensures base == Ready(SortList(Name, fetched))
      ensures multiset(base.villagers) == multiset(fetched)
    {
      base := Ready(SortList(Name, fetched));
    }

    /** `getVillagers()` fails: the error ends the displayed stream. */
    method FetchFailed()
      requires Valid() && base == Pending
      modifies this`base
      ensures Valid() && base == Failed
    {
      base := Failed;
    }

    /**
     * What `displayedVillagers$` shows for the current state. With no sort
     * option the list keeps the name order it was loaded in.
     */
    function Displayed(): (view: View)
      requires Valid()
      reads this
      ensures view.Waiting? <==> base.Pending?
      ensures view.Shown? <==> base.Ready?
      ensures view.Shown? ==> forall v :: v in view.villagers <==>
                v in base.villagers && (|active| == 0 || HasTrait(v, active))
      ensures view.Shown? && sortKey.None? ==> Ordered(Comparator(Name), view.villagers)
    {
      match base
      case Pending => Waiting
      case Failed => LoadError
      case Ready(villagers) =>
        DisplayedMembership(villagers, sortKey, active);
        assert |active| > 0 ==> Ordered(Comparator(Name), FilterList(villagers, active)) by {
          if |active| > 0 {
            FilterKeepsOrder(Name, villagers, active);
          }
        }
        Shown(DisplayedList(villagers, sortKey, active))
    }

    /** `displayedVillagerCount$`: the length of the displayed list, whenever there is one. */
    function Count(): (c: Option<nat>)
      requires Valid()
      reads this
      ensures c.Some? <==> Displayed().Shown?
      ensures c.Some? ==> c.value == |Displayed().villagers|
    {
      match Displayed()
      case Shown(villagers) => Some(|villagers|)
      case _ => None
    }

    /**
     * `checkboxChecked`: a checked value is appended to the staged selection,
     * an unchecked one is removed from it wherever it occurs. The display does
     * not change until the selection is applied.
     */
    method CheckboxChecked(value: string, checked: bool)
      requires Valid()
      modifies this`staged
      ensures Valid()
      ensures staged == if checked then old(staged) + [value] else Without(old(staged), value)
      ensures Displayed() == old(Displayed())
    {
      staged := if checked then staged + [value] else Without(staged, value);
    }

    /** `applyFilters`: the staged selection becomes the active filter. */
    method ApplyFilters()
      requires Valid()
      modifies this`active
      ensures Valid()
      ensures active == staged
    {
      active := staged;
    }

    /** A new option of the sort select: the display is re-sorted by it. */
    method SetSort(key: SortKey)
      requires Valid()
      modifies this`sortKey
      ensures Valid()
      ensures sortKey == Some(key)
    {
      sortKey := Some(key);
    }

    /**
     * The reset button: the staged selection, the active filter and the sort
     * option are all cleared at once, so the display is the name-sorted list.
     */
    method Reset()
      requires Valid()
      modifies this`staged, this`active, this`sortKey
      ensures Valid()
      ensures staged == [] && active == [] && sortKey == None
      ensures base.Ready? ==> Displayed() == Shown(base.villagers)
    {
      staged := [];
      sortKey := None;
      active := [];
    }
  }
}
