/**
 * A worked session of the list view on two villagers, Bob (lazy, hobby
 * "Play") and Ann (peppy, hobby "Fashion"), stated with the engine's
 * contracts only.
 */
module Walkthrough {
  import opened Options
  import opened JsStrings
  import opened Birthdays
  import opened Villagers
  import opened Sorting
  import opened Filtering
  import opened ListView

  function Bob(): Villager { Villager(1, "Bob", "Lazy", "Cat", "Play", Text(13, 2), []) }
  function Ann(): Villager { Villager(2, "Ann", "Peppy", "Cat", "Fashion", Text(1, 1), []) }

  /** Two villagers where `ann` comes first by name and by hobby, and only `bob` has the value "Lazy". */
  predicate Scenario(ann: Villager, bob: Villager)
  {
    Compare(Name, ann, bob) < 0 && Compare(Hobby, ann, bob) < 0 &&
    HasTrait(bob, ["Lazy"]) && !HasTrait(ann, ["Lazy"])
  }

  /** Ann and Bob form such a pair. */
  lemma AnnAndBob()
    ensures Scenario(Ann(), Bob())
  {
    assert Upper("Fashion")[0] == 'F' && Upper("Play")[0] == 'P';
    assert Upper("Ann")[0] == 'A' && Upper("Bob")[0] == 'B';
    SelectedAttributeMatches(Bob(), ["Lazy"]);
    assert Values(Ann()) == ["Peppy", Text(1, 1), "Cat", "Fashion"];
    assert Text(1, 1)[|Decimal(1)|] == '/';
  }

  /** Only `bob` survives the "Lazy" filter. */
  lemma LazyKeepsBob(ann: Villager, bob: Villager)
    requires HasTrait(bob, ["Lazy"]) && !HasTrait(ann, ["Lazy"])
    ensures FilterList([ann, bob], ["Lazy"]) == [bob]
  {
    assert [ann, bob][1..] == [bob] && [bob][1..] == [];
  }

  /** The displays of the session, on the pure derivation. */
  lemma ScenarioDisplays(ann: Villager, bob: Villager)
    requires Scenario(ann, bob)
    ensures SortList(Name, [bob, ann]) == [ann, bob]
    ensures DisplayedList([ann, bob], Some(Hobby), []) == [ann, bob]
    ensures DisplayedList([ann, bob], Some(Hobby), ["Lazy"]) == [bob]
    ensures DisplayedList([ann, bob], None, []) == [ann, bob]
  {
    CompareAntisymmetric(Name, ann, bob);
    CompareAntisymmetric(Hobby, ann, bob);
    SortPair(Comparator(Name), ann, bob);
    SortPair(Comparator(Hobby), ann, bob);
    LazyKeepsBob(ann, bob);
  }

  /**
   * Loading sorts by name; sorting by hobby keeps `ann` first; the "Lazy"
   * filter, once applied, leaves `bob` alone; the reset shows both again.
   * Returns the count with the filter applied and the count after the reset.
   */
  method Session(ann: Villager, bob: Villager) returns (filtered: nat, afterReset: nat)
    requires Scenario(ann, bob)
    ensures filtered == 1 && afterReset == 2
  {
    var engine := new ListEngine();
    ScenarioDisplays(ann, bob);
    var both := [ann, bob];
    engine.Receive([bob, ann]);
    assert engine.base == Ready(both);

    engine.SetSort(Hobby);
    assert engine.base == Ready(both) && engine.sortKey == Some(Hobby);
    assert engine.active == [] && engine.staged == [];
    assert engine.Displayed() == Shown(both);

    engine.CheckboxChecked("Lazy", true);
    assert engine.staged == ["Lazy"];
    engine.ApplyFilters();
    assert engine.active == ["Lazy"];
    assert engine.base == Ready(both) && engine.sortKey == Some(Hobby);
    assert engine.Displayed() == Shown([bob]);
    filtered := engine.Count().value;

    engine.Reset();
    assert engine.base == Ready(both);
    assert engine.Displayed() == Shown(both);
    afterReset := engine.Count().value;
  }
}
