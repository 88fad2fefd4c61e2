/**
 * `filterList` and the removal `checkboxChecked` does on the staged selection,
 * both written in the source with `Array.prototype.filter`.
 */
module Filtering {
  import opened Villagers
  import opened Sorting

  /** `s` is `t` with some elements left out, the rest in their order. */
  ghost predicate IsSubsequence<T>(s: seq<T>, t: seq<T>)
  {
    if s == [] then true
    else if t == [] then false
    else (s[0] == t[0] && IsSubsequence(s[1..], t[1..])) || IsSubsequence(s, t[1..])
  }

  /**
   * `Object.values(villager).some(r => filters.includes(r))`: some string
   * value of the record is one of the selected filter values.
   */
  predicate HasTrait(v: Villager, filters: seq<string>)
  {
    exists i :: 0 <= i < |Values(v)| && Values(v)[i] in filters
  }

  /** A selected personality, species or hobby is enough to match. */
  lemma SelectedAttributeMatches(v: Villager, filters: seq<string>)
    ensures v.personality in filters || v.species in filters || v.hobby in filters ==> HasTrait(v, filters)
  {
    var vs := Values(v);
    assert vs[0] == v.personality && vs[2] == v.species && vs[3] == v.hobby;
  }

  /** Several filter values combine with OR: matching any one of them is enough. */
  lemma FiltersCombineWithOr(v: Villager, f: seq<string>, g: seq<string>)
    ensures HasTrait(v, f + g) <==> HasTrait(v, f) || HasTrait(v, g)
  {
  }

  /** `list.filter(villager => HasTrait(villager, filters))`. */
  function FilterList(l: seq<Villager>, filters: seq<string>): (r: seq<Villager>)
    ensures |r| <= |l|
    ensures forall v :: v in r ==> v in l && HasTrait(v, filters)
  {
    if l == [] then []
    else
      var rest := FilterList(l[1..], filters);
      if HasTrait(l[0], filters) then [l[0]] + rest else rest
  }

  /**
   * A villager is kept exactly when it has a selected value, as many times as
   * it occurs in the list.
   */
  lemma {:induction false} FilterCount(l: seq<Villager>, filters: seq<string>, v: Villager)
    ensures multiset(FilterList(l, filters))[v] == if HasTrait(v, filters) then multiset(l)[v] else 0
  {
    if l != [] {
      FilterCount(l[1..], filters, v);
      assert l == [l[0]] + l[1..];
    }
  }

  lemma FilterMembership(l: seq<Villager>, filters: seq<string>, v: Villager)
    ensures v in FilterList(l, filters) <==> v in l && HasTrait(v, filters)
  {
    FilterCount(l, filters, v);
    assert v in FilterList(l, filters) <==> v in multiset(FilterList(l, filters));
    assert v in l <==> v in multiset(l);
  }

  /** Filtering keeps the remaining villagers in their order. */
  lemma {:induction false} FilterIsSubsequence(l: seq<Villager>, filters: seq<string>)
    ensures IsSubsequence(FilterList(l, filters), l)
  {
    if l != [] {
      FilterIsSubsequence(l[1..], filters);
      var rest := FilterList(l[1..], filters);
      if !HasTrait(l[0], filters) && rest != [] {
        assert IsSubsequence(rest, l[1..]);
      }
    }
  }

  /** An empty filter list matches nothing, which is why the view skips filtering then. */
  lemma EmptyFilterMatchesNothing(l: seq<Villager>)
    ensures FilterList(l, []) == []
  {
    if l != [] {
      assert !HasTrait(l[0], []);
      EmptyFilterMatchesNothing(l[1..]);
    }
  }

  /** A filter every villager matches keeps the whole list. */
  lemma {:induction false} FilterAllMatching(l: seq<Villager>, filters: seq<string>)
    requires forall v :: v in l ==> HasTrait(v, filters)
    ensures FilterList(l, filters) == l
  {
    if l != [] {
      assert l[0] in l;
      assert forall v :: v in l[1..] ==> v in l;
      FilterAllMatching(l[1..], filters);
      assert l == [l[0]] + l[1..];
    }
  }

  /** A list in comparator order stays in order when filtered, if the comparator is consistent on it. */
  lemma {:induction false} FilterKeepsOrder(key: SortKey, l: seq<Villager>, filters: seq<string>)
    requires Ordered(Comparator(key), l) && Consistent(key, l)
    ensures Ordered(Comparator(key), FilterList(l, filters))
  {
    if l != [] {
      var cmp := Comparator(key);
      var t := l[1..];
      OrderedTail(cmp, l);
      assert Consistent(key, t) by {
        assert forall v :: v in t ==> v in l;
      }
      FilterKeepsOrder(key, t, filters);
      var rest := FilterList(t, filters);
      if HasTrait(l[0], filters) {
        if rest != [] {
          ComparatorTransitive(key, l);
          OrderedHeadPrecedesAll(cmp, l);
          assert rest[0] in t;
          var j :| 0 <= j < |t| && t[j] == rest[0];
          assert l[j + 1] == rest[0];
        }
        OrderedCons(cmp, l[0], rest);
      }
    }
  }

  /** `selection.filter(item => item !== value)`: the selection without any copy of `value`. */
  function Without(selection: seq<string>, value: string): (r: seq<string>)
    ensures value !in r
    ensures forall x :: x in r ==> x in selection
  {
    if selection == [] then []
    else
      var rest := Without(selection[1..], value);
      if selection[0] != value then [selection[0]] + rest else rest
  }

  /** Removing a value keeps every other value, as many times as it was selected. */
  lemma {:induction false} WithoutCount(selection: seq<string>, value: string, x: string)
    ensures multiset(Without(selection, value))[x] == if x == value then 0 else multiset(selection)[x]
  {
    if selection != [] {
      WithoutCount(selection[1..], value, x);
      assert selection == [selection[0]] + selection[1..];
    }
  }

  /** Removing a value keeps the other values in their order. */
  lemma {:induction false} WithoutIsSubsequence(selection: seq<string>, value: string)
    ensures IsSubsequence(Without(selection, value), selection)
  {
    if selection != [] {
      WithoutIsSubsequence(selection[1..], value);
    }
  }
}
