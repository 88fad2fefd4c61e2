/**
 * `sortList`: a copy of the list sorted with the comparator of the chosen key.
 * The sort is a stable insertion sort: a sorted permutation in which elements
 * the comparator ties keep their order, as `Array.prototype.sort` must give.
 * The birthday comparator is the one the source writes; the corrected one is
 * at the end of the module.
 */
module Sorting {
  import opened Options
  import opened JsStrings
  import opened Birthdays
  import opened Villagers

  /**
   * The birthday comparator, as the sort reads it: the difference of the two
   * as-written keys `new Date(2020, month, day)` (in days; `getTime()` gives
   * the same sign in milliseconds), and 0 when either date is invalid,
   * because the sort reads a `NaN` result as 0.
   */
  function CompareBirthdays(x: string, y: string): (r: int)
    ensures x == y ==> r == 0
    ensures AsWrittenDayNumber(x).Some? && AsWrittenDayNumber(y).Some? ==>
              (r < 0 <==> AsWrittenDayNumber(x).value < AsWrittenDayNumber(y).value) &&
              (r == 0 <==> AsWrittenDayNumber(x).value == AsWrittenDayNumber(y).value)
    ensures AsWrittenDayNumber(x).None? || AsWrittenDayNumber(y).None? ==> r == 0
  {
    var kx, ky := AsWrittenDayNumber(x), AsWrittenDayNumber(y);
    if kx.Some? && ky.Some? then kx.value - ky.value else 0
  }

  /**
   * The comparator `sortList` uses for `key`. For the name and the
   * personality, species and hobby keys it compares the upper-cased texts and
   * returns only -1, 0 or 1; texts that differ only in letter case compare equal.
   */
  function Compare(key: SortKey, a: Villager, b: Villager): (r: int)
    ensures key != Birthday ==> -1 <= r <= 1
    ensures key != Birthday ==> (r == 0 <==> Upper(TextField(key, a)) == Upper(TextField(key, b)))
    ensures key != Birthday ==> (r < 0 <==> StrLess(Upper(TextField(key, a)), Upper(TextField(key, b))))
    ensures key == Birthday && a.birthday == b.birthday ==> r == 0
  {
    if key == Birthday then CompareBirthdays(a.birthday, b.birthday)
    else CompareStrings(Upper(TextField(key, a)), Upper(TextField(key, b)))
  }

  /** Swapping the operands negates the comparison. */
  lemma CompareAntisymmetric(key: SortKey, a: Villager, b: Villager)
    ensures Compare(key, b, a) == -Compare(key, a, b)
  {
    if key != Birthday {
      var x, y := Upper(TextField(key, a)), Upper(TextField(key, b));
      StrLessAsymmetric(x, y);
    }
  }

  /** The comparator function `sortList` passes to `Array.prototype.sort`. */
  function Comparator(key: SortKey): (Villager, Villager) -> int
  {
    (a: Villager, b: Villager) => Compare(key, a, b)
  }

  // ---------------------------------------------------------------------------
  // `Array.prototype.sort(cmp)` as a stable insertion sort

  /** `a` may stay in front of `b`: the comparator does not ask to move `b` first. */
  predicate Precedes<T>(cmp: (T, T) -> int, a: T, b: T)
  {
    cmp(a, b) <= 0
  }

  /** Adjacent elements are in comparator order. */
  predicate Ordered<T>(cmp: (T, T) -> int, s: seq<T>)
  {
    forall i :: 0 <= i < |s| - 1 ==> Precedes(cmp, s[i], s[i + 1])
  }

  /** Of any two elements, one may precede the other. */
  ghost predicate Total<T(!new)>(cmp: (T, T) -> int)
  {
    forall a, b :: cmp(a, b) <= 0 || cmp(b, a) <= 0
  }

  /** "May precede" is transitive among the elements of `s`. */
  ghost predicate TransitiveOn<T>(cmp: (T, T) -> int, s: seq<T>)
  {
    forall i, j, k ::
      (0 <= i < |s| && 0 <= j < |s| && 0 <= k < |s| && Precedes(cmp, s[i], s[j]) && Precedes(cmp, s[j], s[k]))
      ==> Precedes(cmp, s[i], s[k])
  }

  /**
   * Inserts `x` in front of the first element it may precede: after every
   * element that must come before it, and before the ones it ties with.
   */
  function Insert<T(==,!new)>(cmp: (T, T) -> int, x: T, s: seq<T>): (r: seq<T>)
    ensures multiset(r) == multiset(s) + multiset{x}
    ensures |r| == |s| + 1
    ensures r[0] == x || (s != [] && r[0] == s[0])
    ensures Total(cmp) && Ordered(cmp, s) ==> Ordered(cmp, r)
  {
    if s == [] || Precedes(cmp, x, s[0]) then [x] + s
    else
      var tail := Insert(cmp, x, s[1..]);
      assert s == [s[0]] + s[1..];
      InsertBehind(cmp, x, s, tail);
      [s[0]] + tail
  }

  /** The step of `Insert` that passes over the head of `s`, proved on its own. */
  lemma InsertBehind<T(!new)>(cmp: (T, T) -> int, x: T, s: seq<T>, tail: seq<T>)
    requires s != [] && !Precedes(cmp, x, s[0])
    requires |tail| > 0 && (tail[0] == x || (|s| > 1 && tail[0] == s[1]))
    requires Total(cmp) && Ordered(cmp, s[1..]) ==> Ordered(cmp, tail)
    ensures Total(cmp) && Ordered(cmp, s) ==> Ordered(cmp, [s[0]] + tail)
  {
    if Total(cmp) && Ordered(cmp, s) {
      assert cmp(x, s[0]) <= 0 || cmp(s[0], x) <= 0;
      assert Ordered(cmp, s[1..]) by {
        forall i | 0 <= i < |s[1..]| - 1
          ensures Precedes(cmp, s[1..][i], s[1..][i + 1])
        {
          assert s[1..][i] == s[i + 1] && s[1..][i + 1] == s[i + 2];
        }
      }
      var r := [s[0]] + tail;
      forall i | 0 <= i < |r| - 1
        ensures Precedes(cmp, r[i], r[i + 1])
      {
        if i > 0 {
          assert r[i] == tail[i - 1] && r[i + 1] == tail[i];
        } else if tail[0] != x {
          assert Precedes(cmp, s[0], s[1]);
        }
      }
    }
  }

  /**
   * `[...list].sort(cmp)`: a sorted copy. It holds the same elements, as many
   * times each, and it is in comparator order when the comparator is total.
   */
  function SortBy<T(==,!new)>(cmp: (T, T) -> int, l: seq<T>): (r: seq<T>)
    ensures multiset(r) == multiset(l)
    ensures |r| == |l|
    ensures Total(cmp) ==> Ordered(cmp, r)
  {
    if l == [] then []
    else
      assert l == [l[0]] + l[1..];
      Insert(cmp, l[0], SortBy(cmp, l[1..]))
  }

  /** Sorting a list that is already in order returns it unchanged. */
  lemma {:induction false} SortOrderedIsIdentity<T(!new)>(cmp: (T, T) -> int, l: seq<T>)
    requires Ordered(cmp, l)
    ensures SortBy(cmp, l) == l
  {
    if l != [] {
      assert Ordered(cmp, l[1..]);
      SortOrderedIsIdentity(cmp, l[1..]);
      assert l == [l[0]] + l[1..];
    }
  }

  /** The elements of `s` the comparator ties with `e`, in their order in `s`. */
  function Ties<T>(cmp: (T, T) -> int, e: T, s: seq<T>): (r: seq<T>)
    ensures |r| <= |s|
    ensures forall x :: x in r ==> x in s && cmp(x, e) == 0
  {
    if s == [] then []
    else (if cmp(s[0], e) == 0 then [s[0]] else []) + Ties(cmp, e, s[1..])
  }

  /** Among the elements of `s`, two that tie with `e` tie with each other. */
  ghost predicate TiesAgree<T>(cmp: (T, T) -> int, e: T, s: seq<T>)
  {
    forall x, y :: x in s && y in s && cmp(x, e) == 0 && cmp(y, e) == 0 ==> cmp(x, y) == 0
  }

  /** Inserting `x` puts it in front of the elements it ties with, so ties keep their order. */
  lemma {:induction false} InsertTies<T(!new)>(cmp: (T, T) -> int, e: T, x: T, s: seq<T>)
    requires forall y :: y in s && cmp(x, e) == 0 && cmp(y, e) == 0 ==> cmp(x, y) <= 0
    ensures Ties(cmp, e, Insert(cmp, x, s)) == Ties(cmp, e, [x]) + Ties(cmp, e, s)
  {
    if s == [] || Precedes(cmp, x, s[0]) {
      TiesCons(cmp, e, [x] + s);
      assert ([x] + s)[1..] == s;
    } else {
      var tail := Insert(cmp, x, s[1..]);
      assert forall y :: y in s[1..] ==> y in s;
      InsertTies(cmp, e, x, s[1..]);
      assert ([s[0]] + tail)[1..] == tail;
      assert s[0] in s;
    }
  }

  /**
   * The sort is stable: the elements that tie with `e` come out in the order
   * they went in, when the ties of `e` tie with each other.
   */
  lemma {:induction false} SortStable<T(!new)>(cmp: (T, T) -> int, e: T, l: seq<T>)
    requires TiesAgree(cmp, e, l)
    ensures Ties(cmp, e, SortBy(cmp, l)) == Ties(cmp, e, l)
  {
    if l != [] {
      var rest := SortBy(cmp, l[1..]);
      assert SortBy(cmp, l) == Insert(cmp, l[0], rest);
      assert TiesAgree(cmp, e, l[1..]) by {
        assert forall y :: y in l[1..] ==> y in l;
      }
      SortStable(cmp, e, l[1..]);
      forall y | y in rest && cmp(l[0], e) == 0 && cmp(y, e) == 0
        ensures cmp(l[0], y) <= 0
      {
        assert y in multiset(l[1..]);
        assert y in l && l[0] in l;
      }
      InsertTies(cmp, e, l[0], rest);
      TiesCons(cmp, e, l);
    }
  }

  lemma TiesCons<T>(cmp: (T, T) -> int, e: T, l: seq<T>)
    requires l != []
    ensures Ties(cmp, e, l) == Ties(cmp, e, [l[0]]) + Ties(cmp, e, l[1..])
  {
    assert [l[0]][1..] == [];
  }

  /** The ties of `e` in an ordered list are ordered. */
  lemma {:induction false} TiesOrdered<T>(ord: (T, T) -> int, cmp: (T, T) -> int, e: T, s: seq<T>)
    requires Ordered(ord, s) && TransitiveOn(ord, s)
    ensures Ordered(ord, Ties(cmp, e, s))
  {
    if s != [] {
      var t := s[1..];
      OrderedTail(ord, s);
      TransitiveTail(ord, s);
      TiesOrdered(ord, cmp, e, t);
      var rest := Ties(cmp, e, t);
      if cmp(s[0], e) == 0 {
        if rest != [] {
          OrderedHeadPrecedesAll(ord, s);
          assert rest[0] in t;
          var j :| 0 <= j < |t| && t[j] == rest[0];
          assert s[j + 1] == rest[0];
        }
        OrderedCons(ord, s[0], rest);
      }
    }
  }

  /** "May precede" stays transitive on the tail. */
  lemma TransitiveTail<T>(cmp: (T, T) -> int, s: seq<T>)
    requires TransitiveOn(cmp, s) && |s| > 0
    ensures TransitiveOn(cmp, s[1..])
  {
    var t := s[1..];
    forall i, j, k | 0 <= i < |t| && 0 <= j < |t| && 0 <= k < |t| &&
        Precedes(cmp, t[i], t[j]) && Precedes(cmp, t[j], t[k])
      ensures Precedes(cmp, t[i], t[k])
    {
      assert t[i] == s[i + 1] && t[j] == s[j + 1] && t[k] == s[k + 1];
    }
  }

  /** Two elements the comparator puts in a strict order are sorted into it from either order. */
  lemma SortPair<T(!new)>(cmp: (T, T) -> int, a: T, b: T)
    requires cmp(a, b) < 0 && cmp(b, a) > 0
    ensures SortBy(cmp, [b, a]) == [a, b]
    ensures SortBy(cmp, [a, b]) == [a, b]
  {
    assert [b, a][1..] == [a] && [a, b][1..] == [b];
    assert [a][1..] == [] && [b][1..] == [];
    assert SortBy(cmp, [a]) == Insert(cmp, a, []) == [a];
    assert SortBy(cmp, [b]) == Insert(cmp, b, []) == [b];
    assert Insert(cmp, b, [a]) == [a] + Insert(cmp, b, []);
    assert Insert(cmp, a, [b]) == [a, b];
  }

  /** The tail of an ordered list is ordered. */
  lemma OrderedTail<T>(cmp: (T, T) -> int, s: seq<T>)
    requires Ordered(cmp, s) && |s| > 0
    ensures Ordered(cmp, s[1..])
  {
    var t := s[1..];
    forall i | 0 <= i < |t| - 1
      ensures Precedes(cmp, t[i], t[i + 1])
    {
      assert t[i] == s[i + 1] && t[i + 1] == s[i + 2];
    }
  }

  /** An element that may precede the head of an ordered list extends it. */
  lemma OrderedCons<T>(cmp: (T, T) -> int, x: T, s: seq<T>)
    requires Ordered(cmp, s) && (s != [] ==> Precedes(cmp, x, s[0]))
    ensures Ordered(cmp, [x] + s)
  {
    var r := [x] + s;
    forall i | 0 <= i < |r| - 1
      ensures Precedes(cmp, r[i], r[i + 1])
    {
      if i > 0 {
        assert r[i] == s[i - 1] && r[i + 1] == s[i];
      }
    }
  }

  /** In an ordered list on which "may precede" is transitive, the head may precede every element. */
  lemma {:induction false} OrderedHeadPrecedesAll<T>(cmp: (T, T) -> int, s: seq<T>)
    requires Ordered(cmp, s) && TransitiveOn(cmp, s) && |s| > 0
    ensures forall j :: 0 < j < |s| ==> Precedes(cmp, s[0], s[j])
  {
    if |s| > 2 {
      var t := s[1..];
      assert Ordered(cmp, t);
      TransitiveTail(cmp, s);
      OrderedHeadPrecedesAll(cmp, t);
      forall j | 1 < j < |s|
        ensures Precedes(cmp, s[0], s[j])
      {
        assert t[j - 1] == s[j];
      }
    }
  }

  // ---------------------------------------------------------------------------
  // `sortList(list, property)`

  /** The comparators of all keys are total. */
  lemma ComparatorTotal(key: SortKey)
    ensures Total(Comparator(key))
  {
    forall a, b
      ensures Comparator(key)(a, b) <= 0 || Comparator(key)(b, a) <= 0
    {
      CompareAntisymmetric(key, a, b);
    }
  }

  /**
   * The comparator is a total preorder on `s`: always for the text keys, and
   * for the birthday key when every birthday in `s` is a valid date.
   */
  predicate Consistent(key: SortKey, s: seq<Villager>)
  {
    key != Birthday || forall v :: v in s ==> AsWrittenDayNumber(v.birthday).Some?
  }

  lemma ComparatorTransitive(key: SortKey, s: seq<Villager>)
    requires Consistent(key, s)
    ensures TransitiveOn(Comparator(key), s)
  {
    forall i, j, k | 0 <= i < |s| && 0 <= j < |s| && 0 <= k < |s| &&
        Precedes(Comparator(key), s[i], s[j]) && Precedes(Comparator(key), s[j], s[k])
      ensures Precedes(Comparator(key), s[i], s[k])
    {
      CompareTransitive(key, s[i], s[j], s[k]);
    }
  }

  lemma CompareTransitive(key: SortKey, a: Villager, b: Villager, c: Villager)
    requires key == Birthday ==> AsWrittenDayNumber(a.birthday).Some? && AsWrittenDayNumber(b.birthday).Some? && AsWrittenDayNumber(c.birthday).Some?
    requires Compare(key, a, b) <= 0 && Compare(key, b, c) <= 0
    ensures Compare(key, a, c) <= 0
  {
    if key != Birthday {
      var x, y, z := Upper(TextField(key, a)), Upper(TextField(key, b)), Upper(TextField(key, c));
      CompareAntisymmetric(key, a, b);
      CompareAntisymmetric(key, b, c);
      CompareAntisymmetric(key, a, c);
      StrNotLessTransitive(x, y, z);
    }
  }

  /**
   * `sortList(list, key)`: a sorted copy of `list`. It holds the same
   * villagers, as many times each, in the order of the key's comparator.
   */
  function SortList(key: SortKey, l: seq<Villager>): (r: seq<Villager>)
    ensures multiset(r) == multiset(l)
    ensures Ordered(Comparator(key), r)
  {
    ComparatorTotal(key);
    SortBy(Comparator(key), l)
  }

  /** Sorting by a text key leaves the upper-cased texts in non-decreasing order. */
  lemma SortedByText(key: SortKey, l: seq<Villager>)
    requires key != Birthday
    ensures forall i :: 0 <= i < |l| - 1 ==>
      !StrLess(Upper(TextField(key, SortList(key, l)[i + 1])), Upper(TextField(key, SortList(key, l)[i])))
  {
    var r := SortList(key, l);
    assert |r| == |l| by {
      assert |multiset(r)| == |multiset(l)|;
    }
    forall i | 0 <= i < |r| - 1
      ensures !StrLess(Upper(TextField(key, r[i + 1])), Upper(TextField(key, r[i])))
    {
      assert Precedes(Comparator(key), r[i], r[i + 1]);
      CompareAntisymmetric(key, r[i], r[i + 1]);
    }
  }

  /**
   * Sorting by birthday a list whose birthdays are all valid dates leaves the
   * as-written keys in non-decreasing order.
   */
  lemma SortedByBirthday(l: seq<Villager>)
    requires Consistent(Birthday, l)
    ensures Consistent(Birthday, SortList(Birthday, l))
    ensures forall i :: 0 <= i < |l| - 1 ==>
      AsWrittenDayNumber(SortList(Birthday, l)[i].birthday).value <= AsWrittenDayNumber(SortList(Birthday, l)[i + 1].birthday).value
  {
    var r := SortList(Birthday, l);
    SortKeepsConsistent(Birthday, l);
    assert |r| == |l| by {
      assert |multiset(r)| == |multiset(l)|;
    }
    forall i | 0 <= i < |r| - 1
      ensures AsWrittenDayNumber(r[i].birthday).value <= AsWrittenDayNumber(r[i + 1].birthday).value
    {
      assert r[i] in r && r[i + 1] in r;
      BirthdayPrecedes(r[i], r[i + 1]);
    }
  }

  /** A sorted copy holds the same villagers, so the same birthdays are valid. */
  lemma SortKeepsConsistent(key: SortKey, l: seq<Villager>)
    requires Consistent(key, l)
    ensures Consistent(key, SortList(key, l))
  {
    var r := SortList(key, l);
    assert forall v :: v in r ==> v in multiset(l);
  }

  lemma BirthdayPrecedes(a: Villager, b: Villager)
    requires AsWrittenDayNumber(a.birthday).Some? && AsWrittenDayNumber(b.birthday).Some?
    requires Precedes(Comparator(Birthday), a, b)
    ensures AsWrittenDayNumber(a.birthday).value <= AsWrittenDayNumber(b.birthday).value
  {
    assert Compare(Birthday, a, b) <= 0;
  }

  /** Sorting twice by the same key is sorting once. */
  lemma SortIdempotent(key: SortKey, l: seq<Villager>)
    ensures SortList(key, SortList(key, l)) == SortList(key, l)
  {
    SortOrderedIsIdentity(Comparator(key), SortList(key, l));
  }

  /**
   * `sortList` is stable: villagers the key's comparator ties with `e` keep
   * their order in the list (for birthdays, when the dates are valid).
   */
  lemma SortListStable(key: SortKey, l: seq<Villager>, e: Villager)
    requires Consistent(key, l)
    requires key == Birthday ==> AsWrittenDayNumber(e.birthday).Some?
    ensures Ties(Comparator(key), e, SortList(key, l)) == Ties(Comparator(key), e, l)
  {
    var cmp := Comparator(key);
    forall x, y | x in l && y in l && cmp(x, e) == 0 && cmp(y, e) == 0
      ensures cmp(x, y) == 0
    {
      assert Compare(key, x, e) == 0 && Compare(key, y, e) == 0;
    }
    SortStable(cmp, e, l);
  }

  /** As written, the birthday sort puts a villager born on 1 February before one born on 31 January. */
  lemma AsWrittenSortMisorders(jan31: Villager, feb1: Villager)
    requires jan31.birthday == Text(31, 1) && feb1.birthday == Text(1, 2)
    ensures SortList(Birthday, [jan31, feb1]) == [feb1, jan31]
    ensures SortList(Birthday, [feb1, jan31]) == [feb1, jan31]
  {
    AsWrittenMisorders();
    assert Compare(Birthday, feb1, jan31) < 0 && Compare(Birthday, jan31, feb1) > 0;
    SortPair(Comparator(Birthday), feb1, jan31);
  }

  // ---------------------------------------------------------------------------
  // The corrected birthday order: `new Date(2020, month - 1, day)`

  /** The birthday comparator over the corrected key; 0 when either date is invalid. */
  function CalendarCompareBirthdays(x: string, y: string): (r: int)
    ensures x == y ==> r == 0
    ensures DayNumber(x).Some? && DayNumber(y).Some? ==>
              (r < 0 <==> DayNumber(x).value < DayNumber(y).value) &&
              (r == 0 <==> DayNumber(x).value == DayNumber(y).value)
    ensures DayNumber(x).None? || DayNumber(y).None? ==> r == 0
  {
    var kx, ky := DayNumber(x), DayNumber(y);
    if kx.Some? && ky.Some? then kx.value - ky.value else 0
  }

  function CalendarComparator(): (Villager, Villager) -> int
  {
    (a: Villager, b: Villager) => CalendarCompareBirthdays(a.birthday, b.birthday)
  }

  /**
   * Sorting with the corrected comparator leaves the corrected keys in
   * non-decreasing order, which for real dates is month, then day
   * (`Birthdays.CalendarOrder`).
   */
  lemma CalendarSortedByBirthday(l: seq<Villager>)
    ensures multiset(SortBy(CalendarComparator(), l)) == multiset(l)
    ensures forall i :: (0 <= i < |l| - 1 &&
      DayNumber(SortBy(CalendarComparator(), l)[i].birthday).Some? &&
      DayNumber(SortBy(CalendarComparator(), l)[i + 1].birthday).Some?) ==>
      DayNumber(SortBy(CalendarComparator(), l)[i].birthday).value <= DayNumber(SortBy(CalendarComparator(), l)[i + 1].birthday).value
  {
    var cmp := CalendarComparator();
    forall a, b
      ensures cmp(a, b) <= 0 || cmp(b, a) <= 0
    {
      var ka, kb := DayNumber(a.birthday), DayNumber(b.birthday);
      if ka.Some? && kb.Some? {
        assert cmp(a, b) == ka.value - kb.value && cmp(b, a) == kb.value - ka.value;
      }
    }
    var r := SortBy(cmp, l);
    forall i | 0 <= i < |l| - 1 && DayNumber(r[i].birthday).Some? && DayNumber(r[i + 1].birthday).Some?
      ensures DayNumber(r[i].birthday).value <= DayNumber(r[i + 1].birthday).value
    {
      assert Precedes(cmp, r[i], r[i + 1]);
    }
  }

  /** With the corrected comparator, a villager born on 31 January sorts before one born on 1 February. */
  lemma CalendarSortOrders(jan31: Villager, feb1: Villager)
    requires jan31.birthday == Text(31, 1) && feb1.birthday == Text(1, 2)
    ensures SortBy(CalendarComparator(), [jan31, feb1]) == [jan31, feb1]
    ensures SortBy(CalendarComparator(), [feb1, jan31]) == [jan31, feb1]
  {
    AsWrittenMisorders();
    var cmp := CalendarComparator();
    assert cmp(jan31, feb1) < 0 && cmp(feb1, jan31) > 0;
    SortPair(cmp, jan31, feb1);
  }
}
