/**
 * The order in which AppointmentFactory.toString lists a month's
 * appointments (Int-PracExc4 classes/AppointmentFactory.java, the anonymous
 * Comparator): by day, then by hour, then by name with String.compareTo, all
 * three read through the clamping getters.
 *
 * List.sort is modelled by an insertion sort with that comparator. Because
 * names within a month are distinct, the comparator is a strict total order on
 * the stored entries, and `SortedDistinctIsUnique` shows that every sorted
 * permutation is the same list, so the result does not depend on the sorting
 * algorithm.
 */
module AppointmentOrder {
  import opened JavaLang
  import opened AppointmentRecord

  /** The comparator's value for (a, b). */
  function DisplayCompare(a: Fields, b: Fields): int {
    if DayOf(a) == DayOf(b) then
      if HourOf(a) == HourOf(b) then CompareTo(NameOf(a), NameOf(b))
      else HourOf(a) - HourOf(b)
    else DayOf(a) - DayOf(b)
  }

  lemma DisplayCompareAntisymmetric(a: Fields, b: Fields)
    ensures DisplayCompare(b, a) == -DisplayCompare(a, b)
  {
    CompareToAntisymmetric(NameOf(a), NameOf(b));
  }

  /** The comparator ties only entries that read back the same day, hour and name. */
  lemma DisplayCompareZero(a: Fields, b: Fields)
    ensures DisplayCompare(a, b) == 0 <==>
      DayOf(a) == DayOf(b) && HourOf(a) == HourOf(b) && NameOf(a) == NameOf(b)
  {
    CompareToZeroIffEqual(NameOf(a), NameOf(b));
  }

  lemma DisplayCompareTransitive(a: Fields, b: Fields, c: Fields)
    requires DisplayCompare(a, b) <= 0 && DisplayCompare(b, c) <= 0
    ensures DisplayCompare(a, c) <= 0
  {
    if DayOf(a) == DayOf(b) == DayOf(c) && HourOf(a) == HourOf(b) == HourOf(c) {
      CompareToTransitive(NameOf(a), NameOf(b), NameOf(c));
    }
  }

  /** Every pair, not only neighbours, is in comparator order. */
  predicate DisplaySorted(s: seq<Fields>) {
    forall i, j :: 0 <= i < j < |s| ==> DisplayCompare(s[i], s[j]) <= 0
  }

  /** No two entries read back the same name. */
  predicate DistinctNames(s: seq<Fields>) {
    forall i, j :: 0 <= i < j < |s| ==> NameOf(s[i]) != NameOf(s[j])
  }

  /** No entry reads back the name n. */
  predicate NameFree(s: seq<Fields>, n: string) {
    forall i :: 0 <= i < |s| ==> NameOf(s[i]) != n
  }

  /** Insert x before the first entry it does not follow. */
  function Insert(x: Fields, s: seq<Fields>): seq<Fields>
    decreases |s|
  {
    if s == [] || DisplayCompare(x, s[0]) <= 0 then [x] + s
    else [s[0]] + Insert(x, s[1..])
  }

  /** List.sort with the display comparator. */
  function SortForDisplay(s: seq<Fields>): seq<Fields>
    decreases |s|
  {
    if s == [] then [] else Insert(s[0], SortForDisplay(s[1..]))
  }

  lemma {:induction false} InsertElements(x: Fields, s: seq<Fields>)
    ensures multiset(Insert(x, s)) == multiset{x} + multiset(s)
    decreases |s|
  {
    if !(s == [] || DisplayCompare(x, s[0]) <= 0) {
      InsertElements(x, s[1..]);
      assert s == [s[0]] + s[1..];
    }
  }

  lemma {:induction false} InsertSorted(x: Fields, s: seq<Fields>)
    requires DisplaySorted(s)
    ensures DisplaySorted(Insert(x, s))
    decreases |s|
  {
    if s == [] || DisplayCompare(x, s[0]) <= 0 {
      forall j | 0 < j < |s|
        ensures DisplayCompare(x, s[j]) <= 0
      {
        DisplayCompareTransitive(x, s[0], s[j]);
      }
      ConsSorted(x, s);
    } else {
      var t := Insert(x, s[1..]);
      InsertSorted(x, s[1..]);
      InsertElements(x, s[1..]);
      DisplayCompareAntisymmetric(x, s[0]);
      forall j | 0 <= j < |t|
        ensures DisplayCompare(s[0], t[j]) <= 0
      {
        assert t[j] in multiset(t);
        if t[j] != x {
          var m :| 0 <= m < |s[1..]| && s[1..][m] == t[j];
          assert s[m + 1] == t[j];
        }
      }
      ConsSorted(s[0], t);
    }
  }

  /** An entry that no entry of a sorted list precedes may go in front of it. */
  lemma ConsSorted(a: Fields, t: seq<Fields>)
    requires DisplaySorted(t)
    requires forall j :: 0 <= j < |t| ==> DisplayCompare(a, t[j]) <= 0
    ensures DisplaySorted([a] + t)
  {
    var r := [a] + t;
    forall i, j | 0 <= i < j < |r|
      ensures DisplayCompare(r[i], r[j]) <= 0
    {
      assert r[j] == t[j - 1];
      if i > 0 {
        assert r[i] == t[i - 1];
      }
    }
  }

  lemma {:induction false} SortForDisplayIsSortedPermutation(s: seq<Fields>)
    ensures DisplaySorted(SortForDisplay(s))
    ensures multiset(SortForDisplay(s)) == multiset(s)
    decreases |s|
  {
    if s != [] {
      SortForDisplayIsSortedPermutation(s[1..]);
      InsertSorted(s[0], SortForDisplay(s[1..]));
      InsertElements(s[0], SortForDisplay(s[1..]));
      assert s == [s[0]] + s[1..];
    }
  }

  /** Two lists with the same entries hold the same names. */
  lemma NameFreeTransfers(s: seq<Fields>, t: seq<Fields>, n: string)
    requires multiset(s) == multiset(t)
    requires NameFree(s, n)
    ensures NameFree(t, n)
  {
    forall i | 0 <= i < |t|
      ensures NameOf(t[i]) != n
    {
      assert t[i] in multiset(s);
    }
  }

  lemma {:induction false} InsertDistinct(x: Fields, s: seq<Fields>)
    requires DistinctNames(s) && NameFree(s, NameOf(x))
    ensures DistinctNames(Insert(x, s))
    decreases |s|
  {
    if !(s == [] || DisplayCompare(x, s[0]) <= 0) {
      var t := Insert(x, s[1..]);
      InsertDistinct(x, s[1..]);
      InsertElements(x, s[1..]);
      forall j | 0 <= j < |t|
        ensures NameOf(s[0]) != NameOf(t[j])
      {
        assert t[j] in multiset(t);
        if t[j] != x {
          assert t[j] in s[1..];
        }
      }
    }
  }

  /** Sorting for display keeps the names distinct. */
  lemma {:induction false} SortForDisplayDistinct(s: seq<Fields>)
    requires DistinctNames(s)
    ensures DistinctNames(SortForDisplay(s))
    decreases |s|
  {
    if s != [] {
      SortForDisplayDistinct(s[1..]);
      SortForDisplayIsSortedPermutation(s[1..]);
      NameFreeTransfers(s[1..], SortForDisplay(s[1..]), NameOf(s[0]));
      InsertDistinct(s[0], SortForDisplay(s[1..]));
    }
  }

  /**
   * With distinct names, a sorted arrangement of a list is unique: whatever
   * algorithm List.sort uses, it produces SortForDisplay's result.
   */
  lemma {:induction false} SortedDistinctIsUnique(a: seq<Fields>, b: seq<Fields>)
    requires multiset(a) == multiset(b)
    requires DisplaySorted(a) && DisplaySorted(b) && DistinctNames(a)
    ensures a == b
    decreases |a|
  {
    assert |a| == |multiset(a)| == |b|;
    if a != [] {
      SortedHeadsAgree(a, b);
      DropHead(a, b);
      SortedDistinctIsUnique(a[1..], b[1..]);
    }
  }

  /** Two display-sorted arrangements of the same distinct-named entries start alike. */
  lemma SortedHeadsAgree(a: seq<Fields>, b: seq<Fields>)
    requires a != [] && b != [] && multiset(a) == multiset(b)
    requires DisplaySorted(a) && DisplaySorted(b) && DistinctNames(a)
    ensures a[0] == b[0]
  {
    if a[0] != b[0] {
      assert a[0] in multiset(b);
      var k :| 0 <= k < |b| && b[k] == a[0];
      assert b[0] in multiset(a);
      var m :| 0 <= m < |a| && a[m] == b[0];
      assert DisplayCompare(b[0], a[0]) <= 0 && DisplayCompare(a[0], b[0]) <= 0;
      DisplayCompareAntisymmetric(a[0], b[0]);
      DisplayCompareZero(a[0], b[0]);
      assert false;
    }
  }

  /** Dropping a common first entry keeps the rest sorted, distinct and equal as multisets. */
  lemma DropHead(a: seq<Fields>, b: seq<Fields>)
    requires a != [] && b != [] && a[0] == b[0] && multiset(a) == multiset(b)
    requires DisplaySorted(a) && DisplaySorted(b) && DistinctNames(a)
    ensures multiset(a[1..]) == multiset(b[1..])
    ensures DisplaySorted(a[1..]) && DisplaySorted(b[1..]) && DistinctNames(a[1..])
  {
    SameTails(a, b);
    forall i, j | 0 <= i < j < |a| - 1
      ensures DisplayCompare(a[1..][i], a[1..][j]) <= 0 && NameOf(a[1..][i]) != NameOf(a[1..][j])
    {
      assert a[1..][i] == a[i + 1] && a[1..][j] == a[j + 1];
    }
    forall i, j | 0 <= i < j < |b| - 1
      ensures DisplayCompare(b[1..][i], b[1..][j]) <= 0
    {
      assert b[1..][i] == b[i + 1] && b[1..][j] == b[j + 1];
    }
  }

  /** Two sequences with the same multiset and the same first element have tails with the same multiset. */
  lemma SameTails<T>(a: seq<T>, b: seq<T>)
    requires a != [] && b != [] && a[0] == b[0] && multiset(a) == multiset(b)
    ensures multiset(a[1..]) == multiset(b[1..])
  {
    assert a == [a[0]] + a[1..] && b == [b[0]] + b[1..];
    assert multiset(a[1..]) == multiset(a) - multiset{a[0]};
    assert multiset(b[1..]) == multiset(b) - multiset{a[0]};
  }

  /** Sorting a list that is already in display order leaves it unchanged. */
  lemma {:induction false} SortForDisplayOfSorted(s: seq<Fields>)
    requires DisplaySorted(s)
    ensures SortForDisplay(s) == s
    decreases |s|
  {
    if s != [] {
      SortForDisplayOfSorted(s[1..]);
    }
  }

  /** The entries as they are after every getter has been called on each. */
  function ObserveAll(s: seq<Fields>): seq<Fields> {
    seq(|s|, i requires 0 <= i < |s| => Observed(s[i]))
  }

  /** Reading through the getters changes no entry's place in the order, nor its name. */
  lemma ObserveAllKeepsOrder(s: seq<Fields>)
    ensures DisplaySorted(ObserveAll(s)) <==> DisplaySorted(s)
    ensures DistinctNames(ObserveAll(s)) <==> DistinctNames(s)
  {
    var o := ObserveAll(s);
    forall i | 0 <= i < |s|
      ensures NameOf(o[i]) == NameOf(s[i]) && DayOf(o[i]) == DayOf(s[i]) && HourOf(o[i]) == HourOf(s[i])
    {
      ObservedIsStable(s[i]);
    }
    forall i, j | 0 <= i < j < |s|
      ensures DisplayCompare(o[i], o[j]) == DisplayCompare(s[i], s[j])
    {
    }
  }

  // ---------------------------------------------------------------------------
  // The HTML table
  // ---------------------------------------------------------------------------

  const TABLE_HEAD: string :=
    "<html><table>"
    + "<tr><th width='100px' align='left'><font size=+1>Name</font></th>"
    + "<th width='50px' align='left'><font size=+1>Day</font></th>"
    + "<th width='50px' align='left'><font size=+1>Hour</font></th></tr><tr></tr>"
  const TABLE_FOOT: string := "</table></html>"

  /** The rows of the table, one Appointment.toString per entry, in list order. */
  function RowsHtml(s: seq<Fields>): string
    decreases |s|
  {
    if s == [] then "" else RowsHtml(s[..|s| - 1]) + RowHtml(s[|s| - 1])
  }

  /** The whole text AppointmentFactory.toString returns for a list already sorted. */
  function TableHtml(s: seq<Fields>): string {
    TABLE_HEAD + RowsHtml(s) + TABLE_FOOT
  }

  lemma {:induction false} RowsHtmlOfObserved(s: seq<Fields>)
    ensures RowsHtml(ObserveAll(s)) == RowsHtml(s)
    decreases |s|
  {
    if s != [] {
      RowsHtmlOfObserved(s[..|s| - 1]);
      assert ObserveAll(s)[..|s| - 1] == ObserveAll(s[..|s| - 1]);
      ObservedIsStable(s[|s| - 1]);
    }
  }

  /**
   * Calling toString a second time returns the same text as the first call:
   * the first call leaves the list sorted and every field as its getter reads it.
   */
  lemma ToStringTwiceSameText(s: seq<Fields>)
    ensures var after := ObserveAll(SortForDisplay(s));
      SortForDisplay(after) == after && TableHtml(SortForDisplay(after)) == TableHtml(SortForDisplay(s))
  {
    var sorted := SortForDisplay(s);
    SortForDisplayIsSortedPermutation(s);
    ObserveAllKeepsOrder(sorted);
    SortForDisplayOfSorted(ObserveAll(sorted));
    RowsHtmlOfObserved(sorted);
  }
}
