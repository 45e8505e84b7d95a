/**
 * The two student comparators (Int-PracExc3 utils/SortUtil.java) and
 * Collections.sort with them.
 *
 * Each comparator is String.compareTo on one field. Collections.sort is a
 * stable sort; it is modelled by a stable insertion sort on the comparator's
 * key. The comparators read the students' current fields, so the functions
 * here read the students they sort.
 */
module StudentOrder {
  import opened JavaLang
  import opened StudentRecords

  /** Which comparator: SortUtil.LastNameCompare or SortUtil.CourseCompare. */
  datatype SortKey = LastName | Course

  /** The field a comparator compares. */
  function KeyOf(k: SortKey, s: Student): string
    reads s
  {
    match k
    case LastName => s.last
    case Course => s.course
  }

  /** LastNameCompare.compare(a, b). */
  function LastNameCompare(a: Student, b: Student): int
    reads a, b
  {
    CompareTo(a.last, b.last)
  }

  /** CourseCompare.compare(a, b). */
  function CourseCompare(a: Student, b: Student): int
    reads a, b
  {
    CompareTo(a.course, b.course)
  }

  /** The comparator chosen by k. */
  function Comparator(k: SortKey, a: Student, b: Student): (r: int)
    reads a, b
    ensures k == LastName ==> r == LastNameCompare(a, b)
    ensures k == Course ==> r == CourseCompare(a, b)
  {
    CompareTo(KeyOf(k, a), KeyOf(k, b))
  }

  /**
   * Each comparator is zero exactly on equal keys, antisymmetric and
   * transitive, so `compare(a, b) <= 0` is a total preorder on students.
   */
  lemma ComparatorIsTotalPreorder(k: SortKey, a: Student, b: Student, c: Student)
    ensures Comparator(k, a, b) == 0 <==> KeyOf(k, a) == KeyOf(k, b)
    ensures Comparator(k, b, a) == -Comparator(k, a, b)
    ensures Comparator(k, a, b) <= 0 || Comparator(k, b, a) <= 0
    ensures Comparator(k, a, b) <= 0 && Comparator(k, b, c) <= 0 ==> Comparator(k, a, c) <= 0
  {
    CompareToZeroIffEqual(KeyOf(k, a), KeyOf(k, b));
    CompareToAntisymmetric(KeyOf(k, a), KeyOf(k, b));
    if Comparator(k, a, b) <= 0 && Comparator(k, b, c) <= 0 {
      CompareToTransitive(KeyOf(k, a), KeyOf(k, b), KeyOf(k, c));
    }
  }

  /** Every pair is in non-decreasing key order. */
  predicate SortedBy(k: SortKey, s: seq<Student>)
    reads s
  {
    forall i, j :: 0 <= i < j < |s| ==> Comparator(k, s[i], s[j]) <= 0
  }

  /** Every pair is in non-increasing key order. */
  predicate SortedDescendingBy(k: SortKey, s: seq<Student>)
    reads s
  {
    forall i, j :: 0 <= i < j < |s| ==> Comparator(k, s[i], s[j]) >= 0
  }

  /** Insert x before the first student whose key is greater. */
  function Insert(k: SortKey, x: Student, s: seq<Student>): (r: seq<Student>)
    reads x, s
    ensures multiset(r) == multiset{x} + multiset(s)
    ensures forall i :: 0 <= i < |r| ==> r[i] == x || r[i] in s
    decreases |s|
  {
    if s == [] || Comparator(k, x, s[0]) <= 0 then [x] + s
    else
      assert s == [s[0]] + s[1..];
      [s[0]] + Insert(k, x, s[1..])
  }

  /** Collections.sort(list, comparator). */
  function SortBy(k: SortKey, s: seq<Student>): (r: seq<Student>)
    reads s
    ensures multiset(r) == multiset(s)
    ensures forall i :: 0 <= i < |r| ==> r[i] in s
    decreases |s|
  {
    if s == [] then []
    else
      assert s == [s[0]] + s[1..];
      Insert(k, s[0], SortBy(k, s[1..]))
  }

  lemma {:induction false} InsertSorted(k: SortKey, x: Student, s: seq<Student>)
    requires SortedBy(k, s)
    ensures SortedBy(k, Insert(k, x, s))
    decreases |s|
  {
    if s == [] || Comparator(k, x, s[0]) <= 0 {
      forall j | 0 <= j < |s|
        ensures Comparator(k, x, s[j]) <= 0
      {
        ComparatorIsTotalPreorder(k, x, s[0], s[j]);
      }
      ConsSorted(k, x, s);
    } else {
      var t := Insert(k, x, s[1..]);
      InsertSorted(k, x, s[1..]);
      ComparatorIsTotalPreorder(k, s[0], x, x);
      forall j | 0 <= j < |t|
        ensures Comparator(k, s[0], t[j]) <= 0
      {
        if t[j] != x {
          var m :| 0 <= m < |s[1..]| && s[1..][m] == t[j];
          assert s[m + 1] == t[j];
        }
      }
      ConsSorted(k, s[0], t);
    }
  }

  /** A student no greater than every student of a sorted list may go in front of it. */
  lemma ConsSorted(k: SortKey, a: Student, t: seq<Student>)
    requires SortedBy(k, t)
    requires forall j :: 0 <= j < |t| ==> Comparator(k, a, t[j]) <= 0
    ensures SortedBy(k, [a] + t)
  {
    var r := [a] + t;
    forall i, j | 0 <= i < j < |r|
      ensures Comparator(k, r[i], r[j]) <= 0
    {
      assert r[j] == t[j - 1];
      if i > 0 {
        assert r[i] == t[i - 1];
      }
    }
  }

  /** Sorting yields the same students in non-decreasing key order. */
  lemma {:induction false} SortByIsSortedPermutation(k: SortKey, s: seq<Student>)
    ensures SortedBy(k, SortBy(k, s)) && multiset(SortBy(k, s)) == multiset(s)
    decreases |s|
  {
    if s != [] {
      SortByIsSortedPermutation(k, s[1..]);
      InsertSorted(k, s[0], SortBy(k, s[1..]));
    }
  }

  /** Reversing a sorted list gives the descending order, with the same students. */
  lemma ReverseOfSorted(k: SortKey, s: seq<Student>)
    requires SortedBy(k, s)
    ensures SortedDescendingBy(k, Reverse(s)) && multiset(Reverse(s)) == multiset(s)
  {
    ReversePreservesMultiset(s);
    var r := Reverse(s);
    forall i, j | 0 <= i < j < |r|
      ensures Comparator(k, r[i], r[j]) >= 0
    {
      ComparatorIsTotalPreorder(k, r[j], r[i], r[i]);
    }
  }
}
