/**
 * The student menu (Int-PracExc3 main/Main.java): the list of students, the
 * ID lookup, the search filter, adding a student, sorting by last name or
 * course, and reading the menu choice with its " -" (inverted) suffix.
 *
 * Main's static list is the field of a `Menu` object. Dialogs, display and
 * saving are not part of this model: a search term or a new student is a
 * parameter.
 */
module StudentMenu {
  import opened JavaLang
  import opened StudentRecords
  import opened StudentOrder

  /** The suffix that asks for an inverted sort or search. */
  const INVERT_MARK := " -"

  /** A menu choice: the parsed option (None when parseInt throws) and whether it is inverted. */
  datatype MenuChoice = MenuChoice(option: Option<int>, inverted: bool)

  /** mainMenu's reading of the input: strip every " -" when the input ends with one, then parseInt. */
  function ReadMenuInput(input: string): MenuChoice {
    if EndsWith(input, INVERT_MARK) then MenuChoice(ParseInt(Some(RemoveAll(input, INVERT_MARK))), true)
    else MenuChoice(ParseInt(Some(input)), false)
  }

  /** The reading the code's own example "3      -" calls for: the stripped text is trimmed before parsing. */
  function ReadMenuInputTrimmed(input: string): MenuChoice {
    if EndsWith(input, INVERT_MARK) then MenuChoice(ParseInt(Some(Trim(RemoveAll(input, INVERT_MARK)))), true)
    else MenuChoice(ParseInt(Some(input)), false)
  }

  function Spaces(k: nat): (r: string)
    ensures |r| == k && forall i :: 0 <= i < k ==> r[i] == ' '
  {
    seq(k, _ => ' ')
  }

  /** The option digit as text. */
  function OptionText(d: nat): string
    requires 1 <= d <= 9
  {
    [DigitChar(d)]
  }

  lemma {:induction false} RemoveMarkAfterSpaces(k: nat)
    ensures RemoveAll(Spaces(k) + INVERT_MARK, INVERT_MARK) == Spaces(k)
    decreases k
  {
    var s := Spaces(k) + INVERT_MARK;
    if k == 0 {
      assert s == INVERT_MARK;
      assert s[|INVERT_MARK|..] == [];
    } else {
      assert s[1] != INVERT_MARK[1];
      assert s[1..] == Spaces(k - 1) + INVERT_MARK;
      RemoveMarkAfterSpaces(k - 1);
      assert Spaces(k) == [' '] + Spaces(k - 1);
    }
  }

  lemma RemoveMarkAfterOption(d: nat, k: nat)
    requires 1 <= d <= 9
    ensures RemoveAll(OptionText(d) + Spaces(k) + INVERT_MARK, INVERT_MARK) == OptionText(d) + Spaces(k)
  {
    var s := OptionText(d) + Spaces(k) + INVERT_MARK;
    assert s[0] == DigitChar(d) != ' ';
    assert s[1..] == Spaces(k) + INVERT_MARK;
    RemoveMarkAfterSpaces(k);
  }

  /**
   * An option directly followed by " -" is read as that option, inverted; an
   * option without the mark is read as itself, not inverted.
   */
  lemma MenuOptionRead(d: nat)
    requires 1 <= d <= 9
    ensures ReadMenuInput(OptionText(d) + INVERT_MARK) == MenuChoice(Some(d), true)
    ensures ReadMenuInput(OptionText(d)) == MenuChoice(Some(d), false)
  {
    RemoveMarkAfterOption(d, 0);
    assert OptionText(d) + Spaces(0) == OptionText(d);
    assert OptionText(d) + Spaces(0) + INVERT_MARK == OptionText(d) + INVERT_MARK;
    assert DigitsValue(OptionText(d)) == d;
  }

  /** As written, an option followed by spaces and then " -" (the code's example "3      -") is not a number. */
  lemma SpacedMarkRejected(d: nat, k: nat)
    requires 1 <= d <= 9 && k >= 1
    ensures ReadMenuInput(OptionText(d) + Spaces(k) + INVERT_MARK) == MenuChoice(None, true)
  {
    RemoveMarkAfterOption(d, k);
    var t := OptionText(d) + Spaces(k);
    assert t[1] == ' ';
    assert !AllDigits(t);
    assert t[0] != '-' && t[0] != '+';
    assert EndsWith(OptionText(d) + Spaces(k) + INVERT_MARK, INVERT_MARK);
  }

  /** With trimming, an option followed by any number of spaces and " -" is read as that option, inverted. */
  lemma SpacedMarkAccepted(d: nat, k: nat)
    requires 1 <= d <= 9
    ensures ReadMenuInputTrimmed(OptionText(d) + Spaces(k) + INVERT_MARK) == MenuChoice(Some(d), true)
  {
    var s := OptionText(d) + Spaces(k) + INVERT_MARK;
    assert EndsWith(s, INVERT_MARK) by {
      assert s[|s| - |INVERT_MARK|..] == INVERT_MARK;
    }
    RemoveMarkAfterOption(d, k);
    TrimAfterDigit(d, k);
    ParseOptionText(d);
  }

  /** parseInt reads the option digit as its value. */
  lemma ParseOptionText(d: nat)
    requires 1 <= d <= 9
    ensures ParseInt(Some(OptionText(d))) == Some(d)
  {
    assert DigitsValue(OptionText(d)) == d;
  }

  lemma {:induction false} TrimAfterDigit(d: nat, k: nat)
    requires 1 <= d <= 9
    ensures Trim(OptionText(d) + Spaces(k)) == OptionText(d)
    decreases k
  {
    var t := OptionText(d) + Spaces(k);
    assert TrimStart(t) == t;
    if k > 0 {
      assert t[..|t| - 1] == OptionText(d) + Spaces(k - 1);
      TrimAfterDigit(d, k - 1);
    } else {
      assert t == OptionText(d);
    }
  }

  /** The two readings agree whenever the stripped text has no surrounding blanks. */
  lemma TrimmedReadingAgrees(input: string)
    requires var stripped := RemoveAll(input, INVERT_MARK);
      stripped == [] || (stripped[0] > ' ' && stripped[|stripped| - 1] > ' ')
    ensures ReadMenuInputTrimmed(input) == ReadMenuInput(input)
  {
    if EndsWith(input, INVERT_MARK) {
      var stripped := RemoveAll(input, INVERT_MARK);
      assert TrimStart(stripped) == stripped;
      assert TrimEnd(stripped) == stripped;
    }
  }

  // ---------------------------------------------------------------------------
  // Searching
  // ---------------------------------------------------------------------------

  /** The field a search compares: the ID (option 4) or the last name (option 5). */
  function SearchField(s: Student, byId: bool): string
    reads s
  {
    if byId then s.id else s.last
  }

  /** A student matches when the field contains the term, both lower-cased. */
  predicate Matches(s: Student, byId: bool, term: string)
    reads s
  {
    Contains(ToLowerCase(SearchField(s, byId)), ToLowerCase(term))
  }

  /** The students that match, in list order. */
  function Filter(s: seq<Student>, byId: bool, term: string): (r: seq<Student>)
    reads s
    ensures |r| <= |s|
    ensures forall i :: 0 <= i < |r| ==> r[i] in s
    decreases |s|
  {
    if s == [] then []
    else
      var init := Filter(s[..|s| - 1], byId, term);
      if Matches(s[|s| - 1], byId, term) then init + [s[|s| - 1]] else init
  }

  /** The list search displays: the matches, reversed when inverted. */
  function SearchResult(s: seq<Student>, byId: bool, term: string, inverted: bool): seq<Student>
    reads s
  {
    if inverted then Reverse(Filter(s, byId, term)) else Filter(s, byId, term)
  }

  /** Exactly the matching students are kept. */
  lemma {:induction false} FilterMembers(s: seq<Student>, byId: bool, term: string)
    ensures forall i :: 0 <= i < |Filter(s, byId, term)| ==> Matches(Filter(s, byId, term)[i], byId, term)
    ensures forall i :: 0 <= i < |s| && Matches(s[i], byId, term) ==> s[i] in Filter(s, byId, term)
    decreases |s|
  {
    if s != [] {
      FilterMembers(s[..|s| - 1], byId, term);
      forall i | 0 <= i < |s| - 1
        ensures s[..|s| - 1][i] == s[i]
      {
      }
    }
  }

  /** Filtering a list made of two parts filters each part, keeping their order. */
  lemma {:induction false} FilterAppend(s: seq<Student>, t: seq<Student>, byId: bool, term: string)
    ensures Filter(s + t, byId, term) == Filter(s, byId, term) + Filter(t, byId, term)
    decreases |t|
  {
    if t == [] {
      assert s + t == s;
    } else {
      assert (s + t)[..|s + t| - 1] == s + t[..|t| - 1];
      FilterAppend(s, t[..|t| - 1], byId, term);
    }
  }

  /** An empty term matches every student, so the search lists them all. */
  lemma {:induction false} EmptyTermKeepsAll(s: seq<Student>, byId: bool)
    ensures Filter(s, byId, "") == s
    decreases |s|
  {
    if s != [] {
      EmptyTermKeepsAll(s[..|s| - 1], byId);
      ContainsEmpty(ToLowerCase(SearchField(s[|s| - 1], byId)));
    }
  }

  /** The inverted search lists the same students as the plain one, in the opposite order. */
  lemma InvertedSearchSameStudents(s: seq<Student>, byId: bool, term: string)
    ensures multiset(SearchResult(s, byId, term, true)) == multiset(SearchResult(s, byId, term, false))
    ensures SearchResult(s, byId, term, true) == Reverse(SearchResult(s, byId, term, false))
  {
    ReversePreservesMultiset(Filter(s, byId, term));
  }

  /** Options 2 and 3: the list sorted by the key, then reversed when inverted. */
  function Arranged(k: SortKey, s: seq<Student>, inverted: bool): (r: seq<Student>)
    reads s
    ensures multiset(r) == multiset(s)
    ensures !inverted ==> SortedBy(k, r)
    ensures inverted ==> SortedDescendingBy(k, r)
  {
    SortByIsSortedPermutation(k, s);
    var sorted := SortBy(k, s);
    if inverted then
      ReverseOfSorted(k, sorted);
      Reverse(sorted)
    else sorted
  }

  class Menu {
    var students: seq<Student>

    /** Main's start: the students read from file, or an empty list when there was none. */
    constructor (loaded: Option<seq<Student>>)
      ensures students == (if loaded.Some? then loaded.value else [])
    {
      students := if loaded.Some? then loaded.value else [];
    }

    /** contains(id): some student's compare(id) holds (never for a null id). */
    method Contains(id: Option<string>) returns (b: bool)
      ensures b <==> exists i :: 0 <= i < |students| && students[i].Compare(id)
      ensures id.None? ==> !b
    {
      for i := 0 to |students|
        invariant forall j :: 0 <= j < i ==> !students[j].Compare(id)
      {
        if students[i].Compare(id) {
          return true;
        }
      }
      return false;
    }

    /** search(byId, inverted) for the entered term; the list itself is not changed. */
    method Search(byId: bool, term: string, inverted: bool) returns (found: seq<Student>)
      ensures found == SearchResult(students, byId, term, inverted)
    {
      found := [];
      for i := 0 to |students|
        invariant found == Filter(students[..i], byId, term)
      {
        assert students[..i + 1][..i] == students[..i];
        var s := students[i];
        if JavaLang.Contains(ToLowerCase(SearchField(s, byId)), ToLowerCase(term)) {
          found := found + [s];
        }
      }
      assert students[..|students|] == students;
      if inverted {
        found := Reverse(found);
      }
    }

    /** Option 1: the built student is appended. */
    method AddStudent(s: Student)
      modifies this
      ensures students == old(students) + [s]
    {
      students := students + [s];
    }

    /**
     * Options 2 and 3: sort by last name or course, then reverse when
     * inverted; the same students, in non-decreasing (or non-increasing) order.
     */
    method SortStudents(k: SortKey, inverted: bool)
      modifies this
      ensures students == Arranged(k, old(students), inverted)
    {
      students := Arranged(k, students, inverted);
    }
  }
}
