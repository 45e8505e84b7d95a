/**
 * The book store catalogue (Beg-PracExc4 BookStore.java): a fixed array of
 * ten slots filled from the front, a lookup by ID, the price sort shown by
 * "Sort and display", and the title search.
 *
 * A book is a value: its ID is final and the store never changes a stored
 * book. Prices are doubles in the source and are only compared with `>`, so
 * they are modelled as integers. The input dialogs are not modelled: the
 * values they would hand over are parameters, and a candidate the dialog
 * loops would not let through is reported as refused.
 */
module BookShop {
  import opened JavaLang

  /** The length of LIBRARY (and of the search result array). */
  const CAPACITY := 10
  const MIN_ID := 1000
  const MAX_ID := 9999
  /** The flag that asks for a case-insensitive search, and the flag on its own. */
  const CASE_FLAG := " --i"
  const BARE_FLAG := "--i"

  datatype Book = Book(id: int, title: string, author: string, price: int)

  /** What addBook's dialog loops demand: an ID in 1000..9999, a title and an author, a non-negative price. */
  predicate EntryAccepted(b: Book) {
    MIN_ID <= b.id <= MAX_ID && b.title != "" && b.author != "" && b.price >= 0
  }

  /** Some slot holds a book with this ID. */
  predicate HasId(s: seq<Option<Book>>, id: int) {
    exists i :: 0 <= i < |s| && s[i].Some? && s[i].value.id == id
  }

  predicate DistinctIds(s: seq<Option<Book>>) {
    forall i, j :: 0 <= i < j < |s| && s[i].Some? && s[j].Some? ==> s[i].value.id != s[j].value.id
  }

  /**
   * The catalogue invariant: no book after a free slot (the books form a
   * prefix), every book passed the entry rules, and IDs are unique.
   */
  predicate Stocked(s: seq<Option<Book>>) {
    (forall i, j :: 0 <= i < j < |s| && s[i].None? ==> s[j].None?)
    && (forall i :: 0 <= i < |s| && s[i].Some? ==> EntryAccepted(s[i].value))
    && DistinctIds(s)
  }

  /** The index of the first free slot, or the length when every slot is taken. */
  function FirstFree(s: seq<Option<Book>>): (r: nat)
    ensures r <= |s|
    ensures forall i :: 0 <= i < r ==> s[i].Some?
    ensures r < |s| ==> s[r].None?
    decreases |s|
  {
    if s == [] || s[0].None? then 0 else 1 + FirstFree(s[1..])
  }

  /** A position with books before it and a free slot (or the end) at it is the first free slot. */
  lemma FirstFreeIs(s: seq<Option<Book>>, n: int)
    requires 0 <= n <= |s|
    requires forall i :: 0 <= i < n ==> s[i].Some?
    requires n < |s| ==> s[n].None?
    ensures FirstFree(s) == n
  {
  }

  /** In a stocked catalogue the books are exactly the slots before the first free one. */
  lemma StockedPrefix(s: seq<Option<Book>>)
    requires Stocked(s)
    ensures forall i :: 0 <= i < |s| ==> (s[i].Some? <==> i < FirstFree(s))
  {
    forall i | FirstFree(s) <= i < |s|
      ensures s[i].None?
    {
      if FirstFree(s) < i {
        assert s[FirstFree(s)].None?;
      }
    }
  }

  // ---------------------------------------------------------------------------
  // Sorting by price
  // ---------------------------------------------------------------------------

  /** The price the sort compares (every slot it compares holds a book). */
  function PriceOf(o: Option<Book>): int {
    if o.Some? then o.value.price else 0
  }

  predicate PricesSorted(s: seq<Option<Book>>) {
    forall i, j :: 0 <= i < j < |s| ==> PriceOf(s[i]) <= PriceOf(s[j])
  }

  /**
   * sortDisplay's nested loops: a bubble sort of the first `length` slots, by
   * price. Each outer pass carries the greatest remaining price to position
   * `c`; the slots after `c` are then in order and no smaller than any before.
   */
  method BubbleSort(a: array<Option<Book>>, length: int)
    requires 0 <= length <= a.Length
    requires forall k :: 0 <= k < length ==> a[k].Some?
    modifies a
    ensures PricesSorted(a[..length])
    ensures multiset(a[..length]) == multiset(old(a[..length]))
    ensures a[length..] == old(a[length..])
  {
    var c := length - 1;
    for i := 0 to if length > 0 then length - 1 else 0
      invariant c == length - 1 - i
      invariant forall k :: 0 <= k < length ==> a[k].Some?
      invariant multiset(a[..]) == multiset(old(a[..]))
      invariant forall k :: length <= k < a.Length ==> a[k] == old(a[k])
      invariant SettledAfter(a[..], length, c)
    {
      BubblePass(a, length, c);
      c := c - 1;
    }
    SettledIsSorted(a[..], length);
    SameOutsidePrefix(a[..], old(a[..]), length);
  }

  /** Once every slot is settled, the first `length` slots are in price order. */
  lemma SettledIsSorted(s: seq<Option<Book>>, length: int)
    requires 0 <= length <= |s|
    requires SettledAfter(s, length, 0)
    ensures PricesSorted(s[..length])
  {
    forall p, q | 0 <= p < q < length
      ensures PriceOf(s[..length][p]) <= PriceOf(s[..length][q])
    {
      assert s[..length][p] == s[p] && s[..length][q] == s[q];
    }
  }

  /** Two arrangements of the same slots that agree from `length` on agree as multisets up to it. */
  lemma SameOutsidePrefix<T>(s: seq<T>, t: seq<T>, length: int)
    requires 0 <= length <= |s| == |t|
    requires multiset(s) == multiset(t)
    requires forall k :: length <= k < |s| ==> s[k] == t[k]
    ensures multiset(s[..length]) == multiset(t[..length])
    ensures s[length..] == t[length..]
  {
    assert s[length..] == t[length..];
    assert s == s[..length] + s[length..];
    assert t == t[..length] + t[length..];
    assert multiset(s[..length]) == multiset(s) - multiset(s[length..]);
    assert multiset(t[..length]) == multiset(t) - multiset(t[length..]);
  }

  /** Among the first `length` slots, those after c are in price order, and none is cheaper than a slot up to c. */
  ghost predicate SettledAfter(s: seq<Option<Book>>, length: int, c: int) {
    (forall p, q :: 0 <= p && c < p < q < length <= |s| ==> PriceOf(s[p]) <= PriceOf(s[q]))
    && (forall p, q :: 0 <= p <= c < q < length <= |s| ==> PriceOf(s[p]) <= PriceOf(s[q]))
  }

  /** One pass of the inner loop: the dearest book up to c moves to c, swapping neighbours. */
  method BubblePass(a: array<Option<Book>>, length: int, c: int)
    requires 0 <= c < length <= a.Length
    requires forall k :: 0 <= k < length ==> a[k].Some?
    requires SettledAfter(a[..], length, c)
    modifies a
    ensures forall k :: 0 <= k < length ==> a[k].Some?
    ensures multiset(a[..]) == multiset(old(a[..]))
    ensures forall k :: c < k < a.Length ==> a[k] == old(a[k])
    ensures SettledAfter(a[..], length, c - 1)
  {
    PassStart(a[..], length, c);
    for j := 0 to c
      invariant PassInvariant(a[..], old(a[..]), length, c, j)
    {
      ghost var before := a[..];
      assert before[j] == a[j] && before[j + 1] == a[j + 1];
      CompareAndSwap(a, j);
      PassStep(before, old(a[..]), length, c, j);
    }
    PassDone(a[..], old(a[..]), length, c);
  }

  /**
   * The inner loop's progress at j: slot j is the dearest of the slots up to
   * j, and no slot up to c is dearer than a slot after it (below `length`).
   */
  ghost predicate PassSoFar(s: seq<Option<Book>>, length: int, c: int, j: int) {
    (forall p :: 0 <= p < j < |s| ==> PriceOf(s[p]) <= PriceOf(s[j]))
    && (forall p, q :: 0 <= p <= c < q < length <= |s| ==> PriceOf(s[p]) <= PriceOf(s[q]))
  }

  /** The inner loop's invariant, relating the slots now to the slots before the pass. */
  ghost predicate PassInvariant(s: seq<Option<Book>>, orig: seq<Option<Book>>, length: int, c: int, j: int) {
    |s| == |orig| && 0 <= j <= c < length <= |s|
    && (forall k :: 0 <= k < length ==> s[k].Some?)
    && multiset(s) == multiset(orig)
    && (forall k :: c < k < |s| ==> s[k] == orig[k])
    && PassSoFar(s, length, c, j)
  }

  /** The invariant holds when the pass starts. */
  lemma PassStart(s: seq<Option<Book>>, length: int, c: int)
    requires 0 <= c < length <= |s|
    requires forall k :: 0 <= k < length ==> s[k].Some?
    requires SettledAfter(s, length, c)
    ensures PassInvariant(s, s, length, c, 0)
  {
  }

  /** One compare-and-swap carries the dearest slot forward and keeps the invariant. */
  lemma PassStep(s: seq<Option<Book>>, orig: seq<Option<Book>>, length: int, c: int, j: int)
    requires PassInvariant(s, orig, length, c, j) && j < c
    ensures PassInvariant(Exchanged(s, j), orig, length, c, j + 1)
  {
  }

  /** After the pass, the slots from c on are in order and none before c is dearer than one from c on. */
  lemma PassDone(s: seq<Option<Book>>, orig: seq<Option<Book>>, length: int, c: int)
    requires PassInvariant(s, orig, length, c, c) && SettledAfter(orig, length, c)
    ensures SettledAfter(s, length, c - 1)
    ensures forall k :: 0 <= k < length ==> s[k].Some?
    ensures multiset(s) == multiset(orig)
    ensures forall k :: c < k < |s| ==> s[k] == orig[k]
  {
  }

  /** The inner loop's body: swap slots j and j + 1 when the first is dearer. */
  method CompareAndSwap(a: array<Option<Book>>, j: int)
    requires 0 <= j < a.Length - 1 && a[j].Some? && a[j + 1].Some?
    modifies a
    ensures a[..] == Exchanged(old(a[..]), j)
  {
    if a[j].value.price > a[j + 1].value.price {
      Swap(a, j, j + 1);
    }
  }

  /** Slots j and j + 1 after the inner loop's compare-and-swap. */
  function Exchanged(s: seq<Option<Book>>, j: int): (r: seq<Option<Book>>)
    requires 0 <= j < |s| - 1
    ensures |r| == |s| && PriceOf(r[j]) <= PriceOf(r[j + 1])
    ensures {r[j], r[j + 1]} == {s[j], s[j + 1]}
    ensures forall k :: 0 <= k < |s| && k != j && k != j + 1 ==> r[k] == s[k]
    ensures multiset(r) == multiset(s)
  {
    if PriceOf(s[j]) > PriceOf(s[j + 1]) then s[j := s[j + 1]][j + 1 := s[j]] else s
  }

  /** Exchange two slots; the books in the array stay the same. */
  method Swap(a: array<Option<Book>>, i: int, j: int)
    requires 0 <= i < a.Length && 0 <= j < a.Length
    modifies a
    ensures a[i] == old(a[j]) && a[j] == old(a[i])
    ensures forall k :: 0 <= k < a.Length && k != i && k != j ==> a[k] == old(a[k])
    ensures multiset(a[..]) == multiset(old(a[..]))
    ensures a[..] == old(a[..])[i := old(a[j])][j := old(a[i])]
  {
    ghost var before := a[..];
    a[i], a[j] := a[j], a[i];
    assert a[..] == before[i := before[j]][j := before[i]];
  }

  // ---------------------------------------------------------------------------
  // The search term
  // ---------------------------------------------------------------------------

  /** remove(stack, needle): the text before the first occurrence of the needle, which must occur. */
  function Remove(stack: string, needle: string): (r: string)
    requires Contains(stack, needle)
    ensures r <= stack && OccursAt(stack, needle, |r|)
    ensures forall j :: 0 <= j < |r| ==> !OccursAt(stack, needle, j)
  {
    IndexOfIsFirstOccurrence(stack, needle);
    stack[..IndexOf(stack, needle)]
  }

  /** The text once leading spaces are dropped: a suffix, with only spaces cut off. */
  function DropLeadingSpaces(s: string): (r: string)
    ensures |r| <= |s| && r == s[|s| - |r|..]
    ensures r == [] || r[0] != ' '
    ensures forall i :: 0 <= i < |s| - |r| ==> s[i] == ' '
    decreases |s|
  {
    if s != [] && s[0] == ' ' then DropLeadingSpaces(s[1..]) else s
  }

  /** The text once trailing spaces are dropped: a prefix, with only spaces cut off. */
  function DropTrailingSpaces(s: string): (r: string)
    ensures |r| <= |s| && r == s[..|r|]
    ensures r == [] || r[|r| - 1] != ' '
    ensures forall i :: |r| <= i < |s| ==> s[i] == ' '
    decreases |s|
  {
    if s != [] && s[|s| - 1] == ' ' then DropTrailingSpaces(s[..|s| - 1]) else s
  }

  /** search's two stripping loops: leading spaces first, then trailing ones. */
  method StripSpaces(t: string) returns (r: string)
    ensures r == DropTrailingSpaces(DropLeadingSpaces(t))
  {
    r := StripLeading(t);
    r := StripTrailing(r);
  }

  /** The loop that drops leading spaces. */
  method StripLeading(t: string) returns (r: string)
    ensures r == DropLeadingSpaces(t)
  {
    r := t;
    while |r| > 0 && r[0] == ' '
      invariant DropLeadingSpaces(r) == DropLeadingSpaces(t)
      decreases |r|
    {
      assert DropLeadingSpaces(r) == DropLeadingSpaces(r[1..]);
      r := r[1..];
    }
    assert DropLeadingSpaces(r) == r;
  }

  /** The loop that drops trailing spaces. */
  method StripTrailing(t: string) returns (r: string)
    ensures r == DropTrailingSpaces(t)
  {
    r := t;
    while |r| > 0 && r[|r| - 1] == ' '
      invariant DropTrailingSpaces(r) == DropTrailingSpaces(t)
      decreases |r|
    {
      assert DropTrailingSpaces(r) == DropTrailingSpaces(r[..|r| - 1]);
      r := r[..|r| - 1];
    }
    assert DropTrailingSpaces(r) == r;
  }

  /** A term to look for in titles, and whether case is ignored. */
  datatype Query = Query(term: string, ignoreCase: bool)

  /**
   * What search makes of the entered text: "--i" alone, or a text with nothing
   * left after the flag is cut and the spaces are stripped, asks again (None);
   * " --i" anywhere sets case-insensitivity and cuts the text from it on.
   */
  function SearchQuery(input: string): (q: Option<Query>)
    ensures q.Some? ==> q.value.term != [] && q.value.term[0] != ' ' && q.value.term[|q.value.term| - 1] != ' '
    ensures q.Some? ==> (q.value.ignoreCase <==> Contains(input, CASE_FLAG))
  {
    if input == BARE_FLAG then None
    else
      var ci := Contains(input, CASE_FLAG);
      var t := DropTrailingSpaces(DropLeadingSpaces(if ci then Remove(input, CASE_FLAG) else input));
      if t == "" then None else Some(Query(t, ci))
  }

  /** The term search reads from the entered text, with its stripping loops. */
  method ReadSearchTerm(input: string) returns (q: Option<Query>)
    ensures q == SearchQuery(input)
  {
    if input == BARE_FLAG {
      return None;
    }
    var ci := Contains(input, CASE_FLAG);
    var title := input;
    if ci {
      title := Remove(title, CASE_FLAG);
    }
    title := StripSpaces(title);
    if title == "" {
      return None;
    }
    return Some(Query(title, ci));
  }

  /** A title without the flag is searched for as entered, with case. */
  lemma PlainQueryExample()
    ensures SearchQuery("Dune") == Some(Query("Dune", false))
  {
    var s := "Dune";
    assert s[0] != CASE_FLAG[0];
    ContainsNeedsRoom(s[1..], CASE_FLAG);
    assert !Contains(s, CASE_FLAG);
  }

  /** The flag is found after the title, and everything from it on is dropped. */
  lemma FlaggedQueryExample()
    ensures SearchQuery("Dune --i") == Some(Query("Dune", true))
  {
    FlagAfterTitle();
    UnpaddedIsKept("Dune");
  }

  lemma FlagAfterTitle()
    ensures Contains("Dune --i", CASE_FLAG) && Remove("Dune --i", CASE_FLAG) == "Dune"
  {
    var s := "Dune --i";
    assert OccursAt(s, CASE_FLAG, 4) by {
      assert s[4..] == CASE_FLAG;
    }
    ContainsIffOccurs(s, CASE_FLAG);
    var r := Remove(s, CASE_FLAG);
    assert |r| == 4 by {
      assert s[|r|] == CASE_FLAG[0];
    }
    assert r == s[..4];
  }

  /** A text without a leading or trailing space is left as it is by both stripping loops. */
  lemma UnpaddedIsKept(t: string)
    requires t == [] || (t[0] != ' ' && t[|t| - 1] != ' ')
    ensures DropTrailingSpaces(DropLeadingSpaces(t)) == t
  {
    var u := DropLeadingSpaces(t);
    assert |u| == |t|;
    var v := DropTrailingSpaces(u);
    assert |v| == |u|;
  }

  /** The bare flag, blanks, and the flag with nothing before it give no term. */
  lemma EmptyQueryExamples()
    ensures SearchQuery("--i") == None && SearchQuery("   ") == None && SearchQuery(" --i") == None
  {
    ContainsNeedsRoom("   ", CASE_FLAG);
    assert DropLeadingSpaces("   ") == "";
    assert Remove(" --i", CASE_FLAG) == "";
  }

  /** Whether a title matches: contains the term, both upper-cased when case is ignored. */
  predicate TitleMatches(title: string, q: Query) {
    if q.ignoreCase then Contains(ToUpperCase(title), ToUpperCase(q.term)) else Contains(title, q.term)
  }

  /** Ignoring case finds every title the exact search finds. */
  lemma IgnoringCaseFindsMore(title: string, term: string)
    ensures TitleMatches(title, Query(term, false)) ==> TitleMatches(title, Query(term, true))
  {
    if Contains(title, term) {
      FoldingKeepsContains(title, term);
    }
  }

  // ---------------------------------------------------------------------------
  // The store
  // ---------------------------------------------------------------------------

  /** addBook's outcome: the catalogue is full, the entered book is refused, or it went into a slot. */
  datatype AddOutcome = CatalogueFull | Refused | Added(slot: nat)

  class BookStore {
    /** LIBRARY: a null slot is None. */
    const library: array<Option<Book>>

    ghost predicate Valid()
      reads this, library
    {
      library.Length == CAPACITY && Stocked(library[..])
    }

    /** The empty catalogue of ten slots. */
    constructor ()
      ensures Valid() && fresh(library)
      ensures forall i :: 0 <= i < library.Length ==> library[i].None?
    {
      library := new Option<Book>[CAPACITY](_ => None);
    }

    /** exists(id): some slot holds a book with this ID. */
    method Exists(id: int) returns (b: bool)
      ensures b <==> HasId(library[..], id)
    {
      for i := 0 to library.Length
        invariant forall k :: 0 <= k < i ==> !(library[k].Some? && library[k].value.id == id)
      {
        if library[i].Some? && library[i].value.id == id {
          assert library[..][i] == library[i];
          return true;
        }
      }
      return false;
    }

    /** isLibraryEmpty: every slot is free. */
    method IsLibraryEmpty() returns (b: bool)
      ensures b <==> forall i :: 0 <= i < library.Length ==> library[i].None?
    {
      for i := 0 to library.Length
        invariant forall k :: 0 <= k < i ==> library[k].None?
      {
        if library[i].Some? {
          return false;
        }
      }
      return true;
    }

    /** The first loop of addBook: the first free slot, or -1 when there is none. */
    method FindFreeSlot() returns (num: int)
      ensures num == (if FirstFree(library[..]) < library.Length then FirstFree(library[..]) else -1)
    {
      num := -1;
      for i := 0 to library.Length
        invariant forall k :: 0 <= k < i ==> library[k].Some?
      {
        if library[i].None? {
          FirstFreeIs(library[..], i);
          return i;
        }
      }
      FirstFreeIs(library[..], library.Length);
    }

    /**
     * addBook with the values the dialogs hand over: nothing changes when the
     * catalogue is full or the book breaks an entry rule or reuses an ID;
     * otherwise the book goes into the first free slot and nothing else changes.
     */
    method AddBook(candidate: Book) returns (r: AddOutcome)
      requires Valid()
      modifies library
      ensures Valid()
      ensures r.CatalogueFull? <==> old(FirstFree(library[..])) == CAPACITY
      ensures r.Refused? <==>
        (old(FirstFree(library[..])) < CAPACITY && !(EntryAccepted(candidate) && !HasId(old(library[..]), candidate.id)))
      ensures r.Added? ==> r.slot == old(FirstFree(library[..]))
      ensures r.Added? ==> library[..] == old(library[..])[r.slot := Some(candidate)]
      ensures !r.Added? ==> library[..] == old(library[..])
      ensures r.Added? ==> HasId(library[..], candidate.id)
    {
      var num := FindFreeSlot();
      if num == -1 {
        return CatalogueFull;
      }
      var taken := Exists(candidate.id);
      if !EntryAccepted(candidate) || taken {
        return Refused;
      }
      StockedPrefix(library[..]);
      library[num] := Some(candidate);
      assert library[..][num] == Some(candidate);
      return Added(num);
    }

    /**
     * sortDisplay: nothing to show for an empty catalogue; otherwise a clone of
     * LIBRARY whose books are the same books ordered by non-decreasing price,
     * with the free slots left as they were. LIBRARY itself is not changed.
     */
    method SortDisplay() returns (sorted: Option<array<Option<Book>>>)
      requires Valid()
      ensures sorted.None? <==> forall i :: 0 <= i < library.Length ==> library[i].None?
      ensures sorted.Some? ==> fresh(sorted.value) && sorted.value.Length == library.Length
      ensures sorted.Some? ==>
        var n := FirstFree(library[..]);
        && multiset(sorted.value[..n]) == multiset(library[..n])
        && PricesSorted(sorted.value[..n])
        && sorted.value[n..] == library[n..]
    {
      var empty := IsLibraryEmpty();
      if empty {
        return None;
      }
      var temp := new Option<Book>[library.Length];
      forall i | 0 <= i < library.Length {
        temp[i] := library[i];
      }
      assert temp[..] == library[..];
      var length := 0;
      while length < temp.Length && temp[length].Some?
        invariant 0 <= length <= temp.Length
        invariant forall k :: 0 <= k < length ==> temp[k].Some?
      {
        length := length + 1;
      }
      FirstFreeIs(library[..], length);
      BubbleSort(temp, length);
      return Some(temp);
    }

    /**
     * The search array for a query: slot i holds LIBRARY's book i when its
     * title matches and is null otherwise; `found` says whether any slot is set.
     */
    method SearchSlots(q: Query) returns (search: array<Option<Book>>, found: bool)
      requires Valid()
      ensures fresh(search) && search.Length == CAPACITY
      ensures forall i :: 0 <= i < CAPACITY ==>
        search[i] == (if library[i].Some? && TitleMatches(library[i].value.title, q) then library[i] else None)
      ensures found <==> exists i :: 0 <= i < CAPACITY && search[i].Some?
    {
      search := new Option<Book>[CAPACITY](_ => None);
      for i := 0 to library.Length
        invariant forall k :: 0 <= k < i ==>
          search[k] == (if library[k].Some? && TitleMatches(library[k].value.title, q) then library[k] else None)
        invariant forall k :: i <= k < CAPACITY ==> search[k].None?
      {
        if library[i].None? {
          continue;
        }
        if q.ignoreCase {
          if JavaLang.Contains(ToUpperCase(library[i].value.title), ToUpperCase(q.term)) {
            search[i] := library[i];
          }
        } else {
          if JavaLang.Contains(library[i].value.title, q.term) {
            search[i] := library[i];
          }
        }
      }
      found := false;
      for i := 0 to CAPACITY
        invariant !found <==> forall k :: 0 <= k < i ==> search[k].None?
      {
        if search[i].Some? {
          found := true;
        }
      }
    }
  }

  /** Every book in a stocked catalogue sits before the first free slot and passed the entry rules. */
  lemma StoredBooksAreAccepted(s: seq<Option<Book>>, i: int)
    requires Stocked(s) && 0 <= i < |s| && s[i].Some?
    ensures i < FirstFree(s) && EntryAccepted(s[i].value)
  {
    StockedPrefix(s);
  }
}
