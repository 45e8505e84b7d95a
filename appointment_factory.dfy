/**
 * One month of appointments, with validation, search, persistence and an
 * HTML listing (Int-PracExc4 classes/AppointmentFactory.java).
 *
 * The list of appointments is held as a sequence of field values. The binary
 * file is not modelled byte by byte: what `load` reads is a `StoredFile`
 * value, and whether `commit` manages to write the file is an input
 * (`commitOk`). Within a month names are unique, every name is 1..20
 * characters and every day lies within the month; the hour of an entry added
 * through `AddEntry` is not checked (the source does not check it either).
 */
module AppointmentBook {
  import opened JavaLang
  import opened AppointmentRecord
  import opened AppointmentOrder

  const MIN_YEAR := 1970
  const DEFAULT_YEAR := 2000
  const MAX_YEAR := 2100
  /** Calendar.JANUARY and Calendar.DECEMBER: months are numbered from 0. */
  const JANUARY := 0
  const DECEMBER := 11
  const MAX_HOUR := 24

  // ---------------------------------------------------------------------------
  // The calendar (GregorianCalendar.getActualMaximum(DAY_OF_MONTH))
  // ---------------------------------------------------------------------------

  predicate IsLeapYear(year: int) {
    year % 4 == 0 && (year % 100 != 0 || year % 400 == 0)
  }

  /** The number of days in a month (0 = January) of a Gregorian year. */
  function DaysInMonth(month: int, year: int): (r: int)
    requires JANUARY <= month <= DECEMBER
    ensures 28 <= r <= 31
    ensures month == 1 ==> (r == 29 <==> IsLeapYear(year))
  {
    if month == 1 then (if IsLeapYear(year) then 29 else 28)
    else if month == 3 || month == 5 || month == 8 || month == 10 then 30
    else 31
  }

  /** The days in the first `months` months of a year. */
  function DaysBefore(months: int, year: int): int
    requires 0 <= months <= 12
    decreases months
  {
    if months == 0 then 0 else DaysBefore(months - 1, year) + DaysInMonth(months - 1, year)
  }

  /** The twelve month lengths add up to the length of the year. */
  lemma YearLength(year: int)
    ensures DaysBefore(12, year) == if IsLeapYear(year) then 366 else 365
  {
    var feb := DaysInMonth(1, year);
    assert DaysBefore(2, year) == 31 + feb;
    assert DaysBefore(4, year) == 31 + feb + 31 + 30;
    assert DaysBefore(6, year) == 31 + feb + 31 + 30 + 31 + 30;
    assert DaysBefore(8, year) == 31 + feb + 31 + 30 + 31 + 30 + 31 + 31;
    assert DaysBefore(10, year) == 31 + feb + 31 + 30 + 31 + 30 + 31 + 31 + 30 + 31;
  }

  // ---------------------------------------------------------------------------
  // What is accepted into a month
  // ---------------------------------------------------------------------------

  /** validateName: non-null, non-empty, at most 20 characters, and not yet used this month. */
  predicate NameAccepted(apps: seq<Fields>, name: Option<string>) {
    name.Some? && name.value != "" && |name.value| <= MAX_NAME_LENGTH && NameFree(apps, name.value)
  }

  /** validateDay(int). */
  predicate DayAccepted(day: int, days: int) {
    1 <= day <= days
  }

  /** validateHour(int). */
  predicate HourAccepted(hour: int) {
    1 <= hour <= MAX_HOUR
  }

  /** validateDay(String) / validateHour(String): the text must parse as an int first. */
  predicate DayTextAccepted(text: Option<string>, days: int) {
    ParseInt(text).Some? && DayAccepted(ParseInt(text).value, days)
  }

  predicate HourTextAccepted(text: Option<string>) {
    ParseInt(text).Some? && HourAccepted(ParseInt(text).value)
  }

  /** The text overloads agree with the int overloads on every int written in decimal. */
  lemma TextValidationAgreesWithInt(n: int, days: int)
    requires IsInt32(n)
    ensures DayTextAccepted(Some(IntToString(n)), days) <==> DayAccepted(n, days)
    ensures HourTextAccepted(Some(IntToString(n))) <==> HourAccepted(n)
  {
    ParseIntOfIntToString(n);
  }

  /** validateAppointment(Appointment): the three getters' values each pass their check. */
  predicate EntryAccepted(apps: seq<Fields>, f: Fields, days: int) {
    NameAccepted(apps, Some(NameOf(f))) && DayAccepted(DayOf(f), days) && HourAccepted(HourOf(f))
  }

  /** An entry as the month keeps it. */
  predicate WellFormed(e: Fields, days: int) {
    e.name.Some? && 1 <= |e.name.value| <= MAX_NAME_LENGTH && 1 <= e.day <= days
  }

  predicate AllWellFormed(apps: seq<Fields>, days: int) {
    forall i :: 0 <= i < |apps| ==> WellFormed(apps[i], days)
  }

  /** A kept entry reads back exactly its stored name and day. */
  lemma WellFormedReadsBack(e: Fields, days: int)
    requires WellFormed(e, days) && days <= 31
    ensures NameOf(e) == e.name.value && DayOf(e) == e.day
    ensures WellFormed(Observed(e), days)
    ensures Observed(e) == e.(hour := HourOf(e))
  {
  }

  /** addAppointment(Appointment)'s test: non-null, and name and day as read back pass (the hour is not checked). */
  predicate EntryAddable(apps: seq<Fields>, a: Option<Fields>, days: int) {
    a.Some? && NameAccepted(apps, Some(NameOf(a.value))) && DayAccepted(DayOf(a.value), days)
  }

  /** The entry addAppointment(Appointment) keeps: name and day as their getters left them. */
  function AsAdded(f: Fields): Fields {
    f.(name := Some(NameOf(f)), day := DayOf(f))
  }

  // ---------------------------------------------------------------------------
  // Loading: what the saved file may hold, and what load keeps of it
  // ---------------------------------------------------------------------------

  /** One element of the saved list. */
  datatype StoredItem = NullItem | AppointmentItem(fields: Fields) | ForeignItem

  /**
   * The saved file: missing or unreadable (IOException), holding an object
   * that is not a List (ClassCastException, ClassNotFoundException), a null
   * list, or a list of elements.
   */
  datatype StoredFile = Unreadable | NotAList | NullList | ListOf(items: seq<StoredItem>)

  /** The entries kept so far, and whether every element could be cast to Appointment. */
  datatype Absorbed = Absorbed(kept: seq<Fields>, complete: bool)

  /**
   * The loop of load: each element that is an Appointment and passes
   * validateAppointment (against the entries kept so far) is appended as its
   * getters left it; null elements are skipped; the first element that is not
   * an Appointment ends the loop with a ClassCastException.
   */
  function Absorb(kept: seq<Fields>, items: seq<StoredItem>, days: int): Absorbed
    decreases |items|
  {
    if items == [] then Absorbed(kept, true)
    else match items[0]
      case NullItem => Absorb(kept, items[1..], days)
      case ForeignItem => Absorbed(kept, false)
      case AppointmentItem(f) =>
        Absorb(if EntryAccepted(kept, f, days) then kept + [Observed(f)] else kept, items[1..], days)
  }

  /**
   * Loading only appends, keeps every entry well formed and every name
   * unique, and reports completion exactly when no element was foreign.
   */
  lemma {:induction false} AbsorbKeepsInvariant(kept: seq<Fields>, items: seq<StoredItem>, days: int)
    requires AllWellFormed(kept, days) && DistinctNames(kept)
    ensures kept <= Absorb(kept, items, days).kept
    ensures AllWellFormed(Absorb(kept, items, days).kept, days)
    ensures DistinctNames(Absorb(kept, items, days).kept)
    ensures Absorb(kept, items, days).complete <==> ForeignItem !in items
    decreases |items|
  {
    if items != [] {
      assert items == [items[0]] + items[1..];
      match items[0]
      case NullItem =>
        AbsorbKeepsInvariant(kept, items[1..], days);
      case ForeignItem =>
      case AppointmentItem(f) =>
        var next := if EntryAccepted(kept, f, days) then kept + [Observed(f)] else kept;
        ObservedIsStable(f);
        AbsorbKeepsInvariant(next, items[1..], days);
    }
  }

  /** What commit writes: the list of the month's appointments. */
  function StoredList(apps: seq<Fields>): seq<StoredItem> {
    seq(|apps|, i requires 0 <= i < |apps| => AppointmentItem(apps[i]))
  }

  /**
   * Loading what commit wrote restores the month, provided every stored hour
   * is one validateHour accepts.
   */
  lemma {:induction false} CommitThenLoad(kept: seq<Fields>, rest: seq<Fields>, days: int)
    requires days <= 31
    requires AllWellFormed(kept + rest, days) && DistinctNames(kept + rest)
    requires forall i :: 0 <= i < |rest| ==> HourAccepted(rest[i].hour)
    ensures Absorb(kept, StoredList(rest), days) == Absorbed(kept + rest, true)
    decreases |rest|
  {
    if rest == [] {
      assert kept + rest == kept;
    } else {
      var e := rest[0];
      assert (kept + rest)[|kept|] == e;
      WellFormedReadsBack(e, days);
      forall i | 0 <= i < |kept|
        ensures NameOf(kept[i]) != NameOf(e)
      {
        assert (kept + rest)[i] == kept[i];
      }
      assert EntryAccepted(kept, e, days);
      assert Observed(e) == e;
      assert StoredList(rest)[1..] == StoredList(rest[1..]);
      assert kept + [e] + rest[1..] == kept + rest;
      CommitThenLoad(kept + [e], rest[1..], days);
    }
  }

  /** An entry added with an hour above 24 is accepted by addAppointment(Appointment) but dropped by the next load. */
  lemma LateHourIsDroppedOnReload(kept: seq<Fields>, e: Fields, days: int)
    requires MAX_HOUR < e.hour
    ensures Absorb(kept, StoredList([e]), days) == Absorbed(kept, true)
  {
  }

  // ---------------------------------------------------------------------------
  // Searching
  // ---------------------------------------------------------------------------

  /** Whether an entry's name contains the search term, with or without case. */
  predicate Matches(f: Fields, term: string, caseSensitive: bool) {
    if caseSensitive then Contains(NameOf(f), term)
    else Contains(ToLowerCase(NameOf(f)), ToLowerCase(term))
  }

  /** The entries whose names match, in list order. */
  function Matching(s: seq<Fields>, term: string, caseSensitive: bool): seq<Fields>
    decreases |s|
  {
    if s == [] then []
    else
      var head := if Matches(s[0], term, caseSensitive) then [s[0]] else [];
      head + Matching(s[1..], term, caseSensitive)
  }

  lemma {:induction false} MatchingMembers(s: seq<Fields>, term: string, caseSensitive: bool)
    ensures forall x :: x in Matching(s, term, caseSensitive) <==> x in s && Matches(x, term, caseSensitive)
    decreases |s|
  {
    if s != [] {
      MatchingMembers(s[1..], term, caseSensitive);
      assert s == [s[0]] + s[1..];
    }
  }

  /** Filtering a concatenation filters each part: the order of the list is kept. */
  lemma {:induction false} MatchingAppend(s: seq<Fields>, t: seq<Fields>, term: string, caseSensitive: bool)
    ensures Matching(s + t, term, caseSensitive) == Matching(s, term, caseSensitive) + Matching(t, term, caseSensitive)
    decreases |s|
  {
    if s != [] {
      var u := s + t;
      assert u[0] == s[0] && u[1..] == s[1..] + t;
      MatchingAppend(s[1..], t, term, caseSensitive);
      var head := if Matches(s[0], term, caseSensitive) then [s[0]] else [];
      assert Matching(u, term, caseSensitive) == head + Matching(u[1..], term, caseSensitive);
      assert Matching(s, term, caseSensitive) == head + Matching(s[1..], term, caseSensitive);
    } else {
      assert s + t == t;
    }
  }

  /** The empty term matches every entry. */
  lemma {:induction false} MatchingEmptyTerm(s: seq<Fields>, caseSensitive: bool)
    ensures Matching(s, "", caseSensitive) == s
    decreases |s|
  {
    if s != [] {
      MatchingEmptyTerm(s[1..], caseSensitive);
    }
  }

  /** Every case-sensitive match is also a case-insensitive match. */
  lemma CaseSensitiveMatchIsInsensitiveMatch(f: Fields, term: string)
    requires Matches(f, term, true)
    ensures Matches(f, term, false)
  {
    FoldingKeepsContains(NameOf(f), term);
  }

  // ---------------------------------------------------------------------------
  // formatData
  // ---------------------------------------------------------------------------

  /** A row of the JTable model: three cells, each a string or null. */
  type Row = seq<Option<string>>

  const EMPTY_ROW: Row := [None, None, None]

  function FormatRow(f: Fields): Row {
    [Some(NameOf(f)), Some(IntToString(DayOf(f))), Some(IntToString(HourOf(f)))]
  }

  /** The rows formatData fills: one per non-null appointment, in list order. */
  function FormattedRows(l: seq<Option<Fields>>): (r: seq<Row>)
    ensures |r| <= |l|
    decreases |l|
  {
    if l == [] then []
    else
      FormattedRows(l[..|l| - 1])
        + (match l[|l| - 1] case None => [] case Some(f) => [FormatRow(f)])
  }

  /** Without null entries, every appointment has its row at its own index. */
  lemma {:induction false} FormattedRowsWithoutNulls(l: seq<Option<Fields>>)
    requires forall i :: 0 <= i < |l| ==> l[i].Some?
    ensures |FormattedRows(l)| == |l|
    ensures forall i :: 0 <= i < |l| ==> FormattedRows(l)[i] == FormatRow(l[i].value)
    decreases |l|
  {
    if l != [] {
      FormattedRowsWithoutNulls(l[..|l| - 1]);
    }
  }

  /** formatData's table: filled rows first, then one empty row per null entry. */
  function FormatTable(list: Option<seq<Option<Fields>>>): seq<Row> {
    if list.None? || list.value == [] then []
    else
      var filled := FormattedRows(list.value);
      filled + seq(|list.value| - |filled|, _ => EMPTY_ROW)
  }

  /**
   * formatData (static): a null or empty list gives a table with no rows;
   * otherwise one row per list element, the non-null appointments' rows first.
   */
  method FormatData(list: Option<seq<Option<Fields>>>) returns (table: seq<Row>)
    ensures table == FormatTable(list)
    ensures list.Some? ==> |table| == |list.value|
  {
    if list.None? || list.value == [] {
      return [];
    }
    var l := list.value;
    table := seq(|l|, _ => EMPTY_ROW);
    var count := 0;
    for i := 0 to |l|
      invariant count == |FormattedRows(l[..i])|
      invariant table == FormattedRows(l[..i]) + seq(|l| - count, _ => EMPTY_ROW)
    {
      assert l[..i + 1][..i] == l[..i];
      match l[i]
      case None =>
      case Some(app) =>
        table := table[count := FormatRow(app)];
        count := count + 1;
    }
    assert l[..|l|] == l;
  }

  // ---------------------------------------------------------------------------
  // The factory
  // ---------------------------------------------------------------------------

  class AppointmentFactory {
    var apps: seq<Fields>
    var month: int
    var year: int

    /** The month and year are in range; names are unique, 1..20 characters; days fit the month. */
    ghost predicate Valid()
      reads this
    {
      JANUARY <= month <= DECEMBER && MIN_YEAR <= year <= MAX_YEAR
      && AllWellFormed(apps, DaysInMonth(month, year)) && DistinctNames(apps)
    }

    /** getDays. */
    function Days(): (r: int)
      reads this
      requires JANUARY <= month <= DECEMBER
      ensures 28 <= r <= 31
      ensures r == DaysInMonth(month, year)
    {
      DaysInMonth(month, year)
    }

    /** The main constructor: clamp month and year, then load the month's file. */
    constructor (month: int, year: int, file: StoredFile)
      ensures Valid()
      ensures this.month == Clamp(month, JANUARY, DECEMBER)
      ensures this.year == Clamp(year, MIN_YEAR, MAX_YEAR)
      ensures apps == match file
        case ListOf(items) => Absorb([], items, DaysInMonth(this.month, this.year)).kept
        case _ => []
    {
      apps := [];
      this.month := JANUARY;
      this.year := DEFAULT_YEAR;
      new;
      SetMonth(month);
      SetYear(year);
      var _, _ := Load(file);
    }

    /** setMonth: clamp into January..December and empty the list. */
    method SetMonth(m: int)
      modifies this
      ensures month == Clamp(m, JANUARY, DECEMBER) && year == old(year) && apps == []
      ensures MIN_YEAR <= year <= MAX_YEAR ==> Valid()
    {
      var v := m;
      if v < JANUARY {
        v := JANUARY;
      }
      if v > DECEMBER {
        v := DECEMBER;
      }
      apps := [];
      month := v;
    }

    /** setYear: clamp into 1970..2100 and empty the list. */
    method SetYear(y: int)
      modifies this
      ensures year == Clamp(y, MIN_YEAR, MAX_YEAR) && month == old(month) && apps == []
      ensures JANUARY <= month <= DECEMBER ==> Valid()
    {
      var v := y;
      if v < MIN_YEAR {
        v := MIN_YEAR;
      }
      if v > MAX_YEAR {
        v := MAX_YEAR;
      }
      apps := [];
      year := v;
    }

    method ValidateDay(day: int) returns (ok: bool)
      requires Valid()
      ensures ok <==> DayAccepted(day, Days())
    {
      ok := day >= 1 && day <= Days();
    }

    method ValidateDayText(day: Option<string>) returns (ok: bool)
      requires Valid()
      ensures ok <==> DayTextAccepted(day, Days())
    {
      match ParseInt(day)
      case None =>
        ok := false;
      case Some(d) =>
        ok := ValidateDay(d);
    }

    method ValidateHour(hour: int) returns (ok: bool)
      ensures ok <==> HourAccepted(hour)
    {
      ok := hour >= 1 && hour <= MAX_HOUR;
    }

    method ValidateHourText(hour: Option<string>) returns (ok: bool)
      ensures ok <==> HourTextAccepted(hour)
    {
      match ParseInt(hour)
      case None =>
        ok := false;
      case Some(h) =>
        ok := ValidateHour(h);
    }

    /**
     * contains: the index of the first entry with the given name, or -1 when
     * the name is null or not used this month.
     */
    method Contains(name: Option<string>) returns (index: int)
      requires Valid()
      ensures index == -1 <==> name.None? || NameFree(apps, name.value)
      ensures index != -1 ==>
        0 <= index < |apps| && NameOf(apps[index]) == name.value && NameFree(apps[..index], name.value)
    {
      if name.None? {
        return -1;
      }
      for i := 0 to |apps|
        invariant NameFree(apps[..i], name.value)
      {
        if NameOf(apps[i]) == name.value {
          return i;
        }
        assert apps[..i + 1] == apps[..i] + [apps[i]];
      }
      assert apps[..|apps|] == apps;
      return -1;
    }

    method ValidateName(name: Option<string>) returns (ok: bool)
      requires Valid()
      ensures ok <==> NameAccepted(apps, name)
    {
      if name.None? || name.value == "" || |name.value| > MAX_NAME_LENGTH {
        return false;
      }
      var i := Contains(name);
      ok := i == -1;
    }

    /** validateAppointment(Appointment): null is refused; otherwise name, day and hour as read back. */
    method ValidateAppointment(a: Option<Fields>) returns (ok: bool)
      requires Valid()
      ensures ok <==> a.Some? && EntryAccepted(apps, a.value, Days())
    {
      if a.None? {
        return false;
      }
      var f := a.value;
      ok := ValidateName(Some(NameOf(f)));
      if ok {
        ok := ValidateDay(DayOf(f));
      }
      if ok {
        ok := ValidateHour(HourOf(f));
      }
    }

    /** validateAppointment(Object): anything that is not an Appointment is refused. */
    method ValidateObject(o: StoredItem) returns (ok: bool)
      requires Valid()
      ensures ok <==> o.AppointmentItem? && EntryAccepted(apps, o.fields, Days())
    {
      if !o.AppointmentItem? {
        return false;
      }
      ok := ValidateAppointment(Some(o.fields));
    }

    /** search: the entries whose names contain the term, in list order. */
    function Search(term: string, caseSensitive: bool): (r: seq<Fields>)
      reads this
      ensures forall x :: x in r <==> x in apps && Matches(x, term, caseSensitive)
      ensures term == "" ==> r == apps
    {
      MatchingMembers(apps, term, caseSensitive);
      MatchingEmptyTerm(apps, caseSensitive);
      Matching(apps, term, caseSensitive)
    }

    /**
     * addAppointment(Appointment): refuses null, a name that validateName
     * refuses and a day validateDay refuses (the hour is not checked); otherwise
     * appends the entry with name and day as read back, and reports whether
     * commit succeeded.
     */
    method AddEntry(a: Option<Fields>, commitOk: bool) returns (ok: bool)
      requires Valid()
      modifies this
      ensures Valid() && month == old(month) && year == old(year)
      ensures !EntryAddable(old(apps), a, Days()) ==> !ok && apps == old(apps)
      ensures EntryAddable(old(apps), a, Days()) ==>
        ok == commitOk && apps == old(apps) + [AsAdded(a.value)]
    {
      if a.None? {
        return false;
      }
      var f := a.value;
      var nameOk := ValidateName(Some(NameOf(f)));
      if !nameOk {
        return false;
      }
      var dayOk := ValidateDay(DayOf(f));
      if !dayOk {
        return false;
      }
      ObservedIsStable(f);
      apps := apps + [AsAdded(f)];
      ok := commitOk;
    }

    /**
     * addAppointment(name, day, hour): all three must pass validation; the new
     * entry then goes through addAppointment(Appointment).
     */
    method AddAppointment(name: Option<string>, day: int, hour: int, commitOk: bool) returns (ok: bool)
      requires Valid()
      modifies this
      ensures Valid() && month == old(month) && year == old(year)
      ensures !(NameAccepted(old(apps), name) && DayAccepted(day, Days()) && HourAccepted(hour)) ==>
        !ok && apps == old(apps)
      ensures NameAccepted(old(apps), name) && DayAccepted(day, Days()) && HourAccepted(hour) ==>
        ok == commitOk && apps == old(apps) + [Fields(name, day, hour)]
    {
      var nameOk := ValidateName(name);
      var dayOk := ValidateDay(day);
      var hourOk := ValidateHour(hour);
      if !nameOk || !dayOk || !hourOk {
        return false;
      }
      var temp := Fields(name, day, hour);
      ok := AddEntry(Some(temp), commitOk);
    }

    /** delete: remove the entry with that name, if there is one, and report whether commit succeeded. */
    method Delete(name: Option<string>, commitOk: bool) returns (ok: bool)
      requires Valid()
      modifies this
      ensures Valid() && month == old(month) && year == old(year)
      ensures name.None? || NameFree(old(apps), name.value) ==> !ok && apps == old(apps)
      ensures name.Some? && !NameFree(old(apps), name.value) ==>
        ok == commitOk && NameFree(apps, name.value)
        && (exists i :: 0 <= i < |old(apps)| && NameOf(old(apps)[i]) == name.value
              && apps == old(apps)[..i] + old(apps)[i + 1..])
    {
      var i := Contains(name);
      if i == -1 {
        return false;
      }
      ghost var before := apps;
      apps := apps[..i] + apps[i + 1..];
      forall j | 0 <= j < |apps|
        ensures NameOf(apps[j]) != name.value
      {
        if j < i {
          assert apps[j] == before[j];
        } else {
          assert apps[j] == before[j + 1];
        }
      }
      ok := commitOk;
    }

    /** countAppointments. */
    function CountAppointments(): (r: nat)
      reads this
      ensures r == |apps|
    {
      |apps|
    }

    /**
     * getAppointments: a copy of the month's list. The list is a value here,
     * so later changes to the factory do not reach it; it holds as many
     * appointments as countAppointments reports, with unique names.
     */
    function GetAppointments(): (r: seq<Fields>)
      reads this
      ensures |r| == CountAppointments()
      ensures Valid() ==> DistinctNames(r) && AllWellFormed(r, DaysInMonth(month, year))
    {
      apps
    }

    /**
     * load: read the month's file and append each valid appointment in it.
     * `deleted` says whether the file is deleted because it holds something
     * other than a list of appointments.
     */
    method Load(file: StoredFile) returns (ok: bool, deleted: bool)
      requires Valid()
      modifies this
      ensures Valid() && month == old(month) && year == old(year)
      ensures file.Unreadable? ==> !ok && !deleted && apps == old(apps)
      ensures file.NotAList? ==> !ok && deleted && apps == old(apps)
      ensures file.NullList? ==> ok && !deleted && apps == old(apps)
      ensures file.ListOf? ==>
        var r := Absorb(old(apps), file.items, Days());
        apps == r.kept && ok == r.complete && deleted == !r.complete
    {
      match file
      case Unreadable =>
        return false, false;
      case NotAList =>
        return false, true;
      case NullList =>
        return true, false;
      case ListOf(items) =>
        ghost var days := Days();
        for i := 0 to |items|
          invariant Valid() && month == old(month) && year == old(year)
          invariant Absorb(apps, items[i..], days) == Absorb(old(apps), items, days)
        {
          assert items[i..][1..] == items[i + 1..];
          match items[i]
          case NullItem =>
          case ForeignItem =>
            return false, true;
          case AppointmentItem(f) =>
            var v := ValidateAppointment(Some(f));
            if v {
              ObservedIsStable(f);
              apps := apps + [Observed(f)];
            }
        }
        return true, false;
    }

    /**
     * toString: sort the list by day, hour and name, then list every entry
     * as an HTML table row. The getters called on the way leave every entry
     * as it reads back.
     */
    method ToString() returns (s: string)
      requires Valid()
      modifies this
      ensures Valid() && month == old(month) && year == old(year)
      ensures s == TableHtml(SortForDisplay(old(apps)))
      ensures apps == ObserveAll(SortForDisplay(old(apps)))
      ensures DisplaySorted(apps)
    {
      DisplayListKeepsInvariant(apps, Days());
      var list := SortForDisplay(apps);
      var rows;
      rows, list := TableRows(list);
      apps := list;
      s := TABLE_HEAD + rows + TABLE_FOOT;
    }
  }

  /**
   * toString's loop over the sorted list: each entry's row, in order; the
   * getters called for a row leave that entry as it reads back.
   */
  method TableRows(sorted: seq<Fields>) returns (rows: string, list: seq<Fields>)
    ensures rows == RowsHtml(sorted)
    ensures list == ObserveAll(sorted)
  {
    list := sorted;
    rows := "";
    for i := 0 to |list|
      invariant |list| == |sorted|
      invariant forall k :: 0 <= k < |list| ==> list[k] == if k < i then Observed(sorted[k]) else sorted[k]
      invariant rows == RowsHtml(sorted[..i])
    {
      var row := RowHtml(list[i]);
      RowsStep(sorted, i, rows, row);
      rows := rows + row;
      list := list[i := Observed(list[i])];
    }
    assert sorted[..|sorted|] == sorted;
  }

  lemma RowsStep(s: seq<Fields>, i: int, rows: string, row: string)
    requires 0 <= i < |s| && rows == RowsHtml(s[..i]) && row == RowHtml(s[i])
    ensures rows + row == RowsHtml(s[..i + 1])
  {
    var p := s[..i + 1];
    assert p != [] && p[..|p| - 1] == s[..i] && p[|p| - 1] == s[i];
  }

  /**
   * What toString leaves behind keeps the month's invariant: sorting only
   * rearranges the entries, and reading them back changes only out-of-range hours.
   */
  lemma DisplayListKeepsInvariant(s: seq<Fields>, days: int)
    requires days <= 31 && AllWellFormed(s, days) && DistinctNames(s)
    ensures AllWellFormed(ObserveAll(SortForDisplay(s)), days)
    ensures DistinctNames(ObserveAll(SortForDisplay(s)))
    ensures DisplaySorted(ObserveAll(SortForDisplay(s)))
  {
    var sorted := SortForDisplay(s);
    SortForDisplayIsSortedPermutation(s);
    SortForDisplayDistinct(s);
    ObserveAllKeepsOrder(sorted);
    forall i | 0 <= i < |sorted|
      ensures WellFormed(ObserveAll(sorted)[i], days)
    {
      assert sorted[i] in multiset(s);
      WellFormedReadsBack(sorted[i], days);
    }
  }
}
