/**
 * An appointment: a name, a day of the month and an hour of the day
 * (Int-PracExc4 classes/Appointment.java).
 *
 * Setters clamp on write, and the getters clamp again on every read and write
 * the clamped value back into the object. The read-side bound for the hour is
 * 31, not the 24 used by the setter, so a stored hour of 25..31 is returned
 * unchanged by the getter.
 */
module AppointmentRecord {
  import opened JavaLang

  /** The longest name a setter or getter lets through. */
  const MAX_NAME_LENGTH := 20
  /** The length a too-long name is cut to (the setter keeps 19 characters). */
  const CUT_NAME_LENGTH := 19

  /** The raw contents of an Appointment object's three fields. */
  datatype Fields = Fields(name: Option<string>, day: int, hour: int)

  /** What setName stores for a non-null name. */
  function CutName(n: string): (r: string)
    ensures |n| <= MAX_NAME_LENGTH ==> r == n
    ensures |n| > MAX_NAME_LENGTH ==> r == n[..CUT_NAME_LENGTH]
    ensures |r| <= MAX_NAME_LENGTH
  {
    if |n| > MAX_NAME_LENGTH then n[..CUT_NAME_LENGTH] else n
  }

  /** What getName returns (and writes back): "NULL" for a null name, otherwise the cut name. */
  function NameOf(f: Fields): (r: string)
    ensures |r| <= MAX_NAME_LENGTH
    ensures f.name.Some? && |f.name.value| <= MAX_NAME_LENGTH ==> r == f.name.value
  {
    match f.name
    case None => "NULL"
    case Some(n) => CutName(n)
  }

  /** What getDay returns (and writes back). */
  function DayOf(f: Fields): (r: int)
    ensures 1 <= r <= 31
  {
    Clamp(f.day, 1, 31)
  }

  /** What getHour returns (and writes back): clamped into [1,31], not [1,24]. */
  function HourOf(f: Fields): (r: int)
    ensures 1 <= r <= 31
  {
    Clamp(f.hour, 1, 31)
  }

  /** The fields once getName, getDay and getHour have each been called. */
  function Observed(f: Fields): (r: Fields)
    ensures r.name.Some? && |r.name.value| <= MAX_NAME_LENGTH && 1 <= r.day <= 31 && 1 <= r.hour <= 31
    ensures NameOf(r) == NameOf(f) && DayOf(r) == DayOf(f) && HourOf(r) == HourOf(f)
  {
    Fields(Some(NameOf(f)), DayOf(f), HourOf(f))
  }

  /** Appointment.toString: one HTML table row built from the three getters. */
  function RowHtml(f: Fields): string {
    "<tr><td>" + NameOf(f) + "</td><td>" + IntToString(DayOf(f))
      + "</td><td>" + IntToString(HourOf(f)) + "</td></tr>"
  }

  /** Reading a field a second time returns what the first read returned and wrote back. */
  lemma ObservedIsStable(f: Fields)
    ensures NameOf(Observed(f)) == NameOf(f)
    ensures DayOf(Observed(f)) == DayOf(f)
    ensures HourOf(Observed(f)) == HourOf(f)
    ensures Observed(Observed(f)) == Observed(f)
    ensures RowHtml(Observed(f)) == RowHtml(f)
  {
  }

  /** A stored hour above 24 is read back unchanged up to 31: getHour does not enforce setHour's bound. */
  lemma HourReadBoundIsLooserThanWriteBound(f: Fields)
    requires 24 < f.hour <= 31
    ensures HourOf(f) == f.hour && HourOf(f) > 24
  {
  }

  class Appointment {
    var name: Option<string>
    var day: int
    var hour: int

    /** The object's current field values. */
    function State(): Fields
      reads this
    {
      Fields(name, day, hour)
    }

    /** The constructor stores its arguments unchanged, without clamping. */
    constructor (name: string, day: int, hour: int)
      ensures State() == Fields(Some(name), day, hour)
    {
      this.name := Some(name);
      this.day := day;
      this.hour := hour;
    }

    /**
     * `new Appointment(name, day, hour)` where the name may be null: a null
     * name raises IllegalArgumentException, modelled as `None`.
     */
    static method New(name: Option<string>, day: int, hour: int) returns (r: Option<Appointment>)
      ensures r.None? <==> name.None?
      ensures r.Some? ==> fresh(r.value) && r.value.State() == Fields(name, day, hour)
    {
      if name.None? {
        return None;
      }
      var a := new Appointment(name.value, day, hour);
      return Some(a);
    }

    /** setName: a null name is refused (IllegalArgumentException); a name over 20 characters is cut to 19. */
    method SetName(n: Option<string>) returns (thrown: bool)
      modifies this
      ensures thrown <==> n.None?
      ensures thrown ==> State() == old(State())
      ensures !thrown ==> name == Some(CutName(n.value)) && day == old(day) && hour == old(hour)
    {
      if n.None? {
        return true;
      }
      var s := n.value;
      if |s| > MAX_NAME_LENGTH {
        s := s[..CUT_NAME_LENGTH];
      }
      name := Some(s);
      return false;
    }

    /** setDay clamps into [1,31]. */
    method SetDay(d: int)
      modifies this
      ensures day == Clamp(d, 1, 31) && name == old(name) && hour == old(hour)
    {
      day := if d < 1 then 1 else if d > 31 then 31 else d;
    }

    /** setHour clamps into [1,24]. */
    method SetHour(h: int)
      modifies this
      ensures hour == Clamp(h, 1, 24) && name == old(name) && day == old(day)
    {
      hour := if h < 1 then 1 else if h > 24 then 24 else h;
    }

    /** getName never returns null nor more than 20 characters, and stores what it returns. */
    method GetName() returns (r: string)
      modifies this
      ensures r == NameOf(old(State())) && |r| <= MAX_NAME_LENGTH
      ensures name == Some(r) && day == old(day) && hour == old(hour)
    {
      if name.None? {
        var _ := SetName(Some("NULL"));
      }
      if |name.value| > MAX_NAME_LENGTH {
        var _ := SetName(Some(name.value[..CUT_NAME_LENGTH]));
      }
      r := name.value;
    }

    /** getDay returns the day clamped into [1,31] and stores it. */
    method GetDay() returns (r: int)
      modifies this
      ensures r == DayOf(old(State())) && 1 <= r <= 31
      ensures day == r && name == old(name) && hour == old(hour)
    {
      day := if day < 1 then 1 else if day > 31 then 31 else day;
      r := day;
    }

    /** getHour returns the hour clamped into [1,31] and stores it. */
    method GetHour() returns (r: int)
      modifies this
      ensures r == HourOf(old(State())) && 1 <= r <= 31
      ensures hour == r && name == old(name) && day == old(day)
    {
      hour := if hour < 1 then 1 else if hour > 31 then 31 else hour;
      r := hour;
    }

    /** toString: the HTML row of the three getters' values; it leaves the fields as the getters stored them. */
    method ToString() returns (s: string)
      modifies this
      ensures s == RowHtml(old(State()))
      ensures State() == Observed(old(State()))
    {
      var n := GetName();
      var d := GetDay();
      var h := GetHour();
      s := "<tr><td>" + n + "</td><td>" + IntToString(d) + "</td><td>" + IntToString(h) + "</td></tr>";
    }
  }
}
