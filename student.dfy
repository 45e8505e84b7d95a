/**
 * A student record (Int-PracExc3 objects/Student.java): a fixed ID and a
 * first name, last name and course that the setters may change but never
 * set to null.
 */
module StudentRecords {
  import opened JavaLang

  /** The record the no-argument constructor builds. */
  const SAMPLE_ID := "ABC12345678"
  const SAMPLE_FIRST := "John"
  const SAMPLE_LAST := "Doe"
  const SAMPLE_COURSE := "Programming Intermediate"

  /** Student.toString for the given field values. */
  function StudentText(id: string, first: string, last: string, course: string): string {
    "ID: " + id + ", First Name: " + first + ", Last Name: " + last + ", Course: " + course
  }

  /** The text starts with the ID and ends with the course, whatever the names hold. */
  lemma StudentTextFrames(id: string, first: string, last: string, course: string)
    ensures var t := StudentText(id, first, last, course);
      t[..4 + |id|] == "ID: " + id && EndsWith(t, ", Course: " + course)
  {
    var t := StudentText(id, first, last, course);
    var head := "ID: " + id;
    var tail := ", Course: " + course;
    assert t == head + (", First Name: " + first + ", Last Name: " + last) + tail;
    assert t[..|head|] == head;
    assert t[|t| - |tail|..] == tail;
  }

  class Student {
    const id: string
    var first: string
    var last: string
    var course: string

    /** new Student(id, first, last, course) with non-null arguments: they are stored unchanged. */
    constructor (id: string, first: string, last: string, course: string)
      ensures this.id == id && this.first == first && this.last == last && this.course == course
    {
      this.id := id;
      this.first := first;
      this.last := last;
      this.course := course;
    }

    /** new Student(id): the other fields are "". */
    constructor WithId(id: string)
      ensures this.id == id && first == "" && last == "" && course == ""
    {
      this.id := id;
      first := "";
      last := "";
      course := "";
    }

    /** new Student(): the sample record. */
    constructor Sample()
      ensures id == SAMPLE_ID && first == SAMPLE_FIRST && last == SAMPLE_LAST && course == SAMPLE_COURSE
    {
      id := SAMPLE_ID;
      first := SAMPLE_FIRST;
      last := SAMPLE_LAST;
      course := SAMPLE_COURSE;
    }

    /** The constructor with possibly-null arguments: any null raises IllegalArgumentException (`None`). */
    static method New(id: Option<string>, first: Option<string>, last: Option<string>, course: Option<string>)
      returns (r: Option<Student>)
      ensures r.None? <==> id.None? || first.None? || last.None? || course.None?
      ensures r.Some? ==> fresh(r.value) && r.value.id == id.value && r.value.first == first.value
      ensures r.Some? ==> r.value.last == last.value && r.value.course == course.value
    {
      if id.None? || first.None? || last.None? || course.None? {
        return None;
      }
      var s := new Student(id.value, first.value, last.value, course.value);
      return Some(s);
    }

    /** compare(other): false for null, otherwise equalsIgnoreCase with the ID. */
    predicate Compare(other: Option<string>)
    {
      other.Some? && EqualsIgnoreCase(id, other.value)
    }

    method SetFirstName(s: Option<string>)
      modifies this
      ensures first == OrEmpty(s) && last == old(last) && course == old(course)
    {
      first := OrEmpty(s);
    }

    method SetLastName(s: Option<string>)
      modifies this
      ensures last == OrEmpty(s) && first == old(first) && course == old(course)
    {
      last := OrEmpty(s);
    }

    method SetCourse(s: Option<string>)
      modifies this
      ensures course == OrEmpty(s) && first == old(first) && last == old(last)
    {
      course := OrEmpty(s);
    }

    function ToString(): string
      reads this
    {
      StudentText(id, first, last, course)
    }
  }

  /**
   * compare ignores case in both directions: a student matches its own ID in
   * any ASCII casing, the match only depends on the lower-case form, and two
   * students whose IDs differ only in case match the same strings.
   */
  lemma CompareIgnoresCase(s: Student, t: Student, other: string)
    requires ToLowerCase(s.id) == ToLowerCase(t.id)
    ensures s.Compare(Some(s.id)) && s.Compare(Some(ToUpperCase(s.id)))
    ensures s.Compare(Some(other)) <==> s.Compare(Some(ToLowerCase(other)))
    ensures s.Compare(Some(other)) <==> t.Compare(Some(other))
    ensures !s.Compare(None)
  {
    LowerOfUpper(s.id);
    LowerIsIdempotent(other);
  }

  lemma LowerOfUpper(s: string)
    ensures ToLowerCase(ToUpperCase(s)) == ToLowerCase(s)
  {
  }

  lemma LowerIsIdempotent(s: string)
    ensures ToLowerCase(ToLowerCase(s)) == ToLowerCase(s)
  {
  }
}
