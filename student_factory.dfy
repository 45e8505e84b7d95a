/**
 * Building a student from entered values (Int-PracExc3
 * objects/StudentFactory.java): the factory holds four possibly-null values
 * and builds a Student only when all of them pass the checks.
 *
 * validateName matches `^[A-Za-z ,.'-]{2,}$` with Matcher.find. In Java's
 * default mode `$` also matches just before a line terminator that ends the
 * input, so a valid name followed by one final line terminator passes too;
 * `ValidateName` states this with an explicit character class.
 */
module StudentBuilder {
  import opened JavaLang
  import opened StudentRecords

  /** The regular expression's `{2,}`. */
  const MIN_NAME_LENGTH := 2
  const MIN_ID_LENGTH := 3
  const MIN_COURSE_LENGTH := 5

  /** The character class `[A-Za-z ,.'-]`. */
  predicate IsNameChar(c: char) {
    ('A' <= c <= 'Z') || ('a' <= c <= 'z') || c == ' ' || c == ',' || c == '.' || c == '\'' || c == '-'
  }

  /** A whole string the class-and-quantifier part matches. */
  predicate NameBody(s: string) {
    |s| >= MIN_NAME_LENGTH && forall i :: 0 <= i < |s| ==> IsNameChar(s[i])
  }

  /** The single-character line terminators of java.util.regex. */
  predicate IsLineTerminator(c: char) {
    c == '\n' || c == '\r' || c == '\U{0085}' || c == '\U{2028}' || c == '\U{2029}'
  }

  /** The text left once one final line terminator ("\r\n" counting as one) is removed. */
  function StripFinalTerminator(s: string): (r: string)
    ensures |r| <= |s| && r == s[..|r|]
  {
    if EndsWith(s, "\r\n") then s[..|s| - 2]
    else if s != [] && IsLineTerminator(s[|s| - 1]) then s[..|s| - 1]
    else s
  }

  /** validateName. */
  predicate ValidateName(name: Option<string>) {
    name.Some? && (NameBody(name.value) || NameBody(StripFinalTerminator(name.value)))
  }

  /** The endings `$` accepts: the end of input, or one line terminator before it. */
  predicate IsFinalEnding(t: string) {
    t == "" || t == "\r\n" || (|t| == 1 && IsLineTerminator(t[0]))
  }

  /**
   * The reference reading of the pattern: the name splits into a part of at
   * least two class characters followed by an ending `$` accepts.
   */
  lemma ValidateNameIffSplit(name: string)
    ensures ValidateName(Some(name)) <==>
      exists k :: 0 <= k <= |name| && NameBody(name[..k]) && IsFinalEnding(name[k..])
  {
    var strip := StripFinalTerminator(name);
    if ValidateName(Some(name)) {
      if NameBody(name) {
        assert name[..|name|] == name && IsFinalEnding(name[|name|..]);
      } else {
        assert IsFinalEnding(name[|strip|..]);
      }
    }
    if exists k :: 0 <= k <= |name| && NameBody(name[..k]) && IsFinalEnding(name[k..]) {
      var k :| 0 <= k <= |name| && NameBody(name[..k]) && IsFinalEnding(name[k..]);
      var p := name[..k];
      var t := name[k..];
      assert name == p + t;
      if t == "" {
        assert name == p;
      } else if t == "\r\n" {
        assert EndsWith(name, "\r\n");
        assert strip == p;
      } else {
        assert !EndsWith(name, "\r\n") by {
          assert IsNameChar(name[|name| - 2]);
        }
        assert strip == p;
      }
    }
  }

  /** The code's minimum is two characters: "Jo" passes, "J" fails, and so does a missing name. */
  lemma ValidateNameExamples()
    ensures ValidateName(Some("Jo")) && !ValidateName(Some("J")) && !ValidateName(None)
    ensures ValidateName(Some("Jo\n"))
  {
    assert StripFinalTerminator("Jo\n") == "Jo";
  }

  /** Letters, spaces, commas, full stops, apostrophes and hyphens pass; a digit anywhere fails. */
  lemma NameCharacterExamples()
    ensures ValidateName(Some("O'Neil-Smith, Jr."))
    ensures !ValidateName(Some("J0e"))
  {
    var long := "O'Neil-Smith, Jr.";
    assert forall i :: 0 <= i < |long| ==> IsNameChar(long[i]);
    assert !NameBody("J0e") by {
      assert !IsNameChar("J0e"[1]);
    }
    assert StripFinalTerminator("J0e") == "J0e" by {
      assert !EndsWith("J0e", "\r\n");
    }
  }

  /** The four values as the factory holds them. */
  datatype Draft = Draft(id: Option<string>, first: Option<string>, last: Option<string>, course: Option<string>)

  /** buildStudent's checks, in its order: no nulls, ID of 3+, valid first and last names, course of 5+. */
  predicate Buildable(d: Draft) {
    d.id.Some? && d.first.Some? && d.last.Some? && d.course.Some?
    && |d.id.value| >= MIN_ID_LENGTH
    && ValidateName(d.first) && ValidateName(d.last)
    && |d.course.value| >= MIN_COURSE_LENGTH
  }

  /** A value isSet reports as set. */
  predicate Filled(v: Option<string>) {
    v.Some? && v.value != ""
  }

  class StudentFactory {
    var id: Option<string>
    var first: Option<string>
    var last: Option<string>
    var course: Option<string>

    function Values(): Draft
      reads this
    {
      Draft(id, first, last, course)
    }

    constructor (id: Option<string>, first: Option<string>, last: Option<string>, course: Option<string>)
      ensures Values() == Draft(id, first, last, course)
    {
      this.id := id;
      this.first := first;
      this.last := last;
      this.course := course;
    }

    /** new StudentFactory(): every value null. */
    constructor Empty()
      ensures Values() == Draft(None, None, None, None)
    {
      id := None;
      first := None;
      last := None;
      course := None;
    }

    /**
     * isSet(variable): the field named by `variable`, in any case, is neither
     * null nor empty; an unknown name is never set.
     */
    function IsSet(variable: string): (r: bool)
      reads this
      ensures r <==>
        (EqualsIgnoreCase(variable, "id") && Filled(id))
        || (EqualsIgnoreCase(variable, "first") && Filled(first))
        || (EqualsIgnoreCase(variable, "last") && Filled(last))
        || (EqualsIgnoreCase(variable, "course") && Filled(course))
    {
      if EqualsIgnoreCase(variable, "id") then Filled(id)
      else if EqualsIgnoreCase(variable, "first") then Filled(first)
      else if EqualsIgnoreCase(variable, "last") then Filled(last)
      else if EqualsIgnoreCase(variable, "course") then Filled(course)
      else false
    }

    /** buildStudent: null unless every check passes; otherwise a new Student with exactly the four values. */
    method BuildStudent() returns (r: Option<Student>)
      ensures r.Some? <==> Buildable(Values())
      ensures r.Some? ==> fresh(r.value) && r.value.id == id.value && r.value.first == first.value
      ensures r.Some? ==> r.value.last == last.value && r.value.course == course.value
    {
      if id.None? || first.None? || last.None? || course.None? {
        return None;
      }
      if |id.value| < MIN_ID_LENGTH {
        return None;
      }
      if !ValidateName(first) {
        return None;
      }
      if !ValidateName(last) {
        return None;
      }
      if |course.value| < MIN_COURSE_LENGTH {
        return None;
      }
      var s := new Student(id.value, first.value, last.value, course.value);
      return Some(s);
    }
  }
}
