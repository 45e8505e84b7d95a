/**
 * A patient's address (Beg-PracticalExercise2 Address.java): a suburb and a
 * postcode. The two-argument constructor stores whatever it is given; the
 * getters repair an invalid value (a null suburb, a postcode below 1000) by
 * writing the default back, and the setters ignore invalid input.
 */
module PatientAddress {
  import opened JavaLang

  const DEFAULT_SUBURB := "Melbourne"
  const DEFAULT_POSTCODE := 3000
  const MIN_POSTCODE := 1000

  /** The suburb getSuburb leaves in place and returns. */
  function RepairedSuburb(s: Option<string>): (r: string)
    ensures s.Some? ==> r == s.value
    ensures s.None? ==> r == DEFAULT_SUBURB
  {
    if s.None? then DEFAULT_SUBURB else s.value
  }

  /** The postcode getPostcode leaves in place and returns: never below 1000. */
  function RepairedPostcode(p: int): (r: int)
    ensures r >= MIN_POSTCODE
    ensures p >= MIN_POSTCODE ==> r == p
    ensures p < MIN_POSTCODE ==> r == DEFAULT_POSTCODE
  {
    if p < MIN_POSTCODE then DEFAULT_POSTCODE else p
  }

  /** A repaired value is left alone by a second repair, so the getters are idempotent. */
  lemma RepairsAreIdempotent(s: Option<string>, p: int)
    ensures RepairedSuburb(Some(RepairedSuburb(s))) == RepairedSuburb(s)
    ensures RepairedPostcode(RepairedPostcode(p)) == RepairedPostcode(p)
  {
  }

  class Address {
    var suburb: Option<string>
    var postcode: int

    /** Neither field needs repair. */
    ghost predicate Valid()
      reads this
    {
      suburb.Some? && postcode >= MIN_POSTCODE
    }

    /** new Address(): ("Melbourne", 3000). */
    constructor Default()
      ensures suburb == Some(DEFAULT_SUBURB) && postcode == DEFAULT_POSTCODE
      ensures Valid()
    {
      suburb := Some(DEFAULT_SUBURB);
      postcode := DEFAULT_POSTCODE;
    }

    /** new Address(suburb, postcode): stored without validation. */
    constructor (suburb: Option<string>, postcode: int)
      ensures this.suburb == suburb && this.postcode == postcode
    {
      this.suburb := suburb;
      this.postcode := postcode;
    }

    /** getSuburb: never null; a null suburb becomes "Melbourne" and stays so. */
    method GetSuburb() returns (s: string)
      modifies this
      ensures s == RepairedSuburb(old(suburb))
      ensures suburb == Some(s) && postcode == old(postcode)
    {
      if suburb.None? {
        suburb := Some(DEFAULT_SUBURB);
      }
      s := suburb.value;
    }

    /** getPostcode: never below 1000; a smaller postcode becomes 3000 and stays so. */
    method GetPostcode() returns (p: int)
      modifies this
      ensures p == RepairedPostcode(old(postcode))
      ensures postcode == p && suburb == old(suburb)
    {
      if postcode < MIN_POSTCODE {
        postcode := DEFAULT_POSTCODE;
      }
      p := postcode;
    }

    /** setSuburb: null is ignored. */
    method SetSuburb(s: Option<string>)
      modifies this
      ensures suburb == (if s.None? then old(suburb) else s) && postcode == old(postcode)
      ensures old(Valid()) ==> Valid()
    {
      suburb := if s.None? then suburb else s;
    }

    /** setPostcode: a postcode below 1000 is ignored. */
    method SetPostcode(p: int)
      modifies this
      ensures postcode == (if p < MIN_POSTCODE then old(postcode) else p) && suburb == old(suburb)
      ensures old(Valid()) ==> Valid()
    {
      postcode := if p < MIN_POSTCODE then postcode else p;
    }
  }
}
