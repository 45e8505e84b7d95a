/**
 * A patient record (Beg-PracticalExercise2 Patient.java): Medicare number,
 * age, last name and address. As in Address, the constructor stores what it
 * is given, the getters repair invalid values by writing defaults back, and
 * the setters ignore invalid input.
 *
 * The default address is one static Address object shared by every patient
 * that falls back on it; it is the `shared` parameter here.
 */
module PatientRecord {
  import opened JavaLang
  import opened PatientAddress

  const DEFAULT_NAME := "Doe"
  const DEFAULT_MEDI := 999999
  const DEFAULT_AGE := 1
  const ADULT_AGE := 18

  /** The Medicare number getMedicareNum leaves in place and returns: never below 1. */
  function RepairedMedicare(m: int): (r: int)
    ensures r >= 1
    ensures m >= 1 ==> r == m
    ensures m < 1 ==> r == DEFAULT_MEDI
  {
    if m < 1 then DEFAULT_MEDI else m
  }

  /** The age getAge leaves in place and returns: never below 1. */
  function RepairedAge(a: int): (r: int)
    ensures r >= 1
    ensures a >= 1 ==> r == a
    ensures a < 1 ==> r == DEFAULT_AGE
  {
    if a < 1 then DEFAULT_AGE else a
  }

  /** The last name getLastName leaves in place and returns: never null. */
  function RepairedName(n: Option<string>): (r: string)
    ensures n.Some? ==> r == n.value
    ensures n.None? ==> r == DEFAULT_NAME
  {
    if n.None? then DEFAULT_NAME else n.value
  }

  /** A setter's rule: the new value when it is valid, otherwise the current one. */
  function KeepUnlessValid(current: int, v: int): (r: int)
    ensures v >= 1 ==> r == v
    ensures v < 1 ==> r == current
    ensures current >= 1 ==> r >= 1
  {
    if v < 1 then current else v
  }

  /** toString for the values the getters return. */
  function PatientText(medicare: int, name: string, age: int, suburb: string, postcode: int): string {
    "\nMedicare No: " + IntToString(medicare) + ", Name: " + name + ", Age: " + IntToString(age)
      + "\nAddress: " + suburb + ", " + IntToString(postcode) + "\n"
  }

  /** isAdult never holds for a stored age that getAge repairs, since the repaired age is 1. */
  lemma RepairedAgeIsChild(a: int)
    requires a < 1
    ensures !(RepairedAge(a) >= ADULT_AGE)
  {
  }

  /** Every repair is idempotent: a getter called twice returns the same value and changes nothing more. */
  lemma PatientRepairsAreIdempotent(m: int, a: int, n: Option<string>)
    ensures RepairedMedicare(RepairedMedicare(m)) == RepairedMedicare(m)
    ensures RepairedAge(RepairedAge(a)) == RepairedAge(a)
    ensures RepairedName(Some(RepairedName(n))) == RepairedName(n)
  {
  }

  class Patient {
    var medicareNum: int
    var age: int
    var lastName: Option<string>
    var address: Option<Address>

    /** No field needs repair. */
    ghost predicate Valid()
      reads this
    {
      medicareNum >= 1 && age >= 1 && lastName.Some? && address.Some?
    }

    /** The Address objects a call may repair: this patient's, or the shared default. */
    function AddressFrame(shared: Address): set<object>
      reads this
    {
      if address.Some? then {address.value, shared} else {shared}
    }

    /** new Patient(): the defaults and the shared default address. */
    constructor Default(shared: Address)
      ensures medicareNum == DEFAULT_MEDI && age == DEFAULT_AGE
      ensures lastName == Some(DEFAULT_NAME) && address == Some(shared)
      ensures Valid()
    {
      medicareNum := DEFAULT_MEDI;
      age := DEFAULT_AGE;
      lastName := Some(DEFAULT_NAME);
      address := Some(shared);
    }

    /** new Patient(medicareNum, age, lastName, address): stored without validation. */
    constructor (medicareNum: int, age: int, lastName: Option<string>, address: Option<Address>)
      ensures this.medicareNum == medicareNum && this.age == age
      ensures this.lastName == lastName && this.address == address
    {
      this.medicareNum := medicareNum;
      this.age := age;
      this.lastName := lastName;
      this.address := address;
    }

    method GetMedicareNum() returns (m: int)
      modifies this
      ensures m == RepairedMedicare(old(medicareNum)) && medicareNum == m
      ensures age == old(age) && lastName == old(lastName) && address == old(address)
    {
      if medicareNum < 1 {
        medicareNum := DEFAULT_MEDI;
      }
      m := medicareNum;
    }

    /** getAddress: never null; a null address becomes the shared default. */
    method GetAddress(shared: Address) returns (a: Address)
      modifies this
      ensures a == (if old(address).Some? then old(address).value else shared) && address == Some(a)
      ensures medicareNum == old(medicareNum) && age == old(age) && lastName == old(lastName)
    {
      if address.None? {
        SetAddress(Some(shared));
      }
      a := address.value;
    }

    method GetLastName() returns (n: string)
      modifies this
      ensures n == RepairedName(old(lastName)) && lastName == Some(n)
      ensures medicareNum == old(medicareNum) && age == old(age) && address == old(address)
    {
      if lastName.None? {
        lastName := Some(DEFAULT_NAME);
      }
      n := lastName.value;
    }

    method GetAge() returns (a: int)
      modifies this
      ensures a == RepairedAge(old(age)) && age == a
      ensures medicareNum == old(medicareNum) && lastName == old(lastName) && address == old(address)
    {
      if age < 1 {
        age := DEFAULT_AGE;
      }
      a := age;
    }

    /** isAdult: the (repaired) age is at least 18. */
    method IsAdult() returns (b: bool)
      modifies this
      ensures b <==> RepairedAge(old(age)) >= ADULT_AGE
      ensures age == RepairedAge(old(age))
      ensures medicareNum == old(medicareNum) && lastName == old(lastName) && address == old(address)
    {
      var a := GetAge();
      b := a >= ADULT_AGE;
    }

    method SetMedicareNum(m: int)
      modifies this
      ensures medicareNum == KeepUnlessValid(old(medicareNum), m)
      ensures age == old(age) && lastName == old(lastName) && address == old(address)
    {
      medicareNum := if m < 1 then medicareNum else m;
    }

    method SetAge(a: int)
      modifies this
      ensures age == KeepUnlessValid(old(age), a)
      ensures medicareNum == old(medicareNum) && lastName == old(lastName) && address == old(address)
    {
      age := if a < 1 then age else a;
    }

    /** setLastName: null is ignored. */
    method SetLastName(n: Option<string>)
      modifies this
      ensures lastName == (if n.None? then old(lastName) else n)
      ensures medicareNum == old(medicareNum) && age == old(age) && address == old(address)
      ensures old(Valid()) ==> Valid()
    {
      lastName := if n.None? then lastName else n;
    }

    /** setAddress(Address): null is ignored. */
    method SetAddress(a: Option<Address>)
      modifies this
      ensures address == (if a.None? then old(address) else a)
      ensures medicareNum == old(medicareNum) && age == old(age) && lastName == old(lastName)
      ensures old(Valid()) ==> Valid()
    {
      address := if a.None? then address else a;
    }

    /** setAddress(suburb, postcode): a new Address holding both values, unvalidated. */
    method SetAddressOf(suburb: Option<string>, postcode: int)
      modifies this
      ensures address.Some? && fresh(address.value)
      ensures address.value.suburb == suburb && address.value.postcode == postcode
      ensures medicareNum == old(medicareNum) && age == old(age) && lastName == old(lastName)
    {
      var a := new Address(suburb, postcode);
      SetAddress(Some(a));
    }

    /**
     * toString: the text of the values the getters return, which repair the
     * fields (and the address) along the way.
     */
    method ToString(shared: Address) returns (s: string)
      modifies this, AddressFrame(shared)
      ensures var home := if old(address).Some? then old(address).value else shared;
        s == PatientText(RepairedMedicare(old(medicareNum)), RepairedName(old(lastName)), RepairedAge(old(age)),
                         RepairedSuburb(old(home.suburb)), RepairedPostcode(old(home.postcode)))
      ensures medicareNum == RepairedMedicare(old(medicareNum)) && age == RepairedAge(old(age))
      ensures lastName == Some(RepairedName(old(lastName)))
      ensures var home := if old(address).Some? then old(address).value else shared;
        address == Some(home)
        && home.suburb == Some(RepairedSuburb(old(home.suburb))) && home.postcode == RepairedPostcode(old(home.postcode))
      ensures old(address).Some? && old(address).value != shared ==>
        shared.suburb == old(shared.suburb) && shared.postcode == old(shared.postcode)
      ensures Valid()
    {
      var m := GetMedicareNum();
      var n := GetLastName();
      var a := GetAge();
      var home := GetAddress(shared);
      var suburb := home.GetSuburb();
      var again := GetAddress(shared);
      var postcode := again.GetPostcode();
      s := PatientText(m, n, a, suburb, postcode);
    }
  }
}
