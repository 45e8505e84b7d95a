/**
 * An employee and their bank details, validated and pushed to a database
 * (Int-PracExc7 database/EmployeeConnection.java).
 *
 * No field is ever null: null arguments become "". The BSB and account
 * number are kept as text; validating them first rewrites them to the
 * decimal form of the int they parse to. The validation ladders return the
 * code of the first failing check. The database is not modelled: whether the
 * employee and the bank row exist, and the update count of each statement,
 * are inputs, and the result records which statements were issued.
 */
module EmployeeRecords {
  import opened JavaLang

  // Transaction results
  const SQL_ERROR := 0
  const DRIVER_ERROR := 1
  const UNKNOWN_EMPLOYEE := 2
  const DUPLICATE_BANK := 3
  const DUPLICATE_EMPLOYEE := 4
  const SUCCESS := 5
  // Validation results
  const INVALID_UNKNOWN := 200
  const INVALID_ID := 201
  const INVALID_FIRST_NAME := 202
  const INVALID_LAST_NAME := 203
  const INVALID_BANK := 204
  const INVALID_BSB_NUMBER := 205
  const INVALID_ACCOUNT_NUMBER := 206
  const VALID := 300

  const MAX_PERSON_NAME := 20
  const MAX_BANK_NAME := 30
  const BSB_LENGTH := 6
  const MAX_ACCOUNT_LENGTH := 11

  // ---------------------------------------------------------------------------
  // Number fields: setBSB / setAccountNumber
  // ---------------------------------------------------------------------------

  /** What setBSB(String) / setAccountNumber(String) store, when they succeed: the decimal form of a positive int. */
  function Canonical(text: string): Option<string> {
    match ParseInt(Some(text))
    case Some(v) => if v > 0 then Some(IntToString(v)) else None
    case None => None
  }

  /** The field after setBSB(field) / setAccountNumber(field): rewritten when it succeeds, unchanged otherwise. */
  function Rewritten(text: string): string {
    match Canonical(text)
    case Some(c) => c
    case None => text
  }

  /** Canonical text is its own canonical form, so rewriting twice is rewriting once. */
  lemma CanonicalIsStable(text: string)
    ensures Canonical(text).Some? ==> Canonical(Canonical(text).value) == Canonical(text)
    ensures Rewritten(Rewritten(text)) == Rewritten(text)
    ensures Canonical(Rewritten(text)) == Canonical(text)
  {
    match ParseInt(Some(text))
    case Some(v) =>
      if v > 0 {
        ParseIntOfIntToString(v);
      }
    case None =>
  }

  // ---------------------------------------------------------------------------
  // The individual checks
  // ---------------------------------------------------------------------------

  /** validateID: non-empty and a Java int (so "-5" passes). */
  predicate IdValid(id: string) {
    |id| >= 1 && ParseInt(Some(id)).Some?
  }

  predicate PersonNameValid(n: string) {
    0 < |n| <= MAX_PERSON_NAME
  }

  predicate BankValid(b: string) {
    0 < |b| <= MAX_BANK_NAME
  }

  /** validateBSB: setBSB(bsb) succeeds and the rewritten text has exactly 6 characters. */
  predicate BSBValid(bsb: string) {
    Canonical(bsb).Some? && |Canonical(bsb).value| == BSB_LENGTH
  }

  /** validateAccountNumber: setAccountNumber(account) succeeds and the rewritten text has 1..11 characters. */
  predicate AccountValid(account: string) {
    Canonical(account).Some? && 0 < |Canonical(account).value| <= MAX_ACCOUNT_LENGTH
  }

  /** A BSB is valid exactly when it parses to an int in 100000..999999. */
  lemma BSBValidIffSixDigitValue(bsb: string)
    ensures BSBValid(bsb) <==>
      ParseInt(Some(bsb)).Some? && 100000 <= ParseInt(Some(bsb)).value <= 999999
  {
    match ParseInt(Some(bsb))
    case Some(v) =>
      if v > 0 {
        NatToDigitsLength(v, 5);
        NatToDigitsLength(v, 6);
        assert Pow10(5) == 100000 && Pow10(6) == 1000000;
      }
    case None =>
  }

  /** The 11-character limit never binds: an account number is valid exactly when it parses to a positive int. */
  lemma AccountValidIffPositive(account: string)
    ensures AccountValid(account) <==>
      ParseInt(Some(account)).Some? && ParseInt(Some(account)).value > 0
  {
    match ParseInt(Some(account))
    case Some(v) =>
      if v > 0 {
        NatToDigitsLength(v, 10);
        assert Pow10(10) == 10000000000;
        NatToDigitsWellFormed(v);
      }
    case None =>
  }

  /** A six-digit BSB written with a leading zero, such as "012345", is refused. */
  lemma LeadingZeroBSBIsInvalid(bsb: string)
    requires |bsb| == 6 && AllDigits(bsb) && bsb[0] == '0'
    ensures !BSBValid(bsb)
  {
    LeadingZeroValue(bsb);
    assert Pow10(5) == 100000;
    BSBValidIffSixDigitValue(bsb);
  }

  // ---------------------------------------------------------------------------
  // The validation ladders
  // ---------------------------------------------------------------------------

  /** The six text fields of an EmployeeConnection. */
  datatype Employee = Employee(id: string, firstName: string, lastName: string,
                               bank: string, bsb: string, account: string)

  predicate EmployeePackageValid(e: Employee) {
    IdValid(e.id) && PersonNameValid(e.firstName) && PersonNameValid(e.lastName)
  }

  predicate BankPackageValid(e: Employee) {
    BankValid(e.bank) && BSBValid(e.bsb) && AccountValid(e.account)
  }

  predicate PackageValid(e: Employee) {
    EmployeePackageValid(e) && BankPackageValid(e)
  }

  /** validatePackageResult. */
  function PackageResult(e: Employee): int {
    if PackageValid(e) then VALID
    else if !IdValid(e.id) then INVALID_ID
    else if !PersonNameValid(e.firstName) then INVALID_FIRST_NAME
    else if !PersonNameValid(e.lastName) then INVALID_LAST_NAME
    else if !BankValid(e.bank) then INVALID_BANK
    else if !BSBValid(e.bsb) then INVALID_BSB_NUMBER
    else if !AccountValid(e.account) then INVALID_ACCOUNT_NUMBER
    else INVALID_UNKNOWN
  }

  /** validateEmployeePackageResult. */
  function EmployeePackageResult(e: Employee): int {
    if EmployeePackageValid(e) then VALID
    else if !IdValid(e.id) then INVALID_ID
    else if !PersonNameValid(e.firstName) then INVALID_FIRST_NAME
    else if !PersonNameValid(e.lastName) then INVALID_LAST_NAME
    else INVALID_UNKNOWN
  }

  /** validateBankPackageResult. */
  function BankPackageResult(e: Employee): int {
    if BankPackageValid(e) then VALID
    else if !BankValid(e.bank) then INVALID_BANK
    else if !BSBValid(e.bsb) then INVALID_BSB_NUMBER
    else if !AccountValid(e.account) then INVALID_ACCOUNT_NUMBER
    else INVALID_UNKNOWN
  }

  /** One check of a ladder: whether it passes and the code reported when it does not. */
  datatype Check = Check(passes: bool, code: int)

  /** Every check of a ladder reports a failure code, never VALID. */
  predicate FailureCodes(checks: seq<Check>) {
    forall i :: 0 <= i < |checks| ==> checks[i].code != VALID
  }

  /** Check i is the first check from k on that fails. */
  predicate FirstFailingAt(checks: seq<Check>, k: nat, i: int) {
    k <= i < |checks| && !checks[i].passes && forall j :: k <= j < i ==> checks[j].passes
  }

  /**
   * The reference reading of a ladder from check k on: VALID when every check
   * passes, otherwise the code of the first check that fails.
   */
  function FirstFailure(checks: seq<Check>, k: nat): (r: int)
    requires k <= |checks| && FailureCodes(checks)
    ensures r == VALID <==> forall i :: k <= i < |checks| ==> checks[i].passes
    ensures r != VALID ==> exists i :: FirstFailingAt(checks, k, i) && r == checks[i].code
    decreases |checks| - k
  {
    if k == |checks| then VALID
    else if !checks[k].passes then checks[k].code
    else FirstFailure(checks, k + 1)
  }

  /** Once the checks of `a` have all passed, a ladder a + b goes on as the ladder b. */
  lemma {:induction false} FirstFailureAppend(a: seq<Check>, b: seq<Check>, k: nat)
    requires k <= |b| && FailureCodes(a) && FailureCodes(b)
    ensures FailureCodes(a + b)
    ensures FirstFailure(a + b, |a| + k) == FirstFailure(b, k)
    decreases |b| - k
  {
    assert forall i :: 0 <= i < |b| ==> (a + b)[|a| + i] == b[i];
    if k < |b| {
      FirstFailureAppend(a, b, k + 1);
    }
  }

  function EmployeeChecks(e: Employee): seq<Check> {
    [Check(IdValid(e.id), INVALID_ID),
     Check(PersonNameValid(e.firstName), INVALID_FIRST_NAME),
     Check(PersonNameValid(e.lastName), INVALID_LAST_NAME)]
  }

  function BankChecks(e: Employee): seq<Check> {
    [Check(BankValid(e.bank), INVALID_BANK),
     Check(BSBValid(e.bsb), INVALID_BSB_NUMBER),
     Check(AccountValid(e.account), INVALID_ACCOUNT_NUMBER)]
  }

  /**
   * Each ladder reports the first failing check in the order ID, first name,
   * last name, bank, BSB, account; INVALID_UNKNOWN is never returned.
   */
  lemma LaddersReportFirstFailure(e: Employee)
    ensures FailureCodes(EmployeeChecks(e) + BankChecks(e))
    ensures PackageResult(e) == FirstFailure(EmployeeChecks(e) + BankChecks(e), 0)
    ensures EmployeePackageResult(e) == FirstFailure(EmployeeChecks(e), 0)
    ensures BankPackageResult(e) == FirstFailure(BankChecks(e), 0)
    ensures PackageResult(e) == VALID <==> PackageValid(e)
    ensures PackageResult(e) != INVALID_UNKNOWN && EmployeePackageResult(e) != INVALID_UNKNOWN
      && BankPackageResult(e) != INVALID_UNKNOWN
  {
    var employee := EmployeeChecks(e);
    var bank := BankChecks(e);
    var all := employee + bank;
    FirstFailureAppend(employee, bank, 0);
    LadderOfThree(employee);
    LadderOfThree(bank);
    LadderOfThree(all);
    assert all[0] == employee[0] && all[1] == employee[1] && all[2] == employee[2];
  }

  /** The first three rungs of a ladder, then the rest of it. */
  lemma LadderOfThree(checks: seq<Check>)
    requires 3 <= |checks| && FailureCodes(checks)
    ensures FirstFailure(checks, 0) ==
      if !checks[0].passes then checks[0].code
      else if !checks[1].passes then checks[1].code
      else if !checks[2].passes then checks[2].code
      else FirstFailure(checks, 3)
  {
    assert FirstFailure(checks, 1) == if !checks[1].passes then checks[1].code else FirstFailure(checks, 2);
    assert FirstFailure(checks, 2) == if !checks[2].passes then checks[2].code else FirstFailure(checks, 3);
  }

  // ---------------------------------------------------------------------------
  // Pushing to the database
  // ---------------------------------------------------------------------------

  /** The answers the database gives: existence queries and the update count of each statement. */
  datatype Database = Database(employeeExists: bool, bankExists: bool, employeeCount: int, bankCount: int)

  /** The statements a push may issue. */
  datatype Statement = UpdateEmployee | InsertEmployee | UpdateBank | InsertBank

  /** A push's result code and the statements it issued, in order. */
  datatype Pushed = Pushed(code: int, issued: seq<Statement>)

  /** An update count: positive is success, negative an SQL error, zero a driver error. */
  function UpdateCode(count: int): (r: int)
    ensures r == SUCCESS <==> count > 0
    ensures r == SQL_ERROR <==> count < 0
    ensures r == DRIVER_ERROR <==> count == 0
  {
    if count > 0 then SUCCESS else if count < 0 then SQL_ERROR else DRIVER_ERROR
  }

  /** pushEmployee(override). */
  function PushEmployeeOutcome(e: Employee, override: bool, db: Database): Pushed {
    if !EmployeePackageValid(e) then Pushed(EmployeePackageResult(e), [])
    else if db.employeeExists then
      if override then Pushed(UpdateCode(db.employeeCount), [UpdateEmployee])
      else Pushed(DUPLICATE_EMPLOYEE, [])
    else Pushed(UpdateCode(db.employeeCount), [InsertEmployee])
  }

  /** pushBank(override). */
  function PushBankOutcome(e: Employee, override: bool, db: Database): Pushed {
    if !BankPackageValid(e) then Pushed(BankPackageResult(e), [])
    else if db.employeeExists then
      if db.bankExists then
        if override then Pushed(UpdateCode(db.bankCount), [UpdateBank])
        else Pushed(DUPLICATE_BANK, [])
      else Pushed(UpdateCode(db.bankCount), [InsertBank])
    else Pushed(UNKNOWN_EMPLOYEE, [])
  }

  /** The bank statement push issues once the employee row is settled. */
  function BankStatement(db: Database): Statement {
    if db.bankExists then UpdateBank else InsertBank
  }

  /** push(override). */
  function PushOutcome(e: Employee, override: bool, db: Database): Pushed {
    if !PackageValid(e) then Pushed(PackageResult(e), [])
    else if db.employeeExists then
      if override then
        if db.employeeCount <= 0 then
          Pushed(if db.employeeCount < 0 then SQL_ERROR else DRIVER_ERROR, [UpdateEmployee])
        else Pushed(UpdateCode(db.bankCount), [UpdateEmployee, BankStatement(db)])
      else if db.bankExists then Pushed(DUPLICATE_BANK, [])
      else Pushed(UpdateCode(db.bankCount), [InsertBank])
    else if db.employeeCount > 0 then Pushed(UpdateCode(db.bankCount), [InsertEmployee, InsertBank])
    else Pushed(SQL_ERROR, [InsertEmployee])
  }

  /** Validation codes (200 and above) and transaction codes (0..5) never overlap. */
  predicate IsTransactionCode(c: int) {
    SQL_ERROR <= c <= SUCCESS
  }

  /**
   * A push that fails validation issues no statement and returns the ladder's
   * code; one that passes returns a transaction code. So the code alone tells
   * which phase failed.
   */
  lemma PushPhases(e: Employee, override: bool, db: Database)
    ensures var p := PushOutcome(e, override, db);
      (!PackageValid(e) ==> p.issued == [] && p.code == PackageResult(e) && p.code >= INVALID_ID)
      && (PackageValid(e) <==> IsTransactionCode(p.code))
    ensures var p := PushEmployeeOutcome(e, override, db);
      (!EmployeePackageValid(e) ==> p.issued == [] && p.code == EmployeePackageResult(e) && p.code >= INVALID_ID)
      && (EmployeePackageValid(e) <==> IsTransactionCode(p.code))
    ensures var p := PushBankOutcome(e, override, db);
      (!BankPackageValid(e) ==> p.issued == [] && p.code == BankPackageResult(e) && p.code >= INVALID_BANK)
      && (BankPackageValid(e) <==> IsTransactionCode(p.code))
  {
    LaddersReportFirstFailure(e);
  }

  /** The existence answers decide the duplicate and unknown-employee codes, and nothing is issued then. */
  lemma ExistenceRules(e: Employee, override: bool, db: Database)
    ensures EmployeePackageValid(e) && db.employeeExists && !override ==>
      PushEmployeeOutcome(e, override, db) == Pushed(DUPLICATE_EMPLOYEE, [])
    ensures BankPackageValid(e) && !db.employeeExists ==> PushBankOutcome(e, override, db) == Pushed(UNKNOWN_EMPLOYEE, [])
    ensures BankPackageValid(e) && db.employeeExists && db.bankExists && !override ==>
      PushBankOutcome(e, override, db) == Pushed(DUPLICATE_BANK, [])
    ensures PackageValid(e) && db.employeeExists && db.bankExists && !override ==>
      PushOutcome(e, override, db) == Pushed(DUPLICATE_BANK, [])
  {
  }

  /** For a new employee, push inserts the bank row only after a successful employee insert. */
  lemma PushNewEmployee(e: Employee, override: bool, db: Database)
    requires PackageValid(e) && !db.employeeExists
    ensures InsertBank in PushOutcome(e, override, db).issued <==> db.employeeCount > 0
    ensures db.employeeCount <= 0 ==> PushOutcome(e, override, db).code == SQL_ERROR
  {
  }

  /** Without override, existing rows are never overwritten. */
  lemma NoOverrideNeverUpdates(e: Employee, db: Database)
    ensures UpdateEmployee !in PushOutcome(e, false, db).issued && UpdateBank !in PushOutcome(e, false, db).issued
    ensures UpdateEmployee !in PushEmployeeOutcome(e, false, db).issued
    ensures UpdateBank !in PushBankOutcome(e, false, db).issued
  {
  }

  // ---------------------------------------------------------------------------
  // State after validation
  // ---------------------------------------------------------------------------

  /**
   * The fields after validateBankPackage (and so after validatePackage once
   * the employee checks pass): validateBSB rewrites the BSB when the bank name
   * passed, and validateAccountNumber rewrites the account when the BSB passed too.
   */
  function AfterBankChecks(e: Employee): Employee {
    if !BankValid(e.bank) then e
    else if !BSBValid(e.bsb) then e.(bsb := Rewritten(e.bsb))
    else e.(bsb := Rewritten(e.bsb), account := Rewritten(e.account))
  }

  /** The fields after validatePackage: the bank checks only run once the employee checks pass. */
  function AfterPackageChecks(e: Employee): Employee {
    if EmployeePackageValid(e) then AfterBankChecks(e) else e
  }

  /** Rewriting changes no check's outcome, and running the checks again rewrites nothing more. */
  lemma AfterChecksKeepOutcome(e: Employee)
    ensures PackageResult(AfterPackageChecks(e)) == PackageResult(e)
    ensures BankPackageResult(AfterBankChecks(e)) == BankPackageResult(e)
    ensures AfterBankChecks(AfterBankChecks(e)) == AfterBankChecks(e)
    ensures AfterPackageChecks(AfterPackageChecks(e)) == AfterPackageChecks(e)
  {
    AfterBankChecksKeepsVerdicts(e);
  }

  /** The bank checks rewrite only the BSB and the account, each to text with the same verdict. */
  lemma AfterBankChecksKeepsVerdicts(e: Employee)
    ensures var f := AfterBankChecks(e);
      f.id == e.id && f.firstName == e.firstName && f.lastName == e.lastName && f.bank == e.bank
      && (BSBValid(f.bsb) <==> BSBValid(e.bsb)) && (AccountValid(f.account) <==> AccountValid(e.account))
      && AfterBankChecks(f) == f
  {
    CanonicalIsStable(e.bsb);
    CanonicalIsStable(e.account);
  }

  class EmployeeConnection {
    const id: string
    var firstName: string
    var lastName: string
    var bank: string
    var bsb: string
    var account: string

    /** The fields as one value. */
    function Snapshot(): Employee
      reads this
    {
      Employee(id, firstName, lastName, bank, bsb, account)
    }

    /** The main constructor: every null argument becomes "". */
    constructor (id: Option<string>, firstName: Option<string>, lastName: Option<string>,
                 bank: Option<string>, bsb: Option<string>, account: Option<string>)
      ensures Snapshot() == Employee(OrEmpty(id), OrEmpty(firstName), OrEmpty(lastName),
                                     OrEmpty(bank), OrEmpty(bsb), OrEmpty(account))
    {
      this.id := OrEmpty(id);
      this.firstName := OrEmpty(firstName);
      this.lastName := OrEmpty(lastName);
      this.bank := OrEmpty(bank);
      this.bsb := OrEmpty(bsb);
      this.account := OrEmpty(account);
    }

    /** EmployeeConnection(id): every other field is "". */
    constructor WithId(id: Option<string>)
      ensures Snapshot() == Employee(OrEmpty(id), "", "", "", "", "")
    {
      this.id := OrEmpty(id);
      this.firstName := "";
      this.lastName := "";
      this.bank := "";
      this.bsb := "";
      this.account := "";
    }

    /** EmployeeConnection(id, firstName, lastName): the bank fields are "". */
    constructor WithNames(id: Option<string>, firstName: Option<string>, lastName: Option<string>)
      ensures Snapshot() == Employee(OrEmpty(id), OrEmpty(firstName), OrEmpty(lastName), "", "", "")
    {
      this.id := OrEmpty(id);
      this.firstName := OrEmpty(firstName);
      this.lastName := OrEmpty(lastName);
      this.bank := "";
      this.bsb := "";
      this.account := "";
    }

    method SetFirstName(s: Option<string>)
      modifies this
      ensures Snapshot() == old(Snapshot()).(firstName := OrEmpty(s))
    {
      firstName := OrEmpty(s);
    }

    method SetLastName(s: Option<string>)
      modifies this
      ensures Snapshot() == old(Snapshot()).(lastName := OrEmpty(s))
    {
      lastName := OrEmpty(s);
    }

    method SetBank(s: Option<string>)
      modifies this
      ensures Snapshot() == old(Snapshot()).(bank := OrEmpty(s))
    {
      bank := OrEmpty(s);
    }

    /** setBSB(int): a positive value is stored as its decimal text; anything else is refused. */
    method SetBSBNumber(v: int) returns (ok: bool)
      modifies this
      ensures ok <==> v > 0
      ensures ok ==> Snapshot() == old(Snapshot()).(bsb := IntToString(v))
      ensures !ok ==> Snapshot() == old(Snapshot())
    {
      if v > 0 {
        bsb := IntToString(v);
      } else {
        return false;
      }
      return true;
    }

    /** setBSB(String): null counts as "", which does not parse. */
    method SetBSBText(text: Option<string>) returns (ok: bool)
      modifies this
      ensures ok <==> Canonical(OrEmpty(text)).Some?
      ensures ok ==> Snapshot() == old(Snapshot()).(bsb := Canonical(OrEmpty(text)).value)
      ensures !ok ==> Snapshot() == old(Snapshot())
    {
      var t := OrEmpty(text);
      match ParseInt(Some(t))
      case None =>
        return false;
      case Some(v) =>
        ok := SetBSBNumber(v);
    }

    /** setAccountNumber(int). */
    method SetAccountNumberValue(v: int) returns (ok: bool)
      modifies this
      ensures ok <==> v > 0
      ensures ok ==> Snapshot() == old(Snapshot()).(account := IntToString(v))
      ensures !ok ==> Snapshot() == old(Snapshot())
    {
      if v > 0 {
        account := IntToString(v);
      } else {
        return false;
      }
      return true;
    }

    /** setAccountNumber(String). */
    method SetAccountNumberText(text: Option<string>) returns (ok: bool)
      modifies this
      ensures ok <==> Canonical(OrEmpty(text)).Some?
      ensures ok ==> Snapshot() == old(Snapshot()).(account := Canonical(OrEmpty(text)).value)
      ensures !ok ==> Snapshot() == old(Snapshot())
    {
      var t := OrEmpty(text);
      match ParseInt(Some(t))
      case None =>
        return false;
      case Some(v) =>
        ok := SetAccountNumberValue(v);
    }

    /** getBSB: rewrites the BSB through setBSB, then returns it. */
    method GetBSB() returns (r: string)
      modifies this
      ensures r == Rewritten(old(bsb))
      ensures Snapshot() == old(Snapshot()).(bsb := r)
    {
      var _ := SetBSBText(Some(bsb));
      r := bsb;
    }

    /** getAccountNumber: rewrites the account number through setAccountNumber, then returns it. */
    method GetAccountNumber() returns (r: string)
      modifies this
      ensures r == Rewritten(old(account))
      ensures Snapshot() == old(Snapshot()).(account := r)
    {
      var _ := SetAccountNumberText(Some(account));
      r := account;
    }

    method ValidateID() returns (ok: bool)
      ensures ok <==> IdValid(id)
    {
      if |id| < 1 {
        return false;
      }
      ok := ParseInt(Some(id)).Some?;
    }

    method ValidateFirstName() returns (ok: bool)
      ensures ok <==> PersonNameValid(firstName)
    {
      ok := |firstName| > 0 && |firstName| <= MAX_PERSON_NAME;
    }

    method ValidateLastName() returns (ok: bool)
      ensures ok <==> PersonNameValid(lastName)
    {
      ok := |lastName| > 0 && |lastName| <= MAX_PERSON_NAME;
    }

    method ValidateBank() returns (ok: bool)
      ensures ok <==> BankValid(bank)
    {
      ok := |bank| > 0 && |bank| <= MAX_BANK_NAME;
    }

    /** validateBSB: rewrites the BSB when it parses to a positive int, then checks for 6 characters. */
    method ValidateBSB() returns (ok: bool)
      modifies this
      ensures ok <==> BSBValid(old(bsb))
      ensures Snapshot() == old(Snapshot()).(bsb := Rewritten(old(bsb)))
    {
      var stored := SetBSBText(Some(bsb));
      if !stored {
        return false;
      }
      CanonicalIsStable(old(bsb));
      var b := GetBSB();
      ok := |b| == BSB_LENGTH;
    }

    /** validateAccountNumber: rewrites the account number, then checks for 1..11 characters. */
    method ValidateAccountNumber() returns (ok: bool)
      modifies this
      ensures ok <==> AccountValid(old(account))
      ensures Snapshot() == old(Snapshot()).(account := Rewritten(old(account)))
    {
      var stored := SetAccountNumberText(Some(account));
      if !stored {
        return false;
      }
      CanonicalIsStable(old(account));
      var a := GetAccountNumber();
      ok := |a| > 0 && |a| <= MAX_ACCOUNT_LENGTH;
    }

    method ValidateEmployeePackage() returns (ok: bool)
      ensures ok <==> EmployeePackageValid(Snapshot())
    {
      ok := ValidateID();
      if ok {
        ok := ValidateFirstName();
      }
      if ok {
        ok := ValidateLastName();
      }
    }

    method ValidateBankPackage() returns (ok: bool)
      modifies this
      ensures ok <==> BankPackageValid(old(Snapshot()))
      ensures Snapshot() == AfterBankChecks(old(Snapshot()))
    {
      ok := ValidateBank();
      if ok {
        ok := ValidateBSB();
      }
      if ok {
        ok := ValidateAccountNumber();
      }
    }

    method ValidatePackage() returns (ok: bool)
      modifies this
      ensures ok <==> PackageValid(old(Snapshot()))
      ensures Snapshot() == AfterPackageChecks(old(Snapshot()))
    {
      ok := ValidateEmployeePackage();
      if ok {
        ok := ValidateBankPackage();
      }
    }

    method ValidateEmployeePackageResult() returns (code: int)
      ensures code == EmployeePackageResult(Snapshot())
    {
      var ok := ValidateEmployeePackage();
      if ok {
        return VALID;
      }
      ok := ValidateID();
      if !ok {
        return INVALID_ID;
      }
      ok := ValidateFirstName();
      if !ok {
        return INVALID_FIRST_NAME;
      }
      ok := ValidateLastName();
      if !ok {
        return INVALID_LAST_NAME;
      }
      return INVALID_UNKNOWN;
    }

    method ValidateBankPackageResult() returns (code: int)
      modifies this
      ensures code == BankPackageResult(old(Snapshot()))
      ensures Snapshot() == AfterBankChecks(old(Snapshot()))
    {
      AfterChecksKeepOutcome(Snapshot());
      var ok := ValidateBankPackage();
      if ok {
        return VALID;
      }
      ok := ValidateBank();
      if !ok {
        return INVALID_BANK;
      }
      ok := ValidateBSB();
      if !ok {
        return INVALID_BSB_NUMBER;
      }
      ok := ValidateAccountNumber();
      if !ok {
        return INVALID_ACCOUNT_NUMBER;
      }
      return INVALID_UNKNOWN;
    }

    method ValidatePackageResult() returns (code: int)
      modifies this
      ensures code == PackageResult(old(Snapshot()))
      ensures Snapshot() == AfterPackageChecks(old(Snapshot()))
    {
      AfterChecksKeepOutcome(Snapshot());
      var ok := ValidatePackage();
      if ok {
        return VALID;
      }
      ok := ValidateID();
      if !ok {
        return INVALID_ID;
      }
      ok := ValidateFirstName();
      if !ok {
        return INVALID_FIRST_NAME;
      }
      ok := ValidateLastName();
      if !ok {
        return INVALID_LAST_NAME;
      }
      ok := ValidateBank();
      if !ok {
        return INVALID_BANK;
      }
      ok := ValidateBSB();
      if !ok {
        return INVALID_BSB_NUMBER;
      }
      ok := ValidateAccountNumber();
      if !ok {
        return INVALID_ACCOUNT_NUMBER;
      }
      return INVALID_UNKNOWN;
    }

    /** pushEmployee(override), with the database's answers given by `db`. */
    method PushEmployee(override: bool, db: Database) returns (p: Pushed)
      ensures p == PushEmployeeOutcome(Snapshot(), override, db)
    {
      var ok := ValidateEmployeePackage();
      if !ok {
        var code := ValidateEmployeePackageResult();
        return Pushed(code, []);
      }
      if db.employeeExists {
        if override {
          return Pushed(UpdateCode(db.employeeCount), [UpdateEmployee]);
        } else {
          return Pushed(DUPLICATE_EMPLOYEE, []);
        }
      } else {
        return Pushed(UpdateCode(db.employeeCount), [InsertEmployee]);
      }
    }

    /** pushBank(override). */
    method PushBank(override: bool, db: Database) returns (p: Pushed)
      modifies this
      ensures p == PushBankOutcome(old(Snapshot()), override, db)
      ensures Snapshot() == AfterBankChecks(old(Snapshot()))
    {
      AfterChecksKeepOutcome(Snapshot());
      var ok := ValidateBankPackage();
      if !ok {
        var code := ValidateBankPackageResult();
        return Pushed(code, []);
      }
      if db.employeeExists {
        if db.bankExists {
          if override {
            return Pushed(UpdateCode(db.bankCount), [UpdateBank]);
          } else {
            return Pushed(DUPLICATE_BANK, []);
          }
        } else {
          return Pushed(UpdateCode(db.bankCount), [InsertBank]);
        }
      } else {
        return Pushed(UNKNOWN_EMPLOYEE, []);
      }
    }

    /** push(override): the employee row first, then the bank row. */
    method Push(override: bool, db: Database) returns (p: Pushed)
      modifies this
      ensures p == PushOutcome(old(Snapshot()), override, db)
      ensures Snapshot() == AfterPackageChecks(old(Snapshot()))
    {
      AfterChecksKeepOutcome(Snapshot());
      var ok := ValidatePackage();
      if !ok {
        var code := ValidatePackageResult();
        return Pushed(code, []);
      }
      if db.employeeExists {
        if override {
          var e := db.employeeCount;
          if e <= 0 {
            return Pushed(if e < 0 then SQL_ERROR else DRIVER_ERROR, [UpdateEmployee]);
          }
          if db.bankExists {
            return Pushed(UpdateCode(db.bankCount), [UpdateEmployee, UpdateBank]);
          } else {
            return Pushed(UpdateCode(db.bankCount), [UpdateEmployee, InsertBank]);
          }
        } else {
          if db.bankExists {
            return Pushed(DUPLICATE_BANK, []);
          } else {
            return Pushed(UpdateCode(db.bankCount), [InsertBank]);
          }
        }
      } else {
        var e := db.employeeCount;
        if e > 0 {
          return Pushed(UpdateCode(db.bankCount), [InsertEmployee, InsertBank]);
        } else {
          return Pushed(SQL_ERROR, [InsertEmployee]);
        }
      }
    }
  }
}
