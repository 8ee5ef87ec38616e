/**
 * The three FluentValidation rule sets for employee commands. Each is a
 * function from a command to the failures it reports, in declaration order.
 * FluentValidation's default cascade mode runs every rule and every check in
 * a chain, so one field can report several failures at once.
 */
module EmployeeValidators {
  import opened Common
  import opened Framework
  import opened EmployeeCommands
  import Mediator

  /**
   * `DateTime.Today` and `DateTime.AddYears`, which the rules read. Dates are
   * integers, and `addYears(d, n)` is the date `n` years after `d`.
   */
  datatype Calendar = Calendar(today: int, addYears: (int, int) -> int)

  /** One check of a rule: no failure when `ok`, otherwise `failure`. */
  function Check(ok: bool, failure: ValidationFailure): (r: seq<ValidationFailure>)
    ensures r == [] <==> ok
    ensures forall f :: f in r <==> !ok && f == failure
  {
    if ok then [] else [failure]
  }

  /** FluentValidation's `NotEmpty` on a string: null, "" and all-white-space are empty. */
  predicate NotEmpty(s: Option<string>)
  {
    !IsNullOrWhiteSpace(s)
  }

  /** `MaximumLength(n)`: a null value passes. */
  predicate MaximumLength(s: Option<string>, n: nat)
  {
    s.None? || |s.value| <= n
  }

  // ---------------------------------------------------------------------
  // PatchEmployeeCommandValidator
  // ---------------------------------------------------------------------

  /** `IsValidGender`: Male, Female or Other, ignoring case. */
  predicate IsValidGender(gender: string)
  {
    EqualsIgnoreCase("Male", gender) || EqualsIgnoreCase("Female", gender) || EqualsIgnoreCase("Other", gender)
  }

  const IdMustBePositive := Failure("Id", "Employee ID must be greater than 0")
  const FirstNameEmpty := Failure("FirstName", "First name cannot be empty when provided")
  const FirstNameTooLong := Failure("FirstName", "First name cannot exceed 100 characters")
  const LastNameEmpty := Failure("LastName", "Last name cannot be empty when provided")
  const LastNameTooLong := Failure("LastName", "Last name cannot exceed 100 characters")
  const GenderEmpty := Failure("Gender", "Gender cannot be empty when provided")
  const GenderTooLong := Failure("Gender", "Gender cannot exceed 10 characters")
  const GenderUnknown := Failure("Gender", "Gender must be 'Male', 'Female', or 'Other'")
  const BirthNotPast := Failure("BirthDate", "Birth date must be in the past")
  const BirthTooOld := Failure("BirthDate", "Birth date cannot be more than 120 years ago")
  const HireInFuture := Failure("HireDate", "Hire date cannot be in the future")
  const HireBeforeBirth := Failure("HireDate", "Hire date must be after birth date")
  const NoUpdates := Failure("", "At least one field must be provided for partial update")

  /** The checks on an optional name, run only when it is given. */
  function PatchNameRules(name: Option<string>, empty: ValidationFailure, tooLong: ValidationFailure): (r: seq<ValidationFailure>)
    ensures forall f :: f in r <==> name.Some? && ((IsBlank(name.value) && f == empty) || (|name.value| > 100 && f == tooLong))
  {
    if name.None? then []
    else Check(!IsBlank(name.value), empty) + Check(|name.value| <= 100, tooLong)
  }

  /** The checks on a given gender. */
  function PatchGenderRules(gender: Option<string>): (r: seq<ValidationFailure>)
    ensures forall f :: f in r ==> f.propertyName == "Gender" && gender.Some?
    ensures GenderEmpty in r <==> gender.Some? && IsBlank(gender.value)
    ensures GenderTooLong in r <==> gender.Some? && |gender.value| > 10
    ensures GenderUnknown in r <==> gender.Some? && !IsValidGender(gender.value)
  {
    if gender.None? then []
    else Check(!IsBlank(gender.value), GenderEmpty) + Check(|gender.value| <= 10, GenderTooLong)
         + Check(IsValidGender(gender.value), GenderUnknown)
  }

  /** The checks on the dates, each run only when its dates are given. */
  function PatchDateRules(cal: Calendar, birth: Option<int>, hire: Option<int>): (r: seq<ValidationFailure>)
    ensures forall f :: f in r ==> (f.propertyName == "BirthDate" && birth.Some?) || (f.propertyName == "HireDate" && hire.Some?)
    ensures BirthNotPast in r <==> birth.Some? && birth.value >= cal.today
    ensures BirthTooOld in r <==> birth.Some? && birth.value <= cal.addYears(cal.today, -120)
    ensures HireInFuture in r <==> hire.Some? && hire.value > cal.today
    ensures HireBeforeBirth in r <==> birth.Some? && hire.Some? && hire.value <= birth.value
  {
    var birthRules := if birth.None? then []
                      else Check(birth.value < cal.today, BirthNotPast) + Check(birth.value > cal.addYears(cal.today, -120), BirthTooOld);
    var hireRules := if hire.None? then [] else Check(hire.value <= cal.today, HireInFuture);
    var orderRules := if birth.None? || hire.None? then [] else Check(hire.value > birth.value, HireBeforeBirth);
    assert forall f :: f in birthRules + hireRules + orderRules <==> f in birthRules || f in hireRules || f in orderRules;
    birthRules + hireRules + orderRules
  }

  /** Every failure `PatchEmployeeCommandValidator` reports for `c`, in rule order. */
  function PatchRules(cal: Calendar, c: PatchEmployeeCommand): (r: seq<ValidationFailure>)
    ensures r == [] <==> PatchAccepts(cal, c)
  {
    PatchRulesAccept(cal, c);
    Check(c.id > 0, IdMustBePositive)
    + PatchNameRules(c.firstName, FirstNameEmpty, FirstNameTooLong)
    + PatchNameRules(c.lastName, LastNameEmpty, LastNameTooLong)
    + PatchGenderRules(c.gender)
    + PatchDateRules(cal, c.birthDate, c.hireDate)
    + Check(c.HasAnyUpdates(), NoUpdates)
  }

  /** The id rule is declared first and the "at least one field" rule last, and their failures sit there. */
  lemma PatchRulesOrderEnds(cal: Calendar, c: PatchEmployeeCommand)
    ensures c.id <= 0 ==> PatchRules(cal, c)[0] == IdMustBePositive
    ensures !c.HasAnyUpdates() ==> PatchRules(cal, c)[|PatchRules(cal, c)| - 1] == NoUpdates
  {
  }

  /**
   * What a command must satisfy to pass the patch rules, stated field by
   * field. A given gender only has to be a valid gender: that alone makes it
   * non-blank and short enough.
   */
  predicate PatchAccepts(cal: Calendar, c: PatchEmployeeCommand)
  {
    && c.id > 0
    && c.HasAnyUpdates()
    && (c.firstName.Some? ==> !IsBlank(c.firstName.value) && |c.firstName.value| <= 100)
    && (c.lastName.Some? ==> !IsBlank(c.lastName.value) && |c.lastName.value| <= 100)
    && (c.gender.Some? ==> IsValidGender(c.gender.value))
    && (c.birthDate.Some? ==> cal.addYears(cal.today, -120) < c.birthDate.value < cal.today)
    && (c.hireDate.Some? ==> c.hireDate.value <= cal.today)
    && (c.birthDate.Some? && c.hireDate.Some? ==> c.birthDate.value < c.hireDate.value)
  }

  /** A valid gender is one of three words of four to six letters, so it is neither blank nor long. */
  lemma ValidGenderIsShortAndNotBlank(g: string)
    requires IsValidGender(g)
    ensures !IsBlank(g) && 4 <= |g| <= 6
  {
    var lower := ToLowerInvariant(g);
    assert |lower| == |g|;
    assert lower[0] == LowerChar(g[0]);
    if EqualsIgnoreCase("Male", g) {
      assert ToLowerInvariant("Male")[0] == 'm';
    } else if EqualsIgnoreCase("Female", g) {
      assert ToLowerInvariant("Female")[0] == 'f';
    } else {
      assert ToLowerInvariant("Other")[0] == 'o';
    }
    assert !IsWhiteSpace(g[0]);
  }

  lemma PatchRulesAccept(cal: Calendar, c: PatchEmployeeCommand)
    ensures ((Check(c.id > 0, IdMustBePositive)
             + PatchNameRules(c.firstName, FirstNameEmpty, FirstNameTooLong)
             + PatchNameRules(c.lastName, LastNameEmpty, LastNameTooLong)
             + PatchGenderRules(c.gender)
             + PatchDateRules(cal, c.birthDate, c.hireDate)
             + Check(c.HasAnyUpdates(), NoUpdates)) == []) <==> PatchAccepts(cal, c)
  {
    if c.gender.Some? && IsValidGender(c.gender.value) {
      ValidGenderIsShortAndNotBlank(c.gender.value);
    }
  }

  /** A failure is reported exactly when one of the rule groups reports it. */
  lemma PatchRulesMembership(cal: Calendar, c: PatchEmployeeCommand, f: ValidationFailure)
    ensures f in PatchRules(cal, c) <==>
              (c.id <= 0 && f == IdMustBePositive)
              || f in PatchNameRules(c.firstName, FirstNameEmpty, FirstNameTooLong)
              || f in PatchNameRules(c.lastName, LastNameEmpty, LastNameTooLong)
              || f in PatchGenderRules(c.gender)
              || f in PatchDateRules(cal, c.birthDate, c.hireDate)
              || (!c.HasAnyUpdates() && f == NoUpdates)
  {
  }

  /** Which failures the patch rules report for the id, the names and the update count. */
  lemma PatchRulesReportNames(cal: Calendar, c: PatchEmployeeCommand)
    ensures IdMustBePositive in PatchRules(cal, c) <==> c.id <= 0
    ensures FirstNameEmpty in PatchRules(cal, c) <==> c.firstName.Some? && IsBlank(c.firstName.value)
    ensures FirstNameTooLong in PatchRules(cal, c) <==> c.firstName.Some? && |c.firstName.value| > 100
    ensures LastNameEmpty in PatchRules(cal, c) <==> c.lastName.Some? && IsBlank(c.lastName.value)
    ensures LastNameTooLong in PatchRules(cal, c) <==> c.lastName.Some? && |c.lastName.value| > 100
    ensures NoUpdates in PatchRules(cal, c) <==> !c.HasAnyUpdates()
  {
    ReportsId(cal, c);
    ReportsNoUpdates(cal, c);
    ReportsFirstNameEmpty(cal, c);
    ReportsFirstNameTooLong(cal, c);
    ReportsLastNameEmpty(cal, c);
    ReportsLastNameTooLong(cal, c);
  }

  lemma ReportsId(cal: Calendar, c: PatchEmployeeCommand)
    ensures IdMustBePositive in PatchRules(cal, c) <==> c.id <= 0
  {
    PatchRulesMembership(cal, c, IdMustBePositive);
  }

  lemma ReportsNoUpdates(cal: Calendar, c: PatchEmployeeCommand)
    ensures NoUpdates in PatchRules(cal, c) <==> !c.HasAnyUpdates()
  {
    PatchRulesMembership(cal, c, NoUpdates);
  }

  lemma ReportsFirstNameEmpty(cal: Calendar, c: PatchEmployeeCommand)
    ensures FirstNameEmpty in PatchRules(cal, c) <==> c.firstName.Some? && IsBlank(c.firstName.value)
  {
    PatchRulesMembership(cal, c, FirstNameEmpty);
  }

  lemma ReportsFirstNameTooLong(cal: Calendar, c: PatchEmployeeCommand)
    ensures FirstNameTooLong in PatchRules(cal, c) <==> c.firstName.Some? && |c.firstName.value| > 100
  {
    PatchRulesMembership(cal, c, FirstNameTooLong);
  }

  lemma ReportsLastNameEmpty(cal: Calendar, c: PatchEmployeeCommand)
    ensures LastNameEmpty in PatchRules(cal, c) <==> c.lastName.Some? && IsBlank(c.lastName.value)
  {
    PatchRulesMembership(cal, c, LastNameEmpty);
  }

  lemma ReportsLastNameTooLong(cal: Calendar, c: PatchEmployeeCommand)
    ensures LastNameTooLong in PatchRules(cal, c) <==> c.lastName.Some? && |c.lastName.value| > 100
  {
    PatchRulesMembership(cal, c, LastNameTooLong);
  }

  /** Which failures the patch rules report for the gender and the dates. */
  lemma PatchRulesReportGenderAndDates(cal: Calendar, c: PatchEmployeeCommand)
    ensures GenderEmpty in PatchRules(cal, c) <==> c.gender.Some? && IsBlank(c.gender.value)
    ensures GenderTooLong in PatchRules(cal, c) <==> c.gender.Some? && |c.gender.value| > 10
    ensures GenderUnknown in PatchRules(cal, c) <==> c.gender.Some? && !IsValidGender(c.gender.value)
    ensures BirthNotPast in PatchRules(cal, c) <==> c.birthDate.Some? && c.birthDate.value >= cal.today
    ensures BirthTooOld in PatchRules(cal, c) <==> c.birthDate.Some? && c.birthDate.value <= cal.addYears(cal.today, -120)
    ensures HireInFuture in PatchRules(cal, c) <==> c.hireDate.Some? && c.hireDate.value > cal.today
    ensures HireBeforeBirth in PatchRules(cal, c) <==> c.birthDate.Some? && c.hireDate.Some? && c.hireDate.value <= c.birthDate.value
  {
    ReportsGenderEmpty(cal, c);
    ReportsGenderTooLong(cal, c);
    ReportsGenderUnknown(cal, c);
    ReportsBirthNotPast(cal, c);
    ReportsBirthTooOld(cal, c);
    ReportsHireInFuture(cal, c);
    ReportsHireBeforeBirth(cal, c);
  }

  lemma ReportsGenderEmpty(cal: Calendar, c: PatchEmployeeCommand)
    ensures GenderEmpty in PatchRules(cal, c) <==> c.gender.Some? && IsBlank(c.gender.value)
  {
    PatchRulesMembership(cal, c, GenderEmpty);
  }

  lemma ReportsGenderTooLong(cal: Calendar, c: PatchEmployeeCommand)
    ensures GenderTooLong in PatchRules(cal, c) <==> c.gender.Some? && |c.gender.value| > 10
  {
    PatchRulesMembership(cal, c, GenderTooLong);
  }

  lemma ReportsGenderUnknown(cal: Calendar, c: PatchEmployeeCommand)
    ensures GenderUnknown in PatchRules(cal, c) <==> c.gender.Some? && !IsValidGender(c.gender.value)
  {
    PatchRulesMembership(cal, c, GenderUnknown);
  }

  lemma ReportsBirthNotPast(cal: Calendar, c: PatchEmployeeCommand)
    ensures BirthNotPast in PatchRules(cal, c) <==> c.birthDate.Some? && c.birthDate.value >= cal.today
  {
    PatchRulesMembership(cal, c, BirthNotPast);
  }

  lemma ReportsBirthTooOld(cal: Calendar, c: PatchEmployeeCommand)
    ensures BirthTooOld in PatchRules(cal, c) <==> c.birthDate.Some? && c.birthDate.value <= cal.addYears(cal.today, -120)
  {
    PatchRulesMembership(cal, c, BirthTooOld);
  }

  lemma ReportsHireInFuture(cal: Calendar, c: PatchEmployeeCommand)
    ensures HireInFuture in PatchRules(cal, c) <==> c.hireDate.Some? && c.hireDate.value > cal.today
  {
    PatchRulesMembership(cal, c, HireInFuture);
  }

  lemma ReportsHireBeforeBirth(cal: Calendar, c: PatchEmployeeCommand)
    ensures HireBeforeBirth in PatchRules(cal, c) <==> c.birthDate.Some? && c.hireDate.Some? && c.hireDate.value <= c.birthDate.value
  {
    PatchRulesMembership(cal, c, HireBeforeBirth);
  }

  /** A field left null triggers none of that field's rules. */
  lemma PatchNullFieldIsNotChecked(cal: Calendar, c: PatchEmployeeCommand, f: ValidationFailure)
    requires f in PatchRules(cal, c)
    ensures f.propertyName == "FirstName" ==> c.firstName.Some?
    ensures f.propertyName == "LastName" ==> c.lastName.Some?
    ensures f.propertyName == "Gender" ==> c.gender.Some?
    ensures f.propertyName == "BirthDate" ==> c.birthDate.Some?
    ensures f.propertyName == "HireDate" ==> c.hireDate.Some?
  {
    PatchRulesMembership(cal, c, f);
    if f in PatchNameRules(c.firstName, FirstNameEmpty, FirstNameTooLong) {
      assert f.propertyName == "FirstName" && c.firstName.Some?;
    } else if f in PatchNameRules(c.lastName, LastNameEmpty, LastNameTooLong) {
      assert f.propertyName == "LastName" && c.lastName.Some?;
    } else if f !in PatchGenderRules(c.gender) && f !in PatchDateRules(cal, c.birthDate, c.hireDate) {
      assert f.propertyName == "Id" || f.propertyName == "";
    }
  }

  /** Every rule runs: a command with a bad id and nothing to update reports both. */
  lemma PatchReportsEveryBrokenRule(cal: Calendar, id: int)
    requires id <= 0
    ensures PatchRules(cal, PatchEmployeeCommand(id, None, None, None, None, None)) == [IdMustBePositive, NoUpdates]
  {
  }

  // ---------------------------------------------------------------------
  // AddEmployeeCommandValidator
  // ---------------------------------------------------------------------

  /** FluentValidation's default message for `NotNull` and for `NotEmpty`. */
  function MustNotBeEmpty(propertyName: string, displayName: string): ValidationFailure
  {
    Failure(propertyName, "'" + displayName + "' must not be empty.")
  }

  const GenderNotSingle := Failure("Gender", "Gender must be a single character.")
  const AddTooYoung := Failure("BirthDate", "Employee must be at least 18 years old.")
  const HireNotPast := Failure("HireDate", "Hire date must be today or in the future.")
  const TooYoungOnHire := Failure("HireDate", "Employee must be at least 18 years old on the hire date.")

  /** `NotNull().NotEmpty()` on one property, with the default messages. */
  function RequiredRules(s: Option<string>, propertyName: string, displayName: string): (r: seq<ValidationFailure>)
    ensures r == [] <==> NotEmpty(s)
  {
    Check(s.Some?, MustNotBeEmpty(propertyName, displayName)) + Check(NotEmpty(s), MustNotBeEmpty(propertyName, displayName))
  }

  /** Every failure `AddEmployeeCommandValidator` reports for `c`, in rule order. */
  function AddRules(cal: Calendar, c: AddEmployeeCommand): (r: seq<ValidationFailure>)
    ensures r == [] <==> AddAccepts(cal, c)
  {
    RequiredRules(c.firstName, "FirstName", "First Name")
    + RequiredRules(c.lastName, "LastName", "Last Name")
    + RequiredRules(c.gender, "Gender", "Gender") + Check(MaximumLength(c.gender, 1), GenderNotSingle)
    + Check(c.birthDate <= cal.addYears(cal.today, -18), AddTooYoung)
    + Check(c.hireDate <= cal.today, HireNotPast)
    + Check(c.hireDate >= cal.addYears(c.birthDate, 18), TooYoungOnHire)
  }

  /** A gender the add rules accept: exactly one character, and not white space. */
  predicate AddGenderOk(g: Option<string>)
  {
    g.Some? && |g.value| == 1 && !IsWhiteSpace(g.value[0])
  }

  /** What a new employee must satisfy to pass the add rules. */
  predicate AddAccepts(cal: Calendar, c: AddEmployeeCommand)
  {
    && NotEmpty(c.firstName)
    && NotEmpty(c.lastName)
    && AddGenderOk(c.gender)
    && c.birthDate <= cal.addYears(cal.today, -18)
    && c.hireDate <= cal.today
    && cal.addYears(c.birthDate, 18) <= c.hireDate
  }

  /**
   * A null first name breaks both `NotNull` and `NotEmpty`, which report the
   * same message; the validation behaviour's de-duplication keeps only one.
   */
  lemma AddNullFirstNameReportedOnce(cal: Calendar, c: AddEmployeeCommand)
    requires c.firstName.None?
    ensures AddRules(cal, c)[..2] == [MustNotBeEmpty("FirstName", "First Name"), MustNotBeEmpty("FirstName", "First Name")]
    ensures Mediator.Distinct(AddRules(cal, c)[..2]) == [MustNotBeEmpty("FirstName", "First Name")]
  {
    var two := AddRules(cal, c)[..2];
    assert Mediator.Distinct(two[..1]) == [two[0]];
    assert Mediator.HasSame(Mediator.Distinct(two[..1]), two[1]) by {
      assert Mediator.SameFailure(Mediator.Distinct(two[..1])[0], two[1]);
    }
  }

  // ---------------------------------------------------------------------
  // UpdateEmployeeCommandValidator
  // ---------------------------------------------------------------------

  /** FluentValidation's default `GreaterThan(0)` message for `Id`. */
  const IdDefaultMessage := Failure("Id", "'Id' must be greater than '0'.")

  /** Every failure `UpdateEmployeeCommandValidator` reports for `c`, in rule order. */
  function UpdateRules(cal: Calendar, c: UpdateEmployeeCommand): (r: seq<ValidationFailure>)
    ensures r == [] <==> UpdateAccepts(cal, c)
  {
    Check(c.id > 0, IdDefaultMessage)
    + RequiredRules(c.firstName, "FirstName", "First Name")
    + RequiredRules(c.lastName, "LastName", "Last Name")
    + RequiredRules(c.gender, "Gender", "Gender")
    + Check(c.hireDate <= cal.today, HireNotPast)
    + Check(c.birthDate <= cal.addYears(cal.today, -18), AddTooYoung)
  }

  /** What a full update must satisfy; nothing relates the two dates and nothing limits a length. */
  predicate UpdateAccepts(cal: Calendar, c: UpdateEmployeeCommand)
  {
    && c.id > 0
    && NotEmpty(c.firstName)
    && NotEmpty(c.lastName)
    && NotEmpty(c.gender)
    && c.hireDate <= cal.today
    && c.birthDate <= cal.addYears(cal.today, -18)
  }

  /** The update rules accept a hire date before the birth date and a gender of any length. */
  lemma UpdateIgnoresDateOrderAndLength(cal: Calendar, c: UpdateEmployeeCommand)
    requires UpdateAccepts(cal, c)
    ensures UpdateRules(cal, c.(hireDate := c.birthDate - 1)) == [] <==> c.birthDate - 1 <= cal.today
    ensures UpdateRules(cal, c.(gender := Some(c.gender.value + "xxxxxxxxxx"))) == []
  {
    var g := c.gender.value + "xxxxxxxxxx";
    assert g[|g| - 1] == 'x';
  }

  // ---------------------------------------------------------------------
  // The rule sets side by side
  // ---------------------------------------------------------------------

  /**
   * No gender passes both the add rules (one character) and the patch rules
   * (Male, Female or Other): an employee added through one cannot keep its
   * gender through the other.
   */
  lemma GenderRulesDisagree(cal: Calendar, a: AddEmployeeCommand, p: PatchEmployeeCommand)
    requires a.gender == p.gender
    ensures !(AddRules(cal, a) == [] && PatchRules(cal, p) == [] && p.gender.Some?)
  {
    if AddRules(cal, a) == [] && PatchRules(cal, p) == [] && p.gender.Some? {
      ValidGenderIsShortAndNotBlank(p.gender.value);
    }
  }
}
