/**
 * The employee entity and the commands and API request that carry changes
 * to it. Dates (`DateTime`) are integers: only their order matters here.
 */
module EmployeeCommands {
  import opened Common

  /** `EmployeeModel`: a stored employee record. */
  datatype EmployeeModel = EmployeeModel(
    id: int,
    firstName: string,
    lastName: string,
    gender: string,
    birthDate: int,
    hireDate: int)

  /** `PatchEmployeeCommand`: a partial update in which `None` means "leave unchanged". */
  datatype PatchEmployeeCommand = PatchEmployeeCommand(
    id: int,
    firstName: Option<string>,
    lastName: Option<string>,
    gender: Option<string>,
    birthDate: Option<int>,
    hireDate: Option<int>)
  {
    /** `HasAnyUpdates`: some field other than the id is non-null. */
    predicate HasAnyUpdates()
    {
      firstName.Some? || lastName.Some? || gender.Some? || birthDate.Some? || hireDate.Some?
    }
  }

  /** `PatchEmployeeCommand.CreateCommand`. */
  function CreateCommand(
    id: int,
    firstName: Option<string>,
    lastName: Option<string>,
    gender: Option<string>,
    birthDate: Option<int>,
    hireDate: Option<int>): (c: PatchEmployeeCommand)
    ensures c.id == id && c.firstName == firstName && c.lastName == lastName
    ensures c.gender == gender && c.birthDate == birthDate && c.hireDate == hireDate
  {
    PatchEmployeeCommand(id, firstName, lastName, gender, birthDate, hireDate)
  }

  /** The API's `Patch.Request`: the five optional fields of a partial update, without the id. */
  datatype Request = Request(
    firstName: Option<string>,
    lastName: Option<string>,
    gender: Option<string>,
    birthDate: Option<int>,
    hireDate: Option<int>)
  {
    /** `Request.HasAnyUpdates`. */
    predicate HasAnyUpdates()
    {
      firstName.Some? || lastName.Some? || gender.Some? || birthDate.Some? || hireDate.Some?
    }

    /** `Request.ToMediator(id)`. */
    function ToMediator(id: int): (c: PatchEmployeeCommand)
      ensures c.id == id
      ensures c.firstName == firstName && c.lastName == lastName && c.gender == gender
      ensures c.birthDate == birthDate && c.hireDate == hireDate
    {
      CreateCommand(id, firstName, lastName, gender, birthDate, hireDate)
    }
  }

  /** A request as the parameterless constructor leaves it: every field null. */
  const EmptyRequest: Request := Request(None, None, None, None, None)

  /** The `[StringLength]` limits the request declares: a null value is within any limit. */
  predicate WithinLength(s: Option<string>, max: nat)
  {
    s.None? || |s.value| <= max
  }

  /**
   * The messages of the `[StringLength]` annotations that a request breaks,
   * in declaration order.
   */
  function AnnotationErrors(r: Request): (errs: seq<string>)
    ensures errs == [] <==> WithinLength(r.firstName, 100) && WithinLength(r.lastName, 100) && WithinLength(r.gender, 10)
    ensures "Gender cannot exceed 10 characters" in errs <==> !WithinLength(r.gender, 10)
    ensures "First name cannot exceed 100 characters" in errs <==> !WithinLength(r.firstName, 100)
    ensures "Last name cannot exceed 100 characters" in errs <==> !WithinLength(r.lastName, 100)
  {
    (if WithinLength(r.firstName, 100) then [] else ["First name cannot exceed 100 characters"])
    + (if WithinLength(r.lastName, 100) then [] else ["Last name cannot exceed 100 characters"])
    + (if WithinLength(r.gender, 10) then [] else ["Gender cannot exceed 10 characters"])
  }

  /** `AddEmployeeCommand`: the fields of a new employee (the names may arrive null). */
  datatype AddEmployeeCommand = AddEmployeeCommand(
    firstName: Option<string>,
    lastName: Option<string>,
    gender: Option<string>,
    birthDate: int,
    hireDate: int)

  /** `UpdateEmployeeCommand`: a full replacement of an employee's fields. */
  datatype UpdateEmployeeCommand = UpdateEmployeeCommand(
    id: int,
    firstName: Option<string>,
    lastName: Option<string>,
    gender: Option<string>,
    birthDate: int,
    hireDate: int)

  // ---------------------------------------------------------------------
  // Properties
  // ---------------------------------------------------------------------

  /** `HasAnyUpdates` holds exactly when at least one of the five fields is given. */
  lemma HasAnyUpdatesMeansSomeField(c: PatchEmployeeCommand)
    ensures c.HasAnyUpdates() <==> !(c.firstName == None && c.lastName == None && c.gender == None
                                     && c.birthDate == None && c.hireDate == None)
  {
  }

  /** `HasAnyUpdates` does not look at the id. */
  lemma HasAnyUpdatesIgnoresId(c: PatchEmployeeCommand, id: int)
    ensures c.(id := id).HasAnyUpdates() == c.HasAnyUpdates()
  {
  }

  /** An empty or all-white-space value is still an update: only null is excluded. */
  lemma BlankIsAnUpdate(c: PatchEmployeeCommand, s: string)
    requires IsBlank(s)
    ensures c.(firstName := Some(s)).HasAnyUpdates()
    ensures c.(lastName := Some(s)).HasAnyUpdates()
    ensures c.(gender := Some(s)).HasAnyUpdates()
  {
  }

  /** The request and the command it becomes agree on whether there is anything to update. */
  lemma ToMediatorKeepsHasAnyUpdates(r: Request, id: int)
    ensures r.ToMediator(id).HasAnyUpdates() == r.HasAnyUpdates()
  {
  }

  /** A freshly constructed request carries no update and breaks no length limit. */
  lemma EmptyRequestHasNoUpdates()
    ensures !EmptyRequest.HasAnyUpdates()
    ensures AnnotationErrors(EmptyRequest) == []
  {
  }
}
