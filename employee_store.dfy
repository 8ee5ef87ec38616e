/**
 * The write side of the employee store (`EmployeeWriteRepository`) and the
 * handler that drives its partial update (`PatchEmployeeCommandHandler`).
 * The database is a map from id to record; `SaveChangesAsync` is counted in
 * `commits`; the identity column is the counter `nextId`.
 */
module EmployeeStore {
  import opened Common
  import opened Framework
  import opened EmployeeCommands

  /**
   * The record a partial update leaves: each given field replaces the stored
   * one, each null field keeps it; the id never changes.
   */
  function ApplyPatch(
    e: EmployeeModel,
    firstName: Option<string>,
    lastName: Option<string>,
    gender: Option<string>,
    birthDate: Option<int>,
    hireDate: Option<int>): (r: EmployeeModel)
    ensures r.id == e.id
    ensures firstName.Some? ==> r.firstName == firstName.value
    ensures firstName.None? ==> r.firstName == e.firstName
    ensures lastName.Some? ==> r.lastName == lastName.value
    ensures lastName.None? ==> r.lastName == e.lastName
    ensures gender.Some? ==> r.gender == gender.value
    ensures gender.None? ==> r.gender == e.gender
    ensures birthDate.Some? ==> r.birthDate == birthDate.value
    ensures birthDate.None? ==> r.birthDate == e.birthDate
    ensures hireDate.Some? ==> r.hireDate == hireDate.value
    ensures hireDate.None? ==> r.hireDate == e.hireDate
  {
    var e1 := if firstName.Some? then e.(firstName := firstName.value) else e;
    var e2 := if lastName.Some? then e1.(lastName := lastName.value) else e1;
    var e3 := if gender.Some? then e2.(gender := gender.value) else e2;
    var e4 := if birthDate.Some? then e3.(birthDate := birthDate.value) else e3;
    if hireDate.Some? then e4.(hireDate := hireDate.value) else e4
  }

  /** The record a full update leaves: every field but the id comes from `model`. */
  function ApplyUpdate(e: EmployeeModel, model: EmployeeModel): (r: EmployeeModel)
    ensures r.id == e.id
    ensures r.firstName == model.firstName && r.lastName == model.lastName && r.gender == model.gender
    ensures r.birthDate == model.birthDate && r.hireDate == model.hireDate
  {
    model.(id := e.id)
  }

  /** The message of the not-found exception, for the repository and the handler alike. */
  function NotFoundMessage(id: int): string
  {
    "Employee with ID " + IntToString(id) + " not found."
  }

  class EmployeeWriteRepository {
    /** The stored employees by id. */
    var records: map<int, EmployeeModel>
    /** The id the database will give the next new employee. */
    var nextId: int
    /** How many times `SaveChangesAsync` has committed. */
    var commits: nat

    /** Every record is filed under its own id, and every id was handed out already. */
    predicate Valid()
      reads this
    {
      nextId >= 1 && forall id :: id in records ==> records[id].id == id && 1 <= id < nextId
    }

    /** An empty store. */
    constructor()
      ensures Valid()
      ensures records == map[] && nextId == 1 && commits == 0
    {
      records := map[];
      nextId := 1;
      commits := 0;
    }

    /**
     * `AddAsync`: inserts a record with the model's five fields under the next
     * identity value (the model's own id is ignored), then commits.
     */
    method AddAsync(employee: EmployeeModel)
      requires Valid()
      modifies this
      ensures Valid()
      ensures old(nextId) !in old(records)
      ensures records == old(records)[old(nextId) := employee.(id := old(nextId))]
      ensures nextId == old(nextId) + 1
      ensures commits == old(commits) + 1
    {
      var entity := EmployeeModel(nextId, employee.firstName, employee.lastName, employee.gender,
                                  employee.birthDate, employee.hireDate);
      records := records[nextId := entity];
      nextId := nextId + 1;
      commits := commits + 1;
    }

    /**
     * `UpdateAsync`: replaces the five fields of the record with the model's id,
     * or throws `KeyNotFoundException` and changes nothing when there is none.
     */
    method UpdateAsync(employee: EmployeeModel) returns (r: Completion)
      requires Valid()
      modifies this
      ensures Valid()
      ensures r == Done <==> employee.id in old(records)
      ensures r.Threw? ==> r.exception == KeyNotFoundException(NotFoundMessage(employee.id))
      ensures r.Threw? ==> records == old(records) && nextId == old(nextId) && commits == old(commits)
      ensures r == Done ==> records == old(records)[employee.id := ApplyUpdate(old(records)[employee.id], employee)]
      ensures r == Done ==> nextId == old(nextId) && commits == old(commits) + 1
    {
      if employee.id !in records {
        return Threw(KeyNotFoundException(NotFoundMessage(employee.id)));
      }
      var existing := records[employee.id];
      existing := existing.(firstName := employee.firstName);
      existing := existing.(lastName := employee.lastName);
      existing := existing.(gender := employee.gender);
      existing := existing.(birthDate := employee.birthDate);
      existing := existing.(hireDate := employee.hireDate);
      records := records[employee.id := existing];
      commits := commits + 1;
      return Done;
    }

    /**
     * `PatchAsync`: `false`, and nothing changed or committed, when no record
     * has the id; otherwise the given fields overwrite the stored ones, one
     * commit follows, and the answer is `true`.
     */
    method PatchAsync(
      id: int,
      firstName: Option<string>,
      lastName: Option<string>,
      gender: Option<string>,
      birthDate: Option<int>,
      hireDate: Option<int>) returns (found: bool)
      requires Valid()
      modifies this
      ensures Valid()
      ensures found <==> id in old(records)
      ensures !found ==> records == old(records) && nextId == old(nextId) && commits == old(commits)
      ensures found ==> records == old(records)[id := ApplyPatch(old(records)[id], firstName, lastName, gender, birthDate, hireDate)]
      ensures found ==> nextId == old(nextId) && commits == old(commits) + 1
    {
      if id !in records {
        return false;
      }
      var existing := records[id];
      if firstName.Some? {
        existing := existing.(firstName := firstName.value);
      }
      if lastName.Some? {
        existing := existing.(lastName := lastName.value);
      }
      if gender.Some? {
        existing := existing.(gender := gender.value);
      }
      if birthDate.Some? {
        existing := existing.(birthDate := birthDate.value);
      }
      if hireDate.Some? {
        existing := existing.(hireDate := hireDate.value);
      }
      records := records[id := existing];
      commits := commits + 1;
      return true;
    }
  }

  /** `PatchEmployeeCommandHandler`: forwards a patch command to the store once. */
  class PatchEmployeeCommandHandler {
    const repository: EmployeeWriteRepository

    constructor(repository: EmployeeWriteRepository)
      ensures this.repository == repository
    {
      this.repository := repository;
    }

    /**
     * `Handle`: one `PatchAsync` with the command's id and five fields; a
     * `false` becomes `KeyNotFoundException`, a `true` completes with nothing
     * further done.
     */
    method Handle(request: PatchEmployeeCommand) returns (r: Completion)
      requires repository.Valid()
      modifies repository
      ensures repository.Valid()
      ensures r == Done <==> request.id in old(repository.records)
      ensures r.Threw? ==> r.exception == KeyNotFoundException(NotFoundMessage(request.id))
      ensures r.Threw? ==> repository.records == old(repository.records) && repository.commits == old(repository.commits)
      ensures r == Done ==> repository.records == old(repository.records)[request.id :=
                ApplyPatch(old(repository.records)[request.id], request.firstName, request.lastName,
                           request.gender, request.birthDate, request.hireDate)]
      ensures r == Done ==> repository.commits == old(repository.commits) + 1
      ensures repository.nextId == old(repository.nextId)
    {
      var wasUpdated := repository.PatchAsync(request.id, request.firstName, request.lastName,
                                              request.gender, request.birthDate, request.hireDate);
      if !wasUpdated {
        return Threw(KeyNotFoundException(NotFoundMessage(request.id)));
      }
      return Done;
    }
  }

  /** The handler's constructor, which throws `ArgumentNullException` for a null repository. */
  method NewPatchEmployeeCommandHandler(repository: EmployeeWriteRepository?) returns (r: Result<PatchEmployeeCommandHandler>)
    ensures r.Fail? <==> repository == null
    ensures r.Fail? ==> r.error == ArgumentNullException("employeeRepository")
    ensures r.Ok? ==> fresh(r.value) && r.value.repository == repository
  {
    if repository == null {
      return Fail(ArgumentNullException("employeeRepository"));
    }
    var handler := new PatchEmployeeCommandHandler(repository);
    return Ok(handler);
  }

  // ---------------------------------------------------------------------
  // Properties of the updates
  // ---------------------------------------------------------------------

  /** Applying the same partial update twice leaves the same record as applying it once. */
  lemma ApplyPatchIdempotent(
    e: EmployeeModel, firstName: Option<string>, lastName: Option<string>, gender: Option<string>,
    birthDate: Option<int>, hireDate: Option<int>)
    ensures var once := ApplyPatch(e, firstName, lastName, gender, birthDate, hireDate);
            ApplyPatch(once, firstName, lastName, gender, birthDate, hireDate) == once
  {
  }

  /** A partial update with every field null leaves the record as it was. */
  lemma EmptyPatchChangesNothing(e: EmployeeModel)
    ensures ApplyPatch(e, None, None, None, None, None) == e
  {
  }

  /** A partial update that gives every field is the full update with the same values. */
  lemma FullPatchIsUpdate(e: EmployeeModel, model: EmployeeModel)
    ensures ApplyPatch(e, Some(model.firstName), Some(model.lastName), Some(model.gender),
                       Some(model.birthDate), Some(model.hireDate)) == ApplyUpdate(e, model)
  {
  }

  /** Two partial updates in a row are one partial update in which the later value of a field wins. */
  lemma ApplyPatchComposes(
    e: EmployeeModel,
    f1: Option<string>, l1: Option<string>, g1: Option<string>, b1: Option<int>, h1: Option<int>,
    f2: Option<string>, l2: Option<string>, g2: Option<string>, b2: Option<int>, h2: Option<int>)
    ensures ApplyPatch(ApplyPatch(e, f1, l1, g1, b1, h1), f2, l2, g2, b2, h2)
            == ApplyPatch(e, Later(f1, f2), Later(l1, l2), Later(g1, g2), Later(b1, b2), Later(h1, h2))
  {
  }

  /** The later of two optional values: the second when given, else the first. */
  function Later<T>(first: Option<T>, second: Option<T>): (r: Option<T>)
    ensures r.None? <==> first.None? && second.None?
    ensures second.Some? ==> r == second
    ensures second.None? ==> r == first
  {
    if second.Some? then second else first
  }
}
