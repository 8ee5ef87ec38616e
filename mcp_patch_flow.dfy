/**
 * An `employee.patch` request followed all the way through: the router, the
 * MCP handler's guards, the mediator's validation behaviour with the patch
 * rule set, the command handler and the write store.
 */
module McpPatchFlow {
  import opened Common
  import opened Framework
  import opened EmployeeCommands
  import opened EmployeeValidators
  import opened EmployeeStore
  import Mediator
  import opened Mcp

  /** `PatchEmployeeCommandValidator` as the behaviour sees it: every failure non-null. */
  function PatchValidator(cal: Calendar): Mediator.Validator<PatchEmployeeCommand>
  {
    c => AsReported(PatchRules(cal, c))
  }

  /** Failures as a validator's `Errors` list holds them. */
  function AsReported(fs: seq<ValidationFailure>): (r: seq<Option<ValidationFailure>>)
    ensures |r| == |fs|
    ensures forall i :: 0 <= i < |fs| ==> r[i] == Some(fs[i])
  {
    seq(|fs|, i requires 0 <= i < |fs| => Some(fs[i]))
  }

  /** Dropping the nulls of a list with none gives the failures back. */
  lemma {:induction false} NonNullOfReported(fs: seq<ValidationFailure>)
    ensures Mediator.NonNull(AsReported(fs)) == fs
    decreases |fs|
  {
    if fs != [] {
      assert AsReported(fs)[1..] == AsReported(fs[1..]);
      NonNullOfReported(fs[1..]);
    }
  }

  /** With the patch validator the only one registered, the behaviour collects exactly the patch rules' failures. */
  lemma CollectsPatchRules(cal: Calendar, c: PatchEmployeeCommand)
    ensures Mediator.CollectFailures(c, [PatchValidator(cal)]) == PatchRules(cal, c)
  {
    var fs := PatchRules(cal, c);
    var vs := [PatchValidator(cal)];
    NonNullOfReported(fs);
    assert vs[0](c) == AsReported(fs);
    assert vs[1..] == [];
    assert Mediator.CollectFailures(c, vs) == Mediator.NonNull(vs[0](c)) + Mediator.CollectFailures(c, vs[1..]);
  }

  /** The response a patch that the validation behaviour rejects receives. */
  const UnexpectedError := McpError("INTERNAL_ERROR", "An unexpected error occurred", None)

  /**
   * What the `employee.patch` handler should come to, given the ids the store
   * holds: a guard's exception, the validation behaviour's exception, the
   * command handler's not-found exception, or the success message.
   */
  function PatchOutcome(cal: Calendar, params: PatchParams, stored: set<int>): (r: HandlerOutcome<string>)
    ensures !r.Unresolved?
    ensures EmployeePatchHandle(params).Reject? ==> r == Raised(EmployeePatchHandle(params).exception)
    ensures EmployeePatchHandle(params).Send? && PatchRules(cal, EmployeePatchHandle(params).command) != [] ==>
              r == Raised(ValidationException(Mediator.Distinct(PatchRules(cal, EmployeePatchHandle(params).command))))
    ensures EmployeePatchHandle(params).Send? && PatchRules(cal, EmployeePatchHandle(params).command) == [] ==>
              var c := EmployeePatchHandle(params).command;
              r == if c.id in stored then Returned(Some(PatchedMessage)) else Raised(KeyNotFoundException(NotFoundMessage(c.id)))
  {
    match EmployeePatchHandle(params)
    case Reject(e) => Raised(e)
    case Send(c) =>
      CollectsPatchRules(cal, c);
      match Mediator.ValidationGate(c, [PatchValidator(cal)])
      case Some(e) => Raised(e)
      case None => if c.id in stored then Returned(Some(PatchedMessage)) else Raised(KeyNotFoundException(NotFoundMessage(c.id)))
  }

  /** The router's view of the patch handler, for a store holding `stored`. */
  function PatchBehaviour(cal: Calendar, stored: set<int>): (HandlerKind, PatchParams) -> HandlerOutcome<string>
  {
    (kind, p) => PatchOutcome(cal, p, stored)
  }

  /**
   * What the `employee.patch` handler does once resolved: its guards, then the
   * mediator (validation behaviour, then the command handler on `store`).
   */
  method HandlePatch(store: EmployeeWriteRepository, cal: Calendar, params: PatchParams)
    returns (outcome: HandlerOutcome<string>)
    requires store.Valid()
    modifies store
    ensures store.Valid() && store.nextId == old(store.nextId)
    ensures outcome == PatchOutcome(cal, params, old(store.records).Keys)
    ensures outcome.Returned? <==> EmployeePatchHandle(params).Send?
                                   && PatchRules(cal, EmployeePatchHandle(params).command) == []
                                   && EmployeePatchHandle(params).command.id in old(store.records)
    ensures !outcome.Returned? ==> store.records == old(store.records) && store.commits == old(store.commits)
    ensures outcome.Returned? ==>
              var c := EmployeePatchHandle(params).command;
              && outcome.value == Some(PatchedMessage)
              && store.records == old(store.records)[c.id := ApplyPatch(old(store.records)[c.id], c.firstName, c.lastName, c.gender, c.birthDate, c.hireDate)]
              && store.commits == old(store.commits) + 1
  {
    match EmployeePatchHandle(params)
    case Reject(e) =>
      outcome := Raised(e);
    case Send(command) =>
      CollectsPatchRules(cal, command);
      var gate := Mediator.ValidationGate(command, [PatchValidator(cal)]);
      if gate.Some? {
        outcome := Raised(gate.value);
      } else {
        var handler := new PatchEmployeeCommandHandler(store);
        var completion := handler.Handle(command);
        outcome := if completion.Done? then Returned(Some(PatchedMessage)) else Raised(completion.exception);
      }
  }

  /**
   * An MCP request served against `store`. Methods other than
   * `employee.patch` go to `others`, which stands for the remaining
   * handlers and does not touch the store.
   */
  method ServeRequest(
    store: EmployeeWriteRepository,
    cal: Calendar,
    request: McpRequest<PatchParams>,
    others: (HandlerKind, PatchParams) -> HandlerOutcome<string>)
    returns (response: McpResponse<string>)
    requires store.Valid()
    modifies store
    ensures store.Valid() && store.nextId == old(store.nextId)
    ensures response.id == request.id && WellFormed(response)
    ensures (IsNullOrWhiteSpace(request.methodName) || Lookup(request.methodName.value) != Some(Patch)) ==>
              response == Route(request, others) && store.records == old(store.records) && store.commits == old(store.commits)
    ensures !IsNullOrWhiteSpace(request.methodName) && Lookup(request.methodName.value) == Some(Patch) ==>
              response == Route(request, PatchBehaviour(cal, old(store.records).Keys))
    ensures !response.success ==> store.records == old(store.records) && store.commits == old(store.commits)
    ensures !IsNullOrWhiteSpace(request.methodName) && Lookup(request.methodName.value) == Some(Patch) ==>
              match EmployeePatchHandle(request.params)
              case Reject(e) => response.error == Some(ErrorFor(e))
              case Send(c) =>
                && (PatchRules(cal, c) != [] ==> response.error == Some(UnexpectedError))
                && (PatchRules(cal, c) == [] && c.id !in old(store.records) ==>
                      response.error == Some(McpError("NOT_FOUND", NotFoundMessage(c.id), None)))
    ensures response.success && Lookup(request.methodName.value) == Some(Patch) ==>
              EmployeePatchHandle(request.params).Send? &&
              var c := EmployeePatchHandle(request.params).command;
              && PatchRules(cal, c) == []
              && c.id in old(store.records)
              && store.records == old(store.records)[c.id := ApplyPatch(old(store.records)[c.id], c.firstName, c.lastName, c.gender, c.birthDate, c.hireDate)]
              && store.commits == old(store.commits) + 1
              && response.result == Some(PatchedMessage)
  {
    if IsNullOrWhiteSpace(request.methodName) || Lookup(request.methodName.value) != Some(Patch) {
      response := Route(request, others);
      return;
    }
    ghost var stored := store.records.Keys;
    var outcome := HandlePatch(store, cal, request.params);
    var behaviour: (HandlerKind, PatchParams) -> HandlerOutcome<string> := (kind, p) => outcome;
    response := Route(request, behaviour);
    assert behaviour(Patch, request.params) == PatchBehaviour(cal, stored)(Patch, request.params);
    assert response == Route(request, PatchBehaviour(cal, stored));
    RouteSucceedsOnlyThroughHandler(request, behaviour);
    match EmployeePatchHandle(request.params)
    case Reject(e) =>
    case Send(c) =>
      if PatchRules(cal, c) != [] {
        RejectedPatchIsInternalError(cal, request, stored);
      }
  }

  /**
   * A patch request that breaks the patch rules is turned away by the
   * validation behaviour, and since a validation exception is not an
   * argument exception the client sees INTERNAL_ERROR, not VALIDATION_ERROR,
   * whatever the store holds.
   */
  lemma RejectedPatchIsInternalError(cal: Calendar, request: McpRequest<PatchParams>, stored: set<int>)
    requires !IsNullOrWhiteSpace(request.methodName) && Lookup(request.methodName.value) == Some(Patch)
    requires EmployeePatchHandle(request.params).Send?
    requires PatchRules(cal, EmployeePatchHandle(request.params).command) != []
    ensures Route(request, PatchBehaviour(cal, stored)) == CreateError("INTERNAL_ERROR", "An unexpected error occurred", request.id)
  {
    var c := EmployeePatchHandle(request.params).command;
    var e := ValidationException(Mediator.Distinct(PatchRules(cal, c)));
    assert PatchBehaviour(cal, stored)(Patch, request.params) == Raised(e);
    assert ErrorFor(e) == UnexpectedError;
  }

  /**
   * Nothing keeps a stored employee's hire date after the birth date: the
   * patch rules only compare dates given in the same command, so a
   * birth-date-only patch can move the birth date past the stored hire date.
   */
  lemma PatchCanInvertStoredDates()
    ensures var cal := Calendar(1000, (d, n) => d + 365 * n);
            var stored := EmployeeModel(1, "Ada", "Lovelace", "Female", 100, 300);
            var c := PatchEmployeeCommand(1, None, None, None, Some(500), None);
            && PatchRules(cal, c) == []
            && stored.birthDate < stored.hireDate
            && ApplyPatch(stored, c.firstName, c.lastName, c.gender, c.birthDate, c.hireDate).hireDate
               < ApplyPatch(stored, c.firstName, c.lastName, c.gender, c.birthDate, c.hireDate).birthDate
  {
    var cal := Calendar(1000, (d, n) => d + 365 * n);
    var c := PatchEmployeeCommand(1, None, None, None, Some(500), None);
    assert PatchAccepts(cal, c);
  }
}
