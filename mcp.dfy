/**
 * The JSON-RPC style entry point: the response envelope (`McpResponse`,
 * `McpError`), the router that looks a method name up in a fixed registry
 * and turns every handler outcome into an envelope (`McpRequestRouter`), and
 * the guards of the `employee.patch` handler (`EmployeePatchHandler`).
 */
module Mcp {
  import opened Common
  import opened Framework
  import opened EmployeeCommands

  // ---------------------------------------------------------------------
  // McpResponse
  // ---------------------------------------------------------------------

  /** `McpError`. The factories never set `Details`. */
  datatype McpError = McpError(code: string, message: string, details: Option<string>)

  /** `McpResponse`, with the result type left open. */
  datatype McpResponse<R> = McpResponse(success: bool, result: Option<R>, error: Option<McpError>, id: Option<string>)

  /** `McpResponse.CreateSuccess`. */
  function CreateSuccess<R>(result: Option<R>, id: Option<string>): (r: McpResponse<R>)
    ensures r.success && r.error.None?
    ensures r.result == result && r.id == id
  {
    McpResponse(true, result, None, id)
  }

  /** `McpResponse.CreateError`. */
  function CreateError<R>(code: string, message: string, id: Option<string>): (r: McpResponse<R>)
    ensures !r.success && r.result.None?
    ensures r.error == Some(McpError(code, message, None))
    ensures r.id == id
  {
    McpResponse(false, None, Some(McpError(code, message, None)), id)
  }

  /** A response is a success exactly when it carries no error. */
  predicate WellFormed<R>(r: McpResponse<R>)
  {
    r.success <==> r.error.None?
  }

  /** Both factories build well-formed responses, and the id is whatever the caller passed (null by default). */
  lemma FactoriesAreWellFormed<R>(result: Option<R>, code: string, message: string, id: Option<string>)
    ensures WellFormed(CreateSuccess(result, id)) && WellFormed(CreateError<R>(code, message, id))
    ensures CreateSuccess<R>(None, None).id == None && CreateError<R>(code, message, None).id == None
  {
  }

  // ---------------------------------------------------------------------
  // McpRequestRouter
  // ---------------------------------------------------------------------

  /** `McpRequest`; `methodName` is `Method`, `None` when the JSON carried null. */
  datatype McpRequest<P> = McpRequest(methodName: Option<string>, params: P, id: Option<string>)

  /** The four handler classes the registry names. */
  datatype HandlerKind = GetAll | Add | Update | Patch

  /** The registry's keys, in insertion order. */
  const MethodNames: seq<string> := ["employee.getAll", "employee.add", "employee.update", "employee.patch"]

  /** The handler each key maps to, position for position. */
  const MethodKinds: seq<HandlerKind> := [GetAll, Add, Update, Patch]

  /** The registry lookup, with the case-insensitive key comparer. */
  function Lookup(name: string): (r: Option<HandlerKind>)
    ensures r.Some? <==> exists i :: 0 <= i < |MethodNames| && EqualsIgnoreCase(MethodNames[i], name)
    ensures forall i :: 0 <= i < |MethodNames| && EqualsIgnoreCase(MethodNames[i], name) ==> r == Some(MethodKinds[i])
  {
    NamesDifferIgnoringCase();
    if EqualsIgnoreCase(MethodNames[0], name) then Some(GetAll)
    else if EqualsIgnoreCase(MethodNames[1], name) then Some(Add)
    else if EqualsIgnoreCase(MethodNames[2], name) then Some(Update)
    else if EqualsIgnoreCase(MethodNames[3], name) then Some(Patch)
    else None
  }

  /** No two registered names are equal ignoring case, so a name finds at most one handler. */
  lemma NamesDifferIgnoringCase()
    ensures forall i, j :: 0 <= i < j < |MethodNames| ==> ToLowerInvariant(MethodNames[i]) != ToLowerInvariant(MethodNames[j])
  {
    assert ToLowerInvariant(MethodNames[0])[9] == 'g';
    assert ToLowerInvariant(MethodNames[2])[9] == 'u';
  }

  /** The registry's keys joined for the error text. */
  const AvailableMethods: string := MethodNames[0] + ", " + MethodNames[1] + ", " + MethodNames[2] + ", " + MethodNames[3]

  lemma AvailableMethodsIsJoin()
    ensures AvailableMethods == Join(", ", MethodNames)
  {
    var n := MethodNames;
    assert n[1..][1..] == n[2..] && n[2..][1..] == n[3..];
    assert Join(", ", n[3..]) == n[3];
  }

  /** Each registered name occurs in the joined list. */
  lemma AvailableMethodsNamesEach()
    ensures forall i :: 0 <= i < |MethodNames| ==> Contains(AvailableMethods, MethodNames[i])
  {
    var n := MethodNames;
    var all := AvailableMethods;
    ContainsMiddle([], n[0], ", " + n[1] + ", " + n[2] + ", " + n[3]);
    assert all == [] + n[0] + (", " + n[1] + ", " + n[2] + ", " + n[3]);
    ContainsMiddle(n[0] + ", ", n[1], ", " + n[2] + ", " + n[3]);
    assert all == n[0] + ", " + n[1] + (", " + n[2] + ", " + n[3]);
    ContainsMiddle(n[0] + ", " + n[1] + ", ", n[2], ", " + n[3]);
    assert all == n[0] + ", " + n[1] + ", " + n[2] + (", " + n[3]);
    ContainsMiddle(n[0] + ", " + n[1] + ", " + n[2] + ", ", n[3], []);
    assert all == n[0] + ", " + n[1] + ", " + n[2] + ", " + n[3] + [];
  }

  /** Text around a piece keeps the piece. */
  lemma ContainsWithin(s: string, sub: string, a: string, b: string)
    requires Contains(s, sub)
    ensures Contains(a + s + b, sub)
  {
    var i :| 0 <= i <= |s| - |sub| && OccursAt(s, sub, i);
    var t := a + s + b;
    assert t[|a| + i..|a| + i + |sub|] == s[i..i + |sub|];
    assert OccursAt(t, sub, |a| + i);
  }

  /** The METHOD_NOT_FOUND message. */
  function NotSupportedMessage(name: string): string
  {
    "Method '" + name + "' is not supported. Available methods: " + AvailableMethods
  }

  /** How the registered handler behaved: it could not be resolved, it returned a value, or it threw. */
  datatype HandlerOutcome<R> = Unresolved | Returned(value: Option<R>) | Raised(exception: Exception)

  /** The catch clauses, in order: the error code and message for an exception a handler threw. */
  function ErrorFor(e: Exception): (err: McpError)
    ensures err.details.None?
    ensures e.JsonException? ==> err.code == "INVALID_PARAMS" && err.message == "Invalid parameter format: " + e.message
    ensures e.IsArgumentException() ==> err.code == "VALIDATION_ERROR" && err.message == e.Message()
    ensures e.KeyNotFoundException? ==> err.code == "NOT_FOUND" && err.message == e.message
    ensures !(e.JsonException? || e.IsArgumentException() || e.KeyNotFoundException?) ==>
              err.code == "INTERNAL_ERROR" && err.message == "An unexpected error occurred"
  {
    match e
    case JsonException(m) => McpError("INVALID_PARAMS", "Invalid parameter format: " + m, None)
    case ArgumentException(_) => McpError("VALIDATION_ERROR", e.Message(), None)
    case ArgumentNullException(_) => McpError("VALIDATION_ERROR", e.Message(), None)
    case KeyNotFoundException(m) => McpError("NOT_FOUND", m, None)
    case _ => McpError("INTERNAL_ERROR", "An unexpected error occurred", None)
  }

  /**
   * `RouteRequestAsync`: a blank method, an unknown method, an unresolved
   * handler and every exception become error envelopes; a handler's value
   * becomes a success envelope. `behaviour` is what the resolved handler
   * does with the parameters.
   */
  function Route<P, R>(request: McpRequest<P>, behaviour: (HandlerKind, P) -> HandlerOutcome<R>): (r: McpResponse<R>)
    ensures r.id == request.id
    ensures WellFormed(r)
  {
    if IsNullOrWhiteSpace(request.methodName) then CreateError("INVALID_METHOD", "Method name is required", request.id)
    else
      match Lookup(request.methodName.value)
      case None => CreateError("METHOD_NOT_FOUND", NotSupportedMessage(request.methodName.value), request.id)
      case Some(kind) =>
        match behaviour(kind, request.params)
        case Unresolved => CreateError("INTERNAL_ERROR", "Handler not available for this method", request.id)
        case Returned(v) => CreateSuccess(v, request.id)
        case Raised(e) =>
          var err := ErrorFor(e);
          CreateError(err.code, err.message, request.id)
  }

  /** A registered method is the only way to a success, and then the result is the handler's. */
  lemma RouteSucceedsOnlyThroughHandler<P, R>(request: McpRequest<P>, behaviour: (HandlerKind, P) -> HandlerOutcome<R>)
    ensures var r := Route(request, behaviour);
            r.success <==> !IsNullOrWhiteSpace(request.methodName) && Lookup(request.methodName.value).Some?
                           && behaviour(Lookup(request.methodName.value).value, request.params).Returned?
    ensures var r := Route(request, behaviour);
            r.success ==> r.result == behaviour(Lookup(request.methodName.value).value, request.params).value
  {
  }

  /** The three refusals that happen before any handler runs. */
  lemma RouteRefusals<P, R>(request: McpRequest<P>, behaviour: (HandlerKind, P) -> HandlerOutcome<R>)
    ensures IsNullOrWhiteSpace(request.methodName) ==>
              Route(request, behaviour) == CreateError("INVALID_METHOD", "Method name is required", request.id)
    ensures !IsNullOrWhiteSpace(request.methodName) && Lookup(request.methodName.value).None? ==>
              Route(request, behaviour) == CreateError("METHOD_NOT_FOUND", NotSupportedMessage(request.methodName.value), request.id)
    ensures !IsNullOrWhiteSpace(request.methodName) && Lookup(request.methodName.value).Some?
            && behaviour(Lookup(request.methodName.value).value, request.params).Unresolved? ==>
              Route(request, behaviour) == CreateError("INTERNAL_ERROR", "Handler not available for this method", request.id)
  {
  }

  /** A handler's exception yields the envelope its catch clause builds. */
  lemma RouteMapsExceptions<P, R>(request: McpRequest<P>, behaviour: (HandlerKind, P) -> HandlerOutcome<R>, e: Exception)
    requires !IsNullOrWhiteSpace(request.methodName) && Lookup(request.methodName.value).Some?
    requires behaviour(Lookup(request.methodName.value).value, request.params) == Raised(e)
    ensures Route(request, behaviour).error == Some(ErrorFor(e))
    ensures !Route(request, behaviour).success
  {
  }

  /** Every error the router reports carries one of its six codes. */
  lemma RouteErrorCodes<P, R>(request: McpRequest<P>, behaviour: (HandlerKind, P) -> HandlerOutcome<R>)
    ensures var r := Route(request, behaviour);
            r.error.Some? ==>
              r.error.value.code in {"INVALID_METHOD", "METHOD_NOT_FOUND", "INTERNAL_ERROR", "INVALID_PARAMS", "VALIDATION_ERROR", "NOT_FOUND"}
  {
  }

  /** The METHOD_NOT_FOUND message names the requested method and every registered one. */
  lemma NotSupportedMessageNamesMethods(name: string)
    ensures Contains(NotSupportedMessage(name), name)
    ensures forall i :: 0 <= i < |MethodNames| ==> Contains(NotSupportedMessage(name), MethodNames[i])
  {
    var head := "Method '";
    var mid := "' is not supported. Available methods: ";
    ContainsMiddle(head, name, mid + AvailableMethods);
    assert NotSupportedMessage(name) == head + name + (mid + AvailableMethods);
    AvailableMethodsNamesEach();
    forall i | 0 <= i < |MethodNames|
      ensures Contains(NotSupportedMessage(name), MethodNames[i])
    {
      ContainsWithin(AvailableMethods, MethodNames[i], head + name + mid, "");
      assert head + name + mid + AvailableMethods + "" == NotSupportedMessage(name);
    }
  }

  /** Method names match whatever their case. */
  lemma LookupIgnoresCase(name: string)
    ensures Lookup(name) == Lookup(ToLowerInvariant(name))
    ensures Lookup("EMPLOYEE.PATCH") == Some(Patch) && Lookup("employee.getall") == Some(GetAll)
  {
    forall i | 0 <= i < |MethodNames|
      ensures EqualsIgnoreCase(MethodNames[i], ToLowerInvariant(name)) == EqualsIgnoreCase(MethodNames[i], name)
    {
      EqualsIgnoreCaseOfLower(MethodNames[i], name);
    }
    assert EqualsIgnoreCase(MethodNames[3], "EMPLOYEE.PATCH");
    assert EqualsIgnoreCase(MethodNames[0], "employee.getall");
  }

  // ---------------------------------------------------------------------
  // EmployeePatchHandler
  // ---------------------------------------------------------------------

  /** The private `PatchRequest` record the parameters deserialise into; `request` may be null. */
  datatype PatchRequestDto = PatchRequestDto(id: int, request: Option<Request>)

  /** The handler's parameters: null, not readable as a `PatchRequest`, or read (possibly as JSON null). */
  datatype PatchParams = NullParams | Unreadable(jsonError: string) | Read(dto: Option<PatchRequestDto>)

  /** What the handler does: throw, or send one command to the mediator. */
  datatype PatchStep = Reject(exception: Exception) | Send(command: PatchEmployeeCommand)

  /** The handler's value once the command has been handled. */
  const PatchedMessage: string := "Employee patched successfully"

  /** The guards of `EmployeePatchHandler.HandleAsync`, in order, then the one send. */
  function EmployeePatchHandle(p: PatchParams): (r: PatchStep)
    ensures p.NullParams? ==> r == Reject(ArgumentException("Parameters are required for employee.patch"))
    ensures p.Unreadable? ==> r == Reject(JsonException(p.jsonError))
    ensures p.Read? && (p.dto.None? || p.dto.value.id <= 0) ==>
              r == Reject(ArgumentException("Invalid parameters for employee.patch. Id is required."))
    ensures p.Read? && p.dto.Some? && p.dto.value.id > 0 && p.dto.value.request.None? ==> r == Reject(NullReferenceException)
    ensures p.Read? && p.dto.Some? && p.dto.value.id > 0 && p.dto.value.request.Some?
            && !p.dto.value.request.value.HasAnyUpdates() ==>
              r == Reject(ArgumentException("At least one field must be provided for partial update"))
    ensures r.Send? <==> p.Read? && p.dto.Some? && p.dto.value.id > 0 && p.dto.value.request.Some?
                         && p.dto.value.request.value.HasAnyUpdates()
    ensures r.Send? ==> r.command == p.dto.value.request.value.ToMediator(p.dto.value.id)
  {
    match p
    case NullParams => Reject(ArgumentException("Parameters are required for employee.patch"))
    case Unreadable(msg) => Reject(JsonException(msg))
    case Read(dto) =>
      if dto.None? || dto.value.id <= 0 then Reject(ArgumentException("Invalid parameters for employee.patch. Id is required."))
      else if dto.value.request.None? then Reject(NullReferenceException)
      else if !dto.value.request.value.HasAnyUpdates() then Reject(ArgumentException("At least one field must be provided for partial update"))
      else Send(dto.value.request.value.ToMediator(dto.value.id))
  }

  /**
   * A command the handler sends always has a positive id and something to
   * update, so the patch rules' id and "at least one field" checks never fire
   * for requests that come through this handler.
   */
  lemma SentCommandHasIdAndUpdates(p: PatchParams)
    requires EmployeePatchHandle(p).Send?
    ensures EmployeePatchHandle(p).command.id > 0
    ensures EmployeePatchHandle(p).command.HasAnyUpdates()
  {
    var dto := p.dto.value;
    ToMediatorKeepsHasAnyUpdates(dto.request.value, dto.id);
  }

  /** Every guard's exception reaches the client as VALIDATION_ERROR, except the null-request crash. */
  lemma PatchGuardsBecomeValidationErrors(p: PatchParams)
    requires EmployeePatchHandle(p).Reject?
    ensures var e := EmployeePatchHandle(p).exception;
            (p.NullParams? || (p.Read? && !(p.dto.Some? && p.dto.value.id > 0 && p.dto.value.request.None?)))
            ==> ErrorFor(e).code == "VALIDATION_ERROR" && ErrorFor(e).message == e.message
    ensures p.Unreadable? ==> ErrorFor(EmployeePatchHandle(p).exception).code == "INVALID_PARAMS"
    ensures p.Read? && p.dto.Some? && p.dto.value.id > 0 && p.dto.value.request.None? ==>
              ErrorFor(EmployeePatchHandle(p).exception) == McpError("INTERNAL_ERROR", "An unexpected error occurred", None)
  {
  }
}
