# CQRSPatternApi: a verified model of the employee partial-update path

CQRSPatternApi is an ASP.NET service that splits reads from writes (CQRS). It
stores employees, and it takes requests through HTTP controllers and through an
MCP ("Model Context Protocol") JSON-RPC endpoint. This project models the
service's decision logic in Dafny and proves properties of that model:

- **Employee commands** (`employee_commands.dfy`): the `EmployeeModel` record,
  the `PatchEmployeeCommand` partial update (a null field means "leave
  unchanged"), the API's `Patch.Request` with its length annotations, and the
  add and update commands.
- **Write store** (`employee_store.dfy`): `EmployeeWriteRepository` is a class
  holding a map from id to record, the next identity value and a count of
  commits. Its `AddAsync`, `UpdateAsync` and `PatchAsync` are methods.
  `PatchEmployeeCommandHandler` drives `PatchAsync` once and turns `false` into
  `KeyNotFoundException`.
- **Validators** (`employee_validators.dfy`): the FluentValidation rule sets for
  patch, add and update. Each is a function from a command to the failures it
  reports, in rule order. `DateTime.Today` and `AddYears` are a `Calendar`
  parameter.
- **Validation behaviour** (`mediator.dfy`): `ValidationFailureComparer` and
  `MediatorValidationBehavior.Handle`. The behaviour runs every validator, drops
  null failures, and then either throws one `ValidationException` with the
  failures de-duplicated by (message, severity) or calls the handler.
- **MCP router** (`mcp.dfy`): the response envelope, the case-insensitive
  four-entry method registry, the mapping from each handler outcome and
  exception class to an error code, and the guards of `EmployeePatchHandler`.
- **End to end** (`mcp_patch_flow.dfy`): one `employee.patch` request goes
  through the router, the handler guards, the validation behaviour, the command
  handler and the store.
- **JSON Patch** (`json_patch.dfy`): the JSON Patch request (section 4 of
  RFC 6902), with paths as JSON Pointers (section 3 of RFC 6901) restricted to a
  fixed list. It models the three checks made of a request:
  - `JsonPatchRequest.IsValid`;
  - the converter's operation dispatch and path-to-property map;
  - `ValidateForEmployee`'s error list.

  The three checks disagree on slashes.
- **`Optional<T>`** (`optional.dfy`): the tri-state wrapper and its JSON
  converter.
- **Weather store** (`weather.dfy`): the in-memory forecast repository. It is a
  class over a sequence of forecast objects, with an id counter and a record of
  the `OnDataChange` notifications.
- **Stdio client** (`tools/McpStdioClient`, `stdio_client.dfy`):
  - it normalises line endings and frames the request with `Content-Length`;
  - it reads the response header byte by byte until CR LF CR LF, parses the
    length and reads exactly that many body bytes;
  - it maps each outcome to an exit code.

`common.dfy` holds the parts of .NET's string API the code relies on: white
space, invariant lower-casing, trimming, joining, and decimal formatting and
parsing. `framework.dfy` holds the exception classes and FluentValidation's
failure record.

The repository's description says that a domain validation failure reaches an
MCP client as `VALIDATION_ERROR`. The code does otherwise. FluentValidation's
`ValidationException` does not derive from `ArgumentException`, so the router's
last catch clause turns it into `INTERNAL_ERROR` with "An unexpected error
occurred". The model follows the code: see `McpPatchFlow.RejectedPatchIsInternalError`.

Other behaviours of the code that the model states as written:

- **Gender.** The add rules demand a one-character gender, the patch rules
  demand Male, Female or Other, and the update rules demand only non-empty.
  No gender passes both the add and the patch rules. The database maps the
  Gender column with a maximum length of 1 and as required
  (`CQRSPattern.Infrastructure.Persistence/Configuration/EmployeeEntityConfiguration.cs:21`,
  and the migration `20250302161254_AddEmpDepartmentTables.cs:56-57`). So no
  gender the patch rules accept fits that column. The model's store has no
  column lengths, so it reports such a patch as committed.
- **Dates.** The patch rules compare dates only within one command. A patch
  can leave a stored employee hired before birth.
- **Framing.** The stdio client ends its own header with LF LF. Its header
  reader waits for CR LF CR LF, so it would never read a reply framed the same
  way.
- **Slashes.** The JSON Patch converter strips every leading `/`. `IsValid`
  needs at least one `/`. `ValidateForEmployee` needs exactly one.
- **`Optional<T>`.** The converter reads JSON null as a present default, so
  once deserialised, a property that was given as null is never "absent".

## Model

| member | source | states |
|---|---|---|
| Common.ToLowerInvariant | CQRSPattern.Api/Features/Employee/JsonPatch/JsonPatchRequestConverter.cs:76 | lower-casing keeps the length and lower-cases each character in place |
| Common.TrimStartChar | CQRSPattern.Api/Features/Employee/JsonPatch/JsonPatchRequestConverter.cs:76 | the result is a suffix of the input; every dropped character is the trimmed one; the result does not start with it |
| Common.NatToStringParses | tools/McpStdioClient/Program.cs:77-78 | the count written into the header parses back to the same count |
| Common.TrailingNulsParse | tools/McpStdioClient/Program.cs:160-161 | a count followed by any number of NUL characters still parses as that count, as `int.TryParse` allows |
| EmployeeCommands.CreateCommand | CQRSPattern.Application/Features/Employee/Patch/PatchEmployeeCommand.cs:56-74 | the command carries the six arguments unchanged |
| EmployeeCommands.Request.ToMediator | CQRSPattern.Api/Features/Employee/Patch/Request.cs:45-55 | the command has the given id and the request's five fields unchanged |
| EmployeeCommands.AnnotationErrors | CQRSPattern.Api/Features/Employee/Patch/Request.cs:15-27 | no error exactly when both names are at most 100 characters and the gender at most 10 (null passes); each message appears exactly when its limit is broken |
| EmployeeCommands.HasAnyUpdatesMeansSomeField | CQRSPattern.Application/Features/Employee/Patch/PatchEmployeeCommand.cs:80-87 | `PatchEmployeeCommand.HasAnyUpdates` holds if and only if at least one of the five fields is non-null |
| EmployeeCommands.HasAnyUpdatesIgnoresId | CQRSPattern.Application/Features/Employee/Patch/PatchEmployeeCommand.cs:80-87 | changing the id never changes `HasAnyUpdates` |
| EmployeeCommands.BlankIsAnUpdate | CQRSPattern.Application/Features/Employee/Patch/PatchEmployeeCommand.cs:82-84 | an empty or white-space name or gender still counts as an update |
| EmployeeCommands.ToMediatorKeepsHasAnyUpdates | CQRSPattern.Api/Features/Employee/Patch/Request.cs:61-68 | `Request.HasAnyUpdates` (Request.cs:61-68) and `PatchEmployeeCommand.HasAnyUpdates` of the command the request becomes agree, for every id |
| EmployeeCommands.EmptyRequestHasNoUpdates | CQRSPattern.Api/Features/Employee/Patch/Request.cs:15-38 | a freshly constructed request has nothing to update and breaks no length limit |
| EmployeeStore.ApplyPatch | CQRSPattern.Infrastructure.Persistence/Repositories/Write/EmployeeWriteRepository.cs:71-95 | a given field overwrites the stored one and a null one keeps it, field by field; the id never changes |
| EmployeeStore.ApplyUpdate | CQRSPattern.Infrastructure.Persistence/Repositories/Write/EmployeeWriteRepository.cs:42-46 | all five non-id fields come from the model and the stored id stays |
| EmployeeStore.EmployeeWriteRepository.constructor | CQRSPattern.Infrastructure.Persistence/Repositories/Write/EmployeeWriteRepository.cs:10-13 | an empty store with no commits satisfies the store invariant `Valid()`: every record is filed under its own id, below the next identity value |
| EmployeeStore.EmployeeWriteRepository.AddAsync | CQRSPattern.Infrastructure.Persistence/Repositories/Write/EmployeeWriteRepository.cs:15-28 | exactly one record is added, under a fresh identity and carrying the model's five fields (the model's id is ignored); one commit; the invariant is kept |
| EmployeeStore.EmployeeWriteRepository.UpdateAsync | CQRSPattern.Infrastructure.Persistence/Repositories/Write/EmployeeWriteRepository.cs:30-50 | a missing id throws `KeyNotFoundException("Employee with ID {id} not found.")` and changes and commits nothing; otherwise only that record is replaced by `ApplyUpdate`, with one commit |
| EmployeeStore.EmployeeWriteRepository.PatchAsync | CQRSPattern.Infrastructure.Persistence/Repositories/Write/EmployeeWriteRepository.cs:52-101 | `false` if and only if the id is missing, and then nothing changes and nothing is committed; otherwise only that record becomes `ApplyPatch` of it, with exactly one commit |
| EmployeeStore.PatchEmployeeCommandHandler.constructor | CQRSPattern.Application/Features/Employee/Patch/PatchEmployeeCommandHandler.cs:18-21 | the handler keeps the repository it is given |
| EmployeeStore.PatchEmployeeCommandHandler.Handle | CQRSPattern.Application/Features/Employee/Patch/PatchEmployeeCommandHandler.cs:30-49 | one `PatchAsync` with the command's id and five fields; a missing id gives `KeyNotFoundException` with the not-found message and an unchanged store; otherwise it completes with the record patched and one commit |
| EmployeeStore.NewPatchEmployeeCommandHandler | CQRSPattern.Application/Features/Employee/Patch/PatchEmployeeCommandHandler.cs:18-21 | a null repository throws `ArgumentNullException("employeeRepository")`, and only a null one does |
| EmployeeStore.ApplyPatchIdempotent | CQRSPattern.Infrastructure.Persistence/Repositories/Write/EmployeeWriteRepository.cs:71-95 | applying the same partial update twice gives the same record as applying it once |
| EmployeeStore.EmptyPatchChangesNothing | CQRSPattern.Infrastructure.Persistence/Repositories/Write/EmployeeWriteRepository.cs:71-95 | a partial update with every field null leaves the record as it was |
| EmployeeStore.FullPatchIsUpdate | CQRSPattern.Infrastructure.Persistence/Repositories/Write/EmployeeWriteRepository.cs:42-95 | a partial update giving all five fields equals the full update with the same values |
| EmployeeStore.ApplyPatchComposes | CQRSPattern.Infrastructure.Persistence/Repositories/Write/EmployeeWriteRepository.cs:71-95 | two partial updates in a row equal one in which the later given value of each field wins |
| EmployeeValidators.PatchNameRules | CQRSPattern.Application/Features/Employee/Patch/PatchEmployeeCommandValidator.cs:20-37 | a failure is reported exactly when the name is given and is blank (the empty message) or longer than 100 (the too-long message) |
| EmployeeValidators.PatchGenderRules | CQRSPattern.Application/Features/Employee/Patch/PatchEmployeeCommandValidator.cs:40-49 | each of the blank, too-long and not Male/Female/Other failures appears exactly when a given gender breaks that check |
| EmployeeValidators.PatchDateRules | CQRSPattern.Application/Features/Employee/Patch/PatchEmployeeCommandValidator.cs:52-75 | birth not before today, birth 120 years ago or more, hire after today, and hire not after birth (both given) are each reported exactly when they occur |
| EmployeeValidators.PatchRules | CQRSPattern.Application/Features/Employee/Patch/PatchEmployeeCommandValidator.cs:13-81 | no failure if and only if the command meets every patch rule, stated field by field |
| EmployeeValidators.ValidGenderIsShortAndNotBlank | CQRSPattern.Application/Features/Employee/Patch/PatchEmployeeCommandValidator.cs:88-92 | a gender `IsValidGender` accepts (Male, Female or Other, ignoring case) is non-blank and 4 to 6 characters long |
| EmployeeValidators.PatchRulesMembership | CQRSPattern.Application/Features/Employee/Patch/PatchEmployeeCommandValidator.cs:13-81 | a failure is reported if and only if one of the rule groups reports it |
| EmployeeValidators.PatchRulesReportNames | CQRSPattern.Application/Features/Employee/Patch/PatchEmployeeCommandValidator.cs:15-80 | the id, the four name messages and "at least one field" each appear if and only if their condition holds |
| EmployeeValidators.PatchRulesReportGenderAndDates | CQRSPattern.Application/Features/Employee/Patch/PatchEmployeeCommandValidator.cs:40-75 | the three gender messages and the four date messages each appear if and only if their condition holds |
| EmployeeValidators.PatchNullFieldIsNotChecked | CQRSPattern.Application/Features/Employee/Patch/PatchEmployeeCommandValidator.cs:20-67 | a failure about a field is reported only when that field was given |
| EmployeeValidators.PatchReportsEveryBrokenRule | CQRSPattern.Application/Features/Employee/Patch/PatchEmployeeCommandValidator.cs:15-80 | every rule runs: a bad id with nothing to update reports both failures, in rule order |
| EmployeeValidators.PatchRulesOrderEnds | CQRSPattern.Application/Features/Employee/Patch/PatchEmployeeCommandValidator.cs:15-80 | a bad id's failure comes first and the "at least one field" failure last, in declaration order |
| EmployeeValidators.RequiredRules | CQRSPattern.Application/Features/Employee/Add/AddEmployeeCommandValidator.cs:9-15 | `NotNull().NotEmpty()` reports nothing if and only if the value is non-null and not blank |
| EmployeeValidators.AddRules | CQRSPattern.Application/Features/Employee/Add/AddEmployeeCommandValidator.cs:7-33 | no failure if and only if both names are non-empty, the gender is one non-white-space character, the employee is 18 or older today, the hire date is not later than today, and the hire date is at least 18 years after birth |
| EmployeeValidators.AddNullFirstNameReportedOnce | CQRSPattern.Application/Features/Employee/Add/AddEmployeeCommandValidator.cs:9-11 | a null first name fails both `NotNull` and `NotEmpty` with one message, and de-duplication keeps one of them |
| EmployeeValidators.UpdateRules | CQRSPattern.Application/Features/Employee/Update/UpdateEmployeeCommandValidator.cs:7-32 | no failure if and only if the id is positive, names and gender are non-empty, the hire date is not later than today, and the employee is 18 or older today |
| EmployeeValidators.UpdateIgnoresDateOrderAndLength | CQRSPattern.Application/Features/Employee/Update/UpdateEmployeeCommandValidator.cs:9-31 | the update rules accept a hire date before birth and a gender of any length |
| EmployeeValidators.GenderRulesDisagree | CQRSPattern.Application/Features/Employee/Add/AddEmployeeCommandValidator.cs:17-21 | no gender passes both the add rules and the patch rules |
| Mediator.ComparerEquals | CQRSPattern.Infrastructure.Mediator/ValidationFailureComparer.cs:17-20 | two nulls are equal, null never equals a failure, and two failures are equal exactly when message and severity agree |
| Mediator.ComparerIgnoresPropertyName | CQRSPattern.Infrastructure.Mediator/ValidationFailureComparer.cs:17-20 | changing the property name never makes failures unequal |
| Mediator.ComparerIsEquivalence | CQRSPattern.Infrastructure.Mediator/ValidationFailureComparer.cs:17-20 | the comparer is reflexive, symmetric and transitive |
| Mediator.ComparerHashAgrees | CQRSPattern.Infrastructure.Mediator/ValidationFailureComparer.cs:28-31 | failures the comparer calls equal get equal `ComparerHash` codes (message and severity combined), whatever the hash seed |
| Mediator.Distinct | CQRSPattern.Infrastructure.Mediator/MediatorValidationBehavior.cs:47 | the result takes only input failures, covers every input failure's class, and holds no two failures of one class |
| Mediator.KeptPositions | CQRSPattern.Infrastructure.Mediator/MediatorValidationBehavior.cs:47 | each kept failure comes from an input position, and those positions increase, so the kept failures stay in input order |
| Mediator.DistinctKeepsFirst | CQRSPattern.Infrastructure.Mediator/MediatorValidationBehavior.cs:47 | each kept failure is the first of its class in the input |
| Mediator.NonNull | CQRSPattern.Infrastructure.Mediator/MediatorValidationBehavior.cs:42 | a failure is kept if and only if it occurs non-null in the input |
| Mediator.NonNullAppend | CQRSPattern.Infrastructure.Mediator/MediatorValidationBehavior.cs:42 | dropping nulls works run by run, so the kept failures stay in input order |
| Mediator.ValidationGate | CQRSPattern.Infrastructure.Mediator/MediatorValidationBehavior.cs:39-48 | it throws if and only if some failure was collected, and then the exception holds the de-duplicated failures |
| Mediator.Handle | CQRSPattern.Infrastructure.Mediator/MediatorValidationBehavior.cs:32-51 | the handler's result comes back if and only if no validator reported a failure |
| Mediator.CollectFailuresHasAll | CQRSPattern.Infrastructure.Mediator/MediatorValidationBehavior.cs:39-43 | every non-null failure of every validator is in `CollectFailures`, the concatenation of the validators' non-null failures |
| Mediator.RejectionListsEachClassOnce | CQRSPattern.Infrastructure.Mediator/MediatorValidationBehavior.cs:45-48 | for every handler, the exception lists a failure of every reported (message, severity) class, and no class twice |
| Mediator.NoValidatorsAlwaysHandles | CQRSPattern.Infrastructure.Mediator/MediatorValidationBehavior.cs:50 | with no validators registered the handler always runs |
| Mcp.CreateSuccess | CQRSPattern.Api/Features/Mcp/Models/McpResponse.cs:40-46 | success with no error, and the given result and id |
| Mcp.CreateError | CQRSPattern.Api/Features/Mcp/Models/McpResponse.cs:55-65 | failure with no result, an error with the given code and message and no details, and the given id |
| Mcp.FactoriesAreWellFormed | CQRSPattern.Api/Features/Mcp/Models/McpResponse.cs:40-65 | responses from either factory succeed exactly when they carry no error; the id defaults to null |
| Mcp.Lookup | CQRSPattern.Api/Features/Mcp/Services/McpRequestRouter.cs:40-46 | a name finds a handler if and only if it equals a registered name ignoring case, and then it finds that name's handler |
| Mcp.NamesDifferIgnoringCase | CQRSPattern.Api/Features/Mcp/Services/McpRequestRouter.cs:40-46 | no two registered names are equal ignoring case |
| Mcp.AvailableMethodsIsJoin | CQRSPattern.Api/Features/Mcp/Services/McpRequestRouter.cs:66 | the listed methods are the registry keys joined with ", " |
| Mcp.AvailableMethodsNamesEach | CQRSPattern.Api/Features/Mcp/Services/McpRequestRouter.cs:66 | `AvailableMethods` contains each registered name |
| Mcp.ErrorFor | CQRSPattern.Api/Features/Mcp/Services/McpRequestRouter.cs:85-104 | Json gives INVALID_PARAMS with the prefixed message, argument exceptions give VALIDATION_ERROR, key-not-found gives NOT_FOUND with the message verbatim, anything else gives INTERNAL_ERROR; never any details |
| Mcp.Route | CQRSPattern.Api/Features/Mcp/Services/McpRequestRouter.cs:50-105 | every response echoes the request id and succeeds exactly when it has no error |
| Mcp.RouteSucceedsOnlyThroughHandler | CQRSPattern.Api/Features/Mcp/Services/McpRequestRouter.cs:72-83 | success if and only if the method is registered and its handler returned, and then the result is the handler's |
| Mcp.RouteRefusals | CQRSPattern.Api/Features/Mcp/Services/McpRequestRouter.cs:56-77 | blank method gives INVALID_METHOD, unknown gives METHOD_NOT_FOUND, unresolved handler gives INTERNAL_ERROR, each with its message |
| Mcp.RouteMapsExceptions | CQRSPattern.Api/Features/Mcp/Services/McpRequestRouter.cs:85-104 | a handler's exception becomes exactly the error its catch clause builds |
| Mcp.RouteErrorCodes | CQRSPattern.Api/Features/Mcp/Services/McpRequestRouter.cs:52-105 | every error carries one of the router's six codes |
| Mcp.NotSupportedMessageNamesMethods | CQRSPattern.Api/Features/Mcp/Services/McpRequestRouter.cs:61-69 | `NotSupportedMessage`, the METHOD_NOT_FOUND message, contains the requested name and all four registered names |
| Mcp.LookupIgnoresCase | CQRSPattern.Api/Features/Mcp/Services/McpRequestRouter.cs:40 | a name and its lower-cased form find the same handler |
| Mcp.EmployeePatchHandle | CQRSPattern.Api/Features/Mcp/Handlers/EmployeePatchHandler.cs:27-58 | the guards in order: the exact exception for null parameters, unreadable JSON, a missing or non-positive id, a null request, and "At least one field must be provided for partial update" for a request with nothing to update; a command is sent if and only if every guard passes, and it is `ToMediator(id)` |
| Mcp.SentCommandHasIdAndUpdates | CQRSPattern.Api/Features/Mcp/Handlers/EmployeePatchHandler.cs:43-54 | a sent command always has a positive id and something to update |
| Mcp.PatchGuardsBecomeValidationErrors | CQRSPattern.Api/Features/Mcp/Handlers/EmployeePatchHandler.cs:31-51 | each guard's exception reaches the client as VALIDATION_ERROR with its message; unreadable JSON gives INVALID_PARAMS, a null request INTERNAL_ERROR |
| McpPatchFlow.CollectsPatchRules | CQRSPattern.Infrastructure.Mediator/MediatorValidationBehavior.cs:39-43 | with the patch validator registered, the behaviour collects exactly the patch rules' failures |
| McpPatchFlow.PatchOutcome | CQRSPattern.Api/Features/Mcp/Handlers/EmployeePatchHandler.cs:27-58 | a guard's exception; otherwise `ValidationException` with the de-duplicated patch-rule failures when any rule fails; otherwise the success message when the id is stored and `KeyNotFoundException` with the not-found message when it is not |
| McpPatchFlow.HandlePatch | CQRSPattern.Api/Features/Mcp/Handlers/EmployeePatchHandler.cs:27-58 | the outcome is `PatchOutcome` of the parameters and the ids stored before the call; the success message is returned if and only if the guards pass, the patch rules report nothing and the id is stored, and then only that record is patched, with one commit; otherwise nothing changes |
| McpPatchFlow.ServeRequest | CQRSPattern.Api/Features/Mcp/Services/McpRequestRouter.cs:50-105 | other methods are routed without touching the store; an `employee.patch` response is the router's response to `PatchOutcome`: a guard's exception through its catch clause, INTERNAL_ERROR for a rules rejection, NOT_FOUND with the not-found message for a missing id; a failed response changes nothing; a successful one patched exactly the named record once |
| McpPatchFlow.RejectedPatchIsInternalError | CQRSPattern.Api/Features/Mcp/Services/McpRequestRouter.cs:100-104 | an `employee.patch` request whose command breaks the patch rules gets the router's INTERNAL_ERROR response "An unexpected error occurred", whatever the store holds |
| McpPatchFlow.PatchCanInvertStoredDates | CQRSPattern.Application/Features/Employee/Patch/PatchEmployeeCommandValidator.cs:70-75 | a birth-date-only patch that the rules accept can set the birth date after the stored hire date |
| PatchOptional.Optional.Value | CQRSPattern.Api/Features/Employee/Patch/Optional.cs:32 | the wrapped value when present; otherwise `InvalidOperationException("Optional has no value")` |
| PatchOptional.Optional.GetValueOrDefault | CQRSPattern.Api/Features/Employee/Patch/Optional.cs:51-52 | the wrapped value when present, the default otherwise |
| PatchOptional.Optional.Map | CQRSPattern.Api/Features/Employee/Patch/Optional.cs:60-61 | presence is kept, and a present value is mapped |
| PatchOptional.Optional.ToString | CQRSPattern.Api/Features/Employee/Patch/Optional.cs:77-78 | "None" when absent; otherwise "Some(", then the value's text, then ")" |
| PatchOptional.ToStringDistinguishes | CQRSPattern.Api/Features/Employee/Patch/Optional.cs:77-78 | optionals that print alike are both absent or both present with values that print alike |
| PatchOptional.FromValue | CQRSPattern.Api/Features/Employee/Patch/Optional.cs:63 | the implicit conversion is always present, null included, and holds the value |
| PatchOptional.EqualsIsEquivalence | CQRSPattern.Api/Features/Employee/Patch/Optional.cs:65-67 | `Equals` is an equivalence whenever the value comparer is |
| PatchOptional.EqualsIsIdentity | CQRSPattern.Api/Features/Employee/Patch/Optional.cs:65-67 | under the value type's own equality, `Equals` is equality of optionals |
| PatchOptional.EqualsCases | CQRSPattern.Api/Features/Employee/Patch/Optional.cs:65-67 | `Equals` and `operator ==` (`EqualsOperator`): two absent are equal, absent never equals present, and two present are equal exactly when their values are |
| PatchOptional.NotEqualsNegates | CQRSPattern.Api/Features/Employee/Patch/Optional.cs:74-75 | `NotEqualsOperator` (`!=`) is the negation of `EqualsOperator` (`==`) |
| PatchOptional.EqualOptionalsHashAlike | CQRSPattern.Api/Features/Employee/Patch/Optional.cs:71-72 | optionals that `Equals` calls equal get the same `GetHashCode` (0 when absent), whenever the value hash agrees with the value equality |
| PatchOptional.MapLaws | CQRSPattern.Api/Features/Employee/Patch/Optional.cs:60-61 | mapping the identity changes nothing, and mapping twice is mapping the composition |
| PatchOptional.GetValueOrDefaultCases | CQRSPattern.Api/Features/Employee/Patch/Optional.cs:51-52 | `GetValueOrDefault` agrees with `Value` when present and gives the default when absent |
| PatchOptional.Read | CQRSPattern.Api/Features/Employee/Patch/Optional.cs:104-113 | always present: a null token gives the default, any other token its value |
| PatchOptional.ReadProperty | CQRSPattern.Api/Features/Employee/Patch/Optional.cs:104-113 | a property absent from the JSON stays absent; a present one is what `Read` gives |
| PatchOptional.Write | CQRSPattern.Api/Features/Employee/Patch/Optional.cs:115-125 | nothing is written for an absent optional, and exactly the value for a present one |
| PatchOptional.WriteReadRoundTrip | CQRSPattern.Api/Features/Employee/Patch/Optional.cs:104-125 | a present optional written and read back comes back; a property missing from the JSON reads as absent |
| PatchOptional.EmittedPropertyComplete | CQRSPattern.Api/Features/Employee/Patch/Optional.cs:115-125 | the serializer's name-then-converter output is a complete property (a name and one value) if and only if the optional is present |
| PatchOptional.ReadNeverYieldsNone | CQRSPattern.Api/Features/Employee/Patch/Optional.cs:104-113 | the reader never produces an absent optional, not even from JSON null |
| JsonPatch.NoOperationsIsInvalid | CQRSPattern.Api/Features/Employee/JsonPatch/JsonPatchRequest.cs:66-67 | `IsValid`: a null or empty operation list is never valid |
| JsonPatch.IsValidIgnoresOrder | CQRSPattern.Api/Features/Employee/JsonPatch/JsonPatchRequest.cs:71-75 | reordering the operations never changes `IsValid`, which holds when every operation passes `OperationIsValid` |
| JsonPatch.IsValidIgnoresValueAndFrom | CQRSPattern.Api/Features/Employee/JsonPatch/JsonPatchRequest.cs:71-75 | `IsValid` and `OperationIsValid` never depend on an operation's value or from |
| JsonPatch.SlashPathIsNotBlank | CQRSPattern.Api/Features/Employee/JsonPatch/JsonPatchRequest.cs:74-75 | a path starting with '/' is never blank |
| JsonPatch.PropertyForKey | CQRSPattern.Api/Features/Employee/JsonPatch/JsonPatchRequestConverter.cs:76-85 | a key that maps names its property's key |
| JsonPatch.GetPropertyExpression | CQRSPattern.Api/Features/Employee/JsonPatch/JsonPatchRequestConverter.cs:73-103 | a mapped path is the property's key once its leading slashes are stripped and it is lower-cased; anything else throws "Unsupported path '{path}' for EmployeeModel" |
| JsonPatch.OpKindFor | CQRSPattern.Api/Features/Employee/JsonPatch/JsonPatchRequestConverter.cs:30-61 | the switch knows an operation name if and only if it is one of the six of RFC 6902 |
| JsonPatch.ConvertOperation | CQRSPattern.Api/Features/Employee/JsonPatch/JsonPatchRequestConverter.cs:28-62 | an unknown operation throws "Unsupported operation: {op}"; a converted operation has the operation's kind and mapped path, and it has a from exactly for move and copy; it carries the operation's value for add, replace and test and no value otherwise |
| JsonPatch.ConvertOperationSucceeds | CQRSPattern.Api/Features/Employee/JsonPatch/JsonPatchRequestConverter.cs:28-62 | a conversion succeeds if and only if the op is known, the path maps and, for move and copy, the from is non-blank and maps |
| JsonPatch.ConvertOperationPathFailures | CQRSPattern.Api/Features/Employee/JsonPatch/JsonPatchRequestConverter.cs:106-160 | an unmapped path fails with `GetPropertyExpression`'s own exception; for move and copy an unmapped from, mapped first, wins |
| JsonPatch.MoveCopyNeedFromFirst | CQRSPattern.Api/Features/Employee/JsonPatch/JsonPatchRequestConverter.cs:44-54 | a move or copy with a blank from throws its "requires 'from' property" message, whatever the path |
| JsonPatch.ToJsonPatchDocument | CQRSPattern.Api/Features/Employee/JsonPatch/JsonPatchRequestConverter.cs:21-66 | a null request throws `ArgumentNullException("request")`; otherwise the loop yields the whole conversion |
| JsonPatch.ConvertAllShape | CQRSPattern.Api/Features/Employee/JsonPatch/JsonPatchRequestConverter.cs:28-65 | on success there is one document operation per request operation, in order, each its own conversion |
| JsonPatch.ConvertAllFailsAtFirst | CQRSPattern.Api/Features/Employee/JsonPatch/JsonPatchRequestConverter.cs:28-63 | a failure is the exception of the first operation that fails |
| JsonPatch.PathErrors | CQRSPattern.Api/Features/Employee/JsonPatch/JsonPatchRequestConverter.cs:174-177 | the invalid-path error is added if and only if the path is none of the six, ignoring case |
| JsonPatch.IdErrors | CQRSPattern.Api/Features/Employee/JsonPatch/JsonPatchRequestConverter.cs:180-184 | "Cannot modify employee ID" is added if and only if the path is `/id` and the operation is add or replace |
| JsonPatch.DateErrors | CQRSPattern.Api/Features/Employee/JsonPatch/JsonPatchRequestConverter.cs:187-208 | the date error is added if and only if a date path carries a string value that does not parse |
| JsonPatch.OperationErrors | CQRSPattern.Api/Features/Employee/JsonPatch/JsonPatchRequestConverter.cs:173-208 | an operation throws `NullReferenceException` if and only if its path is null, or it is on `/id` with a null op |
| JsonPatch.MessagesDiffer | CQRSPattern.Api/Features/Employee/JsonPatch/JsonPatchRequestConverter.cs:176-205 | the three error messages are different strings |
| JsonPatch.PathClassesExclusive | CQRSPattern.Api/Features/Employee/JsonPatch/JsonPatchRequestConverter.cs:169-188 | `/id` and the date paths are valid paths, and no path is both |
| JsonPatch.OperationErrorsReport | CQRSPattern.Api/Features/Employee/JsonPatch/JsonPatchRequestConverter.cs:173-208 | an operation adds at most one error; each message appears if and only if its check fails |
| JsonPatch.AddOperationErrors | CQRSPattern.Api/Features/Employee/JsonPatch/JsonPatchRequestConverter.cs:173-208 | one pass of the loop appends that operation's errors to the list, or throws |
| JsonPatch.CheckPath | CQRSPattern.Api/Features/Employee/JsonPatch/JsonPatchRequestConverter.cs:174-177 | the list gains the path check's errors |
| JsonPatch.CheckId | CQRSPattern.Api/Features/Employee/JsonPatch/JsonPatchRequestConverter.cs:180-184 | the list gains the id check's errors |
| JsonPatch.CheckDate | CQRSPattern.Api/Features/Employee/JsonPatch/JsonPatchRequestConverter.cs:187-208 | the list gains the date check's errors |
| JsonPatch.ValidateForEmployee | CQRSPattern.Api/Features/Employee/JsonPatch/JsonPatchRequestConverter.cs:166-212 | the loop produces every operation's errors in order, or the first null-reference exception |
| JsonPatch.AtMostOneErrorPerOperation | CQRSPattern.Api/Features/Employee/JsonPatch/JsonPatchRequestConverter.cs:171-209 | there are never more errors than operations |
| JsonPatch.ErrorsFollowOperationOrder | CQRSPattern.Api/Features/Employee/JsonPatch/JsonPatchRequestConverter.cs:171-209 | the errors of two runs of operations are the first run's errors followed by the second's |
| JsonPatch.ValidationIgnoresOpAndFrom | CQRSPattern.Api/Features/Employee/JsonPatch/JsonPatchRequestConverter.cs:171-209 | off the `/id` path, op and from never change the errors |
| JsonPatch.ValidPathsAreMapped | CQRSPattern.Api/Features/Employee/JsonPatch/JsonPatchRequestConverter.cs:169-177 | every path `ValidateForEmployee` accepts, the converter maps to the property it names |
| JsonPatch.MappedAt | CQRSPattern.Api/Features/Employee/JsonPatch/JsonPatchRequestConverter.cs:76-85 | a path equal, ignoring case, to a listed path maps to that path's property |
| JsonPatch.ValidPathShape | CQRSPattern.Api/Features/Employee/JsonPatch/JsonPatchRequestConverter.cs:169 | every accepted path has exactly one leading '/' |
| JsonPatch.ConverterIgnoresSlashes | CQRSPattern.Api/Features/Employee/JsonPatch/JsonPatchRequestConverter.cs:76 | `firstName` and `//firstName` both map to FirstName |
| JsonPatch.KeyPathMaps | CQRSPattern.Api/Features/Employee/JsonPatch/JsonPatchRequestConverter.cs:76-85 | a path that is a property's key once its slashes are stripped and it is lower-cased maps to that property |
| JsonPatch.SlashHandlingDisagrees | CQRSPattern.Api/Features/Employee/JsonPatch/JsonPatchRequest.cs:71-75 | `IsValid` refuses `firstName` but accepts `//firstName`, and `ValidateForEmployee` accepts neither |
| StdioClient.NormalizeIsOnePass | tools/McpStdioClient/Program.cs:72 | `NormalizeBody`, the two replacements in a row, turns each CR LF, and each other CR, into LF in one pass |
| StdioClient.NormalizedHasNoCr | tools/McpStdioClient/Program.cs:72 | the normalised body contains no CR |
| StdioClient.ReplaceCrHasNoCr | tools/McpStdioClient/Program.cs:72 | the second replacement leaves no CR |
| StdioClient.NormalizeIdempotent | tools/McpStdioClient/Program.cs:72 | normalising twice is normalising once |
| StdioClient.Utf8Char | tools/McpStdioClient/Program.cs:73 | one to four bytes; an ASCII character is its own byte, and any other character gives only bytes from 0x80 up |
| StdioClient.Utf8WithoutCr | tools/McpStdioClient/Program.cs:73 | `Utf8Encode`, the concatenation of each character's bytes, turns text without CR into bytes without CR |
| StdioClient.AsciiEncode | tools/McpStdioClient/Program.cs:78 | one byte per character, with '?' for a non-ASCII one |
| StdioClient.AsciiDecode | tools/McpStdioClient/Program.cs:148 | one character per byte, with '?' for a byte above 0x7F |
| StdioClient.AsciiRoundTrip | tools/McpStdioClient/Program.cs:78 | decoding what was ASCII-encoded gives ASCII text back |
| StdioClient.CopyInto | tools/McpStdioClient/Program.cs:83-84 | the bytes land at the offset and nothing else in the buffer changes |
| StdioClient.Frame | tools/McpStdioClient/Program.cs:77-84 | the buffer is the ASCII header `Content-Length: N` LF LF followed by the body, where N is the body's length |
| StdioClient.BuildRequest | tools/McpStdioClient/Program.cs:72-97 | the bytes sent are the framed or, with `--no-header`, the bare UTF-8 normalised body |
| StdioClient.HeaderHasNoCr | tools/McpStdioClient/Program.cs:77-78 | the header the client writes has no CR byte |
| StdioClient.RequestHasNoCr | tools/McpStdioClient/Program.cs:72-97 | `RequestBytes`, everything the client sends, contains no CR byte |
| StdioClient.HeaderIsAscii | tools/McpStdioClient/Program.cs:77-78 | `Header(N)`, the text `Content-Length: N` LF LF, is ASCII |
| StdioClient.HeaderDeclaresLength | tools/McpStdioClient/Program.cs:77 | the header the client writes declares the body's length to the client's own parser |
| StdioClient.InputStream.Read | tools/McpStdioClient/Program.cs:136 | a read takes at most the count asked for from the front of the stream into the buffer; it gives 0 only at the end of the stream or for a count of 0 |
| StdioClient.Overlap | tools/McpStdioClient/Program.cs:141-143 | the overlap with CR LF CR LF is at most 4 |
| StdioClient.OverlapFull | tools/McpStdioClient/Program.cs:145 | the overlap is 4 exactly when the bytes end with CR LF CR LF |
| StdioClient.OverlapStep | tools/McpStdioClient/Program.cs:141-143 | short of a full match, the counter's update for one byte is the overlap of one more byte |
| StdioClient.CounterIsOverlap | tools/McpStdioClient/Program.cs:141-143 | until the terminator is seen, the counter equals the length of the longest suffix of the bytes read that is a prefix of CR LF CR LF, so it stays below 4 |
| StdioClient.HeaderEnd | tools/McpStdioClient/Program.cs:134-146 | the first prefix ending with CR LF CR LF, or the whole input |
| StdioClient.HeaderLengthUnique | tools/McpStdioClient/Program.cs:134-146 | a length that stops at the first terminator, or at the end when there is none, is the header length |
| StdioClient.ReadHeaders | tools/McpStdioClient/Program.cs:128-149 | it consumes and returns, ASCII-decoded, exactly the shortest prefix ending with CR LF CR LF, or everything when none does |
| StdioClient.HeaderLengthOfFramed | tools/McpStdioClient/Program.cs:134-146 | a header ending with the terminator, and nowhere before it, is read up to its end whatever follows |
| StdioClient.HeaderLengthWithoutCr | tools/McpStdioClient/Program.cs:134-146 | bytes without CR are read to the end of the stream |
| StdioClient.LineEnd | tools/McpStdioClient/Program.cs:155 | the first line ends at the first CR or LF |
| StdioClient.IndexOfIgnoreCase | tools/McpStdioClient/Program.cs:157 | the first position where the key occurs ignoring case, or -1 when there is none |
| StdioClient.ContentLengthInCases | tools/McpStdioClient/Program.cs:151-165 | `ContentLengthIn`: -1 when no line declares a length (`LineLength` is none); otherwise the value of the first line that declares one |
| StdioClient.ParseContentLength | tools/McpStdioClient/Program.cs:151-165 | the loop returns the first parsing value after a "Content-Length:" found ignoring case (trimmed first), or -1 |
| StdioClient.TrimDigits | tools/McpStdioClient/Program.cs:160 | trimming the space before a run of digits leaves the digits |
| StdioClient.DeclaringLine | tools/McpStdioClient/Program.cs:157-161 | the line `Content-Length: N` declares N |
| StdioClient.FirstLineDeclares | tools/McpStdioClient/Program.cs:151-165 | text whose first line is `Content-Length: N` declares N, whatever follows |
| StdioClient.ReadExact | tools/McpStdioClient/Program.cs:167-178 | exactly the first `length` bytes when the stream has them; otherwise `EndOfStreamException` after consuming everything |
| StdioClient.Run | tools/McpStdioClient/Program.cs:12-126 | exit 2, 3 or 4 for missing arguments or files, sending nothing; otherwise it sends the request and ends as the response dictates |
| StdioClient.Exchange | tools/McpStdioClient/Program.cs:72-120 | it sends the request; it exits 5 for a missing or non-positive length and crashes when the body is short; on exit 0 it prints exactly the declared body |
| StdioClient.WellFramedResponseSucceeds | tools/McpStdioClient/Program.cs:104-120 | a response framed with CR LF CR LF that declares its body's length prints exactly that body and exits 0, whatever follows |
| StdioClient.LfFramedResponseIsNeverRead | tools/McpStdioClient/Program.cs:77 | a reply framed the way this client frames requests is read entirely as header and ends in `EndOfStreamException` |
| Weather.WeatherForecast.constructor | CQRSPattern.Application/Features/Models/WeatherForecast.cs:5-8 | the four fields take the given values |
| Weather.FirstIndex | CQRSPattern.Infrastructure.Persistence/Repositories/Read/WeatherForecastRepository.cs:49 | the position of the first forecast with the id, at the end only when no forecast has it |
| Weather.IndexOf | CQRSPattern.Infrastructure.Persistence/Repositories/Read/WeatherForecastRepository.cs:85 | the first position holding that very object, as `List.Remove` finds it |
| Weather.RemoveAt | CQRSPattern.Infrastructure.Persistence/Repositories/Read/WeatherForecastRepository.cs:85 | one element fewer; those before the position stay and those after shift down by one |
| Weather.IdsValidAppend | CQRSPattern.Infrastructure.Persistence/Repositories/Read/WeatherForecastRepository.cs:54-55 | appending the counter's id and bumping the counter keeps ids distinct and below the counter |
| Weather.IdsValidRemove | CQRSPattern.Infrastructure.Persistence/Repositories/Read/WeatherForecastRepository.cs:85 | removing one id keeps the rest valid, and the removed id is gone |
| Weather.WeatherForecastRepository.constructor | CQRSPattern.Infrastructure.Persistence/Repositories/Read/WeatherForecastRepository.cs:28-40 | five new forecasts with ids 1 to 5, the i-th dated i days after now with the i-th drawn temperature and summary; counter 6; no notification |
| Weather.WeatherForecastRepository.GetById | CQRSPattern.Infrastructure.Persistence/Repositories/Read/WeatherForecastRepository.cs:47-50 | null if and only if no forecast has the id; otherwise the first one that has it |
| Weather.WeatherForecastRepository.Add | CQRSPattern.Infrastructure.Persistence/Repositories/Read/WeatherForecastRepository.cs:52-61 | the caller's object gets the counter's id, is appended, is notified once and is returned; the counter goes up by one |
| Weather.WeatherForecastRepository.Update | CQRSPattern.Infrastructure.Persistence/Repositories/Read/WeatherForecastRepository.cs:63-77 | a missing id gives null with nothing changed or notified; otherwise the first match gets the date, temperature and summary, is notified once and is returned; the list, the ids and the other forecasts are unchanged |
| Weather.WeatherForecastRepository.Delete | CQRSPattern.Infrastructure.Persistence/Repositories/Read/WeatherForecastRepository.cs:79-91 | `true` if and only if the id was present; then the first match is removed and notified once, and the id is no longer found; otherwise nothing changes |

## Left out

- **I/O and time.**
  - Cancellation tokens and the client's 30-second timeout are not modelled.
  - `DateTime.Now`, `DateTime.Today` and `AddYears` are parameters, and dates are integers compared only by order.
  - `Random.Shared` draws are parameters of the weather store's constructor.
  - Each seeded forecast's date is the parameter `now` plus its index.
- **Stdio client process handling.**
  - Starting the server process, forwarding its standard error, the hex dump, killing it and reading the request file are left out.
  - File existence is a parameter.
  - The console output is modelled as the printed bytes, before UTF-8 decoding.
  - How the stream splits its bytes between reads is the `chunk` parameter of `InputStream`.
- **Logging.** No `ILogger` call carries behaviour.
- **JSON serialisation and reflection.**
  - `JsonSerializer` is not modelled. Parameters arrive already read, as the `PatchParams` and `JsonToken` datatypes, and a deserialisation error is a `JsonException` input.
  - `OptionalJsonConverterFactory` (`Optional.cs:84-96`) only picks the converter by reflection.
  - `GetPropertyExpression` builds a LINQ expression. The model keeps only the property chosen, because every listed name exists on `EmployeeModel`.
- **JSON Patch application.**
  - Executing a `JsonPatchDocument` belongs to the library and is not modelled; the model follows the conversion up to the list of document operations.
  - `PatchWithJsonPatchAsync` has no implementation in the repository, so JSON Patch application is not part of this model.
- **Date parsing.** `DateTime.TryParse` depends on the locale, so it is the predicate parameter `parsesDate`.
- StdioClient.ParseContentLength: `int.TryParse` reads its sign symbols from the current culture; the model accepts only `-` and `+`. Trailing white space and NUL characters are modelled.
- **Text.**
  - Case-insensitive comparison and `ToLowerInvariant` are modelled on the ASCII range only.
  - Strings are sequences of Unicode scalar values, not UTF-16 code units; UTF-8 encoding works on scalar values, so surrogate pairs are not modelled.
- **Database.**
  - The identity column is the counter `nextId`.
  - `SaveChangesAsync` is a commit count, and every commit succeeds.
  - Column lengths and required columns are not modelled. In particular the one-character Gender column is not, so `EmployeeStore.EmployeeWriteRepository.PatchAsync` and `McpPatchFlow.HandlePatch` report success for gender patches the real database would refuse.
  - Entity tracking and concurrency conflicts are not modelled.
- **Weather store.**
  - `OnDataChange` subscribers are not modelled; each notification is recorded in `changes`.
  - `GetAll` only returns the list, so it is not modelled.
  - `TemperatureF` is floating-point arithmetic (`WeatherForecast.cs:10`), and it is not modelled.
- Weather.WeatherForecastRepository.Add: the id facts and the store invariant are promised only when the forecast object is not already in the store. Re-adding a stored object gives one object two list positions, and its id changes at both.
- PatchOptional.WriteReadRoundTrip: a present null is written as JSON null and read back through the null-token branch as `default(T)`. This is the same value only when `T` admits null. The model treats every written value as a value token.
- PatchOptional.WriteReadRoundTrip: an absent optional is not written and read back. The serializer writes the property name before calling the converter, and the converter then writes nothing, so the writer refuses the incomplete property (`PatchOptional.EmittedPropertyComplete`); no `JsonIgnoreCondition` is configured to skip it. The writer's exception is not modelled. The absent half of the lemma is about a property left out of the JSON by its sender.
- **Null operations.** An operation list element is never null in the model. A JSON `[null]` passes `[MinLength(1)]`, and then `IsValid`, `ToJsonPatchDocument` and `ValidateForEmployee` each throw `NullReferenceException` on that element; this error path is not modelled.
- **Other code around the core.**
  - The other MCP handlers, the add, update and query command handlers, the mediator plumbing and the HTTP controllers only forward to the core and are not modelled.
  - The host, dependency-injection and ORM wiring is also not modelled.
