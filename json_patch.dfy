/**
 * The JSON Patch request (section 4 of RFC 6902) accepted for an employee and
 * the three checks made of it: `JsonPatchRequest.IsValid`, the converter's
 * operation dispatch and path-to-property map (`ToJsonPatchDocument`), and
 * `ValidateForEmployee`'s list of errors. Paths are JSON Pointers (section 3
 * of RFC 6901) restricted to a fixed list, with no `~0`/`~1` unescaping.
 */
module JsonPatch {
  import opened Common
  import opened Framework

  /**
   * An operation's `value`: absent/null, a `JsonElement` (a JSON string or
   * any other JSON value), or a CLR object (a string or anything else).
   */
  datatype PatchValue = NullValue | JsonString(text: string) | JsonOther | ClrString(text: string) | ClrOther

  /** `JsonPatchOperation`; `op` and `path` are `None` when the JSON carried null. */
  datatype JsonPatchOperation = JsonPatchOperation(op: Option<string>, path: Option<string>, value: PatchValue, from: Option<string>)

  /** `JsonPatchRequest`; `operations` is `None` when the JSON carried null. */
  datatype JsonPatchRequest = JsonPatchRequest(operations: Option<seq<JsonPatchOperation>>)

  // ---------------------------------------------------------------------
  // JsonPatchRequest.IsValid
  // ---------------------------------------------------------------------

  /** The operation names of section 4 of RFC 6902, in lower case. */
  const ValidOps: seq<string> := ["add", "remove", "replace", "move", "copy", "test"]

  /** The test `IsValid` applies to each operation. */
  predicate OperationIsValid(o: JsonPatchOperation)
  {
    && !IsNullOrWhiteSpace(o.op)
    && ToLowerInvariant(o.op.value) in ValidOps
    && !IsNullOrWhiteSpace(o.path)
    && StartsWith(o.path.value, "/")
  }

  /** `IsValid`: at least one operation, and every one passes `OperationIsValid`. */
  predicate IsValid(request: JsonPatchRequest)
  {
    && request.operations.Some?
    && |request.operations.value| > 0
    && forall i :: 0 <= i < |request.operations.value| ==> OperationIsValid(request.operations.value[i])
  }

  /** A null or empty operation list is never valid. */
  lemma NoOperationsIsInvalid()
    ensures !IsValid(JsonPatchRequest(None)) && !IsValid(JsonPatchRequest(Some([])))
  {
  }

  /** The order of the operations does not matter to `IsValid`. */
  lemma IsValidIgnoresOrder(a: seq<JsonPatchOperation>, b: seq<JsonPatchOperation>)
    requires multiset(a) == multiset(b)
    ensures IsValid(JsonPatchRequest(Some(a))) == IsValid(JsonPatchRequest(Some(b)))
  {
    assert |a| == |multiset(a)| == |multiset(b)| == |b|;
    if IsValid(JsonPatchRequest(Some(a))) {
      forall j | 0 <= j < |b|
        ensures OperationIsValid(b[j])
      {
        assert b[j] in multiset(a);
        var i :| 0 <= i < |a| && a[i] == b[j];
      }
    }
    if IsValid(JsonPatchRequest(Some(b))) {
      forall i | 0 <= i < |a|
        ensures OperationIsValid(a[i])
      {
        assert a[i] in multiset(b);
        var j :| 0 <= j < |b| && b[j] == a[i];
      }
    }
  }

  /** `IsValid` never looks at an operation's `value` or `from`. */
  lemma IsValidIgnoresValueAndFrom(o: JsonPatchOperation, value: PatchValue, from: Option<string>)
    ensures OperationIsValid(o.(value := value, from := from)) == OperationIsValid(o)
  {
  }

  /** A path that starts with '/' is never blank, so the blank-path test adds nothing. */
  lemma SlashPathIsNotBlank(path: string)
    requires StartsWith(path, "/")
    ensures !IsNullOrWhiteSpace(Some(path))
  {
    assert path[0] == '/';
  }

  // ---------------------------------------------------------------------
  // ToJsonPatchDocument and GetPropertyExpression
  // ---------------------------------------------------------------------

  /** The six properties of `EmployeeModel` a path can name. */
  datatype EmployeeProperty = FirstName | LastName | Gender | BirthDate | HireDate | Id

  /** The lower-case key the path map uses for each property. */
  function PropertyKey(p: EmployeeProperty): string
  {
    match p
    case FirstName => "firstname"
    case LastName => "lastname"
    case Gender => "gender"
    case BirthDate => "birthdate"
    case HireDate => "hiredate"
    case Id => "id"
  }

  /** The switch over the lower-cased path with its leading slashes removed. */
  function PropertyForKey(key: string): (r: Option<EmployeeProperty>)
    ensures r.Some? ==> PropertyKey(r.value) == key
  {
    if key == "firstname" then Some(FirstName)
    else if key == "lastname" then Some(LastName)
    else if key == "gender" then Some(Gender)
    else if key == "birthdate" then Some(BirthDate)
    else if key == "hiredate" then Some(HireDate)
    else if key == "id" then Some(Id)
    else None
  }

  /** `GetPropertyExpression`: the property a path names, or the exception the switch throws. */
  function GetPropertyExpression(path: Option<string>): (r: Result<EmployeeProperty>)
    ensures path.None? ==> r == Fail(NullReferenceException)
    ensures r.Ok? ==> PropertyKey(r.value) == ToLowerInvariant(TrimStartChar(path.value, '/'))
    ensures r.Fail? && path.Some? ==>
              r.error == InvalidOperationException("Unsupported path '" + path.value + "' for EmployeeModel")
  {
    if path.None? then Fail(NullReferenceException)
    else
      match PropertyForKey(ToLowerInvariant(TrimStartChar(path.value, '/')))
      case Some(p) => Ok(p)
      case None => Fail(InvalidOperationException("Unsupported path '" + path.value + "' for EmployeeModel"))
  }

  /** Every property is reached from its own key with one leading slash. */
  lemma PathMapRoundTrip(p: EmployeeProperty)
    ensures GetPropertyExpression(Some("/" + PropertyKey(p))) == Ok(p)
  {
    var key := PropertyKey(p);
    KeyShape(p);
    TrimOneSlash(key);
    LowerOfNoUpper(key);
  }

  /** Keys are non-empty, lower case and do not start with '/'. */
  lemma KeyShape(p: EmployeeProperty)
    ensures |PropertyKey(p)| > 0 && PropertyKey(p)[0] != '/' && NoUpper(PropertyKey(p))
  {
  }

  /** Dropping the leading slashes of '/' + a key that starts with none gives the key. */
  lemma TrimOneSlash(key: string)
    requires |key| > 0 && key[0] != '/'
    ensures TrimStartChar("/" + key, '/') == key
  {
    assert ("/" + key)[1..] == key;
  }

  /** No upper-case ASCII letter occurs in `s`. */
  predicate NoUpper(s: string)
  {
    forall i :: 0 <= i < |s| ==> !('A' <= s[i] <= 'Z')
  }

  lemma LowerOfNoUpper(s: string)
    requires NoUpper(s)
    ensures ToLowerInvariant(s) == s
  {
  }

  /** The operation kinds of section 4 of RFC 6902. */
  datatype OpKind = AddOp | RemoveOp | ReplaceOp | MoveOp | CopyOp | TestOp

  /** The switch over the lower-cased operation name. */
  function OpKindFor(lower: string): (r: Option<OpKind>)
    ensures r.Some? <==> lower in ValidOps
  {
    if lower == "add" then Some(AddOp)
    else if lower == "remove" then Some(RemoveOp)
    else if lower == "replace" then Some(ReplaceOp)
    else if lower == "move" then Some(MoveOp)
    else if lower == "copy" then Some(CopyOp)
    else if lower == "test" then Some(TestOp)
    else None
  }

  /** One operation of the `JsonPatchDocument<EmployeeModel>` being built. */
  datatype DocumentOperation = DocumentOperation(kind: OpKind, path: EmployeeProperty, from: Option<EmployeeProperty>, value: PatchValue)

  /** What one pass of the `foreach` does with an operation: the document operation it appends, or the exception. */
  function ConvertOperation(o: JsonPatchOperation): (r: Result<DocumentOperation>)
    ensures o.op.None? ==> r == Fail(NullReferenceException)
    ensures o.op.Some? && OpKindFor(ToLowerInvariant(o.op.value)).None? ==>
              r == Fail(InvalidOperationException("Unsupported operation: " + o.op.value))
    ensures r.Ok? ==> o.op.Some? && Some(r.value.kind) == OpKindFor(ToLowerInvariant(o.op.value))
    ensures r.Ok? ==> GetPropertyExpression(o.path) == Ok(r.value.path)
    ensures r.Ok? ==> (r.value.from.Some? <==> r.value.kind in {MoveOp, CopyOp})
    ensures r.Ok? && r.value.from.Some? ==> GetPropertyExpression(o.from) == Ok(r.value.from.value)
    ensures r.Ok? ==> r.value.value == if r.value.kind in {AddOp, ReplaceOp, TestOp} then o.value else NullValue
  {
    if o.op.None? then Fail(NullReferenceException)
    else
      match OpKindFor(ToLowerInvariant(o.op.value))
      case None => Fail(InvalidOperationException("Unsupported operation: " + o.op.value))
      case Some(kind) =>
        if kind == MoveOp || kind == CopyOp then
          if IsNullOrWhiteSpace(o.from) then
            Fail(InvalidOperationException(if kind == MoveOp then "Move operation requires 'from' property"
                                           else "Copy operation requires 'from' property"))
          else
            match GetPropertyExpression(o.from)
            case Fail(e) => Fail(e)
            case Ok(from) =>
              match GetPropertyExpression(o.path)
              case Fail(e) => Fail(e)
              case Ok(to) => Ok(DocumentOperation(kind, to, Some(from), NullValue))
        else
          match GetPropertyExpression(o.path)
          case Fail(e) => Fail(e)
          case Ok(to) =>
            Ok(DocumentOperation(kind, to, None, if kind == RemoveOp then NullValue else o.value))
  }

  /**
   * A conversion succeeds exactly when the operation is known, its path maps
   * and, for move and copy, its `from` is given and maps.
   */
  lemma ConvertOperationSucceeds(o: JsonPatchOperation)
    ensures ConvertOperation(o).Ok? <==>
              && o.op.Some? && OpKindFor(ToLowerInvariant(o.op.value)).Some?
              && GetPropertyExpression(o.path).Ok?
              && (OpKindFor(ToLowerInvariant(o.op.value)).value in {MoveOp, CopyOp} ==>
                    !IsNullOrWhiteSpace(o.from) && GetPropertyExpression(o.from).Ok?)
  {
  }

  /**
   * An unmapped path fails with the mapping's own exception; for move and
   * copy the `from` is mapped first, so an unmapped `from` wins.
   */
  lemma ConvertOperationPathFailures(o: JsonPatchOperation, kind: OpKind)
    requires o.op.Some? && OpKindFor(ToLowerInvariant(o.op.value)) == Some(kind)
    ensures kind in {MoveOp, CopyOp} && !IsNullOrWhiteSpace(o.from) && GetPropertyExpression(o.from).Fail? ==>
              ConvertOperation(o) == Fail(GetPropertyExpression(o.from).error)
    ensures (kind !in {MoveOp, CopyOp} || (!IsNullOrWhiteSpace(o.from) && GetPropertyExpression(o.from).Ok?))
            && GetPropertyExpression(o.path).Fail? ==>
              ConvertOperation(o) == Fail(GetPropertyExpression(o.path).error)
  {
  }

  /** A move or copy without a usable `from` fails before either path is looked at. */
  lemma MoveCopyNeedFromFirst(o: JsonPatchOperation)
    requires o.op.Some? && OpKindFor(ToLowerInvariant(o.op.value)) in {Some(MoveOp), Some(CopyOp)}
    requires IsNullOrWhiteSpace(o.from)
    ensures ConvertOperation(o) == Fail(InvalidOperationException(
              if OpKindFor(ToLowerInvariant(o.op.value)) == Some(MoveOp) then "Move operation requires 'from' property"
              else "Copy operation requires 'from' property"))
    ensures forall path :: ConvertOperation(o.(path := path)) == ConvertOperation(o)
  {
  }

  /** Every operation converted by `convert`, in order, stopping at the first exception. */
  function ConvertEach(ops: seq<JsonPatchOperation>, convert: JsonPatchOperation -> Result<DocumentOperation>): Result<seq<DocumentOperation>>
    decreases |ops|
  {
    if ops == [] then Ok([])
    else
      match convert(ops[0])
      case Fail(e) => Fail(e)
      case Ok(d) =>
        match ConvertEach(ops[1..], convert)
        case Fail(e) => Fail(e)
        case Ok(rest) => Ok([d] + rest)
  }

  /** The whole conversion. */
  function ConvertAll(ops: seq<JsonPatchOperation>): Result<seq<DocumentOperation>>
  {
    ConvertEach(ops, ConvertOperation)
  }

  /** The document built so far, put in front of what the remaining operations give. */
  function Prefixed(done: seq<DocumentOperation>, rest: Result<seq<DocumentOperation>>): Result<seq<DocumentOperation>>
  {
    match rest
    case Fail(e) => Fail(e)
    case Ok(r) => Ok(done + r)
  }

  lemma PrefixedNothing(r: Result<seq<DocumentOperation>>)
    ensures Prefixed([], r) == r
  {
    if r.Ok? {
      assert [] + r.value == r.value;
    }
  }

  lemma PrefixedStep(done: seq<DocumentOperation>, d: DocumentOperation, rest: Result<seq<DocumentOperation>>)
    ensures Prefixed(done, Prefixed([d], rest)) == Prefixed(done + [d], rest)
  {
    if rest.Ok? {
      assert done + ([d] + rest.value) == done + [d] + rest.value;
    }
  }

  /**
   * `ToJsonPatchDocument`: `ArgumentNullException` for a null request, then
   * one document operation per request operation, in order, until one throws.
   */
  method ToJsonPatchDocument(request: Option<JsonPatchRequest>) returns (r: Result<seq<DocumentOperation>>)
    ensures request.None? ==> r == Fail(ArgumentNullException("request"))
    ensures request.Some? && request.value.operations.None? ==> r == Fail(NullReferenceException)
    ensures request.Some? && request.value.operations.Some? ==> r == ConvertAll(request.value.operations.value)
  {
    if request.None? {
      return Fail(ArgumentNullException("request"));
    }
    if request.value.operations.None? {
      return Fail(NullReferenceException);
    }
    var ops := request.value.operations.value;
    var document: seq<DocumentOperation> := [];
    var i := 0;
    assert ops[0..] == ops;
    PrefixedNothing(ConvertAll(ops));
    while i < |ops|
      invariant 0 <= i <= |ops|
      invariant ConvertAll(ops) == Prefixed(document, ConvertAll(ops[i..]))
    {
      assert ops[i..][1..] == ops[i + 1..];
      var step := ConvertOperation(ops[i]);
      if step.Fail? {
        return Fail(step.error);
      }
      PrefixedStep(document, step.value, ConvertAll(ops[i + 1..]));
      document := document + [step.value];
      i := i + 1;
    }
    assert ops[i..] == [];
    assert document + [] == document;
    return Ok(document);
  }

  /** A successful conversion has one document operation per request operation, each its own conversion. */
  lemma {:induction false} ConvertEachShape(ops: seq<JsonPatchOperation>, convert: JsonPatchOperation -> Result<DocumentOperation>)
    requires ConvertEach(ops, convert).Ok?
    ensures |ConvertEach(ops, convert).value| == |ops|
    ensures forall i :: 0 <= i < |ops| ==> convert(ops[i]) == Ok(ConvertEach(ops, convert).value[i])
    decreases |ops|
  {
    if ops != [] {
      ConvertEachShape(ops[1..], convert);
      var rest := ConvertEach(ops[1..], convert).value;
      assert ConvertEach(ops, convert).value == [convert(ops[0]).value] + rest;
      forall i | 1 <= i < |ops|
        ensures convert(ops[i]) == Ok(ConvertEach(ops, convert).value[i])
      {
        assert ops[i] == ops[1..][i - 1];
      }
    }
  }

  /** A failed conversion fails with the exception of its first failing operation. */
  lemma {:induction false} ConvertEachFailsAtFirst(ops: seq<JsonPatchOperation>, convert: JsonPatchOperation -> Result<DocumentOperation>)
    requires ConvertEach(ops, convert).Fail?
    ensures exists k :: 0 <= k < |ops| && convert(ops[k]) == Fail(ConvertEach(ops, convert).error)
                        && forall j :: 0 <= j < k ==> convert(ops[j]).Ok?
    decreases |ops|
  {
    if convert(ops[0]).Ok? {
      ConvertEachFailsAtFirst(ops[1..], convert);
      var k :| 0 <= k < |ops[1..]| && convert(ops[1..][k]) == Fail(ConvertEach(ops[1..], convert).error)
               && forall j :: 0 <= j < k ==> convert(ops[1..][j]).Ok?;
      assert convert(ops[k + 1]) == Fail(ConvertEach(ops, convert).error);
      forall j | 0 <= j < k + 1
        ensures convert(ops[j]).Ok?
      {
        if j > 0 {
          assert ops[j] == ops[1..][j - 1];
        }
      }
    }
  }

  /** A successful conversion has one document operation per request operation, each its own conversion. */
  lemma ConvertAllShape(ops: seq<JsonPatchOperation>)
    requires ConvertAll(ops).Ok?
    ensures |ConvertAll(ops).value| == |ops|
    ensures forall i :: 0 <= i < |ops| ==> ConvertOperation(ops[i]) == Ok(ConvertAll(ops).value[i])
  {
    ConvertEachShape(ops, ConvertOperation);
  }

  /** A failed conversion fails with the exception of its first failing operation. */
  lemma ConvertAllFailsAtFirst(ops: seq<JsonPatchOperation>)
    requires ConvertAll(ops).Fail?
    ensures exists k :: 0 <= k < |ops| && ConvertOperation(ops[k]) == Fail(ConvertAll(ops).error)
                        && forall j :: 0 <= j < k ==> ConvertOperation(ops[j]).Ok?
  {
    ConvertEachFailsAtFirst(ops, ConvertOperation);
  }

  // ---------------------------------------------------------------------
  // ValidateForEmployee
  // ---------------------------------------------------------------------

  /** The paths `ValidateForEmployee` accepts, in the order its message lists them. */
  const ValidPaths: seq<string> := ["/firstName", "/lastName", "/gender", "/birthDate", "/hireDate", "/id"]

  /** `ValidPaths` lower-cased, and the property each one names. */
  const LowerPaths: seq<string> := ["/firstname", "/lastname", "/gender", "/birthdate", "/hiredate", "/id"]
  const PathProperties: seq<EmployeeProperty> := [FirstName, LastName, Gender, BirthDate, HireDate, Id]

  predicate IsValidPath(path: string)
  {
    exists i :: 0 <= i < |ValidPaths| && EqualsIgnoreCase(path, ValidPaths[i])
  }

  predicate IsIdPath(path: string)
  {
    EqualsIgnoreCase(path, "/id")
  }

  predicate IsDatePath(path: string)
  {
    EqualsIgnoreCase(path, "/birthDate") || EqualsIgnoreCase(path, "/hireDate")
  }

  function InvalidPathMessage(path: string): string
  {
    "Invalid path '" + path + "'. Valid paths are: " + Join(", ", ValidPaths)
  }

  const CannotModifyId := "Cannot modify employee ID"

  function InvalidDateMessage(path: string): string
  {
    "Invalid date format in path '" + path + "'. Use ISO 8601 format (e.g., '1990-01-01T00:00:00Z')"
  }

  /** The value of a date path does not parse as a date (`DateTime.TryParse` is `parsesDate`). */
  predicate BadDate(value: PatchValue, parsesDate: string -> bool)
  {
    match value
    case JsonString(t) => !parsesDate(t)
    case ClrString(t) => !parsesDate(t)
    case _ => false
  }

  /** The first check: a path outside the list. */
  function PathErrors(path: string): (r: seq<string>)
    ensures r == [] <==> IsValidPath(path)
  {
    if IsValidPath(path) then [] else [InvalidPathMessage(path)]
  }

  /** The second check: adding or replacing the id. */
  function IdErrors(path: string, op: string): (r: seq<string>)
    ensures r != [] <==> IsIdPath(path) && ToLowerInvariant(op) in ["add", "replace"]
  {
    if IsIdPath(path) && ToLowerInvariant(op) in ["add", "replace"] then [CannotModifyId] else []
  }

  /** The third check: a date path whose string value does not parse. */
  function DateErrors(path: string, value: PatchValue, parsesDate: string -> bool): (r: seq<string>)
    ensures r != [] <==> IsDatePath(path) && BadDate(value, parsesDate)
  {
    if IsDatePath(path) && value != NullValue && BadDate(value, parsesDate) then [InvalidDateMessage(path)] else []
  }

  /**
   * The errors one operation contributes, or the exception a null path
   * causes, or a null op on the `/id` path (the op is read only there).
   */
  function OperationErrors(o: JsonPatchOperation, parsesDate: string -> bool): (r: Result<seq<string>>)
    ensures r.Fail? ==> r.error == NullReferenceException
    ensures r.Fail? <==> o.path.None? || (IsIdPath(o.path.value) && o.op.None?)
  {
    if o.path.None? then Fail(NullReferenceException)
    else if IsIdPath(o.path.value) && o.op.None? then Fail(NullReferenceException)
    else
      var p := o.path.value;
      Ok(PathErrors(p) + (if IsIdPath(p) then IdErrors(p, o.op.value) else []) + DateErrors(p, o.value, parsesDate))
  }

  /** The three messages are different strings. */
  lemma MessagesDiffer(p: string)
    ensures InvalidPathMessage(p) != CannotModifyId && InvalidDateMessage(p) != CannotModifyId
    ensures InvalidPathMessage(p) != InvalidDateMessage(p)
  {
    var path := "Invalid path '" + p;
    var date := "Invalid date format in path '" + p;
    assert path[0] == 'I' && path[8] == 'p';
    assert date[0] == 'I' && date[8] == 'd';
    assert InvalidPathMessage(p)[0] == 'I' && InvalidPathMessage(p)[8] == 'p';
    assert InvalidDateMessage(p)[0] == 'I' && InvalidDateMessage(p)[8] == 'd';
    assert CannotModifyId[0] == 'C';
  }

  /** `/id` and the date paths are valid paths, and no path is both. */
  lemma PathClassesExclusive(p: string)
    ensures IsIdPath(p) ==> IsValidPath(p) && !IsDatePath(p)
    ensures IsDatePath(p) ==> IsValidPath(p)
  {
    assert ValidPaths[5] == "/id" && ValidPaths[3] == "/birthDate" && ValidPaths[4] == "/hireDate";
    if IsIdPath(p) {
      assert |ToLowerInvariant(p)| == |ToLowerInvariant("/id")| == 3;
      assert |ToLowerInvariant("/birthDate")| == 10 && |ToLowerInvariant("/hireDate")| == 9;
    }
  }

  /**
   * What the three checks say about one operation: at most one error, and
   * each message exactly when its check fails.
   */
  lemma OperationErrorsReport(o: JsonPatchOperation, parsesDate: string -> bool)
    requires OperationErrors(o, parsesDate).Ok?
    ensures var errs := OperationErrors(o, parsesDate).value;
            var p := o.path.value;
            && |errs| <= 1
            && (InvalidPathMessage(p) in errs <==> !IsValidPath(p))
            && (CannotModifyId in errs <==> IsIdPath(p) && ToLowerInvariant(o.op.value) in ["add", "replace"])
            && (InvalidDateMessage(p) in errs <==> IsDatePath(p) && BadDate(o.value, parsesDate))
  {
    var p := o.path.value;
    MessagesDiffer(p);
    PathClassesExclusive(p);
  }

  /** The errors `check` gives each operation, in order, or the first exception. */
  function Gather(ops: seq<JsonPatchOperation>, check: JsonPatchOperation -> Result<seq<string>>): Result<seq<string>>
    decreases |ops|
  {
    if ops == [] then Ok([])
    else
      match check(ops[0])
      case Fail(e) => Fail(e)
      case Ok(errs) =>
        match Gather(ops[1..], check)
        case Fail(e) => Fail(e)
        case Ok(rest) => Ok(errs + rest)
  }

  /** The errors of all operations in order, or the first exception. */
  function EmployeeErrors(ops: seq<JsonPatchOperation>, parsesDate: string -> bool): Result<seq<string>>
  {
    Gather(ops, o => OperationErrors(o, parsesDate))
  }

  function ErrorsPrefixed(done: seq<string>, rest: Result<seq<string>>): Result<seq<string>>
  {
    match rest
    case Fail(e) => Fail(e)
    case Ok(r) => Ok(done + r)
  }

  lemma ErrorsPrefixedNothing(r: Result<seq<string>>)
    ensures ErrorsPrefixed([], r) == r
  {
    if r.Ok? {
      assert [] + r.value == r.value;
    }
  }

  /** One operation's worth of `EmployeeErrors`. */
  lemma EmployeeErrorsUnfold(ops: seq<JsonPatchOperation>, parsesDate: string -> bool)
    requires ops != []
    ensures OperationErrors(ops[0], parsesDate).Fail? ==> EmployeeErrors(ops, parsesDate) == OperationErrors(ops[0], parsesDate)
    ensures OperationErrors(ops[0], parsesDate).Ok? ==>
              EmployeeErrors(ops, parsesDate) == ErrorsPrefixed(OperationErrors(ops[0], parsesDate).value, EmployeeErrors(ops[1..], parsesDate))
  {
  }

  lemma ErrorsPrefixedStep(done: seq<string>, errs: seq<string>, rest: Result<seq<string>>)
    ensures ErrorsPrefixed(done, ErrorsPrefixed(errs, rest)) == ErrorsPrefixed(done + errs, rest)
  {
    if rest.Ok? {
      assert done + (errs + rest.value) == done + errs + rest.value;
    }
  }

  lemma AppendThree(done: seq<string>, a: seq<string>, b: seq<string>, c: seq<string>)
    ensures done + a + b + c == done + (a + b + c)
  {
  }

  /**
   * One pass of `ValidateForEmployee`'s loop: the three checks of `o`, each
   * adding its message to `errors`, or the exception a null path or op causes.
   */
  method AddOperationErrors(errors: seq<string>, o: JsonPatchOperation, parsesDate: string -> bool)
    returns (r: Result<seq<string>>)
    ensures r == ErrorsPrefixed(errors, OperationErrors(o, parsesDate))
  {
    if o.path.None? {
      return Fail(NullReferenceException);
    }
    var p := o.path.value;
    var list := CheckPath(errors, p);
    if IsIdPath(p) && o.op.None? {
      return Fail(NullReferenceException);
    }
    ghost var idPart := if IsIdPath(p) then IdErrors(p, o.op.value) else [];
    var afterId := CheckId(list, p, o.op);
    list := CheckDate(afterId, p, o.value, parsesDate);
    AppendThree(errors, PathErrors(p), idPart, DateErrors(p, o.value, parsesDate));
    return Ok(list);
  }

  /** The path check: the invalid-path message when the path is none of the valid ones. */
  method CheckPath(list: seq<string>, p: string) returns (r: seq<string>)
    ensures r == list + PathErrors(p)
  {
    r := list;
    if !IsValidPath(p) {
      r := r + [InvalidPathMessage(p)];
    }
  }

  /** The id check, which reads the op only on the `/id` path. */
  method CheckId(list: seq<string>, p: string, op: Option<string>) returns (r: seq<string>)
    requires IsIdPath(p) ==> op.Some?
    ensures r == list + (if IsIdPath(p) then IdErrors(p, op.value) else [])
  {
    r := list;
    if IsIdPath(p) {
      if ToLowerInvariant(op.value) in ["add", "replace"] {
        r := r + [CannotModifyId];
      }
    }
  }

  /** The date check: a string value on a date path that does not parse. */
  method CheckDate(list: seq<string>, p: string, value: PatchValue, parsesDate: string -> bool) returns (r: seq<string>)
    ensures r == list + DateErrors(p, value, parsesDate)
  {
    r := list;
    if IsDatePath(p) && value != NullValue {
      // a JSON string element, or a CLR string
      if (value.JsonString? || value.ClrString?) && !parsesDate(value.text) {
        r := r + [InvalidDateMessage(p)];
      }
    }
  }

  /** `ValidateForEmployee`: walks the operations, adding each one's errors to the list. */
  method ValidateForEmployee(request: JsonPatchRequest, parsesDate: string -> bool) returns (r: Result<seq<string>>)
    ensures request.operations.None? ==> r == Fail(NullReferenceException)
    ensures request.operations.Some? ==> r == EmployeeErrors(request.operations.value, parsesDate)
  {
    if request.operations.None? {
      return Fail(NullReferenceException);
    }
    var ops := request.operations.value;
    var errors: seq<string> := [];
    var i := 0;
    assert ops[0..] == ops;
    ErrorsPrefixedNothing(EmployeeErrors(ops, parsesDate));
    while i < |ops|
      invariant 0 <= i <= |ops|
      invariant EmployeeErrors(ops, parsesDate) == ErrorsPrefixed(errors, EmployeeErrors(ops[i..], parsesDate))
    {
      assert ops[i..][1..] == ops[i + 1..];
      EmployeeErrorsUnfold(ops[i..], parsesDate);
      var step := AddOperationErrors(errors, ops[i], parsesDate);
      if step.Fail? {
        return Fail(step.error);
      }
      ErrorsPrefixedStep(errors, OperationErrors(ops[i], parsesDate).value, EmployeeErrors(ops[i + 1..], parsesDate));
      errors := step.value;
      i := i + 1;
    }
    assert ops[i..] == [];
    assert errors + [] == errors;
    return Ok(errors);
  }

  /** The list never has more errors than there are operations. */
  lemma {:induction false} AtMostOneErrorPerOperation(ops: seq<JsonPatchOperation>, parsesDate: string -> bool)
    requires EmployeeErrors(ops, parsesDate).Ok?
    ensures |EmployeeErrors(ops, parsesDate).value| <= |ops|
    decreases |ops|
  {
    if ops != [] {
      OperationErrorsReport(ops[0], parsesDate);
      AtMostOneErrorPerOperation(ops[1..], parsesDate);
    }
  }

  /** The errors of two runs of operations are the errors of each, in order. */
  lemma ErrorsFollowOperationOrder(a: seq<JsonPatchOperation>, b: seq<JsonPatchOperation>, parsesDate: string -> bool)
    requires EmployeeErrors(a, parsesDate).Ok?
    ensures EmployeeErrors(a + b, parsesDate) == ErrorsPrefixed(EmployeeErrors(a, parsesDate).value, EmployeeErrors(b, parsesDate))
  {
    GatherAppend(a, b, o => OperationErrors(o, parsesDate));
  }

  lemma {:induction false} GatherAppend(a: seq<JsonPatchOperation>, b: seq<JsonPatchOperation>, check: JsonPatchOperation -> Result<seq<string>>)
    requires Gather(a, check).Ok?
    ensures Gather(a + b, check) == ErrorsPrefixed(Gather(a, check).value, Gather(b, check))
    decreases |a|
  {
    if a == [] {
      assert a + b == b;
      ErrorsPrefixedNothing(Gather(b, check));
    } else {
      assert (a + b)[0] == a[0];
      assert (a + b)[1..] == a[1..] + b;
      GatherAppend(a[1..], b, check);
      ErrorsPrefixedStep(check(a[0]).value, Gather(a[1..], check).value, Gather(b, check));
    }
  }

  /** Off the `/id` path, neither `op` nor `from` affects the errors. */
  lemma ValidationIgnoresOpAndFrom(o: JsonPatchOperation, op: Option<string>, from: Option<string>, parsesDate: string -> bool)
    requires o.path.Some? && !IsIdPath(o.path.value)
    ensures OperationErrors(o.(op := op, from := from), parsesDate) == OperationErrors(o, parsesDate)
  {
  }

  // ---------------------------------------------------------------------
  // Where the three checks disagree
  // ---------------------------------------------------------------------

  /** The lower-cased valid paths are '/' followed by a property's key. */
  lemma LowerPathsAreKeys(i: int)
    requires 0 <= i < |ValidPaths|
    ensures ToLowerInvariant(ValidPaths[i]) == LowerPaths[i] == "/" + PropertyKey(PathProperties[i])
  {
    var lower := ToLowerInvariant(ValidPaths[i]);
    assert |lower| == |LowerPaths[i]|;
    forall k | 0 <= k < |lower|
      ensures lower[k] == LowerPaths[i][k]
    {
    }
  }

  /** Looking a key up gives its property back. */
  lemma KeyLookup(p: EmployeeProperty)
    ensures PropertyForKey(PropertyKey(p)) == Some(p)
  {
  }

  /** '/' is the only character that lower-cases to '/', and a letter never does. */
  lemma SlashLowerCase(c: char)
    ensures LowerChar(c) == '/' <==> c == '/'
  {
  }

  /** Whatever path `ValidateForEmployee` accepts, the converter maps to the property it names. */
  lemma ValidPathsAreMapped(p: string)
    requires IsValidPath(p)
    ensures exists i :: 0 <= i < |ValidPaths| && EqualsIgnoreCase(p, ValidPaths[i])
                        && GetPropertyExpression(Some(p)) == Ok(PathProperties[i])
  {
    var i :| 0 <= i < |ValidPaths| && EqualsIgnoreCase(p, ValidPaths[i]);
    MappedAt(p, i);
  }

  /** A path equal, ignoring case, to the `i`-th valid path maps to the `i`-th property. */
  lemma MappedAt(p: string, i: int)
    requires 0 <= i < |ValidPaths| && EqualsIgnoreCase(p, ValidPaths[i])
    ensures GetPropertyExpression(Some(p)) == Ok(PathProperties[i])
  {
    LowerPathsAreKeys(i);
    var key := PropertyKey(PathProperties[i]);
    KeyShape(PathProperties[i]);
    var lower := ToLowerInvariant(p);
    assert lower == "/" + key;
    assert |p| >= 2;
    assert lower[0] == '/' && lower[1] == key[0];
    SlashLowerCase(p[0]);
    SlashLowerCase(p[1]);
    assert p[0] == '/' && p[1] != '/';
    assert TrimStartChar(p, '/') == p[1..] by {
      assert p[1..][0] == p[1];
    }
    assert ToLowerInvariant(p[1..]) == key by {
      assert lower[1..] == key;
    }
    KeyLookup(PathProperties[i]);
  }

  /** Every path `ValidateForEmployee` accepts has exactly one leading slash. */
  lemma ValidPathShape(p: string)
    requires IsValidPath(p)
    ensures |p| >= 2 && p[0] == '/' && p[1] != '/'
  {
    var i :| 0 <= i < |ValidPaths| && EqualsIgnoreCase(p, ValidPaths[i]);
    LowerPathsAreKeys(i);
    KeyShape(PathProperties[i]);
    var lower := ToLowerInvariant(p);
    assert lower[0] == '/' && lower[1] == PropertyKey(PathProperties[i])[0];
    SlashLowerCase(p[0]);
    SlashLowerCase(p[1]);
  }

  /** The converter strips every leading '/', so paths with none or with two map as well. */
  lemma ConverterIgnoresSlashes()
    ensures GetPropertyExpression(Some("firstName")) == Ok(FirstName)
    ensures GetPropertyExpression(Some("//firstName")) == Ok(FirstName)
  {
    LowerFirstName();
    assert TrimStartChar("firstName", '/') == "firstName" by {
      assert "firstName"[0] == 'f';
    }
    KeyPathMaps("firstName", FirstName);
    assert TrimStartChar("//firstName", '/') == "firstName" by {
      assert "//firstName"[1..] == "/firstName";
      assert "/firstName"[1..] == "firstName";
      assert "firstName"[0] == 'f';
    }
    KeyPathMaps("//firstName", FirstName);
  }

  /** A path that is a property's key once its slashes are dropped and it is lower-cased maps to that property. */
  lemma KeyPathMaps(p: string, prop: EmployeeProperty)
    requires ToLowerInvariant(TrimStartChar(p, '/')) == PropertyKey(prop)
    ensures GetPropertyExpression(Some(p)) == Ok(prop)
  {
    KeyLookup(prop);
  }

  lemma LowerFirstName()
    ensures ToLowerInvariant("firstName") == "firstname"
  {
    var l := ToLowerInvariant("firstName");
    assert l[5] == 'n';
    forall k | 0 <= k < 9
      ensures l[k] == "firstname"[k]
    {
    }
  }

  /**
   * `IsValid` refuses a path without a leading slash but lets a doubled one
   * through; `ValidateForEmployee` reports both.
   */
  lemma SlashHandlingDisagrees()
    ensures !OperationIsValid(JsonPatchOperation(Some("replace"), Some("firstName"), NullValue, None))
    ensures OperationIsValid(JsonPatchOperation(Some("replace"), Some("//firstName"), NullValue, None))
    ensures !IsValidPath("firstName") && !IsValidPath("//firstName")
  {
    assert ToLowerInvariant("replace") == "replace" by {
      LowerOfNoUpper("replace");
    }
    assert "replace" in ValidOps;
    assert !IsBlank("replace") && !IsBlank("//firstName") by {
      assert "replace"[0] == 'r' && "//firstName"[0] == '/';
    }
    assert StartsWith("//firstName", "/");
    assert !StartsWith("firstName", "/") by {
      assert "firstName"[..1][0] == 'f';
    }
    if IsValidPath("firstName") {
      ValidPathShape("firstName");
    }
    if IsValidPath("//firstName") {
      ValidPathShape("//firstName");
    }
  }
}
