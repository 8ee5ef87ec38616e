/**
 * The pieces of .NET and FluentValidation that the core passes around:
 * the exception classes it throws or catches, the validation failure record,
 * and a result type that stands for "returned a value or threw".
 */
module Framework {
  import opened Common

  /** FluentValidation's `Severity`. */
  datatype Severity = Error | Warning | Info

  /** FluentValidation's `ValidationFailure`, reduced to the fields the core reads. */
  datatype ValidationFailure = ValidationFailure(propertyName: string, errorMessage: string, severity: Severity)

  /** A failure as the rule sets produce it: severity `Error`, the library default. */
  function Failure(propertyName: string, errorMessage: string): ValidationFailure
  {
    ValidationFailure(propertyName, errorMessage, Error)
  }

  /** The exception classes the core throws or catches. */
  datatype Exception =
    | ArgumentException(message: string)
    | ArgumentNullException(paramName: string)
    | KeyNotFoundException(message: string)
    | JsonException(message: string)
    | InvalidOperationException(message: string)
    | NullReferenceException
    | ValidationException(errors: seq<ValidationFailure>)
    | EndOfStreamException(message: string)
  {
    /** `ArgumentException` and its subclass `ArgumentNullException`. */
    predicate IsArgumentException()
    {
      ArgumentException? || ArgumentNullException?
    }

    /**
     * The exception's `Message`, as .NET builds it for the classes that fix
     * it. FluentValidation's `ValidationException` builds "Validation failed: "
     * followed by one line per failure; `Environment.NewLine` is taken to be LF.
     */
    function Message(): string
    {
      match this
      case ArgumentException(m) => m
      case ArgumentNullException(p) => "Value cannot be null. (Parameter '" + p + "')"
      case KeyNotFoundException(m) => m
      case JsonException(m) => m
      case InvalidOperationException(m) => m
      case NullReferenceException => "Object reference not set to an instance of an object."
      case ValidationException(errors) => "Validation failed: " + FailureLines(errors)
      case EndOfStreamException(m) => m
    }
  }

  /** `Severity.ToString()`. */
  function SeverityName(s: Severity): string
  {
    match s
    case Error => "Error"
    case Warning => "Warning"
    case Info => "Info"
  }

  /** One " -- Property: message Severity: level" line per failure, each after a line break. */
  function FailureLines(errors: seq<ValidationFailure>): string
    decreases |errors|
  {
    if errors == [] then ""
    else
      var f := errors[0];
      "\n -- " + f.propertyName + ": " + f.errorMessage + " Severity: " + SeverityName(f.severity)
      + FailureLines(errors[1..])
  }

  /** A call that returned `value` or threw `error`. */
  datatype Result<+T> = Ok(value: T) | Fail(error: Exception)

  /** A call with no return value that completed or threw. */
  datatype Completion = Done | Threw(exception: Exception)
}
