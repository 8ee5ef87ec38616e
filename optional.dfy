/**
 * `Optional<T>`, the tri-state wrapper that tells "not provided" from a
 * provided value (a provided value may itself be null), and its JSON
 * converter. The type parameter stands for the C# `T?`: null, where `T`
 * allows it, is one of its values, and `dflt` stands for `default(T)`.
 */
module PatchOptional {
  import opened Framework
  import Common

  /**
   * The struct's two observable states. `None` also stands for
   * `default(Optional<T>)`, whose `_hasValue` is false; the value a `None`
   * carries is never observable, so it is not modelled.
   */
  datatype Optional<T> = None | Some(value: T)
  {
    /** `HasValue`. */
    predicate HasValue()
    {
      Some?
    }

    /** `Value`: the wrapped value, or the exception an absent one throws. */
    function Value(): (r: Result<T>)
      ensures r.Ok? <==> HasValue()
      ensures r.Ok? ==> this == Some(r.value)
      ensures r.Fail? ==> r.error == InvalidOperationException("Optional has no value")
    {
      if Some? then Ok(value) else Fail(InvalidOperationException("Optional has no value"))
    }

    /** `GetValueOrDefault(defaultValue)`. */
    function GetValueOrDefault(defaultValue: T): (r: T)
      ensures HasValue() ==> Value() == Ok(r)
      ensures !HasValue() ==> r == defaultValue
    {
      if Some? then value else defaultValue
    }

    /** `Map(mapper)`: absent stays absent, a present value is mapped. */
    function Map<U>(mapper: T -> U): (r: Optional<U>)
      ensures r.HasValue() == HasValue()
      ensures HasValue() ==> r.Value() == Ok(mapper(Value().value))
    {
      if Some? then Some(mapper(value)) else None
    }

    /**
     * `Equals(other)`: both absent, or both present with values equal under
     * `eq` (`EqualityComparer<T>.Default`).
     */
    predicate Equals(other: Optional<T>, eq: (T, T) -> bool)
    {
      HasValue() == other.HasValue() && (!HasValue() || eq(value, other.value))
    }

    /** `GetHashCode`: `HashCode.Combine(true, value)` when present, `false.GetHashCode()` (0) when absent. */
    function GetHashCode(combine: (bool, T) -> int): int
    {
      if Some? then combine(true, value) else 0
    }

    /** `ToString`, with `show` for the value's own `ToString`. */
    function ToString(show: T -> string): (r: string)
      ensures !HasValue() ==> r == "None"
      ensures HasValue() ==> |r| == |show(value)| + 6 && r[..5] == "Some(" && r[5..|r| - 1] == show(value)
      ensures HasValue() ==> r[|r| - 1] == ')'
    {
      if Some? then "Some(" + show(value) + ")" else "None"
    }
  }

  /**
   * `ToString` tells absent from present, and two present optionals print
   * alike only when their values do.
   */
  lemma ToStringDistinguishes<T>(x: Optional<T>, y: Optional<T>, show: T -> string)
    requires x.ToString(show) == y.ToString(show)
    ensures x.HasValue() == y.HasValue()
    ensures x.HasValue() ==> show(x.value) == show(y.value)
  {
  }

  /** The implicit conversion from a value: always present, even for null. */
  function FromValue<T>(v: T): (r: Optional<T>)
    ensures r.HasValue() && r.Value() == Ok(v)
  {
    Some(v)
  }

  /** `operator ==`. */
  predicate EqualsOperator<T>(left: Optional<T>, right: Optional<T>, eq: (T, T) -> bool)
  {
    left.Equals(right, eq)
  }

  /** `operator !=`. */
  predicate NotEqualsOperator<T>(left: Optional<T>, right: Optional<T>, eq: (T, T) -> bool)
  {
    !left.Equals(right, eq)
  }

  // ---------------------------------------------------------------------
  // Properties of the wrapper
  // ---------------------------------------------------------------------

  /** A value comparer that is reflexive, symmetric and transitive. */
  ghost predicate IsEquivalence<T(!new)>(eq: (T, T) -> bool)
  {
    && (forall a :: eq(a, a))
    && (forall a, b :: eq(a, b) ==> eq(b, a))
    && (forall a, b, c :: eq(a, b) && eq(b, c) ==> eq(a, c))
  }

  /** `Equals` is an equivalence whenever the value comparer is. */
  lemma EqualsIsEquivalence<T(!new)>(eq: (T, T) -> bool, x: Optional<T>, y: Optional<T>, z: Optional<T>)
    requires IsEquivalence(eq)
    ensures x.Equals(x, eq)
    ensures x.Equals(y, eq) ==> y.Equals(x, eq)
    ensures x.Equals(y, eq) && y.Equals(z, eq) ==> x.Equals(z, eq)
  {
  }

  /** Under the value type's own equality, `Equals` is structural equality. */
  lemma EqualsIsIdentity<T>(x: Optional<T>, y: Optional<T>)
    ensures x.Equals(y, (a: T, b: T) => a == b) <==> x == y
  {
  }

  /** Two absent optionals are equal, and absent never equals present. */
  lemma EqualsCases<T>(v: T, w: T, eq: (T, T) -> bool)
    ensures Optional<T>.None.Equals(None, eq)
    ensures !Optional<T>.None.Equals(Some(v), eq) && !Some(v).Equals(None, eq)
    ensures Some(v).Equals(Some(w), eq) <==> eq(v, w)
  {
  }

  /** `!=` is the negation of `==`. */
  lemma NotEqualsNegates<T>(x: Optional<T>, y: Optional<T>, eq: (T, T) -> bool)
    ensures NotEqualsOperator(x, y, eq) <==> !EqualsOperator(x, y, eq)
  {
  }

  /** Equal optionals hash alike whenever the value's hash agrees with its equality. */
  lemma EqualOptionalsHashAlike<T(!new)>(x: Optional<T>, y: Optional<T>, eq: (T, T) -> bool, combine: (bool, T) -> int)
    requires forall a, b :: eq(a, b) ==> combine(true, a) == combine(true, b)
    requires x.Equals(y, eq)
    ensures x.GetHashCode(combine) == y.GetHashCode(combine)
  {
  }

  /** Mapping the identity changes nothing; mapping twice is mapping the composition. */
  lemma MapLaws<T, U, V>(x: Optional<T>, f: T -> U, g: U -> V)
    ensures x.Map(v => v) == x
    ensures x.Map(f).Map(g) == x.Map(v => g(f(v)))
  {
  }

  /** Absent reads as the default; present reads as its value, whatever the default. */
  lemma GetValueOrDefaultCases<T>(x: Optional<T>, d: T)
    ensures x.GetValueOrDefault(d) == (if x.Value().Ok? then x.Value().value else d)
    ensures x == None ==> x.GetValueOrDefault(d) == d
  {
  }

  // ---------------------------------------------------------------------
  // OptionalJsonConverter<T>
  // ---------------------------------------------------------------------

  /** The token the reader stands on: JSON null, or a value that deserialises to `T`. */
  datatype JsonToken<T> = NullToken | ValueToken(value: T)

  /** `Read`: a null token gives a present default, any other token a present value. */
  function Read<T>(token: JsonToken<T>, dflt: T): (r: Optional<T>)
    ensures r.HasValue()
    ensures token.NullToken? ==> r == Some(dflt)
    ensures token.ValueToken? ==> r == Some(token.value)
  {
    match token
    case NullToken => Some(dflt)
    case ValueToken(v) => Some(v)
  }

  /**
   * A property of an object being read: absent from the JSON, the converter
   * is not called and the property keeps `default(Optional<T>)`.
   */
  function ReadProperty<T>(token: Common.Option<JsonToken<T>>, dflt: T): (r: Optional<T>)
    ensures token.None? <==> !r.HasValue()
    ensures token.Some? ==> r == Read(token.value, dflt)
  {
    if token.None? then None else Read(token.value, dflt)
  }

  /** `Write`: the tokens written, nothing for an absent value and the value for a present one. */
  function Write<T>(x: Optional<T>): (r: seq<T>)
    ensures |r| <= 1
    ensures r == [] <==> !x.HasValue()
    ensures x.HasValue() ==> r == [x.Value().value]
  {
    match x
    case None => []
    case Some(v) => [v]
  }

  /** The property a writer leaves, as a reader sees it. */
  function AsProperty<T>(written: seq<T>): Common.Option<JsonToken<T>>
    requires |written| <= 1
  {
    if written == [] then Common.None else Common.Some(ValueToken(written[0]))
  }

  /** What the serializer emits for one property of an object: its name, then whatever the converter writes. */
  datatype Emitted<T> = PropertyName | EmittedValue(value: T)

  /** The name, then the converter's output. */
  function EmitProperty<T>(x: Optional<T>): seq<Emitted<T>>
  {
    var written := Write(x);
    [PropertyName] + (if written == [] then [] else [EmittedValue(written[0])])
  }

  /** `Utf8JsonWriter` accepts a property only as its name followed by exactly one value. */
  predicate CompleteProperty<T>(e: seq<Emitted<T>>)
  {
    |e| == 2 && e[0].PropertyName? && e[1].EmittedValue?
  }

  /**
   * The serializer writes the property name before it calls the converter,
   * so a property holding an absent optional is left without a value, which
   * the writer refuses; only a present optional makes a complete property.
   */
  lemma EmittedPropertyComplete<T>(x: Optional<T>)
    ensures CompleteProperty(EmitProperty(x)) <==> x.HasValue()
    ensures x.HasValue() ==> EmitProperty(x) == [PropertyName, EmittedValue(x.Value().value)]
  {
  }

  /**
   * Writing and reading back a present optional gives it back, and a
   * property missing from the JSON reads as absent.
   */
  lemma WriteReadRoundTrip<T>(x: Optional<T>, dflt: T)
    ensures ReadProperty(AsProperty(Write(x)), dflt) == x
  {
  }

  /** The reader never produces an absent value from a token, not even from JSON null. */
  lemma ReadNeverYieldsNone<T>(token: JsonToken<T>, dflt: T)
    ensures Read(token, dflt) != None
  {
  }
}
