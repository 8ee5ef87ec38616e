/**
 * The dispatcher's validation step: `ValidationFailureComparer`, which
 * treats two failures as the same when their message and severity agree,
 * and `MediatorValidationBehavior.Handle`, which runs every registered
 * validator, drops null failures, and either throws one
 * `ValidationException` carrying the de-duplicated failures or lets the
 * handler run.
 */
module Mediator {
  import opened Common
  import opened Framework

  // ---------------------------------------------------------------------
  // ValidationFailureComparer
  // ---------------------------------------------------------------------

  /** The comparer's notion of sameness on non-null failures. */
  predicate SameFailure(x: ValidationFailure, y: ValidationFailure)
  {
    x.errorMessage == y.errorMessage && x.severity == y.severity
  }

  /**
   * `ValidationFailureComparer.Equals` on possibly-null failures: two nulls
   * are equal, a null never equals a failure (a failure's severity is never
   * null), and two failures are equal when message and severity agree.
   */
  function ComparerEquals(x: Option<ValidationFailure>, y: Option<ValidationFailure>): (r: bool)
    ensures x.None? && y.None? ==> r
    ensures x.Some? && y.Some? ==> (r <==> SameFailure(x.value, y.value))
    ensures x.None? != y.None? ==> !r
  {
    match (x, y)
    case (None, None) => true
    case (Some(a), Some(b)) => a.errorMessage == b.errorMessage && a.severity == b.severity
    case _ => false
  }

  /**
   * `ValidationFailureComparer.GetHashCode`: `HashCode.Combine` of message and
   * severity. `HashCode.Combine` is seeded per process, so it is a parameter.
   */
  function ComparerHash(combine: (string, Severity) -> int, f: ValidationFailure): int
  {
    combine(f.errorMessage, f.severity)
  }

  /** The property name takes no part in the comparison. */
  lemma ComparerIgnoresPropertyName(x: ValidationFailure, name: string)
    ensures ComparerEquals(Some(x), Some(x.(propertyName := name)))
  {
  }

  /** The comparer is an equivalence relation. */
  lemma ComparerIsEquivalence(x: Option<ValidationFailure>, y: Option<ValidationFailure>, z: Option<ValidationFailure>)
    ensures ComparerEquals(x, x)
    ensures ComparerEquals(x, y) == ComparerEquals(y, x)
    ensures ComparerEquals(x, y) && ComparerEquals(y, z) ==> ComparerEquals(x, z)
  {
  }

  /** Failures the comparer calls equal hash alike, whatever the seed. */
  lemma ComparerHashAgrees(combine: (string, Severity) -> int, x: ValidationFailure, y: ValidationFailure)
    requires ComparerEquals(Some(x), Some(y))
    ensures ComparerHash(combine, x) == ComparerHash(combine, y)
  {
  }

  // ---------------------------------------------------------------------
  // Distinct under the comparer
  // ---------------------------------------------------------------------

  /** Some element of `fs` is the same failure as `f`. */
  predicate HasSame(fs: seq<ValidationFailure>, f: ValidationFailure)
  {
    exists k :: 0 <= k < |fs| && SameFailure(fs[k], f)
  }

  /**
   * LINQ's `Distinct(new ValidationFailureComparer())`: keeps the first
   * failure of each (message, severity) class, in order of first appearance.
   */
  function Distinct(fs: seq<ValidationFailure>): (r: seq<ValidationFailure>)
    ensures |r| <= |fs|
    ensures forall i :: 0 <= i < |r| ==> r[i] in fs
    ensures forall f :: f in fs ==> HasSame(r, f)
    ensures forall i, j :: 0 <= i < j < |r| ==> !SameFailure(r[i], r[j])
    decreases |fs|
  {
    if fs == [] then []
    else
      var rest := Distinct(fs[..|fs| - 1]);
      var last := fs[|fs| - 1];
      DistinctExtends(fs, rest);
      if HasSame(rest, last) then rest else rest + [last]
  }

  /** The properties `Distinct` promises carry over from the prefix to the whole input. */
  lemma DistinctExtends(fs: seq<ValidationFailure>, rest: seq<ValidationFailure>)
    requires fs != [] && |rest| <= |fs| - 1
    requires forall i :: 0 <= i < |rest| ==> rest[i] in fs[..|fs| - 1]
    requires forall f :: f in fs[..|fs| - 1] ==> HasSame(rest, f)
    requires forall i, j :: 0 <= i < j < |rest| ==> !SameFailure(rest[i], rest[j])
    ensures var last := fs[|fs| - 1];
            var r := if HasSame(rest, last) then rest else rest + [last];
            && |r| <= |fs|
            && (forall i :: 0 <= i < |r| ==> r[i] in fs)
            && (forall f :: f in fs ==> HasSame(r, f))
            && (forall i, j :: 0 <= i < j < |r| ==> !SameFailure(r[i], r[j]))
  {
    var last := fs[|fs| - 1];
    assert forall f :: f in fs ==> f in fs[..|fs| - 1] || f == last;
    if !HasSame(rest, last) {
      HasSameExtends(rest, last);
    }
  }

  lemma HasSameExtends(fs: seq<ValidationFailure>, x: ValidationFailure)
    ensures forall f :: HasSame(fs, f) ==> HasSame(fs + [x], f)
    ensures HasSame(fs + [x], x)
  {
    forall f | HasSame(fs, f)
      ensures HasSame(fs + [x], f)
    {
      var k :| 0 <= k < |fs| && SameFailure(fs[k], f);
      assert (fs + [x])[k] == fs[k];
    }
    assert (fs + [x])[|fs|] == x;
  }

  /** No failure before position `k` of `fs` is the same as `fs[k]`. */
  predicate FirstOfClass(fs: seq<ValidationFailure>, k: nat)
    requires k < |fs|
  {
    forall j :: 0 <= j < k ==> !SameFailure(fs[j], fs[k])
  }

  /** How `Distinct` extends the result for the prefix. */
  lemma DistinctStep(fs: seq<ValidationFailure>)
    requires fs != []
    ensures var rest := Distinct(fs[..|fs| - 1]);
            Distinct(fs) == if HasSame(rest, fs[|fs| - 1]) then rest else rest + [fs[|fs| - 1]]
  {
  }

  /** Every failure `Distinct` keeps is the first of its class in the input. */
  lemma {:induction false} DistinctKeepsFirst(fs: seq<ValidationFailure>, i: nat)
    requires i < |Distinct(fs)|
    ensures exists k :: 0 <= k < |fs| && fs[k] == Distinct(fs)[i] && FirstOfClass(fs, k)
    decreases |fs|
  {
    var init := fs[..|fs| - 1];
    var rest := Distinct(init);
    var last := fs[|fs| - 1];
    DistinctStep(fs);
    if i < |rest| {
      DistinctKeepsFirst(init, i);
      var k :| 0 <= k < |init| && init[k] == rest[i] && FirstOfClass(init, k);
      PrefixKeepsFirst(fs, k);
      assert fs[k] == Distinct(fs)[i];
    } else {
      FirstOfItsClass(init, rest, last);
      assert forall j :: 0 <= j < |fs| - 1 ==> fs[j] == init[j];
      assert FirstOfClass(fs, |fs| - 1);
      assert fs[|fs| - 1] == Distinct(fs)[i];
    }
  }

  /**
   * Where in the input each failure `Distinct` keeps comes from: the
   * positions increase, so the kept failures stay in input order.
   */
  function KeptPositions(fs: seq<ValidationFailure>): (p: seq<nat>)
    ensures |p| == |Distinct(fs)|
    ensures forall i :: 0 <= i < |p| ==> p[i] < |fs| && fs[p[i]] == Distinct(fs)[i]
    ensures forall i, j :: 0 <= i < j < |p| ==> p[i] < p[j]
    decreases |fs|
  {
    if fs == [] then []
    else
      var init := fs[..|fs| - 1];
      var rest := KeptPositions(init);
      var keep := !HasSame(Distinct(init), fs[|fs| - 1]);
      DistinctStep(fs);
      PositionsExtend(fs, Distinct(init), Distinct(fs), rest, keep);
      if keep then rest + [|fs| - 1] else rest
  }

  /** Positions of `d` in the prefix, extended by the last position when the last failure is kept, are positions of `full`. */
  lemma PositionsExtend(fs: seq<ValidationFailure>, d: seq<ValidationFailure>, full: seq<ValidationFailure>, rest: seq<nat>, keep: bool)
    requires fs != [] && full == if keep then d + [fs[|fs| - 1]] else d
    requires |rest| == |d|
    requires forall i :: 0 <= i < |rest| ==> rest[i] < |fs| - 1 && fs[..|fs| - 1][rest[i]] == d[i]
    requires forall i, j :: 0 <= i < j < |rest| ==> rest[i] < rest[j]
    ensures var p := if keep then rest + [|fs| - 1] else rest;
            && |p| == |full|
            && (forall i :: 0 <= i < |p| ==> p[i] < |fs| && fs[p[i]] == full[i])
            && (forall i, j :: 0 <= i < j < |p| ==> p[i] < p[j])
  {
    assert forall i :: 0 <= i < |rest| ==> fs[rest[i]] == fs[..|fs| - 1][rest[i]];
  }

  /** Being first of its class is unaffected by appending to the input. */
  lemma PrefixKeepsFirst(fs: seq<ValidationFailure>, k: nat)
    requires k < |fs| - 1 && FirstOfClass(fs[..|fs| - 1], k)
    ensures FirstOfClass(fs, k)
  {
    forall j | 0 <= j < k
      ensures !SameFailure(fs[j], fs[k])
    {
      assert fs[..|fs| - 1][j] == fs[j];
      assert fs[..|fs| - 1][k] == fs[k];
    }
  }

  /** A failure with no same-class failure among the kept ones has none in the input either. */
  lemma FirstOfItsClass(init: seq<ValidationFailure>, rest: seq<ValidationFailure>, last: ValidationFailure)
    requires forall f :: f in init ==> HasSame(rest, f)
    requires !HasSame(rest, last)
    ensures forall j :: 0 <= j < |init| ==> !SameFailure(init[j], last)
  {
    forall j | 0 <= j < |init|
      ensures !SameFailure(init[j], last)
    {
      assert init[j] in init;
      var m :| 0 <= m < |rest| && SameFailure(rest[m], init[j]);
    }
  }

  // ---------------------------------------------------------------------
  // MediatorValidationBehavior.Handle
  // ---------------------------------------------------------------------

  /** What a registered validator returns for a request: its failures, some of which may be null. */
  type Validator<!Req> = Req -> seq<Option<ValidationFailure>>

  /** The non-null failures of `fs`, in order (`Where(f => f != null)`). */
  function NonNull(fs: seq<Option<ValidationFailure>>): (r: seq<ValidationFailure>)
    ensures |r| <= |fs|
    ensures forall f :: f in r <==> Some(f) in fs
    decreases |fs|
  {
    if fs == [] then []
    else
      assert forall x :: x in fs <==> x == fs[0] || x in fs[1..];
      (if fs[0].Some? then [fs[0].value] else []) + NonNull(fs[1..])
  }

  /** Dropping nulls keeps the order: it works run by run. */
  lemma {:induction false} NonNullAppend(a: seq<Option<ValidationFailure>>, b: seq<Option<ValidationFailure>>)
    ensures NonNull(a + b) == NonNull(a) + NonNull(b)
    decreases |a|
  {
    if a != [] {
      assert (a + b)[0] == a[0];
      assert (a + b)[1..] == a[1..] + b;
      NonNullAppend(a[1..], b);
    } else {
      assert a + b == b;
    }
  }

  /** `Select(Validate).SelectMany(Errors).Where(not null)`: every validator's failures, concatenated. */
  function CollectFailures<Req>(request: Req, validators: seq<Validator<Req>>): seq<ValidationFailure>
    decreases |validators|
  {
    if validators == [] then []
    else NonNull(validators[0](request)) + CollectFailures(request, validators[1..])
  }

  /** The behaviour's verdict: the exception it throws, or `None` when it calls `next()`. */
  function ValidationGate<Req>(request: Req, validators: seq<Validator<Req>>): (r: Option<Exception>)
    ensures r.None? <==> CollectFailures(request, validators) == []
    ensures r.Some? ==> r.value == ValidationException(Distinct(CollectFailures(request, validators)))
  {
    var failures := CollectFailures(request, validators);
    if |failures| != 0 then Some(ValidationException(Distinct(failures))) else None
  }

  datatype PipelineResult<R> = Handled(response: R) | Rejected(exception: Exception)

  /**
   * `Handle(request, next)`: `next` is the handler, and it runs only when no
   * validator reported a failure.
   */
  function Handle<Req, R>(request: Req, validators: seq<Validator<Req>>, next: () -> R): (r: PipelineResult<R>)
    ensures r.Handled? <==> CollectFailures(request, validators) == []
    ensures r.Handled? ==> r.response == next()
  {
    match ValidationGate(request, validators)
    case None => Handled(next())
    case Some(e) => Rejected(e)
  }

  /** A failure reported by any validator is present in the failures collected. */
  lemma {:induction false} CollectFailuresHasAll<Req>(request: Req, validators: seq<Validator<Req>>, v: nat, f: ValidationFailure)
    requires v < |validators| && Some(f) in validators[v](request)
    ensures f in CollectFailures(request, validators)
    decreases |validators|
  {
    if v > 0 {
      CollectFailuresHasAll(request, validators[1..], v - 1, f);
    }
  }

  /**
   * The exception lists exactly one failure for every (message, severity)
   * class that some validator reported, and nothing else.
   */
  lemma RejectionListsEachClassOnce<Req, R>(request: Req, validators: seq<Validator<Req>>, next: () -> R)
    requires Handle(request, validators, next).Rejected?
    ensures var errs := Distinct(CollectFailures(request, validators));
            && Handle(request, validators, next).exception == ValidationException(errs)
            && (forall v, f :: 0 <= v < |validators| && Some(f) in validators[v](request) ==> HasSame(errs, f))
            && (forall i, j :: 0 <= i < j < |errs| ==> !SameFailure(errs[i], errs[j]))
  {
    var errs := Distinct(CollectFailures(request, validators));
    forall v, f | 0 <= v < |validators| && Some(f) in validators[v](request)
      ensures HasSame(errs, f)
    {
      CollectFailuresHasAll(request, validators, v, f);
    }
  }

  /** With no validators registered the handler always runs. */
  lemma NoValidatorsAlwaysHandles<Req, R>(request: Req, next: () -> R)
    ensures Handle(request, [], next) == Handled(next())
  {
  }
}
