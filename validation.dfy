/** The success/failure result used throughout the pipeline, and the
    validator combinators that the configuration loader composes. */
module Validation {
  import opened Js

  /** The tagged record `{kind: 'success' | 'failure', value}`. */
  datatype Result<+S, +E> = Success(value: S) | Failure(error: E)

  /** A validation outcome: the validated value, or every message collected. */
  type Validation<T> = Result<T, seq<string>>

  /** A validator inspects a value and passes it on or fails with messages. */
  type Validator<!T> = T -> Validation<T>

  /** `Success.of`. */
  function SuccessOf<S, E>(v: S): (r: Result<S, E>)
    ensures IsSuccess(r) && !IsFailure(r) && r.value == v
  {
    Success(v)
  }

  /** `Failure.of`. */
  function FailureOf<S, E>(e: E): (r: Result<S, E>)
    ensures IsFailure(r) && !IsSuccess(r) && r.error == e
  {
    Failure(e)
  }

  /** `isSuccess`: the kind tag is 'success'. */
  predicate IsSuccess<S, E>(r: Result<S, E>)
  {
    r.Success?
  }

  /** `isFailure`: the kind tag is 'failure'. */
  predicate IsFailure<S, E>(r: Result<S, E>)
  {
    r.Failure?
  }

  /** Every result carries exactly one of the two tags. */
  lemma TagsExclusive<S, E>(r: Result<S, E>)
    ensures IsSuccess(r) != IsFailure(r)
  {
  }

  /** `Result.fold`: the wrapped value, whatever the tag. */
  function Fold<T>(r: Result<T, T>): T
  {
    match r
    case Success(v) => v
    case Failure(e) => e
  }

  /** Folding a constructed result gives back what it was built from. */
  lemma FoldOf<T>(x: T)
    ensures Fold(SuccessOf<T, T>(x)) == x && Fold(FailureOf<T, T>(x)) == x
  {
  }

  /** `pass(value)`. */
  function Pass<T>(v: T): (r: Validation<T>)
    ensures IsSuccess(r) && r.value == v
  {
    Success(v)
  }

  /** `fail(message)`: a failure carrying one message. */
  function Fail<T>(message: string): (r: Validation<T>)
    ensures IsFailure(r) && r.error == [message]
  {
    Failure([message])
  }

  /** The try/catch boundary: a normal return passes, a thrown error fails
      with its message. */
  function Catch<T>(c: Completion<T>): (r: Validation<T>)
    ensures r.Success? <==> c.Normal?
    ensures r.Success? ==> r.value == c.value
    ensures r.Failure? ==> r.error == [c.message]
  {
    match c
    case Normal(v) => Pass(v)
    case Thrown(m) => Fail(m)
  }

  /** `validate(predicate)(message)`: passes the value through when the
      predicate holds, otherwise fails with the one message built from it. */
  function Validate<T(!new)>(pred: T -> bool, message: T -> string): (v: Validator<T>)
    ensures forall a :: v(a).Success? <==> pred(a)
    ensures forall a :: v(a).Success? ==> v(a).value == a
    ensures forall a :: v(a).Failure? ==> v(a).error == [message(a)]
  {
    a => if pred(a) then Success(a) else Failure([message(a)])
  }

  /** The messages of every validator that fails on `a`, in validator order. */
  function FailedMessages<T>(vs: seq<Validator<T>>, a: T): (ms: seq<string>)
    ensures (forall i | 0 <= i < |vs| :: vs[i](a).Success?) ==> ms == []
  {
    if |vs| == 0 then []
    else (if vs[0](a).Failure? then vs[0](a).error else []) + FailedMessages(vs[1..], a)
  }

  /** Every message of a failing validator is among the collected messages. */
  lemma {:induction false} FailedMessagesInclude<T>(vs: seq<Validator<T>>, a: T, i: int)
    requires 0 <= i < |vs| && vs[i](a).Failure?
    ensures forall m | m in vs[i](a).error :: m in FailedMessages(vs, a)
  {
    if i > 0 {
      FailedMessagesInclude(vs[1..], a, i - 1);
      assert vs[1..][i - 1] == vs[i];
    }
  }

  /** Every collected message comes from some failing validator. */
  lemma {:induction false} FailedMessagesFrom<T>(vs: seq<Validator<T>>, a: T, m: string)
    requires m in FailedMessages(vs, a)
    ensures exists i | 0 <= i < |vs| :: vs[i](a).Failure? && m in vs[i](a).error
  {
    if m !in (if vs[0](a).Failure? then vs[0](a).error else []) {
      FailedMessagesFrom(vs[1..], a, m);
      var i :| 0 <= i < |vs[1..]| && vs[1..][i](a).Failure? && m in vs[1..][i](a).error;
      assert vs[i + 1] == vs[1..][i];
    }
  }

  /** `validateAll(validators)`: every validator runs on the same value; the
      value passes only if all pass, and a failure concatenates the messages
      of every failing validator. */
  function ValidateAll<T>(vs: seq<Validator<T>>, a: T): (r: Validation<T>)
    ensures r.Success? <==> forall i | 0 <= i < |vs| :: vs[i](a).Success?
    ensures r.Success? ==> r.value == a
    ensures r.Failure? ==> r.error == FailedMessages(vs, a)
  {
    if |vs| == 0 then Success(a)
    else
      var rest := ValidateAll(vs[1..], a);
      match vs[0](a)
      case Success(_) => rest
      case Failure(e) => Failure(e + (if rest.Failure? then rest.error else []))
  }

  /** Running two groups of validators side by side collects the first
      group's messages, then the second's. */
  lemma {:induction false} FailedMessagesAppend<T>(v1: seq<Validator<T>>, v2: seq<Validator<T>>, a: T)
    ensures FailedMessages(v1 + v2, a) == FailedMessages(v1, a) + FailedMessages(v2, a)
  {
    if |v1| == 0 {
      assert v1 + v2 == v2;
    } else {
      assert (v1 + v2)[0] == v1[0];
      assert (v1 + v2)[1..] == v1[1..] + v2;
      FailedMessagesAppend(v1[1..], v2, a);
    }
  }

  /** Two groups of validators pass together exactly when each group passes. */
  lemma ValidateAllAppend<T>(v1: seq<Validator<T>>, v2: seq<Validator<T>>, a: T)
    ensures ValidateAll(v1 + v2, a).Success? <==> ValidateAll(v1, a).Success? && ValidateAll(v2, a).Success?
  {
    var vs := v1 + v2;
    if ValidateAll(v1, a).Success? && ValidateAll(v2, a).Success? {
      forall i | 0 <= i < |vs| ensures vs[i](a).Success? {
        if i >= |v1| { assert vs[i] == v2[i - |v1|]; }
      }
    } else if !ValidateAll(v1, a).Success? {
      var i :| 0 <= i < |v1| && v1[i](a).Failure?;
      assert vs[i] == v1[i];
    } else {
      var i :| 0 <= i < |v2| && v2[i](a).Failure?;
      assert vs[|v1| + i] == v2[i];
    }
  }

  /** `validateSequence(v1, v2, ...)`: stages run left to right, each on the
      value the previous one passed, and the first failure ends the run. */
  function ValidateSequence<T(!new)>(stages: seq<Validator<T>>, a: T): (r: Validation<T>)
    ensures r.Failure? ==> exists i, x | 0 <= i < |stages| :: stages[i](x) == Failure(r.error)
  {
    if |stages| == 0 then Success(a)
    else
      match stages[0](a)
      case Success(b) => ValidateSequence(stages[1..], b)
      case Failure(e) => Failure(e)
  }

  /** `map(f)`: transforms a success, passes a failure through unchanged. */
  function Map<T, U>(f: T -> U, r: Validation<T>): (m: Validation<U>)
    ensures m.Success? <==> r.Success?
    ensures r.Failure? ==> m.error == r.error
    ensures r.Success? ==> m.value == f(r.value)
  {
    match r
    case Success(v) => Success(f(v))
    case Failure(e) => Failure(e)
  }

  /** `flatMap(f)`: runs a further validation on a success only. */
  function FlatMap<T, U>(f: T -> Validation<U>, r: Validation<T>): (m: Validation<U>)
    ensures r.Failure? ==> m == Failure(r.error)
    ensures r.Success? ==> m == f(r.value)
  {
    match r
    case Success(v) => f(v)
    case Failure(e) => Failure(e)
  }

  /** Running two groups of stages in sequence is running the first group and
      feeding its success to the second: a failure in the first group is the
      result, and the second group never contributes to it. */
  lemma {:induction false} ValidateSequenceAppend<T(!new)>(s1: seq<Validator<T>>, s2: seq<Validator<T>>, a: T)
    ensures ValidateSequence(s1 + s2, a)
         == FlatMap(b => ValidateSequence(s2, b), ValidateSequence(s1, a))
  {
    if |s1| == 0 {
      assert s1 + s2 == s2;
    } else {
      assert (s1 + s2)[0] == s1[0];
      assert (s1 + s2)[1..] == s1[1..] + s2;
      match s1[0](a)
      case Success(b) => ValidateSequenceAppend(s1[1..], s2, b);
      case Failure(e) =>
    }
  }

  /** A failing first stage decides the outcome, whatever follows it. */
  lemma ValidateSequenceShortCircuit<T(!new)>(first: Validator<T>, rest: seq<Validator<T>>, a: T)
    requires first(a).Failure?
    ensures ValidateSequence([first] + rest, a) == first(a)
  {
    assert ([first] + rest)[0] == first;
  }
}
