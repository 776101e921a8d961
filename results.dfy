/**
 * The `Result` type of asynchronous operations: a success carrying data, a failure carrying
 * the exception, or the loading state; plus `resultOf`, which catches what an action throws,
 * and the `map` and `combine` combinators built on it.
 */
module Results {
  import opened Wrappers

  /**
   * The application's own exceptions, the two platform errors the error manager singles out,
   * and any other throwable by its class name.
   */
  datatype Throwable =
    | NetworkError
    | DatabaseError
    | ValidationError(message: string)
    | CalculationError(message: string)
    | UnknownError
    | OutOfMemoryError
    | SecurityException
    | Other(className: string)

  /** What running an action does: it returns a value or throws. */
  datatype Attempt<T> = Returns(value: T) | Throws(exception: Throwable)

  datatype Result<T> = Success(data: T) | Error(exception: Throwable) | Loading
  {
    predicate IsSuccess() { Success? }
    predicate IsError() { Error? }
    predicate IsLoading() { Loading? }

    /** The data of a success, nothing otherwise. */
    function GetOrNull(): (o: Option<T>)
      ensures o.Some? <==> IsSuccess()
      ensures IsSuccess() ==> o.value == data
    {
      match this
      case Success(d) => Some(d)
      case _ => None
    }

    /** The exception of a failure, nothing otherwise. */
    function ExceptionOrNull(): (o: Option<Throwable>)
      ensures o.Some? <==> IsError()
      ensures IsError() ==> o.value == exception
    {
      match this
      case Error(e) => Some(e)
      case _ => None
    }
  }

  /** Exactly one of the three states holds, and at most one of the two accessors gives something. */
  lemma ExactlyOneState<T>(r: Result<T>)
    ensures (if r.IsSuccess() then 1 else 0) + (if r.IsError() then 1 else 0) + (if r.IsLoading() then 1 else 0) == 1
    ensures !(r.GetOrNull().Some? && r.ExceptionOrNull().Some?)
    ensures r.IsLoading() <==> r.GetOrNull().None? && r.ExceptionOrNull().None?
  {
  }

  /** `resultOf`: a returned value is a success, a thrown exception a failure; never loading. */
  function ResultOf<T>(action: Attempt<T>): (r: Result<T>)
    ensures !r.IsLoading()
    ensures r.GetOrNull().Some? <==> action.Returns?
    ensures action.Returns? ==> r == Success(action.value) && r.GetOrNull() == Some(action.value)
    ensures action.Throws? ==> r.ExceptionOrNull() == Some(action.exception)
  {
    match action
    case Returns(v) => Success(v)
    case Throws(e) => Error(e)
  }

  /** `map`: a success runs the transform under `resultOf`; failure and loading pass through. */
  function Map<T, R>(r: Result<T>, transform: T -> Attempt<R>): (m: Result<R>)
    ensures r.IsSuccess() ==> m == ResultOf(transform(r.data))
    ensures r.IsError() ==> m == Error(r.exception)
    ensures r.IsLoading() ==> m.IsLoading()
  {
    match r
    case Success(d) => ResultOf(transform(d))
    case Error(e) => Error(e)
    case Loading => Loading
  }

  /** `combine`: two successes run the transform; else the first failure, else the second, else loading. */
  function Combine<T, R, V>(r: Result<T>, other: Result<R>, transform: (T, R) -> Attempt<V>): (c: Result<V>)
    ensures r.IsSuccess() && other.IsSuccess() ==> c == ResultOf(transform(r.data, other.data))
    ensures r.IsError() ==> c == Error(r.exception)
    ensures !r.IsError() && other.IsError() ==> c == Error(other.exception)
    ensures c.IsLoading() <==> !r.IsError() && !other.IsError() && (r.IsLoading() || other.IsLoading())
  {
    if r.Success? && other.Success? then ResultOf(transform(r.data, other.data))
    else if r.Error? then Error(r.exception)
    else if other.Error? then Error(other.exception)
    else Loading
  }

  /** Mapping with a transform that returns its argument unchanged gives back the same result. */
  lemma MapIdentity<T>(r: Result<T>)
    ensures Map(r, (x: T) => Returns(x)) == r
  {
  }

  /** The transform that runs `f` and, if it returned, `g`; a throw from `f` skips `g`. */
  function Then<T, R, V>(f: T -> Attempt<R>, g: R -> Attempt<V>): T -> Attempt<V>
  {
    (x: T) => match f(x) case Returns(y) => g(y) case Throws(e) => Throws(e)
  }

  /** Mapping twice is mapping once with the composed transform. */
  lemma MapCompose<T, R, V>(r: Result<T>, f: T -> Attempt<R>, g: R -> Attempt<V>)
    ensures Map(Map(r, f), g) == Map(r, Then(f, g))
  {
    if r.Success? {
      assert Then(f, g)(r.data) == match f(r.data) case Returns(y) => g(y) case Throws(e) => Throws(e);
    }
  }

  /** Combining with a success is mapping with the partly applied transform. */
  lemma CombineWithSuccess<T, R, V>(r: Result<T>, d: R, transform: (T, R) -> Attempt<V>)
    ensures Combine(r, Success(d), transform) == Map(r, (x: T) => transform(x, d))
  {
  }

  /** `asSuccess` and `asError` are read back by the accessors. */
  lemma Accessors<T>(d: T, e: Throwable)
    ensures Result<T>.Success(d).GetOrNull() == Some(d) && Result<T>.Success(d).ExceptionOrNull().None?
    ensures Result<T>.Error(e).ExceptionOrNull() == Some(e) && Result<T>.Error(e).GetOrNull().None?
  {
  }
}
