/**
 * The success/failure value used throughout the pipeline instead of
 * exceptions (packages/core/src/result.ts). A JavaScript `Result` is an
 * object `{ ok: true, value }` or `{ ok: false, error }`; here the tag is the
 * constructor.
 */
module Results {

  datatype Result<+T, +E> = Success(value: T) | Failure(error: E)

  /** `ok(value)`. */
  function Ok<T, E>(v: T): (r: Result<T, E>)
    ensures r.Success? && r.value == v
  {
    Success(v)
  }

  /** `err(error)`. */
  function Err<T, E>(e: E): (r: Result<T, E>)
    ensures r.Failure? && r.error == e
  {
    Failure(e)
  }

  /** `isOk(result)`: the `ok` tag. */
  predicate IsOk<T, E>(r: Result<T, E>)
    ensures IsOk(r) ==> r.Success? && r == Ok(r.value)
  {
    r.Success?
  }

  /** `isErr(result)`: the negated `ok` tag. */
  predicate IsErr<T, E>(r: Result<T, E>)
    ensures IsErr(r) ==> r.Failure? && r == Err(r.error)
    ensures IsErr(r) <==> !IsOk(r)
  {
    !r.Success?
  }

  /** Exactly one of `isOk` and `isErr` holds, whatever the result. */
  lemma OkXorErr<T, E>(r: Result<T, E>)
    ensures IsOk(r) != IsErr(r)
    ensures IsOk(r) <==> exists v :: r == Ok(v)
    ensures IsErr(r) <==> exists e :: r == Err(e)
  {
    if r.Success? {
      assert r == Ok(r.value);
    } else {
      assert r == Err(r.error);
    }
  }

  /** `unwrap(result)`: the value; on a failure the source throws, so callers must hold a success. */
  function Unwrap<T, E>(r: Result<T, E>): (v: T)
    requires r.Success?
    ensures Ok(v) == r
  {
    r.value
  }

  /** `unwrapOr(result, defaultValue)`. */
  function UnwrapOr<T, E>(r: Result<T, E>, default: T): (v: T)
    ensures r.Success? ==> v == r.value
    ensures r.Failure? ==> v == default
  {
    if r.Success? then r.value else default
  }

  /** `map(result, fn)`: transforms a success, passes a failure through with the same error. */
  function Map<T, U, E>(r: Result<T, E>, f: T -> U): (m: Result<U, E>)
    ensures m.Success? <==> r.Success?
    ensures r.Success? ==> m == Ok(f(r.value))
    ensures r.Failure? ==> m == Err(r.error)
  {
    if r.Success? then Ok(f(r.value)) else Err(r.error)
  }

  /** `flatMap(result, fn)`: applies `fn` to a success; a failure short-circuits and `fn` is not applied. */
  function FlatMap<T, U, E>(r: Result<T, E>, f: T -> Result<U, E>): (m: Result<U, E>)
    ensures r.Success? ==> m == f(r.value)
    ensures r.Failure? ==> m == Err(r.error)
  {
    if r.Success? then f(r.value) else Err(r.error)
  }

  // ---------------------------------------------------------------------
  // Algebraic laws
  // ---------------------------------------------------------------------

  lemma UnwrapOk<T, E>(v: T)
    ensures Unwrap(Ok<T, E>(v)) == v
  {
  }

  /** Mapping the identity changes nothing. */
  lemma MapIdentity<T, E>(r: Result<T, E>)
    ensures Map(r, (x: T) => x) == r
  {
  }

  /** Two maps compose into one. */
  lemma MapCompose<T, U, V, E>(r: Result<T, E>, f: T -> U, g: U -> V)
    ensures Map(Map(r, f), g) == Map(r, (x: T) => g(f(x)))
  {
  }

  /** `flatMap(ok(v), fn) == fn(v)`. */
  lemma FlatMapLeftIdentity<T, U, E>(v: T, f: T -> Result<U, E>)
    ensures FlatMap(Ok(v), f) == f(v)
  {
  }

  /** `flatMap(err(e), fn) == err(e)`. */
  lemma FlatMapFailure<T, U, E>(e: E, f: T -> Result<U, E>)
    ensures FlatMap(Err(e), f) == Err(e)
  {
  }

  /** `flatMap(r, ok) == r`. */
  lemma FlatMapRightIdentity<T, E>(r: Result<T, E>)
    ensures FlatMap(r, (x: T) => Ok(x)) == r
  {
  }

  /** `flatMap(r, v => ok(f(v))) == map(r, f)`. */
  lemma FlatMapOkIsMap<T, U, E>(r: Result<T, E>, f: T -> U)
    ensures FlatMap(r, (x: T) => Ok(f(x))) == Map(r, f)
  {
  }

  /** Chaining is associative. */
  lemma FlatMapAssociative<T, U, V, E>(r: Result<T, E>, f: T -> Result<U, E>, g: U -> Result<V, E>)
    ensures FlatMap(FlatMap(r, f), g) == FlatMap(r, (x: T) => FlatMap(f(x), g))
  {
  }

  /** `unwrapOr` after `map` is the mapped value or the default. */
  lemma UnwrapOrMap<T, U, E>(r: Result<T, E>, f: T -> U, default: U)
    ensures UnwrapOr(Map(r, f), default) == if r.Success? then f(r.value) else default
  {
  }
}
