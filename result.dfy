/** The railway type every pipeline is built from: a value or a failure message,
    with combinators that pass failures through untouched and turn exceptions
    thrown by a step into failures. */
module Results {

  /** A JavaScript `Error` object, known here by its message. */
  datatype Error = Error(text: string)

  /** The message of a failure: `string | Error`. */
  datatype Message = Text(text: string) | Err(error: Error)

  datatype Result<T> = Ok(value: T) | Fail(message: Message)

  /** `Record<string, never>`: the value of a `VoidResult`. */
  datatype Empty = Empty

  type VoidResult = Result<Empty>

  /** Something thrown by a callback: an `Error`, or any other value,
      known here by the text that `${e}` makes of it. */
  datatype Thrown = ThrownError(error: Error) | ThrownValue(text: string)

  /** How a synchronous call ends: it returns a value or it throws. */
  datatype Outcome<T> = Returned(value: T) | Threw(thrown: Thrown)

  datatype Option<T> = None | Some(value: T)

  /** How a promise settles. */
  datatype Promise<T> = Resolved(value: T) | Rejected(reason: Thrown)

  predicate IsOk<T>(result: Result<T>) { result.Ok? }

  predicate IsFail<T>(result: Result<T>) { result.Fail? }

  /** The failure that the `catch` blocks of `bind` and `bindAsync` make of a thrown value. */
  function Caught(e: Thrown): (m: Message)
    ensures m.Err?
    ensures e.ThrownError? ==> m.error == e.error
    ensures e.ThrownValue? ==> m.error.text == "Error: " + e.text
  {
    match e
    case ThrownError(err) => Err(err)
    case ThrownValue(text) => Err(Error("Error: " + text))
  }

  function Bind<A, B>(a: Result<A>, func: A -> Outcome<Result<B>>): Result<B>
  {
    match a
    case Fail(m) => Fail(m)
    case Ok(v) =>
      match func(v)
      case Returned(r) => r
      case Threw(e) => Fail(Caught(e))
  }

  /** Runs a check on the value; on success the ORIGINAL result is returned. */
  function Validate<A>(a: Result<A>, func: A -> Outcome<VoidResult>): (r: Result<A>)
    ensures a.Fail? ==> r == a
    ensures a.Ok? && func(a.value).Returned? && func(a.value).value.Ok? ==> r == a
    ensures a.Ok? && func(a.value).Returned? && func(a.value).value.Fail? ==> r == Fail(func(a.value).value.message)
    ensures a.Ok? && func(a.value).Threw? ==> r == Fail(Caught(func(a.value).thrown))
  {
    var result := Bind(a, func);
    if IsOk(result) then a else Fail(result.message)
  }

  /** The callback of `map` may throw: `bind` catches it. */
  function Map<A, B>(a: Result<A>, func: A -> Outcome<B>): Result<B>
  {
    Bind(a, x => match func(x) case Returned(b) => Returned(Ok(b)) case Threw(e) => Threw(e))
  }

  /** Without an `await`, the promise that `func` returns is handed back as it is:
      a rejection is not caught; only a synchronous throw is. */
  function BindAsync<A, B>(a: Result<A>, func: A -> Outcome<Promise<Result<B>>>): Promise<Result<B>>
  {
    match a
    case Fail(m) => Resolved(Fail(m))
    case Ok(v) =>
      match func(v)
      case Returned(p) => p
      case Threw(e) => Resolved(Fail(Caught(e)))
  }

  /** The `async x => from(await func(x))` that `mapAsync` hands to `bindAsync`:
      as an async function it never throws; whatever `func` throws or rejects
      with becomes its rejection. */
  function AwaitThenFrom<A, B>(func: A -> Outcome<Promise<B>>, x: A): Outcome<Promise<Result<B>>>
  {
    match func(x)
    case Threw(e) => Returned(Rejected(e))
    case Returned(Rejected(e)) => Returned(Rejected(e))
    case Returned(Resolved(b)) => Returned(Resolved(Ok(b)))
  }

  function MapAsync<A, B>(a: Result<A>, func: A -> Outcome<Promise<B>>): Promise<Result<B>>
  {
    BindAsync(a, x => AwaitThenFrom(func, x))
  }

  // ----- laws -----

  lemma FromIsOk<T>(v: T)
    ensures IsOk(Ok(v)) && !IsFail(Ok(v)) && Ok(v).value == v
  {
  }

  lemma ExactlyOneCase<T>(r: Result<T>)
    ensures IsOk(r) != IsFail(r)
  {
  }

  lemma BindPassesFailure<A, B>(m: Message, f: A -> Outcome<Result<B>>, g: A -> Outcome<Result<B>>)
    ensures Bind(Fail(m), f) == Fail(m)
    ensures Bind(Fail(m), f) == Bind(Fail(m), g)
  {
  }

  lemma BindChainsOk<A, B>(v: A, func: A -> Outcome<Result<B>>)
    ensures func(v).Returned? ==> Bind(Ok(v), func) == func(v).value
    ensures func(v).Threw? && func(v).thrown.ThrownError? ==> Bind(Ok(v), func) == Fail(Err(func(v).thrown.error))
    ensures func(v).Threw? && func(v).thrown.ThrownValue? ==> Bind(Ok(v), func) == Fail(Err(Error("Error: " + func(v).thrown.text)))
  {
  }

  /** A failure out of `bind` is the input's failure, the callback's own, or an exception. */
  lemma BindNeverDropsFailure<A, B>(a: Result<A>, func: A -> Outcome<Result<B>>)
    ensures Bind(a, func).Ok? <==> a.Ok? && func(a.value).Returned? && func(a.value).value.Ok?
  {
  }

  lemma ValidateKeepsValue<A>(a: Result<A>, func: A -> Outcome<VoidResult>)
    ensures Validate(a, func).Ok? <==> Bind(a, func).Ok?
    ensures Validate(a, func).Ok? ==> Validate(a, func) == a
    ensures Validate(a, func).Fail? ==> Validate(a, func).message == Bind(a, func).message
  {
  }

  lemma MapLaws<A, B>(a: Result<A>, func: A -> Outcome<B>)
    ensures a.Fail? ==> Map(a, func) == Fail(a.message)
    ensures a.Ok? && func(a.value).Returned? ==> Map(a, func) == Ok(func(a.value).value)
    ensures a.Ok? && func(a.value).Threw? ==> Map(a, func) == Fail(Caught(func(a.value).thrown))
  {
  }

  /** `map` is `bind` after a step that cannot fail. */
  lemma MapIsBindOfFrom<A, B>(a: Result<A>, f: A -> B)
    ensures Map(a, x => Returned(f(x))) == Bind(a, x => Returned(Ok(f(x))))
  {
  }

  lemma BindAsyncLaws<A, B>(a: Result<A>, func: A -> Outcome<Promise<Result<B>>>)
    ensures a.Fail? ==> BindAsync(a, func) == Resolved(Fail(a.message))
    ensures a.Ok? && func(a.value).Returned? ==> BindAsync(a, func) == func(a.value).value
    ensures a.Ok? && func(a.value).Threw? ==> BindAsync(a, func) == Resolved(Fail(Caught(func(a.value).thrown)))
  {
  }

  /** On a callback that settles normally, `bindAsync` is `bind` awaited. */
  lemma BindAsyncAgreesWithBind<A, B>(a: Result<A>, f: A -> Outcome<Result<B>>)
    ensures BindAsync(a, x => match f(x) case Returned(r) => Returned(Resolved(r)) case Threw(e) => Threw(e))
         == Resolved(Bind(a, f))
  {
  }

  /** `mapAsync` does not turn what its callback throws into a failure: the
      promise it returns rejects, unlike `map`, which catches. */
  lemma MapAsyncLaws<A, B>(a: Result<A>, func: A -> Outcome<Promise<B>>)
    ensures a.Fail? ==> MapAsync(a, func) == Resolved(Fail(a.message))
    ensures a.Ok? && func(a.value).Returned? && func(a.value).value.Resolved?
            ==> MapAsync(a, func) == Resolved(Ok(func(a.value).value.value))
    ensures a.Ok? && func(a.value).Threw? ==> MapAsync(a, func) == Rejected(func(a.value).thrown)
    ensures a.Ok? && func(a.value).Returned? && func(a.value).value.Rejected?
            ==> MapAsync(a, func) == Rejected(func(a.value).value.reason)
  {
  }
}
