/** Properties relating the Optional combinators to each other and to the
    nullable values at the `of`/`get` boundary. */
module OptionalLaws {
  import opened JsValues
  import opened Optionals

  /** `empty()`, `of(null)` and `of(undefined)` are one and the same Optional,
      and it is not present. */
  lemma EmptyIsCanonical<T>()
    ensures Of<T>(Null) == EmptyOptional<T>()
    ensures Of<T>(Undefined) == EmptyOptional<T>()
    ensures !IsPresent(EmptyOptional<T>())
    ensures Get(EmptyOptional<T>()) == Null
  {
  }

  /** Reading back a wrapped value gives it unchanged, except that `undefined`
      comes back as `null`: `of(x).get()` is `x` for every defined `x`. */
  lemma GetOfRoundTrip<T>(x: JsVal<T>)
    ensures Get(Of(x)) == Normalise(x)
    ensures x.Val? ==> Get(Of(x)) == x
  {
  }

  /** Wrapping what `get()` returns rebuilds the same Optional. */
  lemma OfGetRoundTrip<T>(o: Optional<T>)
    ensures Of(Get(o)) == o
  {
  }

  /** `map(f).get()` differs from `flatMap(f)` only in that an `undefined`
      mapper result is read back as `null`; both run the mapper on the same
      arguments. */
  lemma MapGetAgreesWithFlatMap<T, M>(o: Optional<T>, f: T -> JsVal<M>)
    ensures Get(Map(o, f).result) == Normalise(FlatMap(o, f).result)
    ensures Map(o, f).calls == FlatMap(o, f).calls
  {
  }

  /** Mapping with a mapper that wraps its argument changes nothing. */
  lemma MapIdentity<T>(o: Optional<T>)
    ensures Map(o, (x: T) => Val(x)).result == o
  {
  }

  /** The mapper that runs `f` and, when `f` gives a defined value, runs `g`
      on it; a `null` or `undefined` from `f` gives `null`. */
  function AndThen<A, B, C>(f: A -> JsVal<B>, g: B -> JsVal<C>): A -> JsVal<C> {
    (x: A) => match f(x) case Val(y) => g(y) case _ => Null
  }

  /** Two successive `map` calls are one `map` with the chained mapper; the
      second mapper runs only on a defined result of the first. */
  lemma MapComposition<A, B, C>(o: Optional<A>, f: A -> JsVal<B>, g: B -> JsVal<C>)
    ensures Map(Map(o, f).result, g).result == Map(o, AndThen(f, g)).result
    ensures Map(Map(o, f).result, g).calls
         == (if o.Present? && f(o.value).Val? then [f(o.value).v] else [])
  {
  }

  /** `orElse(other)` on a Present Optional is `get()`, whatever `other` is. */
  lemma OrElseIgnoresOtherWhenPresent<T>(o: Optional<T>, other1: JsVal<T>, other2: JsVal<T>)
    requires IsPresent(o)
    ensures OrElse(o, other1) == OrElse(o, other2) == Get(o)
  {
  }

  /** On a Present Optional the supplier has no influence: the result is the
      same for every supplier and none of them is called. */
  lemma OrElseGetLazy<T>(o: Optional<T>, s1: () -> JsVal<T>, s2: () -> JsVal<T>)
    requires IsPresent(o)
    ensures OrElseGet(o, s1) == OrElseGet(o, s2)
    ensures OrElseGet(o, s1).result == Get(o)
    ensures OrElseGet(o, s1).calls == []
  {
  }

  /** `orElseGet(() => other)` and `orElse(other)` agree, and the fallback
      supplier is called exactly when the Optional is empty. */
  lemma OrElseGetMatchesOrElse<T>(o: Optional<T>, other: JsVal<T>)
    ensures OrElseGet(o, () => other).result == OrElse(o, other)
    ensures |OrElseGet(o, () => other).calls| == (if IsPresent(o) then 0 else 1)
  {
  }

  /** The consumer of `ifPresent` is called with exactly the arguments a
      mapper given to `flatMap` would receive, and never twice. */
  lemma IfPresentSeesWhatFlatMapSees<S, T, M>(o: Optional<T>, consumer: (S, T) -> S, state: S, f: T -> JsVal<M>)
    ensures IfPresent(o, consumer, state).calls == FlatMap(o, f).calls
    ensures |IfPresent(o, consumer, state).calls| == (if IsPresent(o) then 1 else 0)
  {
  }

  /** The `TestValue` interface of the repository's tests: a record with a name. */
  datatype TestValue = TestValue(name: string)

  /** `of({name: "Gandalf"}).map(v => v.name).get()` gives `"Gandalf"`, while
      the same chain on `of(null)` gives `null` without calling the mapper. */
  lemma NameScenario()
    ensures Get(Map(Of(Val(TestValue("Gandalf"))), (w: TestValue) => Val(w.name)).result) == Val("Gandalf")
    ensures Get(Map(Of<TestValue>(Null), (w: TestValue) => Val(w.name)).result) == Null
    ensures Map(Of<TestValue>(Null), (w: TestValue) => Val(w.name)).calls == []
  {
  }

  /** Falsy but defined values are Present: `0`, `""` and `false`. */
  lemma FalsyValuesArePresent()
    ensures IsPresent(Of(Val(0))) && IsPresent(Of(Val(""))) && IsPresent(Of(Val(false)))
  {
  }

  /** The repository's `ifPresent` tests: a consumer that records its argument
      sees the stored value, and a consumer that would fail is never reached. */
  lemma IfPresentScenario(x: string)
    ensures IfPresent(Of(Val(x)), (_: JsVal<string>, v: string) => Val(v), Undefined).result == Val(x)
    ensures !IfPresent(Of<string>(Null), (_: bool, v: string) => true, false).result
  {
  }
}
