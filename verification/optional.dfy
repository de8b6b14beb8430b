/** The `Optional<T>` class: a null-safe container that is either empty or
    holds exactly one defined value, with its combinators. */
module Optionals {
  import opened JsValues

  /** The two states of an Optional. `Present` is reached only through `Of`;
      its value is a `T`, so it can never be `null` or `undefined`. */
  datatype Optional<T> = Empty | Present(value: T)

  /** The result of a combinator that takes a callback, together with the
      arguments of every invocation of that callback, in order. Suppliers
      take no argument, so each of their invocations is recorded as `()`. */
  datatype Invoked<R, A> = Invoked(result: R, calls: seq<A>)

  /** The private `value` field of the class: the shared EMPTY instance is
      built with `null`, every other instance with the value given to `of`. */
  function Stored<T>(o: Optional<T>): JsVal<T> {
    match o
    case Empty => Null
    case Present(v) => Val(v)
  }

  /** `isPresent()`: the stored field is neither `undefined` nor `null`.
      Because only EMPTY stores `null`, this is exactly the Present state. */
  function IsPresent<T>(o: Optional<T>): (r: bool)
    ensures r <==> o.Present?
    ensures r <==> Stored(o).Val?
  {
    IsDefined(Stored(o))
  }

  /** `Optional.empty()`: the canonical empty Optional, which stores `null`. */
  function EmptyOptional<T>(): (r: Optional<T>)
    ensures !IsPresent(r)
    ensures Stored(r).Null?
  {
    Empty
  }

  /** `Optional.of(value)`: the only way into the Present state. The value is
      admitted exactly when it is neither `null` nor `undefined`. */
  function Of<T>(x: JsVal<T>): (r: Optional<T>)
    ensures IsPresent(r) <==> x.Val?
    ensures IsPresent(r) ==> Stored(r) == x
    ensures !x.Val? ==> r == EmptyOptional()
  {
    if IsDefined(x) then Present(x.v) else EmptyOptional()
  }

  /** `flatMap(mapper)`: on a Present value the mapper runs once and its raw
      result, possibly `null` or `undefined`, is returned unwrapped; on
      Empty the mapper is not run and the result is `null`. */
  function FlatMap<T, M>(o: Optional<T>, mapper: T -> JsVal<M>): (r: Invoked<JsVal<M>, T>)
    ensures o.Present? ==> r.result == mapper(o.value) && r.calls == [o.value]
    ensures o.Empty? ==> r.result.Null? && r.calls == []
    ensures |r.calls| <= 1
  {
    if IsPresent(o) then Invoked(mapper(o.value), [o.value]) else Invoked(Null, [])
  }

  /** `map(mapper)`, written in the source as `of(flatMap(mapper))`: the
      result is Present exactly when the receiver is Present and the mapper
      gives a defined value, which it then holds. */
  function Map<T, M>(o: Optional<T>, mapper: T -> JsVal<M>): (r: Invoked<Optional<M>, T>)
    ensures IsPresent(r.result) <==> o.Present? && mapper(o.value).Val?
    ensures IsPresent(r.result) ==> r.result.value == mapper(o.value).v
    ensures o.Present? ==> r.calls == [o.value]
    ensures o.Empty? ==> r.calls == []
  {
    var raw := FlatMap(o, mapper);
    Invoked(Of(raw.result), raw.calls)
  }

  /** `orElseGet(supplier)`: the stored value when Present, without running
      the supplier; otherwise the supplier's result, after exactly one call. */
  function OrElseGet<T>(o: Optional<T>, supplier: () -> JsVal<T>): (r: Invoked<JsVal<T>, ()>)
    ensures o.Present? ==> r.result == Val(o.value) && |r.calls| == 0
    ensures o.Empty? ==> r.result == supplier() && |r.calls| == 1
  {
    if IsPresent(o) then Invoked(Stored(o), []) else Invoked(supplier(), [()])
  }

  /** `orElse(other)`, written in the source as `orElseGet(() => other)`:
      the stored value when Present, `other` (which may be `null`) otherwise. */
  function OrElse<T>(o: Optional<T>, other: JsVal<T>): (r: JsVal<T>)
    ensures o.Present? ==> r == Val(o.value)
    ensures o.Empty? ==> r == other
  {
    OrElseGet(o, () => other).result
  }

  /** `get()`, written in the source as `orElse(null)`: never fails; gives the
      stored value when Present and `null` (never `undefined`) when Empty. */
  function Get<T>(o: Optional<T>): (r: JsVal<T>)
    ensures o.Present? ==> r == Val(o.value)
    ensures o.Empty? ==> r.Null?
  {
    OrElse(o, Null)
  }

  /** `ifPresent(consumer)`: the consumer's only effect is on caller state, so
      it is modelled as a state transformer. When Present it runs once with
      the stored value; when Empty it does not run and the state is kept. */
  function IfPresent<S, T>(o: Optional<T>, consumer: (S, T) -> S, state: S): (r: Invoked<S, T>)
    ensures o.Present? ==> r.calls == [o.value] && r.result == consumer(state, o.value)
    ensures o.Empty? ==> r.calls == [] && r.result == state
  {
    if IsPresent(o) then Invoked(consumer(state, o.value), [o.value]) else Invoked(state, [])
  }

  /** The text `toString()` gives for an empty Optional. */
  const EmptyText: string := "Optional[empty]"

  /** The text before the rendered value in `toString()` of a Present value. */
  const ValuePrefix: string := "Optional[value="

  /** The template `Optional[value=${value}]`, given the value already rendered. */
  function ValueText(shown: string): string {
    ValuePrefix + shown + "]"
  }

  /** `toString()`, written in the source as a `map` to the value template
      followed by `orElse` of the empty text. `show` stands for JavaScript's
      string conversion inside a template literal. */
  function ToString<T>(o: Optional<T>, show: T -> string): (r: string)
    ensures o.Empty? ==> r == EmptyText
    ensures o.Present? ==> r == ValueText(show(o.value))
  {
    var rendered := OrElse(Map(o, v => Val(ValueText(show(v)))).result, Val(EmptyText));
    rendered.v
  }
}
