# optional-ts in Dafny

A model of `Optional<T>` from optional-ts. This is a null-safe TypeScript container that is either
empty or holds exactly one value that is neither `null` nor `undefined`. It comes with the
combinators `empty`, `of`, `isPresent`, `get`, `flatMap`, `map`, `orElse`, `orElseGet`,
`ifPresent` and `toString`.

Modules:

- `JsValues` (`js_values.dfy`): `JsVal<T> = Null | Undefined | Val(v)`, the JavaScript values
  that reach `of`. `IsDefined` is the strict `!== null && !== undefined` test, so `0`, `""` and
  `false` count as defined.
- `Optionals` (`optional.dfy`): `Optional<T> = Empty | Present(value)` and one function per
  method of the class. Each function follows the class's own delegation:
  - `get` is `orElse(null)`;
  - `orElse` is `orElseGet(() => other)`;
  - `map` is `of(flatMap(...))`;
  - `toString` is `map(...).orElse(...)`.

  `Stored` is the class's private `value` field. The shared `EMPTY` instance stores `null`.
  `IsPresent` is the field test of the source, and its contract says that this test holds
  exactly in the `Present` state.
  Combinators that take a callback return `Invoked(result, calls)`. `calls` lists the argument
  of every callback invocation in order (`()` for a supplier), so "called once with the stored
  value" and "never called" are part of their contracts.
  `ifPresent`'s consumer only acts on caller state, so it is a state transformer `(S, T) -> S`.
  `toString` takes `show: T -> string`, which stands for JavaScript's conversion inside a
  template literal.
- `OptionalLaws` (`optional_laws.dfy`): how the combinators relate to each other:
  - `of`/`get` round trips in both directions;
  - `map` against `flatMap`;
  - the identity and composition laws of `map`;
  - laziness of `orElseGet`;
  - the scenarios of the repository's tests, and the same `map` chain on `of(null)`.
- `OptionalText` (`optional_text.dfy`): `Read` inverts `toString`. It proves three things:
  - the text gives back the empty/present state and the rendered value;
  - no present value prints as `Optional[empty]`;
  - with an injective `show`, `toString` is injective.

Two behaviours of the code are easy to misread from the method names; the model follows the code:

- `get()` on an empty Optional returns `null` specifically (`orElse(null)`), never `undefined`.
- `flatMap` returns the mapper's raw result, and does not flatten an Optional, although the name
  suggests flattening.

## Model

| member | source | states |
|---|---|---|
| Optionals.IsPresent | src/optional/optional.ts:44-46 | the `!== undefined && !== null` test on the stored field holds exactly for the Present state, so a Present never stores `null` or `undefined` and EMPTY stores `null` |
| Optionals.EmptyOptional | src/optional/optional.ts:13-15 | `empty()` is not present and stores `null`, as the EMPTY instance does |
| Optionals.Of | src/optional/optional.ts:22-28 | `of(x)` is present exactly when `x` is a defined value (falsy values included), holds that value, and is the canonical empty Optional otherwise |
| Optionals.Get | src/optional/optional.ts:53-55 | `get()` never fails: the stored value when present, `null` (not `undefined`) when empty |
| Optionals.FlatMap | src/optional/optional.ts:63-69 | on Present the mapper's raw result, even `null`/`undefined`, after one call with the stored value; on Empty `null` with no call |
| Optionals.Map | src/optional/optional.ts:77-79 | the result is present exactly when the receiver is present and the mapper gives a defined value, which it holds; the mapper runs once on Present and never on Empty |
| Optionals.OrElse | src/optional/optional.ts:86-88 | the stored value when present, `other` when empty |
| Optionals.OrElseGet | src/optional/optional.ts:95-101 | the stored value with zero supplier calls when present; the supplier's result after exactly one call when empty |
| Optionals.IfPresent | src/optional/optional.ts:118-122 | the consumer runs exactly once, with the stored value, when present; when empty it never runs and caller state is unchanged |
| Optionals.ToString | src/optional/optional.ts:107-111 | `Optional[empty]` when empty and `Optional[value=` + rendering + `]` when present |
| OptionalLaws.EmptyIsCanonical | src/optional/optional.ts:22-34 | `empty()`, `of(null)` and `of(undefined)` are the same Optional, not present, with `get()` giving `null` |
| OptionalLaws.GetOfRoundTrip | src/optional/optional.spec.ts:83-110 | `of(x).get()` is `x` for every defined `x`, and `null` for `null` or `undefined` |
| OptionalLaws.OfGetRoundTrip | src/optional/optional.ts:22-55 | `of(o.get())` rebuilds `o` for every Optional |
| OptionalLaws.MapGetAgreesWithFlatMap | src/optional/optional.ts:63-79 | `map(f).get()` equals `flatMap(f)` with `undefined` read as `null`, and both call the mapper with the same arguments |
| OptionalLaws.MapIdentity | src/optional/optional.ts:77-79 | mapping with a wrapping identity returns the same Optional |
| OptionalLaws.MapComposition | src/optional/optional.ts:77-79 | `map(f).map(g)` is `map` of the chained mapper; `g` runs only on a defined result of `f` |
| OptionalLaws.OrElseIgnoresOtherWhenPresent | src/optional/optional.spec.ts:126-138 | on a present Optional `orElse` returns `get()`, whatever the fallback |
| OptionalLaws.OrElseGetLazy | src/optional/optional.spec.ts:140-158 | on a present Optional every supplier gives the same result, which is `get()`, and the supplier is called zero times |
| OptionalLaws.OrElseGetMatchesOrElse | src/optional/optional.ts:86-101 | `orElseGet(() => other)` agrees with `orElse(other)` and calls its supplier exactly when empty |
| OptionalLaws.IfPresentSeesWhatFlatMapSees | src/optional/optional.ts:118-122 | the consumer receives exactly the arguments a `flatMap` mapper would, at most once |
| OptionalLaws.NameScenario | src/optional/optional.ts:63-79 | `of({name: "Gandalf"}).map(v => v.name).get()` is `"Gandalf"`; on `of(null)` it is `null` and the mapper is not called |
| OptionalLaws.FalsyValuesArePresent | src/optional/optional.ts:22-28 | `of(0)`, `of("")` and `of(false)` are present |
| OptionalLaws.IfPresentScenario | src/optional/optional.spec.ts:162-177 | a recording consumer receives the stored value; a consumer on `of(null)` never runs |
| OptionalText.ReadValueText | src/optional/optional.ts:107-111 | the value template is never the empty text and gives back the rendered value |
| OptionalText.ReadToString | src/optional/optional.ts:107-111 | reading `toString()` output gives back the empty/present state and the rendered value |
| OptionalText.ToStringDeterminesRendering | src/optional/optional.ts:107-111 | equal texts mean both empty or both present with equal renderings; no present value prints as empty |
| OptionalText.ToStringInjective | src/optional/optional.ts:107-111 | with a rendering that separates values, equal texts mean equal Optionals |
| OptionalText.ReadIsExact | src/optional/optional.ts:107-111 | `Read` accepts only the exact texts `toString()` can produce: a value reading only for the value template around the recovered rendering, an empty reading only for `Optional[empty]` |
| OptionalText.ToStringScenario | src/optional/optional.spec.ts:37-47 | `of(null)` prints `Optional[empty]` and `of("a")` prints `Optional[value=a]` |

## Left out

- Reference identity of the shared `EMPTY` instance: Dafny datatypes have only structural equality, so "the same instance" is modelled as equal values.
- Exceptions thrown by mappers, suppliers or consumers: callbacks are total Dafny functions. Propagating their failures belongs to the JavaScript runtime, not to the Optional.
- The type parameter `T` stands for non-nullish JavaScript values and is never instantiated with `JsVal`; nothing in Dafny forbids `Optional<JsVal<U>>`, where a Present could hold a `Null` marker, so that instantiation is outside the model.
- JavaScript string conversion in the `toString` template literal: abstracted as the `show` parameter.
- The consumer's side effects: modelled as a caller-supplied state transformer. Mutation of arbitrary outside objects is not modelled.
- TypeScript generics and `instanceof` checks in the tests (src/optional/optional.spec.ts:51-75): these are type-system facts with no runtime behaviour.
- rollup.config.js: bundler configuration with no logic.
