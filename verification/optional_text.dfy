/** Reading `toString()` output back: the text determines whether the
    Optional was empty and, if not, exactly what its value rendered as. */
module OptionalText {
  import opened JsValues
  import opened Optionals

  /** What a string says about the Optional that printed it. */
  datatype Reading = ReadEmpty | ReadValue(shown: string) | NotRecognised

  /** The inverse of `toString()`: recognises the empty text and the value
      template, and recovers the rendered value from the latter. */
  function Read(s: string): Reading {
    if s == EmptyText then ReadEmpty
    else if |ValuePrefix| < |s| && s[..|ValuePrefix|] == ValuePrefix && s[|s| - 1] == ']'
    then ReadValue(s[|ValuePrefix|..|s| - 1])
    else NotRecognised
  }

  /** What `Read` should give back for the text of `o`. */
  function Expected<T>(o: Optional<T>, show: T -> string): Reading {
    match o
    case Empty => ReadEmpty
    case Present(v) => ReadValue(show(v))
  }

  /** The value template is never the empty text, and reading it back
      recovers the rendered value. */
  lemma ReadValueText(shown: string)
    ensures Read(ValueText(shown)) == ReadValue(shown)
  {
  }

  /** Reading the output of `toString()` tells the empty text apart from every
      rendered value and recovers that rendering. */
  lemma ReadToString<T>(o: Optional<T>, show: T -> string)
    ensures Read(ToString(o, show)) == Expected(o, show)
  {
  }

  /** `Read` accepts a string as a value text only if it is exactly the
      template around the recovered rendering, and as empty only if it is
      exactly the empty text. */
  lemma ReadIsExact(s: string)
    ensures Read(s).ReadValue? ==> s == ValueText(Read(s).shown)
    ensures Read(s).ReadEmpty? ==> s == EmptyText
  {
  }

  /** Two Optionals with the same text are both empty, or both present with
      values that render the same; no present value prints as empty. */
  lemma ToStringDeterminesRendering<T>(a: Optional<T>, b: Optional<T>, show: T -> string)
    requires ToString(a, show) == ToString(b, show)
    ensures a.Empty? <==> b.Empty?
    ensures a.Present? ==> show(a.value) == show(b.value)
  {
    ReadToString(a, show);
    ReadToString(b, show);
  }

  /** With a rendering that tells values apart, `toString()` tells Optionals
      apart. */
  lemma ToStringInjective<T>(a: Optional<T>, b: Optional<T>, show: T -> string)
    requires forall x, y :: show(x) == show(y) ==> x == y
    requires ToString(a, show) == ToString(b, show)
    ensures a == b
  {
    ToStringDeterminesRendering(a, b, show);
  }

  /** The repository's `toString` tests: `of(null)` prints `Optional[empty]`
      and `of("a")` prints `Optional[value=a]`. */
  lemma ToStringScenario()
    ensures ToString(Of<string>(Null), (s: string) => s) == "Optional[empty]"
    ensures ToString(Of(Val("a")), (s: string) => s) == "Optional[value=a]"
  {
  }
}
