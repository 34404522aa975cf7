/**
  The validated building blocks of `CSSColor2`: an RGB component that can
  only hold 0..255, created through `tryParse`, and a colour name that
  `tryParse` currently accepts unconditionally.
 */
module CssColors {
  import opened JavaInt
  import opened Tries

  /** The values an RGB component may hold. */
  type Channel = x: int | 0 <= x <= 255

  /** `RGBComponent`: its constructor is private, so every instance went through `tryParse`. */
  datatype RGBComponent = RGBComponent(value: Channel)

  /** The cause `tryParse` gives a value outside 0..255. */
  function OutOfRange(value: int32): Throwable
  {
    IllegalArgument("RGBComponent can be created from value between 0 - 255 but was: " + DecimalString(value))
  }

  /** `RGBComponent.tryParse`: a component holding the value when it is within 0..255, else a failure naming it. */
  function TryParseComponent(value: int32): (r: Try<RGBComponent>)
    ensures r.Success? <==> 0 <= value <= 255
    ensures r.Success? ==> r.value.value == value
    ensures r.Failure? ==> r.cause == OutOfRange(value)
  {
    if value < 0 || value > 255 then Failure(OutOfRange(value)) else Success(RGBComponent(value))
  }

  /** Every component there is can be parsed back from its own value. */
  lemma ComponentRoundTrip(c: RGBComponent)
    ensures TryParseComponent(c.value) == Success(c)
  {
  }

  lemma OutOfRangeExample()
    ensures TryParseComponent(256) == Failure(IllegalArgument("RGBComponent can be created from value between 0 - 255 but was: 256"))
    ensures TryParseComponent(-1) == Failure(IllegalArgument("RGBComponent can be created from value between 0 - 255 but was: -1"))
  {
  }

  /** `ColorName`: a wrapped name. */
  datatype ColorName = ColorName(value: string)

  /** `ColorName.tryParse`: the name is not checked against any list yet, so every name is accepted as it is. */
  function TryParseName(name: string): (r: Try<ColorName>)
    ensures r.Success?
    ensures r.value.value == name
  {
    Success(ColorName(name))
  }

  /** Every colour name can be parsed back from its text. */
  lemma NameRoundTrip(c: ColorName)
    ensures TryParseName(c.value) == Success(c)
  {
  }
}
