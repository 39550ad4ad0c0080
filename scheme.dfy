/** The palette: the decoded scheme document, its conversion into colours, and the
    encoder that turns one colour into the text a template of a given colour type needs. */
module Scheme {
  import opened Outcomes
  import opened Tokens
  import Text

  /** The scheme document after decoding: one string per kebab-case key (`font-family`,
      `black`, `light-black`, ...), every key mandatory. */
  datatype ColorSchemeInput = ColorSchemeInput(
    fontFamily: string,
    black: string, lightBlack: string, darkGray: string, gray: string,
    faintGray: string, lightGray: string, darkWhite: string, white: string,
    red: string, orange: string, yellow: string, green: string,
    cyan: string, blue: string, purple: string, brown: string)

  /** A colour exactly as written in the scheme document, normally `#` and hex digits. */
  datatype Color = Color(code: string)

  datatype ColorScheme = ColorScheme(
    fontFamily: string,
    black: Color, lightBlack: Color, darkGray: Color, gray: Color,
    faintGray: Color, lightGray: Color, darkWhite: Color, white: Color,
    red: Color, orange: Color, yellow: Color, green: Color,
    cyan: Color, blue: Color, purple: Color, brown: Color)

  /** The entry of the document that a token stands for. */
  function InputValue(input: ColorSchemeInput, t: ColorToken): string
  {
    match t
    case FontFamily => input.fontFamily
    case Black => input.black
    case LightBlack => input.lightBlack
    case DarkGray => input.darkGray
    case Gray => input.gray
    case FaintGray => input.faintGray
    case LightGray => input.lightGray
    case DarkWhite => input.darkWhite
    case White => input.white
    case Red => input.red
    case Orange => input.orange
    case Yellow => input.yellow
    case Green => input.green
    case Cyan => input.cyan
    case Blue => input.blue
    case Purple => input.purple
    case Brown => input.brown
  }

  /** The colour of the scheme that a colour token stands for. */
  function ColorOf(scheme: ColorScheme, t: ColorToken): Color
    requires !t.FontFamily?
  {
    match t
    case Black => scheme.black
    case LightBlack => scheme.lightBlack
    case DarkGray => scheme.darkGray
    case Gray => scheme.gray
    case FaintGray => scheme.faintGray
    case LightGray => scheme.lightGray
    case DarkWhite => scheme.darkWhite
    case White => scheme.white
    case Red => scheme.red
    case Orange => scheme.orange
    case Yellow => scheme.yellow
    case Green => scheme.green
    case Cyan => scheme.cyan
    case Blue => scheme.blue
    case Purple => scheme.purple
    case Brown => scheme.brown
  }

  /** `ColorSchemeInput::parse`: the font family is kept as text and every other entry is
      wrapped as a colour, unchanged, under the token of the same name. */
  function ParseInput(input: ColorSchemeInput): (scheme: ColorScheme)
    ensures scheme.fontFamily == InputValue(input, FontFamily)
    ensures forall t: ColorToken :: !t.FontFamily? ==> ColorOf(scheme, t) == Color(InputValue(input, t))
  {
    ColorScheme(
      input.fontFamily,
      Color(input.black), Color(input.lightBlack), Color(input.darkGray), Color(input.gray),
      Color(input.faintGray), Color(input.lightGray), Color(input.darkWhite), Color(input.white),
      Color(input.red), Color(input.orange), Color(input.yellow), Color(input.green),
      Color(input.cyan), Color(input.blue), Color(input.purple), Color(input.brown))
  }

  /** How a template wants its colours written. */
  datatype ColorType = Hex | Rrggbbaa

  predicate HasHash(c: Color)
  {
    "#" <= c.code
  }

  /** Every colour of the scheme (the font family is not one) starts with `#`. */
  predicate AllHashed(scheme: ColorScheme)
  {
    forall t: ColorToken :: !t.FontFamily? ==> HasHash(ColorOf(scheme, t))
  }

  /** `to_color_code`. For `Hex` the colour is returned exactly as written, its `#` included;
      for `Rrggbbaa` the mandatory leading `#` is removed and the opaque alpha `ff` appended,
      and a colour without the `#` aborts the run. */
  function ToColorCode(c: Color, ct: ColorType): (r: Result<string>)
    ensures ct == Hex ==> r == Ok(c.code)
    ensures ct == Rrggbbaa ==> (r.Ok? <==> HasHash(c))
    ensures ct == Rrggbbaa && !r.Ok? ==> r == Err(MissingHashPrefix(c.code))
    ensures ct == Rrggbbaa && r.Ok? ==>
      |r.value| == |c.code| + 1 && "#" + r.value[..|r.value| - 2] == c.code && r.value[|r.value| - 2..] == "ff"
  {
    match ct
    case Hex => Ok(c.code)
    case Rrggbbaa =>
      match Text.StripPrefix(c.code, "#")
      case Some(digits) => Ok(digits + "ff")
      case None => Err(MissingHashPrefix(c.code))
  }

  /** The round trip of the `Rrggbbaa` encoding on a colour written as `#` and digits. */
  lemma RrggbbaaCode(digits: string)
    ensures ToColorCode(Color("#" + digits), Rrggbbaa) == Ok(digits + "ff")
  {
    assert "#" <= "#" + digits;
  }
}
