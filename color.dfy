/** Colours of the canvas: a record that names either an RGBA value, one of
    the 256 terminal colours, or the terminal's own default colour; and the
    SGR fragment that selects it for the foreground or the background
    (codes 38/48 with the xterm 256-colour extension "5;N", codes 39/49 for
    the default colour). */
module Colors {
  import opened Ansi

  type UInt8 = n: int | 0 <= n < 0x100
  type UInt16 = n: int | 0 <= n < 0x1_0000

  datatype Option<T> = None | Some(value: T)

  /** An RGBA value, 16 bits per channel, as color.Color reports it. */
  datatype Rgba = Rgba(r: UInt16, g: UInt16, b: UInt16, a: UInt16)

  /** The Go struct Color. Equality is structural, as Go's `==` on it is.
      rgba == None stands for a nil RGBA interface; term256 is used only
      then; isDefault marks the terminal's default colour. */
  datatype Color = Color(rgba: Option<Rgba>, term256: UInt8, isDefault: bool)

  const ColorDefault: Color := Color(None, 0, true)
  /** Also the zero value of Color, from which the canvas's colour cache starts. */
  const ColorBlack: Color := Color(None, 0, false)
  const ColorRed: Color := Color(None, 1, false)
  const ColorGreen: Color := Color(None, 2, false)
  const ColorYellow: Color := Color(None, 3, false)
  const ColorBlue: Color := Color(None, 4, false)
  const ColorMagenta: Color := Color(None, 5, false)
  const ColorCyan: Color := Color(None, 6, false)
  const ColorLightGray: Color := Color(None, 7, false)
  const ColorDarkGray: Color := Color(None, 8, false)
  const ColorLightRed: Color := Color(None, 9, false)
  const ColorLightGreen: Color := Color(None, 10, false)
  const ColorLightYellow: Color := Color(None, 11, false)
  const ColorLightBlue: Color := Color(None, 12, false)
  const ColorLightMagenta: Color := Color(None, 13, false)
  const ColorLightCyan: Color := Color(None, 14, false)
  const ColorWhite: Color := Color(None, 15, false)

  /** A colour as a terminal holds it: its own default, or a palette entry. */
  datatype Paint = DefaultPaint | Indexed(n: UInt8)

  /** The colour channel an SGR fragment addresses. */
  datatype Layer = Foreground | Background

  /** The palette entry or default marker a colour stands for. `index` is
      the RGBA-to-palette quantizer the canvas is given. */
  function Resolve(clr: Color, index: Rgba -> UInt8): Paint {
    if clr.isDefault then DefaultPaint
    else if clr.rgba.Some? then Indexed(index(clr.rgba.value))
    else Indexed(clr.term256)
  }

  /** The first parameter digit of the channel: '3' for foreground codes
      (38, 39), '4' for background codes (48, 49). */
  function LayerDigit(layer: Layer): char {
    if layer == Background then '4' else '3'
  }

  /** The fragment setBgFg writes for a colour on a channel: ESC[39m or
      ESC[49m for the default colour, ESC[38;5;Nm or ESC[48;5;Nm otherwise. */
  function ColorCode(clr: Color, layer: Layer, index: Rgba -> UInt8): string {
    match Resolve(clr, index)
    case DefaultPaint => Sgr([LayerDigit(layer), '9'])
    case Indexed(n) => Sgr([LayerDigit(layer)] + "8;5;" + Decimal(n))
  }

  /** What SetForeground or SetBackground appends when the cached colour of
      the channel is `cached` and `clr` is requested. */
  function ColorUpdate(cached: Color, clr: Color, layer: Layer, index: Rgba -> UInt8): (r: string)
    ensures r == [] <==> cached == clr
  {
    if cached == clr then [] else ColorCode(clr, layer, index)
  }
}
