/** Text styles: the flags of canvas.go, tested the way Go tests them
    (`style&flag != 0` on a two's-complement int), and the SGR fragments
    SetStyle writes for them. */
module Styles {
  import opened Ansi

  /** The flags, 1 << iota in declaration order. */
  const StyleNoChange: int := 1
  const StyleNormal: int := 2
  const StyleBold: int := 4
  const StyleDim: int := 8
  const StyleUnderlined: int := 16
  const StyleBlink: int := 32
  const StyleInverted: int := 64
  const StyleHidden: int := 128

  /** Whether the power of two `flag` is set in `style`: halving rounds
      toward minus infinity, which is Go's arithmetic shift of an int, so
      this is `style&flag != 0` for negative styles too. */
  predicate Has(style: int, flag: int)
    requires flag > 0
    decreases flag
  {
    if flag == 1 then style % 2 == 1 else Has(style / 2, flag / 2)
  }

  function Optional(on: bool, s: string): string {
    if on then s else []
  }

  /** The attribute flags in the order SetStyle tests them, each with the
      SGR code it writes. */
  const Attributes: seq<(int, nat)> := [
    (StyleBold, 1), (StyleDim, 2), (StyleUnderlined, 4),
    (StyleBlink, 5), (StyleInverted, 7), (StyleHidden, 8)
  ]

  predicate IsAttributeTable(table: seq<(int, nat)>) {
    forall i :: 0 <= i < |table| ==> table[i].0 > 0 && table[i].1 in {1, 2, 4, 5, 7, 8}
  }

  /** ESC[cm for every entry of the table whose flag is set, in table order. */
  function FlagCodes(style: int, table: seq<(int, nat)>): string
    requires IsAttributeTable(table)
    decreases |table|
  {
    if table == [] then []
    else Optional(Has(style, table[0].0), Sgr([Digit(table[0].1)])) + FlagCodes(style, table[1..])
  }

  /** The codes of the table entries whose flag is set. */
  function FlagSet(style: int, table: seq<(int, nat)>): set<nat>
    requires IsAttributeTable(table)
    decreases |table|
  {
    if table == [] then {}
    else (if Has(style, table[0].0) then {table[0].1} else {}) + FlagSet(style, table[1..])
  }

  /** The fragments SetStyle writes for a style it has not cached: ESC[0m
      for Normal, then ESC[1m, 2m, 4m, 5m, 7m, 8m for Bold, Dim, Underlined,
      Blink, Inverted and Hidden, each when its flag is set, in that order.
      NoChange contributes nothing; contradictory flags are all written. */
  function StyleCodes(style: int): string {
    Optional(Has(style, StyleNormal), Sgr("0")) + FlagCodes(style, Attributes)
  }

  /** The SGR attribute codes a style switches on (besides the reset). */
  function AttributeCodes(style: int): set<nat> {
    FlagSet(style, Attributes)
  }

  /** What SetStyle appends when `cached` is the cached style. */
  function StyleUpdate(cached: int, style: int): string {
    if cached == style then [] else StyleCodes(style)
  }

  /** Flags other than NoChange read the same with the NoChange bit set. */
  lemma HasIgnoresNoChange(style: int, flag: int)
    requires !Has(style, StyleNoChange) && flag > 1
    ensures Has(style + StyleNoChange, flag) == Has(style, flag)
  {
    assert (style + 1) / 2 == style / 2;
  }

  lemma {:induction false} FlagsIgnoreNoChange(style: int, table: seq<(int, nat)>)
    requires !Has(style, StyleNoChange) && IsAttributeTable(table)
    requires forall i :: 0 <= i < |table| ==> table[i].0 > 1
    ensures FlagCodes(style + StyleNoChange, table) == FlagCodes(style, table)
    ensures FlagSet(style + StyleNoChange, table) == FlagSet(style, table)
    decreases |table|
  {
    if table != [] {
      HasIgnoresNoChange(style, table[0].0);
      FlagsIgnoreNoChange(style, table[1..]);
    }
  }

  /** The NoChange flag changes nothing that is written. */
  lemma NoChangeWritesNothing(style: int)
    requires !Has(style, StyleNoChange)
    ensures StyleCodes(style + StyleNoChange) == StyleCodes(style)
    ensures AttributeCodes(style + StyleNoChange) == AttributeCodes(style)
  {
    HasIgnoresNoChange(style, StyleNormal);
    FlagsIgnoreNoChange(style, Attributes);
  }

  lemma {:induction false} NoFlagsNoCodes(style: int, table: seq<(int, nat)>)
    requires IsAttributeTable(table)
    requires forall i :: 0 <= i < |table| ==> !Has(style, table[i].0)
    ensures FlagCodes(style, table) == [] && FlagSet(style, table) == {}
    decreases |table|
  {
    if table != [] {
      NoFlagsNoCodes(style, table[1..]);
    }
  }

  /** Normal alone is the bare reset ESC[0m: what NewCanvas writes. */
  lemma NormalIsReset()
    ensures StyleCodes(StyleNormal) == Sgr("0")
    ensures AttributeCodes(StyleNormal) == {}
  {
    NoFlagsNoCodes(StyleNormal, Attributes);
  }
}
