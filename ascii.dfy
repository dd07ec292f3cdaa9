/** The ASCII bytes the printer writes and the parser reads. */
module Ascii {
  import opened Wrappers

  const Plus: Byte := '+' as int
  const Minus: Byte := '-' as int
  const Bar: Byte := '|' as int
  const LineFeed: Byte := '\n' as int
  const CarriageReturn: Byte := '\r' as int
  const Space: Byte := ' ' as int
  const Zero: Byte := '0' as int
  const SmallX: Byte := 'x' as int
  const CapitalX: Byte := 'X' as int
  const Underscore: Byte := '_' as int

  /** The border line `+---+---+---+`, without its line break. */
  const Border: seq<Byte> := [Plus, Minus, Minus, Minus, Plus, Minus, Minus, Minus, Plus, Minus, Minus, Minus, Plus]
}
