/** Bounds of the machine integers whose overflow the source checks. */
module Words {
  const U64_MAX := 18_446_744_073_709_551_615
  const I64_MAX := 9_223_372_036_854_775_807
  const I64_MIN := -9_223_372_036_854_775_808
  const I128_MAX := 170_141_183_460_469_231_731_687_303_715_884_105_727
}
