/** The width of a machine word, and the smaller and larger of two numbers and their saturating difference. */
module Numbers {
  const U64_LIMIT := 0x1_0000_0000_0000_0000

  function Min(a: nat, b: nat): nat { if a < b then a else b }

  function Max(a: nat, b: nat): nat { if a < b then b else a }

  function Less(a: nat, b: nat): nat { if a < b then 0 else a - b }
}
