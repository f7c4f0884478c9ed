/** Decimal text as Python's `str.strip`, `str.isdecimal` and `int` take it, within ASCII. */
module Decimals {
  import opened Wrappers
  import opened Chars

  function Strip(s: string): string {
    if s == "" then ""
    else if IsSpace(s[0]) then Strip(s[1..])
    else if IsSpace(s[|s| - 1]) then Strip(s[..|s| - 1])
    else s
  }

  predicate IsDecimal(s: string) { s != "" && All(s, IsDigit) }

  function Value(s: string): nat
    requires All(s, IsDigit)
  {
    if s == "" then 0 else 10 * Value(s[..|s| - 1]) + (s[|s| - 1] - '0') as nat
  }

  function Parse(s: string): Option<int> {
    if IsDecimal(s) then Some(Value(s)) else None
  }
}
