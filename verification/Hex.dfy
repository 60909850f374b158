/** Hexadecimal digits. Printed in lower case, read in either case. */
module Hex {
  import opened Common

  function HexDigit(n: nat): char
    requires n < 16
  {
    if n < 10 then (48 + n) as char else (87 + n) as char
  }

  function HexValue(c: char): (r: Option<nat>)
    ensures r.Some? ==> r.value < 16
  {
    if '0' <= c <= '9' then Some(c as int - 48)
    else if 'a' <= c <= 'f' then Some(c as int - 87)
    else if 'A' <= c <= 'F' then Some(c as int - 55)
    else None
  }

  lemma HexDigitParses(n: nat)
    requires n < 16
    ensures HexValue(HexDigit(n)) == Some(n)
  {
  }

  /** A digit is read in either case, and no other character is read. */
  lemma HexValueIs(c: char)
    ensures HexValue(c) ==
      if c in "0123456789" then Some(c as int - '0' as int)
      else if c in "abcdef" then Some(10 + (c as int - 'a' as int))
      else if c in "ABCDEF" then Some(10 + (c as int - 'A' as int))
      else None
  {
    assert "0123456789" == ['0', '1', '2', '3', '4', '5', '6', '7', '8', '9'];
    assert "abcdef" == ['a', 'b', 'c', 'd', 'e', 'f'] && "ABCDEF" == ['A', 'B', 'C', 'D', 'E', 'F'];
  }

  lemma HexDigitIs(n: nat)
    requires n < 16
    ensures HexDigit(n) == "0123456789abcdef"[n]
  {
  }
}
