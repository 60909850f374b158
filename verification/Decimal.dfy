/** Decimal numerals and the u64 literals built from them. */
module Decimal {
  import opened Common
  import opened GoStrings

  const U64 := 0x1_0000_0000_0000_0000

  function Digit(d: nat): char
    requires d < 10
  {
    (48 + d) as char
  }

  /** fmt's %d of a nonnegative number. */
  function Print(n: nat): (s: string)
    ensures s != [] && forall c :: c in s ==> '0' <= c <= '9'
  {
    if n < 10 then [Digit(n)] else Print(n / 10) + [Digit(n % 10)]
  }

  /** The number that a nonempty string of digits denotes. */
  function Value(s: string): Option<nat>
    decreases |s|
  {
    if s == [] then None
    else
      var c := Last(s);
      if !('0' <= c <= '9') then None
      else if |s| == 1 then Some(c as int - 48)
      else match Value(s[..|s| - 1])
        case None => None
        case Some(v) => Some(10 * v + (c as int - 48))
  }

  /** strconv.ParseUint(s, 10, 64) */
  function ParseUint(s: string): Option<nat> {
    match Value(s)
    case Some(v) => if v < U64 then Some(v) else None
    case None => None
  }

  lemma {:induction false} PrintParses(n: nat)
    ensures Value(Print(n)) == Some(n)
  {
    if n >= 10 {
      PrintParses(n / 10);
      assert Print(n)[..|Print(n)| - 1] == Print(n / 10);
    }
  }

  /** One more digit is ten times as much and the digit. */
  lemma NumeralGrows(n: nat, d: nat)
    requires n > 0 && d < 10
    ensures Print(10 * n + d) == Print(n) + [('0' as int + d) as char]
    ensures d > 0 ==> Print(d) == [('0' as int + d) as char]
  {
    assert (10 * n + d) / 10 == n && (10 * n + d) % 10 == d;
  }

  /** Numerals are read digit by digit, leading zeros included. */
  lemma ValueGrows(s: string, d: nat)
    requires d < 10
    ensures s == "" ==> Value(s + [('0' as int + d) as char]) == Some(d)
    ensures Value(s).Some? ==> Value(s + [('0' as int + d) as char]) == Some(10 * Value(s).value + d)
  {
    var t := s + [('0' as int + d) as char];
    assert t[..|t| - 1] == s;
  }

  predicate IsQuote(c: char) {
    c == '"'
  }

  /** The balance in a mapping value; None is the error result. */
  function Balance(value: string): Option<nat> {
    ParseUint(TrimSuffix(Trim(TrimSpace(value), IsQuote), "u64"))
  }

  predicate Digits(s: string) {
    s != "" && forall c :: c in s ==> '0' <= c <= '9'
  }

  ghost predicate Quotes(s: string) {
    forall c :: c in s ==> c == '"'
  }

  /** A mapping value that is a numeral with or without `u64`, quoted any number of times and padded with blanks. */
  ghost predicate Spells(left: string, open: string, numeral: string, suffix: string, close: string, right: string,
                         value: string) {
    && Spaces(left) && Quotes(open) && Digits(numeral) && (suffix == "" || suffix == "u64") && Quotes(close)
    && Spaces(right) && value == left + (open + (numeral + suffix) + close) + right
  }

  /** The mapping value spells the number `n`, which fits in a uint64. */
  ghost predicate Denotes(value: string, n: nat) {
    n < 0x1_0000_0000_0000_0000 && exists left, open, numeral, suffix, close, right ::
      Spells(left, open, numeral, suffix, close, right, value) && Value(numeral) == Some(n)
  }

  lemma DigitsSnoc(s: string, c: char)
    ensures Digits(s + [c]) <==> (s == "" || Digits(s)) && '0' <= c <= '9'
  {
    var t := s + [c];
    assert t[|s|] == c && c in t;
    assert forall x :: x in s ==> x in t;
    assert forall x :: x in t ==> x in s || x == c;
  }

  lemma {:induction false} ValueOfDigits(s: string)
    ensures Value(s).Some? <==> Digits(s)
  {
    if s != "" {
      var init := s[..|s| - 1];
      ValueOfDigits(init);
      assert s == init + [Last(s)];
      DigitsSnoc(init, Last(s));
    }
  }

  lemma SpelledIsTrimmed(left: string, open: string, numeral: string, suffix: string, close: string, right: string,
                         value: string)
    requires Spells(left, open, numeral, suffix, close, right, value)
    ensures Trim(TrimSpace(value), IsQuote) == numeral + suffix
  {
    var literal := numeral + suffix;
    var quoted := open + literal + close;
    assert literal[0] == numeral[0] && numeral[0] in numeral;
    assert Last(literal) == if suffix == "" then Last(numeral) else '4';
    assert Last(numeral) in numeral;
    assert quoted[0] == if open == [] then literal[0] else '"' by {
      assert open != [] ==> open[0] in open;
    }
    assert Last(quoted) == if close == [] then Last(literal) else '"' by {
      assert close != [] ==> Last(close) in close;
    }
    TrimPadding(left, quoted, right, IsSpace);
    TrimPadding(open, literal, close, IsQuote);
  }

  lemma SuffixTrimmed(numeral: string, suffix: string)
    requires Digits(numeral) && (suffix == "" || suffix == "u64")
    ensures TrimSuffix(numeral + suffix, "u64") == numeral
  {
    if suffix == "" {
      assert numeral + suffix == numeral;
      var k := |numeral| - 3;
      assert k >= 0 ==> numeral[k..][0] == numeral[k] && numeral[k] in numeral;
    } else {
      assert (numeral + suffix)[|numeral|..] == "u64" && (numeral + suffix)[..|numeral|] == numeral;
    }
  }

  lemma TrimmedIsSpelled(value: string)
    returns (left: string, open: string, suffix: string, close: string, right: string)
    requires Digits(TrimSuffix(Trim(TrimSpace(value), IsQuote), "u64"))
    ensures Spells(left, open, TrimSuffix(Trim(TrimSpace(value), IsQuote), "u64"), suffix, close, right, value)
  {
    left, right := TrimSplits(value, IsSpace);
    open, close := TrimSplits(TrimSpace(value), IsQuote);
    var literal := Trim(TrimSpace(value), IsQuote);
    suffix := if HasSuffix(literal, "u64") then "u64" else "";
    assert literal == TrimSuffix(literal, "u64") + suffix;
  }

  /** The balance is read from exactly the values that spell a uint64. */
  lemma BalanceIff(value: string, n: nat)
    ensures Balance(value) == Some(n) <==> Denotes(value, n)
  {
    var numeral := TrimSuffix(Trim(TrimSpace(value), IsQuote), "u64");
    ValueOfDigits(numeral);
    if Balance(value) == Some(n) {
      var left, open, suffix, close, right := TrimmedIsSpelled(value);
    }
    if Denotes(value, n) {
      var left, open, digits, suffix, close, right :|
        Spells(left, open, digits, suffix, close, right, value) && Value(digits) == Some(n);
      SpelledIsTrimmed(left, open, digits, suffix, close, right, value);
      SuffixTrimmed(digits, suffix);
    }
  }

  /** Reads the balance out of a mapping value; it fails exactly for a value that spells no uint64. */
  method GetPublicBalance(value: string) returns (balance: Option<nat>)
    ensures balance == Balance(value)
    ensures forall n: nat :: balance == Some(n) <==> Denotes(value, n)
  {
    var val := value;
    val := TrimSpace(val);
    val := Trim(val, IsQuote);
    val := TrimSuffix(val, "u64");
    balance := ParseUint(val);
    forall n: nat ensures Balance(value) == Some(n) <==> Denotes(value, n) {
      BalanceIff(value, n);
    }
  }

  /** The input literal of an amount, as the transfer calls print it. */
  function Literal(amount: nat): string {
    Print(amount) + "u64"
  }

  /**
   An amount printed as a literal, quoted any number of times and padded with blanks, is read back as a balance
   exactly when it fits in a uint64.
   */
  lemma BalanceReadsLiteral(left: string, open: string, amount: nat, close: string, right: string)
    requires Spaces(left) && Spaces(right) && Quotes(open) && Quotes(close)
    ensures Balance(left + (open + Literal(amount) + close) + right) 
         == if amount < 0x1_0000_0000_0000_0000 then Some(amount) else None
  {
    var value := left + (open + Literal(amount) + close) + right;
    PrintParses(amount);
    SpelledIsTrimmed(left, open, Print(amount), "u64", close, right, value);
    SuffixTrimmed(Print(amount), "u64");
  }
}
