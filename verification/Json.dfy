/**
 JSON strings (section 7 of RFC 8259) and arrays of strings, printed as serde_json and Go's encoding/json print them
 and parsed as both parse them. Text is a sequence of Unicode scalar values.
 */
module Json {
  import opened Common
  import opened Hex

  /** Who prints: Go also escapes the characters that are special in HTML and JavaScript. */
  datatype Printer = Serde | Go

  // ---- \uXXXX

  function Hex4(n: nat): (s: string)
    requires n < 0x10000
    ensures |s| == 4
  {
    [HexDigit(n / 4096), HexDigit(n / 256 % 16), HexDigit(n / 16 % 16), HexDigit(n % 16)]
  }

  function ParseHex4(s: string): (r: Option<nat>)
    requires |s| == 4
    ensures r.Some? ==> r.value < 0x10000
  {
    match (HexValue(s[0]), HexValue(s[1]), HexValue(s[2]), HexValue(s[3]))
    case (Some(a), Some(b), Some(c), Some(d)) => Some(4096 * a + 256 * b + 16 * c + d)
    case _ => None
  }

  lemma FourDigits(n: nat)
    ensures n == 4096 * (n / 4096) + 256 * (n / 256 % 16) + 16 * (n / 16 % 16) + n % 16
  {
    assert n == 16 * (n / 16) + n % 16;
    assert n / 16 == 16 * (n / 256) + n / 16 % 16;
    assert n / 256 == 16 * (n / 4096) + n / 256 % 16;
  }

  lemma Hex4Parses(n: nat)
    requires n < 0x10000
    ensures ParseHex4(Hex4(n)) == Some(n)
  {
    HexDigitParses(n / 4096);
    HexDigitParses(n / 256 % 16);
    HexDigitParses(n / 16 % 16);
    HexDigitParses(n % 16);
    FourDigits(n);
  }

  // ---- printing

  predicate NeedsHex(p: Printer, c: char) {
    || c as int < 32
    || (p.Go? && (c == '<' || c == '>' || c == '&' || c as int == 0x2028 || c as int == 0x2029))
  }

  /** The letter of the two-character escape of `c`, if it has one. */
  function ShortEscape(c: char): Option<char> {
    if c == '"' || c == '\\' then Some(c)
    else if c as int == 8 then Some('b')
    else if c as int == 9 then Some('t')
    else if c as int == 10 then Some('n')
    else if c as int == 12 then Some('f')
    else if c as int == 13 then Some('r')
    else None
  }

  function EscapeChar(p: Printer, c: char): (s: string)
    ensures s != []
  {
    if ShortEscape(c).Some? then ['\\', ShortEscape(c).value]
    else if NeedsHex(p, c) then ['\\', 'u'] + Hex4(c as int)
    else [c]
  }

  function Escape(p: Printer, s: string): string {
    if s == [] then "" else EscapeChar(p, s[0]) + Escape(p, s[1..])
  }

  function Quote(p: Printer, s: string): string {
    "\"" + Escape(p, s) + "\""
  }

  // ---- parsing

  /** The character that the escape letter `e` stands for. */
  function ShortUnescape(e: char): Option<char> {
    if e == '"' || e == '\\' || e == '/' then Some(e)
    else if e == 'b' then Some(8 as char)
    else if e == 't' then Some(9 as char)
    else if e == 'n' then Some(10 as char)
    else if e == 'f' then Some(12 as char)
    else if e == 'r' then Some(13 as char)
    else None
  }

  /** The first character that the inside of a string literal denotes, and the text after it. */
  function UnescapeChar(s: string): (r: Option<(char, string)>)
    requires s != []
    ensures r.Some? ==> |r.value.1| < |s|
  {
    if s[0] as int < 32 then None
    else if s[0] != '\\' then Some((s[0], s[1..]))
    else if |s| == 1 then None
    else if s[1] == 'u' then UnescapeHex(s)
    else match ShortUnescape(s[1])
      case None => None
      case Some(c) => Some((c, s[2..]))
  }

  /** A \uXXXX escape, or two of them for a character outside the basic multilingual plane. */
  function UnescapeHex(s: string): (r: Option<(char, string)>)
    requires |s| >= 2
    ensures r.Some? ==> |r.value.1| < |s|
  {
    if |s| < 6 then None
    else match ParseHex4(s[2..6])
      case None => None
      case Some(n) =>
        if n < 0xD800 || 0xE000 <= n then Some((n as char, s[6..]))
        else if n >= 0xDC00 || |s| < 12 || s[6..8] != "\\u" then None
        else match ParseHex4(s[8..12])
          case None => None
          case Some(low) =>
            if 0xDC00 <= low < 0xE000 then Some(((0x10000 + (n - 0xD800) * 0x400 + (low - 0xDC00)) as char, s[12..]))
            else None
  }

  /** Parses the rest of a string literal after its opening quote; also returns the text after the closing quote. */
  function Unquote(s: string): (r: Option<(string, string)>)
    ensures r.Some? ==> |r.value.1| < |s|
    decreases |s|
  {
    if s == [] then None
    else if s[0] == '"' then Some(("", s[1..]))
    else match UnescapeChar(s)
      case None => None
      case Some((c, tail)) =>
        match Unquote(tail)
        case None => None
        case Some((text, rest)) => Some(([c] + text, rest))
  }

  // ---- string round trip

  lemma ShortInverts(c: char)
    requires ShortEscape(c).Some?
    ensures ShortUnescape(ShortEscape(c).value) == Some(c) && ShortEscape(c).value != 'u'
  {
  }

  lemma HexInverts(c: char, tail: string)
    requires c as int < 0xD800
    ensures UnescapeHex(['\\', 'u'] + Hex4(c as int) + tail) == Some((c, tail))
  {
    var s := ['\\', 'u'] + Hex4(c as int) + tail;
    Hex4Parses(c as int);
    assert s[2..6] == Hex4(c as int) && s[6..] == tail;
  }

  lemma UnescapeInverts(p: Printer, c: char, tail: string)
    ensures var s := EscapeChar(p, c) + tail;
      s[0] != '"' && UnescapeChar(s) == Some((c, tail))
  {
    var s := EscapeChar(p, c) + tail;
    if ShortEscape(c).Some? {
      ShortInverts(c);
      assert s[2..] == tail;
    } else if NeedsHex(p, c) {
      HexInverts(c, tail);
    } else {
      assert s[1..] == tail;
    }
  }

  lemma UnquoteStep(s: string, c: char, tail: string, text: string, rest: string)
    requires s != [] && s[0] != '"' && UnescapeChar(s) == Some((c, tail)) && Unquote(tail) == Some((text, rest))
    ensures Unquote(s) == Some(([c] + text, rest))
  {
  }

  lemma {:induction false} UnquoteInverts(p: Printer, text: string, rest: string)
    ensures Unquote(Escape(p, text) + "\"" + rest) == Some((text, rest))
  {
    if text == [] {
      assert (Escape(p, text) + "\"" + rest)[1..] == rest;
    } else {
      var piece := EscapeChar(p, text[0]);
      var tail := Escape(p, text[1..]) + "\"" + rest;
      assert Escape(p, text) + "\"" + rest == piece + tail;
      UnescapeInverts(p, text[0], tail);
      UnquoteInverts(p, text[1..], rest);
      UnquoteStep(piece + tail, text[0], tail, text[1..], rest);
      assert text == [text[0]] + text[1..];
    }
  }

  /** Which characters are printed as they are: Go escapes five more, which are special in HTML and JavaScript. */
  lemma PrintedPlainIff(p: Printer, c: char)
    ensures EscapeChar(p, c) == [c]
       <==> c as int >= 32 && c != '"' && c != '\\'
            && (p.Go? ==> c != '<' && c != '>' && c != '&' && c as int != 0x2028 && c as int != 0x2029)
  {
    assert |EscapeChar(p, c)| == 1 ==> EscapeChar(p, c) == [c];
  }

  /** The characters with an escape of their own. */
  lemma ShortForms(p: Printer)
    ensures EscapeChar(p, '"') == "\\\"" && EscapeChar(p, '\\') == "\\\\"
    ensures EscapeChar(p, '\n') == "\\n" && EscapeChar(p, '\r') == "\\r" && EscapeChar(p, '\t') == "\\t"
    ensures EscapeChar(p, 8 as char) == "\\b" && EscapeChar(p, 12 as char) == "\\f"
  {
  }

  /** A character outside the basic multilingual plane may come as two escapes, in digits of either case. */
  lemma SurrogatePairRead(c: char, high: string, low: string, tail: string)
    requires c as int >= 0x10000 && |high| == 4 && |low| == 4
    requires ParseHex4(high) == Some(0xD800 + (c as int - 0x10000) / 0x400)
    requires ParseHex4(low) == Some(0xDC00 + (c as int - 0x10000) % 0x400)
    ensures UnescapeChar("\\u" + high + "\\u" + low + tail) == Some((c, tail))
  {
    var s := "\\u" + high + "\\u" + low + tail;
    var offset := c as int - 0x10000;
    assert s[2..6] == high && s[6..8] == "\\u" && s[8..12] == low && s[12..] == tail;
    assert offset == 0x400 * (offset / 0x400) + offset % 0x400;
  }

  /** Four hexadecimal digits are read as their value. */
  lemma FourDigitsRead(s: string)
    requires |s| == 4 && forall c :: c in s ==> HexValue(c).Some?
    ensures ParseHex4(s) == Some(4096 * HexValue(s[0]).value + 256 * HexValue(s[1]).value + 16 * HexValue(s[2]).value
                                 + HexValue(s[3]).value)
  {
    assert s[0] in s && s[1] in s && s[2] in s && s[3] in s;
  }

  /** A string literal with a raw control character in it is refused. */
  lemma {:induction false} ControlRefused(p: Printer, text: string, c: char, rest: string)
    requires c as int < 32
    ensures Unquote(Escape(p, text) + [c] + rest) == None
  {
    if text == [] {
      assert Escape(p, text) + [c] + rest == [c] + rest;
    } else {
      var piece, tail := EscapeChar(p, text[0]), Escape(p, text[1..]) + [c] + rest;
      assert Escape(p, text) + [c] + rest == piece + tail;
      UnescapeInverts(p, text[0], tail);
      ControlRefused(p, text[1..], c, rest);
    }
  }

  /** A printed string literal holds no control character, so no NUL. */
  lemma {:induction false} EscapedIsPrintable(p: Printer, s: string)
    ensures forall c :: c in Escape(p, s) ==> c as int >= 32
  {
    if s != [] {
      EscapedIsPrintable(p, s[1..]);
    }
  }

  // ---- arrays of strings

  predicate IsBlank(c: char) {
    c == ' ' || c == '\n' || c == '\r' || c == '\t'
  }

  function SkipBlank(s: string): (r: string)
    ensures |r| <= |s|
  {
    if s != [] && IsBlank(s[0]) then SkipBlank(s[1..]) else s
  }

  function Items(xs: seq<string>): (s: string)
    requires xs != []
    ensures s != [] && s[0] == '"'
  {
    if |xs| == 1 then Quote(Go, xs[0]) else Quote(Go, xs[0]) + "," + Items(xs[1..])
  }

  /** json.Marshal of a []string; None is the nil slice. */
  function MarshalList(xs: Option<seq<string>>): string {
    match xs
    case None => "null"
    case Some(list) => if list == [] then "[]" else "[" + Items(list) + "]"
  }

  function ParseItems(s: string): Option<seq<string>>
    decreases |s|
  {
    var t := SkipBlank(s);
    if t == [] || t[0] != '"' then None
    else match Unquote(t[1..])
      case None => None
      case Some((x, rest)) =>
        var u := SkipBlank(rest);
        if u == [] then None
        else if u[0] == ']' then (if SkipBlank(u[1..]) == [] then Some([x]) else None)
        else if u[0] != ',' then None
        else match ParseItems(u[1..])
          case None => None
          case Some(xs) => Some([x] + xs)
  }

  /** serde_json::from_str::<Vec<String>> */
  function ParseList(s: string): Option<seq<string>> {
    var t := SkipBlank(s);
    if t == [] || t[0] != '[' then None
    else
      var u := SkipBlank(t[1..]);
      if u != [] && u[0] == ']' then (if SkipBlank(u[1..]) == [] then Some([]) else None)
      else ParseItems(t[1..])
  }

  lemma ItemUnquotes(x: string, rest: string)
    ensures var s := Quote(Go, x) + rest; s[0] == '"' && Unquote(s[1..]) == Some((x, rest))
  {
    var inside := Escape(Go, x) + "\"" + rest;
    assert Quote(Go, x) + rest == ['"'] + inside;
    UnquoteInverts(Go, x, rest);
    assert (['"'] + inside)[1..] == inside;
  }

  lemma ParseItemsLast(s: string, x: string, rest: string)
    requires s != [] && s[0] == '"' && Unquote(s[1..]) == Some((x, "]" + rest))
    ensures ParseItems(s) == if SkipBlank(rest) == "" then Some([x]) else None
  {
    assert SkipBlank("]" + rest) == "]" + rest && ("]" + rest)[1..] == rest;
  }

  lemma ParseItemsStep(s: string, x: string, rest: string, tail: string)
    requires s != [] && s[0] == '"' && Unquote(s[1..]) == Some((x, rest))
    requires rest != [] && rest[0] == ',' && rest[1..] == tail
    ensures ParseItems(s) == match ParseItems(tail) case None => None case Some(xs) => Some([x] + xs)
  {
  }

  lemma ItemsCons(x: string, xs: seq<string>, end: string)
    requires xs != []
    ensures Items([x] + xs) + end == Quote(Go, x) + ("," + (Items(xs) + end))
  {
    assert ([x] + xs)[1..] == xs;
  }

  /** Printed items are read back in order if nothing but blanks follows the list, and refused otherwise. */
  lemma {:induction false} ParseItemsInverts(xs: seq<string>, rest: string)
    requires xs != []
    ensures ParseItems(Items(xs) + ("]" + rest)) == if SkipBlank(rest) == "" then Some(xs) else None
  {
    var end := "]" + rest;
    var s := Items(xs) + end;
    if |xs| == 1 {
      ItemUnquotes(xs[0], end);
      ParseItemsLast(s, xs[0], rest);
      assert xs == [xs[0]];
    } else {
      var tail := Items(xs[1..]) + end;
      assert xs == [xs[0]] + xs[1..];
      ItemsCons(xs[0], xs[1..], end);
      ItemUnquotes(xs[0], "," + tail);
      ParseItemsInverts(xs[1..], rest);
      ParseItemsStep(s, xs[0], "," + tail, tail);
    }
  }

  lemma {:induction false} ItemsPrintable(xs: seq<string>)
    requires xs != []
    ensures forall c :: c in Items(xs) ==> c as int >= 32
  {
    EscapedIsPrintable(Go, xs[0]);
    if |xs| > 1 {
      ItemsPrintable(xs[1..]);
    }
  }

  // ---- C strings

  /** What a reader sees of a text handed over as a NUL-terminated string. */
  function CString(s: string): string {
    if s == [] || s[0] == '\0' then "" else [s[0]] + CString(s[1..])
  }

  lemma {:induction false} CStringIntact(s: string)
    ensures CString(s) == s <==> '\0' !in s
  {
    if s != [] && s[0] != '\0' {
      CStringIntact(s[1..]);
      assert s == [s[0]] + s[1..];
    }
  }

  lemma EmptyListRead(s: string, rest: string)
    requires SkipBlank(s) == "[]" + rest
    ensures ParseList(s) == if SkipBlank(rest) == "" then Some([]) else None
  {
    assert ("[]" + rest)[1..] == "]" + rest && ("]" + rest)[1..] == rest;
  }

  lemma ItemsListRead(s: string, xs: seq<string>, rest: string)
    requires xs != [] && SkipBlank(s) == "[" + (Items(xs) + ("]" + rest))
    ensures ParseList(s) == if SkipBlank(rest) == "" then Some(xs) else None
  {
    hide Items, ParseItems;
    ParseItemsInverts(xs, rest);
    assert ("[" + (Items(xs) + ("]" + rest)))[1..] == Items(xs) + ("]" + rest);
  }

  /** A printed list is read back if only blanks stand around it; with any other text behind it, it is refused. */
  lemma ListReadIff(before: string, xs: seq<string>, rest: string)
    requires forall c :: c in before ==> IsBlank(c)
    ensures ParseList(before + MarshalList(Some(xs)) + rest) == if SkipBlank(rest) == "" then Some(xs) else None
  {
    hide ParseList, Items;
    var text := MarshalList(Some(xs)) + rest;
    assert before + MarshalList(Some(xs)) + rest == before + text;
    SkipsPad(before, text);
    if xs == [] {
      EmptyListRead(before + text, rest);
    } else {
      assert text == "[" + (Items(xs) + ("]" + rest));
      ItemsListRead(before + text, xs, rest);
    }
  }

  lemma {:induction false} SkipsPad(before: string, text: string)
    requires text != "" && !IsBlank(text[0]) && forall c :: c in before ==> IsBlank(c)
    ensures SkipBlank(before + text) == text
  {
    if before == "" {
      assert before + text == text;
    } else {
      assert (before + text)[1..] == before[1..] + text;
      SkipsPad(before[1..], text);
    }
  }

  /** A list crosses the boundary unchanged, in order, exactly when it is not the nil slice. */
  lemma ListCrosses(xs: Option<seq<string>>)
    ensures
      var received := ParseList(CString(MarshalList(xs)));
      match xs
      case Some(list) => received == Some(list)
      case None => received == None
  {
    var s := MarshalList(xs);
    CStringIntact(s);
    if xs.Some? {
      if xs.value != [] {
        ItemsPrintable(xs.value);
      }
      ListReadIff("", xs.value, "");
      assert "" + s + "" == s;
    }
  }
}
