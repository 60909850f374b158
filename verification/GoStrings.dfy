/** The part of Go's `strings` package that the SDK's line scanners use. */
module GoStrings {
  import opened Common

  /** unicode.IsSpace */
  predicate IsSpace(c: char) {
    var n := c as int;
    || 9 <= n <= 13 || n == 32 || n == 0x85 || n == 0xA0 || n == 0x1680
    || 0x2000 <= n <= 0x200A || n == 0x2028 || n == 0x2029 || n == 0x202F || n == 0x205F || n == 0x3000
  }

  /** The ASCII blanks, and the two others of Latin-1. */
  lemma AsciiSpaces(c: char)
    requires c as int < 256
    ensures IsSpace(c) <==> c == ' ' || c == '\t' || c == '\n' || c == '\r' || c as int in [0x0B, 0x0C, 0x85, 0xA0]
  {
  }

  ghost predicate Spaces(s: string) {
    forall c :: c in s ==> IsSpace(c)
  }

  ghost predicate NoSpaces(s: string) {
    forall c :: c in s ==> !IsSpace(c)
  }

  predicate HasPrefix(s: string, p: string) {
    p <= s
  }

  predicate HasSuffix(s: string, p: string) {
    |p| <= |s| && s[|s| - |p|..] == p
  }

  function TrimSuffix(s: string, p: string): string {
    if HasSuffix(s, p) then s[..|s| - |p|] else s
  }

  function TrimLeft(s: string, cut: char -> bool): string {
    if s != [] && cut(s[0]) then TrimLeft(s[1..], cut) else s
  }

  function TrimRight(s: string, cut: char -> bool): string {
    if s != [] && cut(Last(s)) then TrimRight(s[..|s| - 1], cut) else s
  }

  function Trim(s: string, cut: char -> bool): string {
    TrimRight(TrimLeft(s, cut), cut)
  }

  function TrimSpace(s: string): string {
    Trim(s, IsSpace)
  }

  /** The length of the word that `s` starts with. */
  function WordLen(s: string): (n: nat)
    ensures n <= |s| && NoSpaces(s[..n]) && (n < |s| ==> IsSpace(s[n]))
  {
    if s == [] || IsSpace(s[0]) then 0 else 1 + WordLen(s[1..])
  }

  /** strings.Fields: the words of `s`. */
  function Fields(s: string): seq<string>
    decreases |s|
  {
    if s == [] then []
    else if IsSpace(s[0]) then Fields(s[1..])
    else
      var n := WordLen(s);
      assert n > 0;
      [s[..n]] + Fields(s[n..])
  }

  /** strings.Split(s, "\n"), which SplitSeq enumerates. */
  function Lines(s: string): (r: seq<string>)
    ensures r != []
  {
    if s == [] then [""]
    else if s[0] == '\n' then [""] + Lines(s[1..])
    else
      var r := Lines(s[1..]);
      [[s[0]] + r[0]] + r[1..]
  }

  // ---- trimming

  lemma {:induction false} TrimLeftPadding(pad: string, s: string, cut: char -> bool)
    requires forall c :: c in pad ==> cut(c)
    requires s != [] ==> !cut(s[0])
    ensures TrimLeft(pad + s, cut) == s
  {
    if pad == [] {
      assert pad + s == s;
    } else {
      assert (pad + s)[1..] == pad[1..] + s;
      TrimLeftPadding(pad[1..], s, cut);
    }
  }

  lemma {:induction false} TrimRightPadding(s: string, pad: string, cut: char -> bool)
    requires forall c :: c in pad ==> cut(c)
    requires s != [] ==> !cut(Last(s))
    ensures TrimRight(s + pad, cut) == s
  {
    if pad == [] {
      assert s + pad == s;
    } else {
      assert (s + pad)[..|s + pad| - 1] == s + pad[..|pad| - 1];
      TrimRightPadding(s, pad[..|pad| - 1], cut);
    }
  }

  /** Trimming removes exactly the padding around a text that neither starts nor ends in it. */
  lemma TrimPadding(left: string, s: string, right: string, cut: char -> bool)
    requires forall c :: c in left + right ==> cut(c)
    requires s != [] && !cut(s[0]) && !cut(Last(s))
    ensures Trim(left + s + right, cut) == s
  {
    forall c | c in left || c in right ensures cut(c) {
      assert c in left + right;
    }
    assert left + s + right == left + (s + right);
    TrimLeftPadding(left, s + right, cut);
    TrimRightPadding(s, right, cut);
  }

  lemma {:induction false} TrimRightEnds(s: string, cut: char -> bool)
    ensures var t := TrimRight(s, cut); t <= s && (t != [] ==> !cut(Last(t)))
  {
    if s != [] && cut(Last(s)) {
      TrimRightEnds(s[..|s| - 1], cut);
    }
  }

  lemma {:induction false} TrimRightKeeps(s: string, t: string, cut: char -> bool)
    requires s != [] && !cut(Last(s))
    ensures TrimRight(s + t, cut) == s + TrimRight(t, cut)
  {
    if t == [] {
      assert s + t == s;
    } else if cut(Last(t)) {
      assert (s + t)[..|s + t| - 1] == s + t[..|t| - 1];
      TrimRightKeeps(s, t[..|t| - 1], cut);
    }
  }

  lemma {:induction false} TrimBlank(s: string)
    requires Spaces(s)
    ensures TrimLeft(s, IsSpace) == "" && TrimSpace(s) == ""
  {
    if s != [] {
      TrimBlank(s[1..]);
    }
  }

  /** What trimming removes is padding. */
  lemma {:induction false} TrimLeftSplits(s: string, cut: char -> bool) returns (pad: string)
    ensures s == pad + TrimLeft(s, cut) && forall c :: c in pad ==> cut(c)
  {
    pad := "";
    if s != [] && cut(s[0]) {
      pad := TrimLeftSplits(s[1..], cut);
      assert s == [s[0]] + pad + TrimLeft(s, cut);
      pad := [s[0]] + pad;
    }
  }

  lemma {:induction false} TrimRightSplits(s: string, cut: char -> bool) returns (pad: string)
    ensures s == TrimRight(s, cut) + pad && forall c :: c in pad ==> cut(c)
  {
    pad := "";
    if s != [] && cut(Last(s)) {
      pad := TrimRightSplits(s[..|s| - 1], cut);
      assert s == TrimRight(s, cut) + (pad + [Last(s)]);
      pad := pad + [Last(s)];
    }
  }

  lemma TrimSplits(s: string, cut: char -> bool) returns (left: string, right: string)
    ensures s == left + Trim(s, cut) + right
    ensures (forall c :: c in left ==> cut(c)) && (forall c :: c in right ==> cut(c))
  {
    left := TrimLeftSplits(s, cut);
    right := TrimRightSplits(TrimLeft(s, cut), cut);
    assert left + (Trim(s, cut) + right) == left + Trim(s, cut) + right;
  }

  lemma {:induction false} TrimLeftEnds(s: string, cut: char -> bool)
    ensures var t := TrimLeft(s, cut); t == "" || !cut(t[0])
  {
    if s != [] && cut(s[0]) {
      TrimLeftEnds(s[1..], cut);
    }
  }

  // ---- words

  lemma {:induction false} FieldsSkip(pad: string, s: string)
    requires Spaces(pad)
    ensures Fields(pad + s) == Fields(s)
  {
    if pad == [] {
      assert pad + s == s;
    } else {
      assert (pad + s)[1..] == pad[1..] + s;
      FieldsSkip(pad[1..], s);
    }
  }

  lemma {:induction false} WordLenIs(word: string, s: string)
    requires NoSpaces(word) && (s == [] || IsSpace(s[0]))
    ensures WordLen(word + s) == |word|
  {
    if word == [] {
      assert word + s == s;
    } else {
      assert (word + s)[1..] == word[1..] + s;
      WordLenIs(word[1..], s);
    }
  }

  lemma FieldsWord(word: string, s: string)
    requires word != [] && NoSpaces(word) && (s == [] || IsSpace(s[0]))
    ensures Fields(word + s) == [word] + Fields(s)
  {
    WordLenIs(word, s);
    assert (word + s)[..|word|] == word && (word + s)[|word|..] == s;
  }

  lemma {:induction false} FieldsNonEmpty(s: string)
    requires !Spaces(s)
    ensures Fields(s) != []
  {
    if IsSpace(s[0]) {
      var c :| c in s && !IsSpace(c);
      assert c in s[1..];
      FieldsNonEmpty(s[1..]);
    }
  }

  // ---- lines

  lemma {:induction false} LinesCons(line: string, rest: string)
    requires '\n' !in line
    ensures Lines(line + "\n" + rest) == [line] + Lines(rest)
  {
    var s := line + "\n" + rest;
    if line == [] {
      assert s[1..] == rest;
    } else {
      assert s[1..] == line[1..] + "\n" + rest;
      LinesCons(line[1..], rest);
      assert [s[0]] + line[1..] == line;
    }
  }
}
