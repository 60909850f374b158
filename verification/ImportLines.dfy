/** How the SDK reads the import lines of an Aleo program source. */
module ImportLines {
  import opened Common
  import opened GoStrings

  /** The program ID named by one source line, if the line is an import. */
  function ImportOf(line: string): Option<string> {
    var l := TrimSpace(line);
    if !HasPrefix(l, "import ") then None
    else
      var parts := Fields(l);
      if |parts| < 2 then None else Some(TrimSuffix(parts[1], ";"))
  }

  /** The IDs named by a list of lines, in order and with repetitions. */
  function IdsOf(lines: seq<string>): seq<string> {
    if lines == [] then []
    else match ImportOf(lines[0])
      case None => IdsOf(lines[1..])
      case Some(id) => [id] + IdsOf(lines[1..])
  }

  function ImportIds(source: string): seq<string> {
    IdsOf(Lines(source))
  }

  /** A text that nothing or a blank begins, so that a word before it ends there. */
  predicate EndsWord(s: string) {
    s == "" || IsSpace(s[0])
  }

  lemma SecondWord(gap: string, word: string, tail: string)
    requires gap != "" && Spaces(gap) && word != "" && NoSpaces(word) && EndsWord(tail)
    ensures Fields("import" + (gap + (word + tail))) == ["import", word] + Fields(tail)
  {
    FieldsWord("import", gap + (word + tail));
    FieldsSkip(gap, word + tail);
    FieldsWord(word, tail);
  }

  lemma TrimCore(left: string, core: string, after: string)
    requires Spaces(left) && core != "" && !IsSpace(core[0]) && !IsSpace(Last(core))
    ensures TrimSpace(left + (core + after)) == core + TrimRight(after, IsSpace)
  {
    TrimLeftPadding(left, core + after, IsSpace);
    TrimRightKeeps(core, after, IsSpace);
  }

  /** What is read of a line whose first two words are `import` and `word`. */
  lemma ImportOfWord(left: string, gap: string, word: string, after: string)
    requires Spaces(left) && gap != "" && Spaces(gap) && word != "" && NoSpaces(word) && EndsWord(after)
    ensures ImportOf(left + ("import" + gap + word + after))
         == if gap[0] == ' ' then Some(TrimSuffix(word, ";")) else None
  {
    hide Fields;
    var core := "import" + gap + word;
    var tail := TrimRight(after, IsSpace);
    assert Last(core) == Last(word) && Last(word) in word;
    TrimCore(left, core, after);
    TrimRightEnds(after, IsSpace);
    var l := "import" + (gap + (word + tail));
    assert core + tail == l;
    SecondWord(gap, word, tail);
    PrefixIff(gap, word + tail);
  }

  lemma PrefixIff(gap: string, rest: string)
    requires gap != ""
    ensures HasPrefix("import" + (gap + rest), "import ") <==> gap[0] == ' '
  {
    var l := "import" + (gap + rest);
    assert l[..6] == "import" && l[6] == gap[0];
    assert "import " == "import" + [' '];
    assert l[..7] == "import" + [gap[0]];
  }

  /** The line reads `left`, the word import, `gap`, a second word, and anything that begins with a blank. */
  ghost predicate Shape(left: string, gap: string, word: string, tail: string, line: string) {
    && Spaces(left) && gap != "" && Spaces(gap) && gap[0] == ' ' && word != "" && NoSpaces(word) && EndsWord(tail)
    && line == left + ("import" + gap + word + tail)
  }

  lemma FirstWord(args: string) returns (gap: string, word: string, rest: string)
    requires !Spaces(args)
    ensures args == gap + (word + rest) && Spaces(gap) && word != "" && NoSpaces(word) && EndsWord(rest)
  {
    hide TrimLeft;
    var words := TrimLeft(args, IsSpace);
    gap := TrimLeftSplits(args, IsSpace);
    TrimLeftEnds(args, IsSpace);
    assert words == "" ==> args == gap;
    var n := WordLen(words);
    assert n > 0;
    word, rest := words[..n], words[n..];
    assert words == word + rest;
  }

  lemma Regroup(left: string, head: string, gap: string, word: string, rest: string, right: string)
    ensures left + (head + (gap + (word + rest))) + right == left + (head + gap + word + (rest + right))
  {
    assert head + gap + word + (rest + right) == (head + (gap + (word + rest))) + right;
  }

  lemma LastOfArgs(head: string, args: string)
    requires args != ""
    ensures Last(head + args) in args
  {
  }

  lemma ImportShape(line: string) returns (left: string, gap: string, word: string, tail: string)
    requires HasPrefix(TrimSpace(line), "import ")
    ensures Shape(left, gap, word, tail, line)
  {
    hide TrimLeft, TrimRight;
    var l, right := TrimSpace(line), "";
    left, right := TrimSplits(line, IsSpace);
    TrimRightEnds(TrimLeft(line, IsSpace), IsSpace);
    var args, rest := l[6..], "";
    assert l == "import" + args && args[0] == ' ';
    LastOfArgs("import", args);
    gap, word, rest := FirstWord(args);
    tail := rest + right;
    assert args[0] == if gap == "" then word[0] else gap[0];
    assert word[0] in word && IsSpace(' ');
    assert right != "" ==> right[0] in right;
    assert tail != "" ==> tail[0] == if rest == "" then right[0] else rest[0];
    Regroup(left, "import", gap, word, rest, right);
  }

  /** The `len(parts) < 2` guard never fires: a trimmed line that starts with `import ` has a second word. */
  lemma SecondWordExists(line: string)
    ensures ImportOf(line).Some? <==> HasPrefix(TrimSpace(line), "import ")
  {
    if HasPrefix(TrimSpace(line), "import ") {
      var left, gap, word, tail := ImportShape(line);
      ImportOfWord(left, gap, word, tail);
    }
  }

  /** The line names `id`: its first word is import, a space follows it, and the second word is `id` or `id;`. */
  ghost predicate Names(line: string, id: string) {
    exists left, gap, word, tail :: Shape(left, gap, word, tail, line) && Stripped(word, id)
  }

  /** A word names the ID before its final semicolon, if it has one. */
  predicate Stripped(word: string, id: string) {
    word == id + ";" || (word == id && (word == "" || Last(word) != ';'))
  }

  lemma TrimmedIsStripped(word: string, id: string)
    ensures TrimSuffix(word, ";") == id <==> Stripped(word, id)
  {
    if word != "" {
      assert word[|word| - 1..] == [Last(word)];
      assert word == word[..|word| - 1] + [Last(word)];
    }
    if word == id + ";" {
      assert word[..|word| - 1] == id;
    }
  }

  /** What is read of any line whatever. */
  lemma ImportReadIff(line: string, id: string)
    ensures ImportOf(line) == Some(id) <==> Names(line, id)
  {
    if ImportOf(line) == Some(id) {
      var left, gap, word, tail := ImportShape(line);
      ImportOfWord(left, gap, word, tail);
      TrimmedIsStripped(word, id);
    }
    if Names(line, id) {
      var left, gap, word, tail :| Shape(left, gap, word, tail, line) && Stripped(word, id);
      ImportOfWord(left, gap, word, tail);
      TrimmedIsStripped(word, id);
    }
  }

  // ---- statements

  /** A program ID as it may stand in an import statement. */
  ghost predicate ProgramId(id: string) {
    id != "" && NoSpaces(id) && ';' !in id && id != "import"
  }

  /**
   The statement at the head of a line is read as the import it is exactly when a space, not another blank, follows the
   word import, and a blank or the end of the line ends the second word. Nothing after it on the line is read.
   */
  lemma ImportStatementReadIff(left: string, gap: string, id: string, close: string, after: string)
    requires Spaces(left) && gap != "" && Spaces(gap) && ProgramId(id) && Spaces(close)
    ensures ImportOf(left + ("import" + gap + id + close + ";" + after)) == Some(id)
       <==> gap[0] == ' ' && (close != "" || EndsWord(after))
  {
    var line := left + ("import" + gap + id + close + ";" + after);
    if close != "" {
      assert line == left + ("import" + gap + id + (close + ";" + after));
      assert Last(id) in id;
      ImportOfWord(left, gap, id, close + ";" + after);
    } else if EndsWord(after) {
      assert line == left + ("import" + gap + (id + ";") + after);
      ImportOfWord(left, gap, id + ";", after);
      assert (id + ";")[..|id|] == id;
    } else {
      var n := WordLen(after);
      var word := id + ";" + after[..n];
      assert n > 0;
      assert line == left + ("import" + gap + word + after[n..]);
      ImportOfWord(left, gap, word, after[n..]);
    }
  }

  function Statement(id: string): string {
    "import " + id + ";"
  }

  lemma StatementRead(id: string, tail: string)
    requires NoSpaces(id) && EndsWord(tail)
    ensures ImportOf(Statement(id) + tail) == Some(id)
  {
    var word := id + ";";
    assert Statement(id) + tail == "" + ("import" + " " + word + tail);
    ImportOfWord("", " ", word, tail);
    assert word[..|id|] == id;
  }

  lemma StatementIsLine(id: string)
    requires NoSpaces(id)
    ensures '\n' !in Statement(id)
  {
    assert IsSpace('\n');
  }

  /** A source that opens with one import statement a line. */
  function Render(ids: seq<string>, body: string): string {
    if ids == [] then body else Statement(ids[0]) + "\n" + Render(ids[1..], body)
  }

  lemma ImportIdsCons(id: string, rest: string)
    requires NoSpaces(id)
    ensures ImportIds(Statement(id) + "\n" + rest) == [id] + ImportIds(rest)
  {
    StatementIsLine(id);
    StatementRead(id, "");
    assert Statement(id) + "" == Statement(id);
    LinesCons(Statement(id), rest);
    assert ([Statement(id)] + Lines(rest))[1..] == Lines(rest);
  }

  /** Reading a rendered source gives back its imports, in order, before those of the body. */
  lemma {:induction false} ImportsReadBack(ids: seq<string>, body: string)
    requires forall id :: id in ids ==> NoSpaces(id)
    ensures ImportIds(Render(ids, body)) == ids + ImportIds(body)
  {
    if ids != [] {
      ImportsReadBack(ids[1..], body);
      ImportIdsCons(ids[0], Render(ids[1..], body));
      Prepend([ids[0]], ImportIds(Render(ids[1..], body)), ids[1..], ImportIds(body));
      assert ids == [ids[0]] + ids[1..];
    }
  }

  // ---- sources line by line

  /** What is read of one line. */
  function OfLine(line: string): seq<string> {
    match ImportOf(line)
    case None => []
    case Some(id) => [id]
  }

  lemma {:induction false} OneLine(line: string)
    requires '\n' !in line
    ensures Lines(line) == [line] && ImportIds(line) == OfLine(line)
  {
    if line != [] {
      OneLine(line[1..]);
      assert [line[0]] + line[1..] == line;
    }
    assert [line][1..] == [];
  }

  /** Each line is read on its own, whatever comes before and after it. */
  lemma LineByLine(line: string, rest: string)
    requires '\n' !in line
    ensures ImportIds(line + "\n" + rest) == OfLine(line) + ImportIds(rest)
  {
    LinesCons(line, rest);
    assert ([line] + Lines(rest))[1..] == Lines(rest);
  }

  lemma TwoParts()
    ensures "import a; import b;" == "" + ("import" + " " + "a" + "" + ";" + " import b;")
    ensures '\n' !in "import a; import b;"
  {
  }

  /** Two statements on a line, of which the second is not read. */
  lemma SecondStatementUnseen()
    ensures ImportIds("import a; import b;") == ["a"]
  {
    hide ImportOf;
    TwoParts();
    ImportStatementReadIff("", " ", "a", "", " import b;");
    OneLine("import a; import b;");
  }

  /** A statement with a tab after the word import is not read. */
  lemma TabUnseen()
    ensures ImportIds("import\ta;") == []
  {
    assert "import\ta;" == "" + ("import" + "\t" + "a;" + "");
    ImportOfWord("", "\t", "a;", "");
    OneLine("import\ta;");
  }

  lemma GluedParts()
    ensures "import a;// x" == "" + ("import" + " " + "a;//" + " x") && '\n' !in "import a;// x"
    ensures TrimSuffix("a;//", ";") == "a;//"
  {
  }

  /** A statement with a comment right behind it is misread. */
  lemma GluedMisread()
    ensures ImportIds("import a;// x") == ["a;//"]
  {
    hide ImportOf, TrimSuffix;
    GluedParts();
    ImportOfWord("", " ", "a;//", " x");
    OneLine("import a;// x");
  }
}
