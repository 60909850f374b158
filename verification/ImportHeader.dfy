/**
 The import statements at the head of a program: which of them the SDK's line scanner reads, however they are laid out.
 Blanks and line breaks may stand wherever the language allows them, and any text, such as a comment, between two
 statements.
 */
module ImportHeader {
  import opened Common
  import opened GoStrings
  import opened ImportLines

  /** The text `import`, `gap`, `id`, `close`, a semicolon, and `sep`, what stands before the next statement. */
  datatype Statement = Statement(gap: string, id: string, close: string, sep: string)

  /** The text from the ID of a statement on, and the text of the statement, both followed by `more`. */
  function FromId(s: Statement, more: string): string {
    s.id + (s.close + (";" + (s.sep + more)))
  }

  function Text(s: Statement, more: string): string {
    "import" + (s.gap + FromId(s, more))
  }

  function Texts(ss: seq<Statement>): string {
    if ss == [] then "" else Text(ss[0], Texts(ss[1..]))
  }

  function Imports(ss: seq<Statement>): seq<string> {
    if ss == [] then [] else [ss[0].id] + Imports(ss[1..])
  }

  // ---- line breaks

  function FirstLine(s: string): (r: string)
    ensures '\n' !in r && r <= s
  {
    if s == "" || s[0] == '\n' then "" else [s[0]] + FirstLine(s[1..])
  }

  /** What comes after the first line break. */
  function Rest(s: string): (r: string)
    ensures |r| <= |s|
    ensures '\n' in s ==> |r| < |s| && s == FirstLine(s) + "\n" + r
    ensures '\n' !in s ==> r == "" && FirstLine(s) == s
  {
    if s == "" then "" else if s[0] == '\n' then s[1..] else Rest(s[1..])
  }

  function LastLine(s: string): string
    decreases |s|
  {
    if '\n' in s then LastLine(Rest(s)) else s
  }

  // ---- separators

  /** Text that ends a line which names no import: blank, or no beginning of the word import and not begun by it. */
  ghost predicate QuietStart(line: string) {
    var u := TrimLeft(line, IsSpace);
    u == "" || !("import" <= u || u <= "import")
  }

  /** No line of a text between statements is read as an import of its own. */
  ghost predicate Quiet(s: string)
    decreases |s|
  {
    if '\n' in s then ImportOf(FirstLine(s)) == None && Quiet(Rest(s)) else QuietStart(s)
  }

  ghost predicate Valid(s: Statement) {
    s.gap != "" && Spaces(s.gap) && ProgramId(s.id) && Spaces(s.close) && ('\n' in s.sep ==> Quiet(Rest(s.sep)))
  }

  ghost predicate AllValid(ss: seq<Statement>) {
    forall s :: s in ss ==> Valid(s)
  }

  // ---- when all are read

  /** A space follows the word import, the ID is on the same line, and a blank or the end of a line ends its word. */
  ghost predicate WellSpaced(s: Statement) {
    s.gap != "" && s.gap[0] == ' ' && '\n' !in s.gap && (s.close != "" || EndsWord(s.sep))
  }

  /** Every statement stands at the start of a line, but for blanks, and is well spaced; `pad` precedes the first. */
  ghost predicate LineEach(pad: string, ss: seq<Statement>)
    decreases |ss|, 0
  {
    ss == [] ||
    (Spaces(LastLine(pad)) && WellSpaced(ss[0]) && Followed(ss[0], ss[1..]))
  }

  /** The statements that follow are each on a line of their own. */
  ghost predicate Followed(s: Statement, ss: seq<Statement>)
    decreases |ss|, 1
  {
    ss == [] || ('\n' in s.sep && LineEach(Rest(s.sep), ss))
  }

  // ---- lines that are not read

  /** Whatever follows on the line, it is not read as an import. */
  ghost predicate Dead(head: string) {
    '\n' !in head && forall t :: ImportOf(head + t) == None
  }

  lemma DeadMore(head: string, more: string)
    requires Dead(head) && '\n' !in more
    ensures Dead(head + more)
  {
    forall t ensures ImportOf(head + more + t) == None {
      assert head + more + t == head + (more + t);
    }
  }

  lemma KeywordFirst(l: string, word: string, t: string)
    requires l <= word + t
    ensures HasPrefix(l, "import ") ==> "import" <= word || word <= "import"
  {
    assert forall k :: 0 <= k < |l| && k < |word| ==> l[k] == word[k];
    assert "import" == "import "[..6];
  }

  /** A line is dead once its first word differs from import. */
  lemma OtherWordIsDead(left: string, word: string)
    requires Spaces(left) && '\n' !in left + word && word != "" && !IsSpace(word[0])
    requires !("import" <= word || word <= "import")
    ensures Dead(left + word)
  {
    forall t ensures ImportOf(left + word + t) == None {
      assert left + word + t == left + (word + t);
      TrimLeftPadding(left, word + t, IsSpace);
      TrimRightEnds(word + t, IsSpace);
      KeywordFirst(TrimSpace(left + word + t), word, t);
    }
  }

  /** What is left of a statement once its line was broken before the semicolon. */
  lemma SemicolonIsDead(close: string)
    requires Spaces(close) && '\n' !in close
    ensures Dead(close + ";")
  {
    OtherWordIsDead(close, ";");
  }

  lemma PrefixWord(l: string, word: string, tail: string)
    requires word != "" && NoSpaces(word) && EndsWord(tail) && l <= word + tail && HasPrefix(l, "import ")
    ensures word == "import"
  {
    var s := word + tail;
    assert s[..6] == "import" && s[6] == ' ';
    assert |word| > 6 ==> ' ' in word;
    assert |word| < 6 ==> IsSpace("import"[|word|]);
    assert |word| == 6 && word == s[..6];
  }

  /** A line whose first word is not import names no import. */
  lemma OtherFirstWord(left: string, word: string, tail: string)
    requires Spaces(left) && word != "" && NoSpaces(word) && EndsWord(tail) && word != "import"
    ensures ImportOf(left + (word + tail)) == None
  {
    assert word[0] in word;
    TrimLeftPadding(left, word + tail, IsSpace);
    TrimRightEnds(word + tail, IsSpace);
    var l := TrimSpace(left + (word + tail));
    if HasPrefix(l, "import ") {
      PrefixWord(l, word, tail);
    }
  }

  /** What is left of a statement once its line was broken before the ID. */
  lemma IdIsDead(gap: string, id: string, close: string)
    requires Spaces(gap) && ProgramId(id) && Spaces(close) && '\n' !in gap + close
    ensures Dead(gap + id + close + ";")
  {
    var head := gap + id + close + ";";
    assert IsSpace('\n');
    forall t ensures ImportOf(head + t) == None {
      if close != "" {
        assert head + t == gap + (id + (close + ";" + t));
        OtherFirstWord(gap, id, close + ";" + t);
      } else {
        var n := WordLen(t);
        var word := id + ";" + t[..n];
        assert head + t == gap + (word + t[n..]);
        assert word[|id|] == ';';
        OtherFirstWord(gap, word, t[n..]);
      }
    }
  }

  lemma IdLine(gap: string, id: string, close: string)
    requires Spaces(gap) && ProgramId(id) && Spaces(close)
    ensures ImportOf(gap + id + close) == None
  {
    assert gap + id + close == gap + (id + close);
    OtherFirstWord(gap, id, close);
  }

  lemma BlankLine(s: string)
    requires Spaces(s)
    ensures ImportOf(s) == None
  {
    TrimBlank(s);
  }

  /** The keyword alone on its line is not read. */
  lemma KeywordLine(left: string, gap: string)
    requires Spaces(left) && Spaces(gap)
    ensures ImportOf(left + "import" + gap) == None
  {
    assert left + "import" + gap == left + ("import" + gap);
    assert "import"[5] == 't';
    TrimCore(left, "import", gap);
    TrimRightBlank(gap);
  }

  lemma {:induction false} TrimRightBlank(s: string)
    requires Spaces(s)
    ensures TrimRight(s, IsSpace) == ""
  {
    if s != "" {
      TrimRightBlank(s[..|s| - 1]);
    }
  }

  // ---- where a line is broken

  lemma Cut(head: string, a: string, b: string, more: string)
    ensures head + ((a + "\n" + b) + more) == (head + a) + "\n" + (b + more)
  {
    assert (a + "\n" + b) + more == a + ("\n" + (b + more));
    assert head + (a + ("\n" + (b + more))) == (head + a) + ("\n" + (b + more));
  }

  /** A line that has begun with `head` ends at the first line break of `piece`. */
  lemma Broken(head: string, piece: string, more: string)
    requires '\n' !in head && '\n' in piece
    ensures ImportIds(head + (piece + more)) == OfLine(head + FirstLine(piece)) + ImportIds(Rest(piece) + more)
  {
    hide *;
    Cut(head, FirstLine(piece), Rest(piece), more);
    LineByLine(head + FirstLine(piece), Rest(piece) + more);
  }

  lemma BrokenFirst(piece: string, more: string)
    requires '\n' in piece
    ensures ImportIds(piece + more) == OfLine(FirstLine(piece)) + ImportIds(Rest(piece) + more)
  {
    Broken("", piece, more);
    assert "" + (piece + more) == piece + more;
    assert "" + FirstLine(piece) == FirstLine(piece);
  }

  lemma OnlyPad(pad: string)
    requires Quiet(pad)
    ensures ImportIds(pad) == []
    decreases |pad|
  {
    if '\n' in pad {
      LineByLine(FirstLine(pad), Rest(pad));
      OnlyPad(Rest(pad));
    } else {
      OneLine(pad);
      QuietLine(pad);
    }
  }

  lemma QuietLine(line: string)
    requires '\n' !in line && QuietStart(line)
    ensures ImportOf(line) == None && (Spaces(line) || Dead(line))
  {
    var u := TrimLeft(line, IsSpace);
    var left := TrimLeftSplits(line, IsSpace);
    TrimLeftEnds(line, IsSpace);
    if u == "" {
      assert line == left;
      BlankLine(line);
    } else {
      OtherWordIsDead(left, u);
      assert line + "" == line;
    }
  }

  // ---- the lines of a statement

  lemma Assoc(a: string, b: string, c: string)
    ensures a + (b + c) == (a + b) + c
  {
  }

  lemma ToGap(head: string, s: Statement, more: string)
    ensures head + Text(s, more) == (head + "import") + (s.gap + FromId(s, more))
  {
    Assoc(head, "import", s.gap + FromId(s, more));
  }

  lemma ToClose(head: string, s: Statement, more: string)
    ensures head + Text(s, more) == (head + ("import" + s.gap + s.id)) + (s.close + (";" + (s.sep + more)))
  {
    var rest := s.close + (";" + (s.sep + more));
    Assoc(s.gap, s.id, rest);
    Assoc("import", s.gap + s.id, rest);
    Assoc("import", s.gap, s.id);
    Assoc(head, "import" + s.gap + s.id, rest);
  }

  lemma ToSep(head: string, s: Statement, more: string)
    ensures head + Text(s, more) == (head + ("import" + s.gap + s.id + s.close + ";")) + (s.sep + more)
  {
    var front := "import" + s.gap + s.id;
    var rest := s.sep + more;
    ToClose(head, s, more);
    Assoc(head + front, s.close, ";" + rest);
    Assoc(head + front + s.close, ";", rest);
    Assoc(head, front, s.close);
    Assoc(head, front + s.close, ";");
  }

  lemma OneLineText(s: Statement)
    requires Valid(s)
    ensures '\n' !in s.id && '\n' !in "import" && '\n' !in ";"
  {
    assert IsSpace('\n');
  }

  lemma InGap(head: string, s: Statement, more: string)
    requires '\n' !in head && Valid(s) && '\n' in s.gap
    ensures ImportIds(head + Text(s, more))
         == OfLine(head + ("import" + FirstLine(s.gap))) + ImportIds(Rest(s.gap) + FromId(s, more))
  {
    hide *;
    OneLineText(s);
    ToGap(head, s, more);
    Broken(head + "import", s.gap, FromId(s, more));
    Assoc(head, "import", FirstLine(s.gap));
  }

  lemma InClose(head: string, s: Statement, more: string)
    requires '\n' !in head && Valid(s) && '\n' !in s.gap && '\n' in s.close
    ensures ImportIds(head + Text(s, more))
         == OfLine(head + ("import" + s.gap + s.id + FirstLine(s.close)))
            + ImportIds(Rest(s.close) + (";" + (s.sep + more)))
  {
    hide *;
    OneLineText(s);
    ToClose(head, s, more);
    Broken(head + ("import" + s.gap + s.id), s.close, ";" + (s.sep + more));
    Assoc(head, "import" + s.gap + s.id, FirstLine(s.close));
  }

  lemma InSep(head: string, s: Statement, more: string)
    requires '\n' !in head && Valid(s) && '\n' !in s.gap && '\n' !in s.close && '\n' in s.sep
    ensures ImportIds(head + Text(s, more))
         == OfLine(head + ("import" + s.gap + s.id + s.close + ";" + FirstLine(s.sep)))
            + ImportIds(Rest(s.sep) + more)
  {
    hide *;
    OneLineText(s);
    ToSep(head, s, more);
    Broken(head + ("import" + s.gap + s.id + s.close + ";"), s.sep, more);
    Assoc(head, "import" + s.gap + s.id + s.close + ";", FirstLine(s.sep));
  }

  lemma InOneLine(head: string, s: Statement, more: string)
    requires '\n' !in head && Valid(s) && '\n' !in s.gap && '\n' !in s.close && '\n' !in s.sep
    ensures '\n' !in head + ("import" + s.gap + s.id + s.close + ";" + s.sep)
    ensures head + Text(s, more) == (head + ("import" + s.gap + s.id + s.close + ";" + s.sep)) + more
  {
    hide *;
    OneLineText(s);
    ToSep(head, s, more);
    var front := "import" + s.gap + s.id + s.close + ";";
    Assoc(head + front, s.sep, more);
    Assoc(head, front, s.sep);
  }

  // ---- how many are read at most

  lemma DeadLine(head: string, more: string)
    ensures |OfLine(head + more)| <= 1
    ensures Dead(head) ==> OfLine(head + more) == []
  {
  }

  /** On a line that has begun with `head`: one import if no statement follows, else at most as many as follow. */
  lemma Bound(head: string, ss: seq<Statement>)
    requires '\n' !in head && AllValid(ss)
    ensures |ImportIds(head + Texts(ss))| <= if ss == [] then 1 else |ss|
    ensures Dead(head) ==> |ImportIds(head + Texts(ss))| <= if ss == [] then 0 else |ss| - 1
    decreases |ss|, 0, 0
  {
    if ss == [] {
      assert head + "" == head;
      OneLine(head);
      DeadLine(head, "");
    } else {
      var s, more := ss[0], Texts(ss[1..]);
      if '\n' in s.gap {
        InGap(head, s, more);
        DeadLine(head, "import" + FirstLine(s.gap));
        BoundFromId(Rest(s.gap), s, ss[1..]);
      } else if '\n' in s.close {
        InClose(head, s, more);
        DeadLine(head, "import" + s.gap + s.id + FirstLine(s.close));
        BoundFromClose(Rest(s.close), s, ss[1..]);
      } else if '\n' in s.sep {
        InSep(head, s, more);
        DeadLine(head, "import" + s.gap + s.id + s.close + ";" + FirstLine(s.sep));
        BoundFromPad(Rest(s.sep), ss[1..]);
      } else {
        var line := "import" + s.gap + s.id + s.close + ";" + s.sep;
        InOneLine(head, s, more);
        Bound(head + line, ss[1..]);
        if Dead(head) {
          DeadMore(head, line);
        }
      }
    }
  }

  lemma RestIsBlank(s: string)
    requires Spaces(s)
    ensures Spaces(Rest(s)) && Spaces(FirstLine(s))
    ensures '\n' in s ==> OfLine(FirstLine(s)) == []
  {
    if '\n' in s {
      assert forall c :: c in Rest(s) ==> c in s;
      BlankLine(FirstLine(s));
    }
  }

  /** Once a statement is broken before its ID, it is not read. */
  lemma BoundFromId(gap: string, s: Statement, ss: seq<Statement>)
    requires Spaces(gap) && Valid(s) && AllValid(ss)
    ensures |ImportIds(gap + FromId(s, Texts(ss)))| <= |ss|
    decreases |ss|, 4, |gap|
  {
    var more := s.sep + Texts(ss);
    RestIsBlank(gap);
    OneLineText(s);
    if '\n' in gap {
      BrokenFirst(gap, FromId(s, Texts(ss)));
      BoundFromId(Rest(gap), s, ss);
    } else {
      Assoc(gap, s.id, s.close + (";" + more));
      if '\n' in s.close {
        Broken(gap + s.id, s.close, ";" + more);
        RestIsBlank(s.close);
        IdLine(gap, s.id, FirstLine(s.close));
        BoundFromClose(Rest(s.close), s, ss);
      } else {
        Assoc(gap + s.id, s.close, ";" + more);
        Assoc(gap + s.id + s.close, ";", more);
        IdIsDead(gap, s.id, s.close);
        BoundFromSep(gap + s.id + s.close + ";", s, ss);
      }
    }
  }

  lemma BoundFromClose(close: string, s: Statement, ss: seq<Statement>)
    requires Spaces(close) && Valid(s) && AllValid(ss)
    ensures |ImportIds(close + (";" + (s.sep + Texts(ss))))| <= |ss|
    decreases |ss|, 3, |close|
  {
    RestIsBlank(close);
    if '\n' in close {
      BrokenFirst(close, ";" + (s.sep + Texts(ss)));
      BoundFromClose(Rest(close), s, ss);
    } else {
      Assoc(close, ";", s.sep + Texts(ss));
      SemicolonIsDead(close);
      BoundFromSep(close + ";", s, ss);
    }
  }

  lemma BoundFromSep(head: string, s: Statement, ss: seq<Statement>)
    requires Dead(head) && Valid(s) && AllValid(ss)
    ensures |ImportIds(head + (s.sep + Texts(ss)))| <= |ss|
    decreases |ss|, 2, 0
  {
    if '\n' in s.sep {
      Broken(head, s.sep, Texts(ss));
      DeadLine(head, FirstLine(s.sep));
      BoundFromPad(Rest(s.sep), ss);
    } else {
      Assoc(head, s.sep, Texts(ss));
      DeadMore(head, s.sep);
      Bound(head + s.sep, ss);
    }
  }

  /** At most as many imports are read as there are statements. */
  lemma BoundFromPad(pad: string, ss: seq<Statement>)
    requires Quiet(pad) && AllValid(ss)
    ensures |ImportIds(pad + Texts(ss))| <= |ss|
    decreases |ss|, 1, |pad|
  {
    if ss == [] {
      assert pad + "" == pad;
      OnlyPad(pad);
    } else if '\n' in pad {
      BrokenFirst(pad, Texts(ss));
      BoundFromPad(Rest(pad), ss);
    } else {
      Bound(pad, ss);
    }
  }

  // ---- when all are read

  lemma ImportsSize(ss: seq<Statement>)
    ensures |Imports(ss)| == |ss|
  {
  }

  /** After a line that is not read any more, all statements are read exactly when a line break and no less follows. */
  lemma SepIff(head: string, s: Statement, ss: seq<Statement>)
    requires Dead(head) && Valid(s) && AllValid(ss)
    ensures ImportIds(head + (s.sep + Texts(ss))) == Imports(ss)
       <==> Followed(s, ss)
    decreases |ss|, 2, 0
  {
    ImportsSize(ss);
    if '\n' in s.sep {
      Broken(head, s.sep, Texts(ss));
      DeadLine(head, FirstLine(s.sep));
      HeaderReadIff(Rest(s.sep), ss);
    } else {
      Assoc(head, s.sep, Texts(ss));
      DeadMore(head, s.sep);
      Bound(head + s.sep, ss);
    }
  }

  lemma CloseIff(close: string, s: Statement, ss: seq<Statement>)
    requires Spaces(close) && Valid(s) && AllValid(ss)
    ensures ImportIds(close + (";" + (s.sep + Texts(ss)))) == Imports(ss)
       <==> Followed(s, ss)
    decreases |ss|, 3, |close|
  {
    RestIsBlank(close);
    if '\n' in close {
      BrokenFirst(close, ";" + (s.sep + Texts(ss)));
      CloseIff(Rest(close), s, ss);
    } else {
      Assoc(close, ";", s.sep + Texts(ss));
      SemicolonIsDead(close);
      SepIff(close + ";", s, ss);
    }
  }

  /** One line read, and the rest of the text: together they are all imports exactly when each is what it should be. */
  lemma FirstAndRest(line: string, rest: seq<string>, id: string, ids: seq<string>)
    requires |rest| <= |ids|
    ensures OfLine(line) + rest == [id] + ids <==> ImportOf(line) == Some(id) && rest == ids
  {
    if OfLine(line) + rest == [id] + ids {
      assert OfLine(line) != [];
      assert (OfLine(line) + rest)[1..] == rest && ([id] + ids)[1..] == ids;
    }
  }

  lemma WordEnds(sep: string)
    requires '\n' in sep
    ensures EndsWord(FirstLine(sep)) <==> EndsWord(sep)
  {
    assert IsSpace('\n');
  }

  lemma ClosedLineIff(pad: string, s: Statement, ss: seq<Statement>)
    requires Spaces(pad) && '\n' !in pad && Valid(s) && AllValid(ss) && '\n' !in s.gap && '\n' in s.close
    ensures ImportIds(pad + Text(s, Texts(ss))) == [s.id] + Imports(ss) <==> WellSpaced(s) && Followed(s, ss)
    decreases |ss|, 4, 0
  {
    var first := FirstLine(s.close);
    InClose(pad, s, Texts(ss));
    RestIsBlank(s.close);
    assert first != "" ==> first[0] in first;
    assert Last(s.id) in s.id;
    ImportOfWord(pad, s.gap, s.id, first);
    CloseIff(Rest(s.close), s, ss);
    BoundFromClose(Rest(s.close), s, ss);
    ImportsSize(ss);
    FirstAndRest(pad + ("import" + s.gap + s.id + first), ImportIds(Rest(s.close) + (";" + (s.sep + Texts(ss)))),
                 s.id, Imports(ss));
  }

  lemma SeparatedLineIff(pad: string, s: Statement, ss: seq<Statement>)
    requires Spaces(pad) && '\n' !in pad && Valid(s) && AllValid(ss)
    requires '\n' !in s.gap && '\n' !in s.close && '\n' in s.sep
    ensures ImportIds(pad + Text(s, Texts(ss))) == [s.id] + Imports(ss) <==> WellSpaced(s) && Followed(s, ss)
    decreases |ss|, 4, 0
  {
    var line := pad + ("import" + s.gap + s.id + s.close + ";" + FirstLine(s.sep));
    InSep(pad, s, Texts(ss));
    WordEnds(s.sep);
    ImportStatementReadIff(pad, s.gap, s.id, s.close, FirstLine(s.sep));
    HeaderReadIff(Rest(s.sep), ss);
    BoundFromPad(Rest(s.sep), ss);
    ImportsSize(ss);
    FirstAndRest(line, ImportIds(Rest(s.sep) + Texts(ss)), s.id, Imports(ss));
  }

  lemma SharedLineIff(pad: string, s: Statement, ss: seq<Statement>)
    requires Spaces(pad) && '\n' !in pad && Valid(s) && AllValid(ss)
    requires '\n' !in s.gap && '\n' !in s.close && '\n' !in s.sep
    ensures ImportIds(pad + Text(s, Texts(ss))) == [s.id] + Imports(ss) <==> WellSpaced(s) && Followed(s, ss)
  {
    var line := pad + ("import" + s.gap + s.id + s.close + ";" + s.sep);
    InOneLine(pad, s, Texts(ss));
    ImportsSize(ss);
    Bound(line, ss);
    if ss == [] {
      assert line + "" == line;
      OneLine(line);
      ImportStatementReadIff(pad, s.gap, s.id, s.close, s.sep);
      FirstAndRest(line, [], s.id, []);
      assert OfLine(line) + [] == OfLine(line);
    }
  }

  lemma BrokenKeyword(pad: string, s: Statement, ss: seq<Statement>)
    requires Spaces(pad) && '\n' !in pad && Valid(s) && AllValid(ss) && '\n' in s.gap
    ensures ImportIds(pad + Text(s, Texts(ss))) != [s.id] + Imports(ss) && !WellSpaced(s)
  {
    InGap(pad, s, Texts(ss));
    RestIsBlank(s.gap);
    KeywordLine(pad, FirstLine(s.gap));
    Assoc(pad, "import", FirstLine(s.gap));
    BoundFromId(Rest(s.gap), s, ss);
    ImportsSize(ss);
  }

  /**
   However the statements are laid out, all of them are read, in order and nothing else with them, exactly when each
   stands at the start of a line, but for blanks, has a space right after the word import and its ID on the same line,
   and has a blank or a line break after the semicolon if the ID ends there.
   */
  lemma HeaderReadIff(pad: string, ss: seq<Statement>)
    requires Quiet(pad) && AllValid(ss)
    ensures ImportIds(pad + Texts(ss)) == Imports(ss) <==> LineEach(pad, ss)
    decreases |ss|, 1, |pad|
  {
    hide FirstLine, Rest, ImportIds, ImportOf, Valid, WellSpaced, Text;
    if ss == [] {
      assert pad + "" == pad;
      OnlyPad(pad);
    } else if '\n' in pad {
      BrokenFirst(pad, Texts(ss));
      HeaderReadIff(Rest(pad), ss);
    } else {
      QuietLine(pad);
      if !Spaces(pad) {
        Bound(pad, ss);
        ImportsSize(ss);
      } else if '\n' in ss[0].gap {
        BrokenKeyword(pad, ss[0], ss[1..]);
      } else if '\n' in ss[0].close {
        ClosedLineIff(pad, ss[0], ss[1..]);
      } else if '\n' in ss[0].sep {
        SeparatedLineIff(pad, ss[0], ss[1..]);
      } else {
        SharedLineIff(pad, ss[0], ss[1..]);
      }
    }
  }

  lemma TwoBreaks(first: string, rest: string, body: string)
    ensures (first + "\n" + rest) + "\n" + body == first + "\n" + (rest + "\n" + body)
  {
    Assoc(first + "\n", rest, "\n" + body);
    Assoc(first + "\n" + rest, "\n", body);
    Assoc(rest, "\n", body);
  }

  lemma TextAndBody(text: string, body: string)
    ensures ImportIds(text + "\n" + body) == ImportIds(text) + ImportIds(body)
    decreases |text|
  {
    hide *;
    if '\n' in text {
      var first, rest := FirstLine(text), Rest(text);
      TextAndBody(rest, body);
      LineByLine(first, rest);
      LineByLine(first, rest + "\n" + body);
      TwoBreaks(first, rest, body);
    } else {
      OneLine(text);
      LineByLine(text, body);
    }
  }

  /** The same for a whole source, whatever follows the statements. */
  lemma SourceReadIff(pad: string, ss: seq<Statement>, body: string)
    requires Quiet(pad) && AllValid(ss)
    ensures ImportIds(pad + Texts(ss) + "\n" + body) == Imports(ss) + ImportIds(body) <==> LineEach(pad, ss)
  {
    TextAndBody(pad + Texts(ss), body);
    HeaderReadIff(pad, ss);
    SameTail(ImportIds(pad + Texts(ss)), Imports(ss), ImportIds(body));
  }

  lemma SameTail(a: seq<string>, b: seq<string>, tail: seq<string>)
    ensures a + tail == b + tail <==> a == b
  {
    if a + tail == b + tail {
      assert (a + tail)[..|a|] == a && (b + tail)[..|b|] == b;
    }
  }
}
