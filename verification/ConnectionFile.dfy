/** The libreswan connection file (pkg/cable/libreswan/connection_file.go): an editor that adds and
    removes named stanzas in a text file, and what it does to the list of stanzas in that file. */
module ConnectionFile {
  import opened LineBlocks
  import opened Wrappers

  // ----- library functions the editor calls -----

  /** The white space of the Unicode standard. */
  predicate IsSpace(c: char) {
    || c in "\t\n\r \U{0B}\U{0C}\U{85}\U{A0}\U{1680}\U{2028}\U{2029}\U{202F}\U{205F}\U{3000}"
    || '\U{2000}' <= c <= '\U{200A}'
  }

  function TrimLeft(s: string): string {
    if s != "" && IsSpace(s[0]) then TrimLeft(s[1..]) else s
  }

  function TrimRight(s: string): string {
    if s != "" && IsSpace(s[|s| - 1]) then TrimRight(s[..|s| - 1]) else s
  }

  function TrimSpace(s: string): string {
    TrimRight(TrimLeft(s))
  }

  predicate HasPrefix(s: string, prefix: string) {
    prefix <= s
  }

  predicate EndsLine(s: string) {
    s != "" && s[|s| - 1] == '\n'
  }

  function Split(s: string): (lines: seq<string>)
    ensures lines != []
  {
    if s == "" then [""]
    else
      var rest := Split(s[1..]);
      if s[0] == '\n' then [""] + rest else [[s[0]] + rest[0]] + rest[1..]
  }

  function DeleteEmpty(lines: seq<string>): seq<string> {
    if lines == [] then []
    else (if lines[0] == "" then [] else [lines[0]]) + DeleteEmpty(lines[1..])
  }

  function Join(lines: seq<string>): string {
    if lines == [] then ""
    else if |lines| == 1 then lines[0]
    else lines[0] + "\n" + Join(lines[1..])
  }

  // ----- the editor -----

  /** The lines of a text that are not empty. */
  function Lines(s: string): seq<string> {
    DeleteEmpty(Split(s))
  }

  predicate IsHeader(line: string) {
    HasPrefix(TrimSpace(line), "conn ")
  }

  function TitleTest(connName: string): string -> bool {
    s => TrimSpace(s) == "conn " + connName
  }

  /** No lines, no file. */
  function Written(lines: seq<string>): Option<string> {
    if lines == [] then None else Some(Join(lines) + "\n")
  }

  function Removed(file: Option<string>, connName: string): Option<string> {
    if file.None? then None
    else
      var lines := Lines(file.value);
      var start := IndexFunc(lines, TitleTest(connName));
      if start == -1 then file else Written(CutFrom(lines, start, IsHeader))
  }

  function Text(file: Option<string>): string {
    if file.None? then "" else file.value
  }

  function Appended(file: Option<string>, stanza: string, connName: string): Option<string> {
    var removed := Removed(file, connName);
    Some(Text(removed) + (if EndsLine(stanza) then stanza else stanza + "\n"))
  }

  class ConnectionFile {
    /** What is stored under the path; None when there is no file. */
    var content: Option<string>

    constructor (file: Option<string>)
      ensures content == file
    {
      content := file;
    }

    method AppendConnectionStanza(stanza: string, connName: string)
      modifies this
      ensures content == Appended(old(content), stanza, connName)
    {
      RemoveConnectionStanza(connName);
      var text := stanza;
      if !EndsLine(text) {
        text := text + "\n";
      }
      content := Some(Text(content) + text);
    }

    method RemoveConnectionStanza(connName: string)
      modifies this
      ensures content == Removed(old(content), connName)
    {
      if content.None? {
        return;
      }
      var lines := DeleteEmpty(Split(content.value));
      var start := IndexFunc(lines, TitleTest(connName));
      if start == -1 {
        return;
      }
      var end := IndexFunc(lines[start + 1..], IsHeader);
      if end == -1 {
        end := |lines|;
      } else {
        end := end + start + 1;
      }
      ghost var before := lines;
      lines := lines[..start] + lines[end..];
      assert lines == CutFrom(before, start, IsHeader);
      assert Removed(content, connName) == Written(lines);
      if |lines| == 0 {
        content := None;
        return;
      }
      content := Some(Join(lines) + "\n");
    }
  }

  // ----- what a file holds: lines before the first stanza, then stanzas -----

  ghost function LinesOf(file: Option<string>): seq<string> {
    Lines(Text(file))
  }

  ghost function StanzasOf(file: Option<string>): seq<seq<string>> {
    Blocks(LinesOf(file), IsHeader)
  }

  ghost function PreambleOf(file: Option<string>): seq<string> {
    Preamble(LinesOf(file), IsHeader)
  }

  /** A text that is a single stanza with this name. */
  ghost predicate WellFormed(stanza: string, connName: string) {
    IsBlock(Lines(stanza), IsHeader) && TitleTest(connName)(Lines(stanza)[0])
  }

  /** Absent, empty, or ending in a newline. */
  predicate Terminated(file: Option<string>) {
    Text(file) == "" || EndsLine(Text(file))
  }

  /** A line before the end of the text is empty. */
  predicate HasBlankLine(s: string) {
    "" in Split(s)[..|Split(s)| - 1]
  }

  // ----- text and lines -----

  /** Two lists of pieces where the last of one and the first of the other become one piece. */
  ghost function Glue<T>(x: seq<seq<T>>, y: seq<seq<T>>): seq<seq<T>>
    requires x != [] && y != []
  {
    x[..|x| - 1] + [x[|x| - 1] + y[0]] + y[1..]
  }

  lemma GlueCons<T>(p: seq<T>, x: seq<seq<T>>, y: seq<seq<T>>)
    requires x != [] && y != []
    ensures Glue([p] + x, y) == [p] + Glue(x, y)
  {
  }

  lemma GlueInto<T>(c: T, x: seq<seq<T>>, y: seq<seq<T>>)
    requires x != [] && y != []
    ensures Glue([[c] + x[0]] + x[1..], y) == [[c] + Glue(x, y)[0]] + Glue(x, y)[1..]
  {
    assert [c] + (x[0] + y[0]) == [c] + x[0] + y[0];
  }

  lemma {:induction false} SplitConcat(a: string, b: string)
    ensures Split(a + b) == Glue(Split(a), Split(b))
  {
    if a == "" {
      assert a + b == b;
      assert "" + Split(b)[0] == Split(b)[0];
    } else {
      SplitConcat(a[1..], b);
      assert (a + b)[1..] == a[1..] + b;
      GlueCons("", Split(a[1..]), Split(b));
      GlueInto(a[0], Split(a[1..]), Split(b));
    }
  }

  lemma {:induction false} DeleteEmptyConcat(a: seq<string>, b: seq<string>)
    ensures DeleteEmpty(a + b) == DeleteEmpty(a) + DeleteEmpty(b)
  {
    if a == [] {
      assert a + b == b;
    } else {
      DeleteEmptyConcat(a[1..], b);
      DeleteEmptyCons(a[0], a[1..]);
      DeleteEmptyCons(a[0], a[1..] + b);
      assert [a[0]] + a[1..] == a && [a[0]] + (a[1..] + b) == a + b;
      Assoc(if a[0] == "" then [] else [a[0]], DeleteEmpty(a[1..]), DeleteEmpty(b));
    }
  }

  lemma DeleteEmptyCons(l: string, rest: seq<string>)
    ensures DeleteEmpty([l] + rest) == (if l == "" then [] else [l]) + DeleteEmpty(rest)
  {
    assert ([l] + rest)[1..] == rest;
  }

  lemma Assoc<T>(a: seq<T>, b: seq<T>, c: seq<T>)
    ensures a + (b + c) == a + b + c
  {
  }

  lemma DeleteEmptyParts(a: seq<string>, l: string, b: seq<string>)
    ensures DeleteEmpty(a + [l] + b) == DeleteEmpty(a) + (if l == "" then [] else [l]) + DeleteEmpty(b)
  {
    Assoc(a, [l], b);
    DeleteEmptyConcat(a, [l] + b);
    DeleteEmptyCons(l, b);
    Assoc(DeleteEmpty(a), if l == "" then [] else [l], DeleteEmpty(b));
  }

  lemma GluedLines(x: seq<string>, y: seq<string>)
    requires x != [] && y != []
    ensures var glued := x[|x| - 1] != "" && y[0] != "";
      && (!glued ==> DeleteEmpty(Glue(x, y)) == DeleteEmpty(x) + DeleteEmpty(y))
      && (glued ==> |DeleteEmpty(Glue(x, y))| == |DeleteEmpty(x)| + |DeleteEmpty(y)| - 1)
  {
    var k := |x| - 1;
    DeleteEmptyParts(x[..k], x[k] + y[0], y[1..]);
    DeleteEmptySnoc(x[..k], x[k]);
    DeleteEmptyCons(y[0], y[1..]);
    assert x == x[..k] + [x[k]] && y == [y[0]] + y[1..];
    GluePieces(x[k], y[0], DeleteEmpty(x[..k]), DeleteEmpty(y[1..]));
  }

  lemma DeleteEmptySnoc(rest: seq<string>, l: string)
    ensures DeleteEmpty(rest + [l]) == DeleteEmpty(rest) + (if l == "" then [] else [l])
  {
    DeleteEmptyConcat(rest, [l]);
    DeleteEmptyOne(l);
  }

  lemma DeleteEmptyOne(l: string)
    ensures DeleteEmpty([l]) == if l == "" then [] else [l]
  {
    assert [l][1..] == [];
  }

  lemma GluePieces(l: string, m: string, a: seq<string>, b: seq<string>)
    ensures var joined := a + (if l + m == "" then [] else [l + m]) + b;
      var apart := (a + (if l == "" then [] else [l])) + ((if m == "" then [] else [m]) + b);
      if l != "" && m != "" then |joined| == |apart| - 1 else joined == apart
  {
    if l == "" { assert l + m == m; }
    if m == "" { assert l + m == l; }
  }

  /** Two texts keep their lines when put together, unless the end of one runs into the other. */
  lemma LinesConcat(a: string, b: string)
    ensures var glued := Split(a)[|Split(a)| - 1] != "" && Split(b)[0] != "";
      && (!glued ==> Lines(a + b) == Lines(a) + Lines(b))
      && (glued ==> |Lines(a + b)| == |Lines(a)| + |Lines(b)| - 1)
  {
    SplitConcat(a, b);
    GluedLines(Split(a), Split(b));
  }

  lemma NoText()
    ensures Split("") == [""] && Lines("") == []
  {
    assert [""][1..] == [];
  }

  lemma {:induction false} LastOfSplit(s: string)
    ensures Split(s)[|Split(s)| - 1] == "" <==> s == "" || EndsLine(s)
    ensures Split(s)[0] == "" <==> s == "" || s[0] == '\n'
  {
    if s != "" {
      LastOfSplit(s[1..]);
    }
  }

  lemma SplitNewline()
    ensures Split("\n") == ["", ""] && Lines("\n") == []
  {
    assert Split("\n") == [""] + Split("");
    DeleteEmptyCons("", [""]);
    DeleteEmptyCons("", []);
  }

  lemma NewlineAddsNothing(s: string)
    ensures Lines(s + "\n") == Lines(s)
  {
    SplitNewline();
    LinesConcat(s, "\n");
  }

  ghost predicate AllLines(lines: seq<string>) {
    forall i :: 0 <= i < |lines| ==> lines[i] != "" && '\n' !in lines[i]
  }

  lemma {:induction false} SplitGivesNoNewlines(s: string)
    ensures forall i :: 0 <= i < |Split(s)| ==> '\n' !in Split(s)[i]
  {
    if s != "" {
      SplitGivesNoNewlines(s[1..]);
    }
  }

  lemma {:induction false} DeleteEmptyGivesLines(lines: seq<string>)
    requires forall i :: 0 <= i < |lines| ==> '\n' !in lines[i]
    ensures AllLines(DeleteEmpty(lines))
  {
    if lines != [] {
      DeleteEmptyGivesLines(lines[1..]);
    }
  }

  lemma LinesAreLines(s: string)
    ensures AllLines(Lines(s))
  {
    SplitGivesNoNewlines(s);
    DeleteEmptyGivesLines(Split(s));
  }

  lemma {:induction false} SplitOneLine(l: string)
    requires '\n' !in l
    ensures Split(l) == [l]
  {
    if l != "" {
      SplitOneLine(l[1..]);
      assert [l[0]] + l[1..] == l;
    }
  }

  /** Writing lines and splitting them again gives the lines and an empty end. */
  lemma {:induction false} SplitOfJoined(lines: seq<string>)
    requires AllLines(lines) && lines != []
    ensures Split(Join(lines) + "\n") == lines + [""]
  {
    if |lines| == 1 {
      SplitLineAnd(lines[0], "");
      assert lines[0] + "\n" + "" == lines[0] + "\n" && lines == [lines[0]];
    } else {
      var rest := Join(lines[1..]) + "\n";
      SplitOfJoined(lines[1..]);
      SplitLineAnd(lines[0], rest);
      JoinedCons(lines);
      assert [lines[0]] + (lines[1..] + [""]) == lines + [""];
    }
  }

  lemma JoinedCons(lines: seq<string>)
    requires |lines| > 1
    ensures Join(lines) + "\n" == lines[0] + "\n" + (Join(lines[1..]) + "\n")
  {
    Assoc(lines[0] + "\n", Join(lines[1..]), "\n");
  }

  lemma SplitLineAnd(l: string, rest: string)
    requires '\n' !in l
    ensures Split(l + "\n" + rest) == [l] + Split(rest)
  {
    SplitOneLine(l);
    SplitNewline();
    SplitConcat(l, "\n");
    GlueEnd(l, Split(rest));
    SplitConcat(l + "\n", rest);
  }

  lemma GlueEnd(l: string, y: seq<string>)
    requires y != []
    ensures Glue([l], ["", ""]) == [l, ""] && Glue([l, ""], y) == [l] + y
  {
    assert l + "" == l && "" + y[0] == y[0];
    assert [y[0]] + y[1..] == y;
  }

  lemma {:induction false} DeleteNothing(lines: seq<string>)
    requires "" !in lines
    ensures DeleteEmpty(lines) == lines
  {
    if lines != [] {
      DeleteNothing(lines[1..]);
    }
  }

  lemma {:induction false} JoinOfSplit(s: string)
    ensures Join(Split(s)) == s
  {
    if s != "" {
      JoinOfSplit(s[1..]);
      var rest := Split(s[1..]);
      if s[0] == '\n' {
        assert ([""] + rest)[1..] == rest;
      } else if |rest| > 1 {
        assert ([[s[0]] + rest[0]] + rest[1..])[1..] == rest[1..];
        assert [s[0]] + rest[0] + "\n" + Join(rest[1..]) == [s[0]] + s[1..];
      }
    }
  }

  lemma {:induction false} JoinSnocEmpty(lines: seq<string>)
    requires lines != []
    ensures Join(lines + [""]) == Join(lines) + "\n"
  {
    if |lines| == 1 {
      assert (lines + [""])[1..] == [""];
    } else {
      JoinSnocEmpty(lines[1..]);
      assert (lines + [""])[1..] == lines[1..] + [""];
      assert lines[0] + "\n" + (Join(lines[1..]) + "\n") == lines[0] + "\n" + Join(lines[1..]) + "\n";
    }
  }

  /** A file rewritten from its lines is the same text exactly when it had no blank lines. */
  lemma RewrittenIff(s: string)
    requires s == "" || EndsLine(s)
    ensures Written(Lines(s)) == Some(s) <==> s != "" && !HasBlankLine(s)
  {
    var x := Split(s);
    var k := |x| - 1;
    LastOfSplit(s);
    LinesAreLines(s);
    DeleteEmptyConcat(x[..k], [""]);
    NoText();
    assert x == x[..k] + [""];
    assert DeleteEmpty(x[..k]) + [] == DeleteEmpty(x[..k]);
    JoinOfSplit(s);
    if k > 0 { JoinSnocEmpty(x[..k]); }
    if s != "" && !HasBlankLine(s) {
      DeleteNothing(x[..k]);
    }
    if Lines(s) != [] && Join(Lines(s)) + "\n" == s {
      SplitOfJoined(Lines(s));
      assert x[..k] == Lines(s);
    }
  }

  lemma WrittenLines(lines: seq<string>)
    requires AllLines(lines)
    ensures LinesOf(Written(lines)) == lines && Terminated(Written(lines))
  {
    NoText();
    if lines != [] {
      SplitOfJoined(lines);
      DeleteEmptyConcat(lines, [""]);
      DeleteNothing(lines);
      assert lines + [] == lines;
    }
  }

  // ----- what the two operations do to the stanzas -----

  lemma TitlesAreHeaders(lines: seq<string>, connName: string)
    ensures TitlesOpen(lines, IsHeader, TitleTest(connName))
  {
    assert "conn " <= "conn " + connName;
  }

  lemma FileParts(file: Option<string>)
    ensures LinesOf(file) == PreambleOf(file) + Flatten(StanzasOf(file))
    ensures AllBlocks(StanzasOf(file), IsHeader) && NoneOf(PreambleOf(file), IsHeader)
  {
    BlocksCover(LinesOf(file), IsHeader);
  }

  lemma PartsOf(file: Option<string>, p: seq<string>, stanzas: seq<seq<string>>)
    requires LinesOf(file) == p + Flatten(stanzas) && NoneOf(p, IsHeader) && AllBlocks(stanzas, IsHeader)
    ensures PreambleOf(file) == p && StanzasOf(file) == stanzas
  {
    BlocksUnique(p, stanzas, IsHeader);
    PreambleUnique(p, stanzas, IsHeader);
  }

  /** Removal deletes the first stanza with the name and nothing else, whatever the file contains. */
  lemma RemoveDeletesStanza(file: Option<string>, connName: string)
    ensures StanzasOf(Removed(file, connName)) == DropTitled(StanzasOf(file), TitleTest(connName))
    ensures PreambleOf(Removed(file, connName)) == PreambleOf(file)
    ensures if Titled(StanzasOf(file), TitleTest(connName)) then Terminated(Removed(file, connName))
      else Removed(file, connName) == file
    ensures LinesOf(file) != [] && LinesOf(Removed(file, connName)) == [] ==> Removed(file, connName) == None
  {
    var p, stanzas := PreambleOf(file), StanzasOf(file);
    FileParts(file);
    TitlesAreHeaders(p + Flatten(stanzas), connName);
    RemovalDropsBlock(p, stanzas, IsHeader, TitleTest(connName));
    if Titled(stanzas, TitleTest(connName)) {
      RemovedHolds(file, connName, p + Flatten(DropTitled(stanzas, TitleTest(connName))));
      DropTitledKeepsBlocks(stanzas, IsHeader, TitleTest(connName));
      PartsOf(Removed(file, connName), p, DropTitled(stanzas, TitleTest(connName)));
    } else {
      NothingToRemove(file, connName);
    }
  }

  lemma NothingToRemove(file: Option<string>, connName: string)
    requires IndexFunc(LinesOf(file), TitleTest(connName)) == -1
    ensures Removed(file, connName) == file
  {
  }

  lemma RemovedHolds(file: Option<string>, connName: string, left: seq<string>)
    requires var start := IndexFunc(LinesOf(file), TitleTest(connName));
      start != -1 && CutFrom(LinesOf(file), start, IsHeader) == left
    ensures LinesOf(Removed(file, connName)) == left && Terminated(Removed(file, connName))
    ensures left == [] ==> Removed(file, connName) == None
  {
    LinesAreLines(Text(file));
    CutLines(LinesOf(file), IndexFunc(LinesOf(file), TitleTest(connName)));
    WrittenLines(left);
    NoText();
  }

  lemma CutLines(lines: seq<string>, start: nat)
    requires AllLines(lines) && start < |lines|
    ensures AllLines(CutFrom(lines, start, IsHeader))
  {
  }

  /** Appending puts the stanza last, after removing an older one of the name, and changes no other
      stanza — exactly when the stanza does not run into an unterminated last line. */
  lemma AppendPutsLastIff(file: Option<string>, stanza: string, connName: string)
    requires WellFormed(stanza, connName)
    ensures var after := Appended(file, stanza, connName);
      var last := DropTitled(StanzasOf(file), TitleTest(connName)) + [Lines(stanza)];
      StanzasOf(after) == last && PreambleOf(after) == PreambleOf(file) <==>
      Terminated(file) || Titled(StanzasOf(file), TitleTest(connName)) || stanza[0] == '\n'
    ensures Terminated(Appended(file, stanza, connName)) && Appended(file, stanza, connName).Some?
  {
    var removed := Removed(file, connName);
    NoText();
    RemoveDeletesStanza(file, connName);
    AppendToParts(removed, stanza);
    GluedIff(removed, stanza);
  }

  lemma GluedIff(file: Option<string>, stanza: string)
    requires stanza != ""
    ensures !Glued(file, stanza) <==> Terminated(file) || stanza[0] == '\n'
  {
    LastOfSplit(Text(file));
    LastOfSplit(stanza);
  }

  lemma TrimsToItself(s: string)
    requires s != "" && !IsSpace(s[0]) && !IsSpace(s[|s| - 1])
    ensures TrimSpace(s) == s
  {
  }

  lemma OneLineText(l: string)
    requires l != "" && '\n' !in l
    ensures Lines(l) == [l]
  {
    SplitOneLine(l);
    DeleteEmptyOne(l);
  }

  /** A word: one line without white space at its ends. */
  predicate IsWord(s: string) {
    s != "" && '\n' !in s && !IsSpace(s[0]) && !IsSpace(s[|s| - 1])
  }

  /** A text of one line that is no header holds no stanza. */
  lemma PlainLine(l: string, connName: string)
    requires l != "" && '\n' !in l && TrimSpace(l) == l && !("conn " <= l)
    ensures StanzasOf(Some(l)) == [] && StanzasOf(Some(l + "\n")) == [] && Removed(Some(l), connName) == Some(l)
  {
    OneLineText(l);
    NewlineAddsNothing(l);
    assert !IsHeader(l);
    NoHeadersNoBlocks([l], IsHeader);
    TitlesAreHeaders([l], connName);
    assert [l][1..] == [];
    NothingToRemove(Some(l), connName);
  }

  lemma OneLineStanza(connName: string)
    requires IsWord(connName)
    ensures WellFormed("conn " + connName, connName) && IsWord("conn " + connName)
  {
    var stanza := "conn " + connName;
    TrimsToItself(stanza);
    OneLineText(stanza);
    assert IsHeader(stanza) && [stanza][1..] == [];
  }

  /** Inputs on which it does, for example the file x and the stanza conn a: the last line of the file
      swallows the stanza's header, and afterwards the file holds no stanza at all. */
  lemma UnterminatedLineSwallowsStanza(last: string, connName: string)
    requires IsWord(last) && last[0] != 'c' && IsWord(connName)
    ensures var stanza, joined := "conn " + connName, last + ("conn " + connName);
      && WellFormed(stanza, connName) && StanzasOf(Some(last)) == []
      && Appended(Some(last), stanza, connName) == Some(joined + "\n") && StanzasOf(Some(joined + "\n")) == []
  {
    var stanza := "conn " + connName;
    OneLineStanza(connName);
    PlainWord(last, connName);
    WordsJoined(last, stanza);
    PlainWord(last + stanza, connName);
    AppendedText(last, stanza, connName);
  }

  lemma WordsJoined(a: string, b: string)
    requires IsWord(a) && IsWord(b)
    ensures IsWord(a + b) && (a + b)[0] == a[0]
  {
  }

  lemma PlainWord(l: string, connName: string)
    requires IsWord(l) && l[0] != 'c'
    ensures StanzasOf(Some(l)) == [] && StanzasOf(Some(l + "\n")) == [] && Removed(Some(l), connName) == Some(l)
  {
    TrimsToItself(l);
    assert "conn "[0] == 'c';
    PlainLine(l, connName);
  }

  lemma AppendedText(text: string, stanza: string, connName: string)
    requires Removed(Some(text), connName) == Some(text) && !EndsLine(stanza)
    ensures Appended(Some(text), stanza, connName) == Some(text + stanza + "\n")
  {
    assert text + (stanza + "\n") == text + stanza + "\n";
  }

  ghost predicate Glued(file: Option<string>, stanza: string) {
    Split(Text(file))[|Split(Text(file))| - 1] != "" && Split(stanza)[0] != ""
  }

  lemma AppendToParts(removed: Option<string>, stanza: string)
    requires stanza != "" && IsBlock(Lines(stanza), IsHeader)
    ensures var after := Some(Text(removed) + (if EndsLine(stanza) then stanza else stanza + "\n"));
      && Terminated(after)
      && (StanzasOf(after) == StanzasOf(removed) + [Lines(stanza)] && PreambleOf(after) == PreambleOf(removed)
        <==> !Glued(removed, stanza))
  {
    var text := if EndsLine(stanza) then stanza else stanza + "\n";
    var after := Some(Text(removed) + text);
    TextKeepsStanza(stanza);
    LinesConcat(Text(removed), text);
    if Glued(removed, stanza) {
      GluedLosesALine(removed, after, Lines(stanza));
    } else {
      SeparateParts(removed, after, Lines(stanza));
    }
  }

  lemma TextKeepsStanza(stanza: string)
    requires stanza != ""
    ensures var text := if EndsLine(stanza) then stanza else stanza + "\n";
      EndsLine(text) && Lines(text) == Lines(stanza) && (Split(text)[0] == "" <==> Split(stanza)[0] == "")
  {
    NewlineAddsNothing(stanza);
    LastOfSplit(stanza);
    LastOfSplit(stanza + "\n");
  }

  lemma SeparateParts(removed: Option<string>, after: Option<string>, s: seq<string>)
    requires IsBlock(s, IsHeader) && LinesOf(after) == LinesOf(removed) + s
    ensures StanzasOf(after) == StanzasOf(removed) + [s] && PreambleOf(after) == PreambleOf(removed)
  {
    FileParts(removed);
    SnocFlat(PreambleOf(removed), StanzasOf(removed), s);
    AllBlocksSnoc(StanzasOf(removed), s);
    PartsOf(after, PreambleOf(removed), StanzasOf(removed) + [s]);
  }

  lemma GluedLosesALine(removed: Option<string>, after: Option<string>, s: seq<string>)
    requires |LinesOf(after)| == |LinesOf(removed)| + |s| - 1
    ensures !(StanzasOf(after) == StanzasOf(removed) + [s] && PreambleOf(after) == PreambleOf(removed))
  {
    FileParts(removed);
    FileParts(after);
    SnocFlat(PreambleOf(removed), StanzasOf(removed), s);
  }

  lemma AllBlocksSnoc(stanzas: seq<seq<string>>, s: seq<string>)
    requires AllBlocks(stanzas, IsHeader) && IsBlock(s, IsHeader)
    ensures AllBlocks(stanzas + [s], IsHeader)
  {
  }

  /** Removing a stanza just appended under a new name gives back the stanzas, and the very text exactly
      when it had no blank lines. */
  lemma RemoveUndoesAppend(file: Option<string>, stanza: string, connName: string)
    requires WellFormed(stanza, connName) && Terminated(file)
    requires !Titled(StanzasOf(file), TitleTest(connName))
    ensures var back := Removed(Appended(file, stanza, connName), connName);
      && StanzasOf(back) == StanzasOf(file) && PreambleOf(back) == PreambleOf(file)
      && (back == file <==> file == None || (file.value != "" && !HasBlankLine(file.value)))
  {
    var after := Appended(file, stanza, connName);
    var title := TitleTest(connName);
    AppendPutsLastIff(file, stanza, connName);
    RemoveDeletesStanza(file, connName);
    RemoveDeletesStanza(after, connName);
    DropLast(StanzasOf(file), Lines(stanza), title);
    FileParts(file);
    RemovedIsWritten(after, connName);
    FileParts(Removed(after, connName));
    RewrittenIff(Text(file));
    NoText();
  }

  lemma RemovedIsWritten(file: Option<string>, connName: string)
    requires Titled(StanzasOf(file), TitleTest(connName))
    ensures Removed(file, connName) == Written(LinesOf(Removed(file, connName)))
  {
    var p, stanzas := PreambleOf(file), StanzasOf(file);
    FileParts(file);
    TitlesAreHeaders(p + Flatten(stanzas), connName);
    RemovalDropsBlock(p, stanzas, IsHeader, TitleTest(connName));
    var start := IndexFunc(LinesOf(file), TitleTest(connName));
    LinesAreLines(Text(file));
    CutLines(LinesOf(file), start);
    WrittenLines(CutFrom(LinesOf(file), start, IsHeader));
    NoText();
  }

  lemma {:induction false} DropLast(stanzas: seq<seq<string>>, s: seq<string>, title: string -> bool)
    requires !Titled(stanzas, title) && s != [] && title(s[0])
    ensures DropTitled(stanzas + [s], title) == stanzas && Titled(stanzas + [s], title)
  {
    assert (stanzas + [s])[|stanzas|] == s;
    if stanzas == [] {
    } else {
      assert (stanzas + [s])[1..] == stanzas[1..] + [s] && (stanzas + [s])[0] == stanzas[0];
      TitledShift(stanzas, title);
      DropLast(stanzas[1..], s, title);
    }
  }

  // ----- whole runs -----

  datatype Edit = Append(stanza: string, connName: string) | Remove(connName: string)

  function Edited(file: Option<string>, e: Edit): Option<string> {
    match e
    case Append(stanza, connName) => Appended(file, stanza, connName)
    case Remove(connName) => Removed(file, connName)
  }

  function Run(edits: seq<Edit>): Option<string> {
    if edits == [] then None else Edited(Run(edits[..|edits| - 1]), edits[|edits| - 1])
  }

  ghost predicate WellFormedEdits(edits: seq<Edit>) {
    forall i :: 0 <= i < |edits| && edits[i].Append? ==> WellFormed(edits[i].stanza, edits[i].connName)
  }

  /** The stanzas a run should leave, newest last, each with its name. */
  ghost function Expected(edits: seq<Edit>): seq<(string, seq<string>)> {
    if edits == [] then []
    else
      var e := edits[|edits| - 1];
      var others := OtherNames(Expected(edits[..|edits| - 1]), e.connName);
      if e.Append? then others + [(e.connName, Lines(e.stanza))] else others
  }

  ghost function OtherNames(named: seq<(string, seq<string>)>, connName: string): seq<(string, seq<string>)> {
    if named == [] then []
    else (if named[0].0 == connName then [] else [named[0]]) + OtherNames(named[1..], connName)
  }

  ghost predicate DistinctNames(named: seq<(string, seq<string>)>) {
    forall i, j :: 0 <= i < j < |named| ==> named[i].0 != named[j].0
  }

  ghost predicate NamesFit(named: seq<(string, seq<string>)>, stanzas: seq<seq<string>>) {
    && |named| == |stanzas|
    && forall i :: 0 <= i < |named| ==>
      named[i].1 == stanzas[i] && stanzas[i] != [] && TrimSpace(stanzas[i][0]) == "conn " + named[i].0
  }

  /** After every run from no file: the stanzas are the expected ones, one per name, nothing else is in
      the file, and there is no file exactly when there is no stanza. */
  lemma {:induction false} RunLeavesExpected(edits: seq<Edit>)
    requires WellFormedEdits(edits)
    ensures NamesFit(Expected(edits), StanzasOf(Run(edits))) && DistinctNames(Expected(edits))
    ensures PreambleOf(Run(edits)) == [] && Terminated(Run(edits))
    ensures Run(edits) == None <==> Expected(edits) == []
  {
    NoText();
    if edits != [] {
      var n := |edits| - 1;
      var before, e := Run(edits[..n]), edits[n];
      WellFormedPrefix(edits, n);
      RunLeavesExpected(edits[..n]);
      RemoveDeletesStanza(before, e.connName);
      OthersFit(Expected(edits[..n]), StanzasOf(before), e.connName);
      OthersAreOthers(Expected(edits[..n]), e.connName);
      if !Titled(StanzasOf(before), TitleTest(e.connName)) {
        UntitledStays(Expected(edits[..n]), StanzasOf(before), e.connName);
      }
      FileParts(before);
      FileParts(Removed(before, e.connName));
      if e.Append? {
        AppendPutsLastIff(before, e.stanza, e.connName);
        LastFits(OtherNames(Expected(edits[..n]), e.connName), StanzasOf(Removed(before, e.connName)), e.connName,
          Lines(e.stanza));
      }
    }
  }

  lemma WellFormedPrefix(edits: seq<Edit>, n: nat)
    requires WellFormedEdits(edits) && n <= |edits|
    ensures WellFormedEdits(edits[..n])
  {
  }

  lemma SameTitle(a: string, b: string)
    ensures "conn " + a == "conn " + b <==> a == b
  {
    assert ("conn " + a)[5..] == a && ("conn " + b)[5..] == b;
  }

  lemma {:induction false} NoOthers(named: seq<(string, seq<string>)>, connName: string)
    requires forall i :: 0 <= i < |named| ==> named[i].0 != connName
    ensures OtherNames(named, connName) == named
  {
    if named != [] {
      NoOthers(named[1..], connName);
    }
  }

  lemma {:induction false} OthersAreOthers(named: seq<(string, seq<string>)>, connName: string)
    ensures forall x :: x in OtherNames(named, connName) ==> x in named && x.0 != connName
    ensures DistinctNames(named) ==> DistinctNames(OtherNames(named, connName))
  {
    if named != [] {
      var rest := OtherNames(named[1..], connName);
      OthersAreOthers(named[1..], connName);
      if DistinctNames(named) {
        forall x | x in rest ensures x.0 != named[0].0 {
          var i :| 0 <= i < |named[1..]| && named[1..][i] == x;
          assert named[i + 1] == x;
        }
        forall i, j | 0 <= i < j < |[named[0]] + rest| ensures ([named[0]] + rest)[i].0 != ([named[0]] + rest)[j].0 {
          assert rest[j - 1] in rest;
        }
      }
    }
  }

  lemma FitTail(named: seq<(string, seq<string>)>, stanzas: seq<seq<string>>)
    requires NamesFit(named, stanzas) && named != []
    ensures NamesFit(named[1..], stanzas[1..])
  {
  }

  lemma FitCons(named: seq<(string, seq<string>)>, stanzas: seq<seq<string>>, n: (string, seq<string>), s: seq<string>)
    requires NamesFit(named, stanzas) && NamesFit([n], [s])
    ensures NamesFit([n] + named, [s] + stanzas)
  {
    assert [n][0] == n && [s][0] == s;
  }

  lemma FitHead(named: seq<(string, seq<string>)>, stanzas: seq<seq<string>>, connName: string)
    requires NamesFit(named, stanzas) && named != []
    ensures TitleTest(connName)(stanzas[0][0]) <==> named[0].0 == connName
    ensures NamesFit([named[0]], [stanzas[0]])
  {
    SameTitle(named[0].0, connName);
  }

  lemma {:induction false} OthersFit(named: seq<(string, seq<string>)>, stanzas: seq<seq<string>>, connName: string)
    requires NamesFit(named, stanzas) && DistinctNames(named)
    ensures NamesFit(OtherNames(named, connName), DropTitled(stanzas, TitleTest(connName)))
  {
    if named != [] {
      var title := TitleTest(connName);
      FitTail(named, stanzas);
      FitHead(named, stanzas, connName);
      if named[0].0 == connName {
        NoOthers(named[1..], connName);
      } else {
        OthersFit(named[1..], stanzas[1..], connName);
        FitCons(OtherNames(named[1..], connName), DropTitled(stanzas[1..], title), named[0], stanzas[0]);
      }
    }
  }

  /** A name without a stanza is not among the names. */
  lemma UntitledStays(named: seq<(string, seq<string>)>, stanzas: seq<seq<string>>, connName: string)
    requires NamesFit(named, stanzas) && !Titled(stanzas, TitleTest(connName))
    ensures OtherNames(named, connName) == named
  {
    forall i | 0 <= i < |named| ensures named[i].0 != connName {
      SameTitle(named[i].0, connName);
      assert !TitleTest(connName)(stanzas[i][0]);
    }
    NoOthers(named, connName);
  }

  lemma LastFits(named: seq<(string, seq<string>)>, stanzas: seq<seq<string>>, connName: string, s: seq<string>)
    requires NamesFit(named, stanzas) && DistinctNames(named)
    requires forall x :: x in named ==> x.0 != connName
    requires s != [] && TitleTest(connName)(s[0])
    ensures NamesFit(named + [(connName, s)], stanzas + [s]) && DistinctNames(named + [(connName, s)])
  {
  }

  /** What counts as white space around a title, by code point. */
  lemma SpacesAreUnicodeSpaces(c: char)
    ensures IsSpace(c) <==>
      || 0x09 <= c as int <= 0x0D || c as int == 0x20 || c as int == 0x85 || c as int == 0xA0
      || c as int == 0x1680 || 0x2000 <= c as int <= 0x200A || c as int == 0x2028 || c as int == 0x2029
      || c as int == 0x202F || c as int == 0x205F || c as int == 0x3000
  {
  }

  ghost predicate AllSpaces(s: string) {
    forall i :: 0 <= i < |s| ==> IsSpace(s[i])
  }

  /** Trimming cuts off white space at both ends and nothing else, and leaves none there. */
  lemma TrimSpaceTrims(s: string) returns (left: string, right: string)
    ensures s == left + TrimSpace(s) + right && AllSpaces(left) && AllSpaces(right)
    ensures TrimSpace(s) == "" || (!IsSpace(TrimSpace(s)[0]) && !IsSpace(TrimSpace(s)[|TrimSpace(s)| - 1]))
  {
    left := TrimLeftTrims(s);
    right := TrimRightTrims(TrimLeft(s));
    if TrimSpace(s) != "" {
      assert TrimSpace(s)[0] == TrimLeft(s)[0];
    }
  }

  lemma {:induction false} TrimLeftTrims(s: string) returns (left: string)
    ensures s == left + TrimLeft(s) && AllSpaces(left) && (TrimLeft(s) == "" || !IsSpace(TrimLeft(s)[0]))
  {
    left := "";
    if s != "" && IsSpace(s[0]) {
      var rest := TrimLeftTrims(s[1..]);
      left := [s[0]] + rest;
      Regrouped([s[0]], rest, TrimLeft(s[1..]), s);
      SpacesJoined([s[0]], rest);
    }
  }

  lemma Regrouped(a: string, b: string, c: string, s: string)
    requires s == a + (b + c)
    ensures s == (a + b) + c
  {
  }

  lemma SpacesJoined(a: string, b: string)
    requires AllSpaces(a) && AllSpaces(b)
    ensures AllSpaces(a + b)
  {
  }

  predicate EndsBare(s: string) {
    s == "" || !IsSpace(s[|s| - 1])
  }

  lemma {:induction false} TrimRightTrims(s: string) returns (right: string)
    ensures s == TrimRight(s) + right && AllSpaces(right) && EndsBare(TrimRight(s))
  {
    if EndsBare(s) {
      right := "";
      assert TrimRight(s) == s;
    } else {
      var n := |s| - 1;
      var rest := TrimRightTrims(s[..n]);
      right := rest + [s[n]];
      SpacesJoined(rest, [s[n]]);
      LastRegrouped(s, n, TrimRight(s[..n]), rest);
      assert TrimRight(s) == TrimRight(s[..n]);
    }
  }

  lemma LastRegrouped(s: string, n: nat, trimmed: string, rest: string)
    requires n == |s| - 1 && s[..n] == trimmed + rest
    ensures s == trimmed + (rest + [s[n]])
  {
    assert s == s[..n] + [s[n]];
  }
}
