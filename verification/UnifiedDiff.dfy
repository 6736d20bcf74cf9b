/** The diff viewer's parser (`parseUnifiedDiff`). */
module UnifiedDiff {
  import opened Common
  import opened Text
  import opened DiffLines
  import opened Decimals

  datatype Kind = Meta | Add | Remove | Context
  datatype Line = Line(kind: Kind, oldLine: Option<nat>, newLine: Option<nat>, text: string)
  datatype File = File(id: string, path: string, additions: nat, deletions: nat, lines: seq<Line>)

  /** A line of the text and what it is. */
  datatype Item = Item(token: Token, text: string)

  function Items(lines: seq<string>): (items: seq<Item>)
    ensures |items| == |lines|
  {
    if lines == [] then []
    else
      var n := |lines| - 1;
      Items(lines[..n]) + [Item(Scan(lines[n]), lines[n])]
  }

  lemma {:induction false} ItemAt(lines: seq<string>, i: nat)
    requires i < |lines|
    ensures Items(lines)[i] == Item(Scan(lines[i]), lines[i])
  {
    if i < |lines| - 1 {
      ItemAt(lines[..|lines| - 1], i);
    }
  }

  function KindOf(t: Token): Kind {
    match t
    case Plus => Add
    case Minus => Remove
    case Space => Context
    case _ => Meta
  }

  datatype Parser = Parser(files: seq<File>, oldLine: nat, newLine: nat)

  const INITIAL := Parser([], 0, 0)

  /** The line shown for an item when the counters stand at these numbers. */
  function Shown(item: Item, oldLine: nat, newLine: nat): Line {
    var kind := KindOf(item.token);
    Line(kind,
         if kind == Remove || kind == Context then Some(oldLine) else None,
         if kind == Add || kind == Context then Some(newLine) else None,
         item.text)
  }

  function NextOld(oldLine: nat, t: Token): nat {
    match t
    case HunkHeader(hunk) => hunk.oldStart
    case Minus => oldLine + 1
    case Space => oldLine + 1
    case _ => oldLine
  }

  function NextNew(newLine: nat, t: Token): nat {
    match t
    case HunkHeader(hunk) => hunk.newStart
    case Plus => newLine + 1
    case Space => newLine + 1
    case _ => newLine
  }

  const UNNAMED := File("unified-diff", "Unified diff", 0, 0, [])

  function NewFile(n: nat, path: string): File {
    File(Decimal(n) + "-" + path, path, 0, 0, [])
  }

  /** A file's counters after a line. */
  function Tally(file: File, t: Token): File {
    match t
    case Plus => file.(additions := file.additions + 1)
    case Minus => file.(deletions := file.deletions + 1)
    case _ => file
  }

  /**
   * The file a line goes to: a new one for a header, an unnamed one when there is none,
   * and else the last, which alone counts the line.
   */
  function Target(files: seq<File>, t: Token): File {
    if t.Header? then NewFile(|files|, t.path)
    else if files == [] then UNNAMED
    else Tally(files[|files| - 1], t)
  }

  /** The files a line leaves as they are. */
  function Others(files: seq<File>, t: Token): seq<File> {
    if t.Header? || files == [] then files else files[..|files| - 1]
  }

  function Put(files: seq<File>, t: Token, line: Line): seq<File> {
    var target := Target(files, t);
    Others(files, t) + [target.(lines := target.lines + [line])]
  }

  function Feed(p: Parser, item: Item): Parser {
    Parser(
      Put(p.files, item.token, Shown(item, p.oldLine, p.newLine)),
      NextOld(p.oldLine, item.token),
      NextNew(p.newLine, item.token))
  }

  /** The parser after the first `n` lines. */
  function After(items: seq<Item>, n: nat): Parser
    requires n <= |items|
  {
    if n == 0 then INITIAL else Feed(After(items, n - 1), items[n - 1])
  }

  predicate Blank(text: string) {
    forall i | 0 <= i < |text| :: IsJsSpace(text[i])
  }

  function WithLines(files: seq<File>): seq<File> {
    if files == [] then []
    else (if |files[0].lines| > 0 then [files[0]] else []) + WithLines(files[1..])
  }

  function Parse(text: Option<string>): seq<File> {
    if text.None? || Blank(text.value) then []
    else
      var items := Items(Split(text.value, '\n'));
      WithLines(After(items, |items|).files)
  }

  /** `pushLine`: the current file is the last one, and made when there is none. */
  method PushLine(files: seq<File>, line: Line) returns (next: seq<File>)
    ensures next == Put(files, Other, line)
  {
    next := files;
    if next == [] {
      next := [UNNAMED];
    }
    var last := |next| - 1;
    ghost var before := next;
    next := next[last := next[last].(lines := next[last].lines + [line])];
    assert next == before[..last] + [next[last]];
    assert files == [] ==> before[..last] == [];
  }

  /** `current.additions += 1` and its like, skipped while there is no current file. */
  method Count(files: seq<File>, t: Token) returns (next: seq<File>)
    requires !t.Header?
    ensures forall line :: Put(next, Other, line) == Put(files, t, line)
  {
    next := files;
    if next != [] {
      next := next[|next| - 1 := Tally(next[|next| - 1], t)];
      assert next[..|next| - 1] == files[..|files| - 1];
    }
  }

  /** Opening a file and pushing its header line to it. */
  lemma PutHeader(files: seq<File>, path: string, line: Line)
    ensures Put(files + [NewFile(|files|, path)], Other, line) == Put(files, Header(path), line)
  {
    assert (files + [NewFile(|files|, path)])[..|files|] == files;
  }

  /** One round of the loop. */
  method FeedLine(p: Parser, raw: string) returns (next: Parser)
    ensures next == Feed(p, Item(Scan(raw), raw))
  {
    var files, oldLine, newLine := p.files, p.oldLine, p.newLine;
    if StartsWith(raw, GIT) {
      PutHeader(files, DiffPath(raw), Line(Meta, None, None, raw));
      files := files + [NewFile(|files|, DiffPath(raw))];
      files := PushLine(files, Line(Meta, None, None, raw));
      return Parser(files, oldLine, newLine);
    }
    if StartsWith(raw, "@@") {
      var hunk := FindHunk(raw);
      if hunk.Some? {
        oldLine, newLine := hunk.value.oldStart, hunk.value.newStart;
      }
      files := PushLine(files, Line(Meta, None, None, raw));
      return Parser(files, oldLine, newLine);
    }
    if StartsWith(raw, "+++") || StartsWith(raw, "---") || StartsWith(raw, "index ") {
      files := PushLine(files, Line(Meta, None, None, raw));
      return Parser(files, oldLine, newLine);
    }
    if StartsWith(raw, "+") {
      files := Count(files, Plus);
      files := PushLine(files, Line(Add, None, Some(newLine), raw));
      newLine := newLine + 1;
      return Parser(files, oldLine, newLine);
    }
    if StartsWith(raw, "-") {
      files := Count(files, Minus);
      files := PushLine(files, Line(Remove, Some(oldLine), None, raw));
      oldLine := oldLine + 1;
      return Parser(files, oldLine, newLine);
    }
    if StartsWith(raw, " ") {
      files := PushLine(files, Line(Context, Some(oldLine), Some(newLine), raw));
      oldLine := oldLine + 1;
      newLine := newLine + 1;
      return Parser(files, oldLine, newLine);
    }
    files := PushLine(files, Line(Meta, None, None, raw));
    return Parser(files, oldLine, newLine);
  }

  method FeedAt(lines: seq<string>, i: nat, p: Parser) returns (next: Parser)
    requires i < |lines| && p == After(Items(lines), i)
    ensures next == After(Items(lines), i + 1)
  {
    next := FeedLine(p, lines[i]);
    ItemAt(lines, i);
  }

  /** The loop over the lines. */
  method ParseLines(lines: seq<string>) returns (p: Parser)
    ensures p == After(Items(lines), |lines|)
  {
    p := INITIAL;
    for i := 0 to |lines|
      invariant p == After(Items(lines), i)
    {
      p := FeedAt(lines, i, p);
    }
  }

  method ParseUnifiedDiff(text: Option<string>) returns (files: seq<File>)
    ensures files == Parse(text)
  {
    if text.None? || Blank(text.value) { return []; }
    var lines := Split(text.value, '\n');
    var p := ParseLines(lines);
    files := WithLines(p.files);
  }
}
