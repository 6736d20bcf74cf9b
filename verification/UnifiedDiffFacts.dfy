/** What the diff parser keeps of its input. */
module UnifiedDiffFacts {
  import opened Common
  import opened Text
  import opened DiffLines
  import opened UnifiedDiff
  import opened Decimals

  // ------------------------------------------------------------------------ numbers

  /** The last hunk header with numbers among the first `n` items. */
  function LastHunk(items: seq<Item>, n: nat): (h: Option<nat>)
    requires n <= |items|
    ensures h.Some? ==> h.value < n && items[h.value].token.HunkHeader?
                        && forall j | h.value < j < n :: !items[j].token.HunkHeader?
    ensures h.None? ==> forall j | 0 <= j < n :: !items[j].token.HunkHeader?
  {
    if n == 0 then None
    else if items[n - 1].token.HunkHeader? then Some(n - 1)
    else LastHunk(items, n - 1)
  }

  /** How many items from `i` up to `j` are of one of the kinds. */
  function CountKinds(items: seq<Item>, kinds: set<Kind>, i: nat, j: nat): nat
    requires i <= j <= |items|
    decreases j
  {
    if i == j then 0
    else CountKinds(items, kinds, i, j - 1) + (if KindOf(items[j - 1].token) in kinds then 1 else 0)
  }

  const NEW_SIDE := {Add, Context}
  const OLD_SIDE := {Remove, Context}

  /** The new start of the last hunk, or 0, plus the lines of the new side since. */
  function NewNumber(items: seq<Item>, n: nat): nat
    requires n <= |items|
  {
    match LastHunk(items, n)
    case None => CountKinds(items, NEW_SIDE, 0, n)
    case Some(h) => items[h].token.hunk.newStart + CountKinds(items, NEW_SIDE, h + 1, n)
  }

  function OldNumber(items: seq<Item>, n: nat): nat
    requires n <= |items|
  {
    match LastHunk(items, n)
    case None => CountKinds(items, OLD_SIDE, 0, n)
    case Some(h) => items[h].token.hunk.oldStart + CountKinds(items, OLD_SIDE, h + 1, n)
  }

  /** What one more item does to the numbers. */
  lemma NumbersStep(items: seq<Item>, n: nat)
    requires n < |items|
    ensures var t := items[n].token;
            && NewNumber(items, n + 1) == (if t.HunkHeader? then t.hunk.newStart
                                           else NewNumber(items, n) + if KindOf(t) in NEW_SIDE then 1 else 0)
            && OldNumber(items, n + 1) == (if t.HunkHeader? then t.hunk.oldStart
                                           else OldNumber(items, n) + if KindOf(t) in OLD_SIDE then 1 else 0)
  {
  }

  lemma NumbersFollow(items: seq<Item>, n: nat)
    requires n < |items|
    ensures NewNumber(items, n + 1) == NextNew(NewNumber(items, n), items[n].token)
    ensures OldNumber(items, n + 1) == NextOld(OldNumber(items, n), items[n].token)
  {
    NumbersStep(items, n);
  }

  lemma CountersStep(items: seq<Item>, n: nat)
    requires n < |items|
    ensures After(items, n + 1).newLine == NextNew(After(items, n).newLine, items[n].token)
    ensures After(items, n + 1).oldLine == NextOld(After(items, n).oldLine, items[n].token)
  {
  }

  /** The counters of the loop are the numbers of the next line. */
  predicate Counted(items: seq<Item>, n: nat)
    requires n <= |items|
  {
    After(items, n).newLine == NewNumber(items, n) && After(items, n).oldLine == OldNumber(items, n)
  }

  lemma CountedStep(items: seq<Item>, n: nat)
    requires n < |items| && Counted(items, n)
    ensures Counted(items, n + 1)
  {
    CountersStep(items, n);
    NumbersFollow(items, n);
  }

  lemma {:induction false} CountersAreNumbers(items: seq<Item>, n: nat)
    requires n <= |items|
    ensures Counted(items, n)
  {
    if n > 0 {
      CountersAreNumbers(items, n - 1);
      CountedStep(items, n - 1);
    }
  }

  /** Item `i` as it is to be shown. */
  function ExpectedLine(items: seq<Item>, i: nat): Line
    requires i < |items|
  {
    Shown(items[i], OldNumber(items, i), NewNumber(items, i))
  }

  function Expected(items: seq<Item>, n: nat): (lines: seq<Line>)
    requires n <= |items|
    ensures |lines| == n
  {
    if n == 0 then [] else Expected(items, n - 1) + [ExpectedLine(items, n - 1)]
  }

  lemma {:induction false} ExpectedAt(items: seq<Item>, n: nat, i: nat)
    requires i < n <= |items|
    ensures Expected(items, n)[i] == ExpectedLine(items, i)
  {
    if i < n - 1 {
      ExpectedAt(items, n - 1, i);
    }
  }

  // -------------------------------------------------------------------------- files

  /** The lines show the items, under whatever numbers. */
  predicate Shows(items: seq<Item>, lines: seq<Line>) {
    && |lines| == |items|
    && forall i | 0 <= i < |items| :: lines[i].kind == KindOf(items[i].token) && lines[i].text == items[i].text
  }

  lemma ExpectedShows(items: seq<Item>)
    ensures Shows(items, Expected(items, |items|))
  {
    forall i: nat | i < |items|
      ensures Expected(items, |items|)[i].kind == KindOf(items[i].token)
      ensures Expected(items, |items|)[i].text == items[i].text
    {
      ExpectedAt(items, |items|, i);
    }
  }

  /** The lines of all files in order. */
  function Flat(files: seq<File>): seq<Line> {
    if files == [] then [] else Flat(files[..|files| - 1]) + files[|files| - 1].lines
  }

  lemma PutFlat(files: seq<File>, t: Token, line: Line)
    ensures Flat(Put(files, t, line)) == Flat(files) + [line]
  {
    var others, target := Others(files, t), Target(files, t);
    assert Put(files, t, line)[..|others|] == others;
    if t.Header? || files == [] {
      assert target.lines == [];
    } else {
      assert target.lines == files[|files| - 1].lines;
    }
  }

  // ----------------------------------------------------- counts, names, boundaries

  function CountLines(lines: seq<Line>, kind: Kind): nat {
    if lines == [] then 0
    else CountLines(lines[..|lines| - 1], kind) + (if lines[|lines| - 1].kind == kind then 1 else 0)
  }

  lemma CountAppended(lines: seq<Line>, line: Line, kind: Kind)
    ensures CountLines(lines + [line], kind) == CountLines(lines, kind) + if line.kind == kind then 1 else 0
  {
    assert (lines + [line])[..|lines|] == lines;
  }

  /** A line counted for nobody: the first one, when it made the file it stands in. */
  function Uncounted(items: seq<Item>, j: nat, kind: Kind): nat {
    if j == 0 && items != [] && KindOf(items[0].token) == kind then 1 else 0
  }

  /** The counters, and the lines they miss. */
  predicate Tallies(file: File, missedAdd: nat, missedRemove: nat) {
    && file.additions + missedAdd == CountLines(file.lines, Add)
    && file.deletions + missedRemove == CountLines(file.lines, Remove)
  }

  lemma PutTallies(files: seq<File>, t: Token, line: Line, j: nat, missedAdd: nat, missedRemove: nat)
    requires line.kind == KindOf(t) && j < |Put(files, t, line)|
    requires j < |files| ==> Tallies(files[j], missedAdd, missedRemove)
    requires j == |files| ==> missedAdd == (if KindOf(t) == Add then 1 else 0)
                              && missedRemove == (if KindOf(t) == Remove then 1 else 0)
    ensures Tallies(Put(files, t, line)[j], missedAdd, missedRemove)
  {
    if j == |Put(files, t, line)| - 1 {
      CountAppended(Target(files, t).lines, line, Add);
      CountAppended(Target(files, t).lines, line, Remove);
    }
  }

  /** The file is named by a header it opens with. */
  predicate Named(items: seq<Item>, file: File, j: nat, i: nat) {
    && i < |items| && items[i].token == Header(file.path) && file.id == Decimal(j) + "-" + file.path
    && file.lines != [] && items[i].text == file.lines[0].text
  }

  /** File `j` opens with a header line and is named after it, unless it is the unnamed first file. */
  predicate Opened(items: seq<Item>, file: File, j: nat) {
    if j == 0 && items != [] && !items[0].token.Header?
    then file.lines != [] && file.id == UNNAMED.id && file.path == UNNAMED.path
    else exists i: nat :: i < |items| && Named(items, file, j, i)
  }

  lemma PutOpened(items: seq<Item>, files: seq<File>, i: nat, line: Line, j: nat)
    requires i < |items| && line.text == items[i].text
    requires files == [] <==> i == 0
    requires j < |Put(files, items[i].token, line)|
    requires j < |files| ==> Opened(items, files[j], j)
    ensures Opened(items, Put(files, items[i].token, line)[j], j)
  {
    var t := items[i].token;
    var file := Put(files, t, line)[j];
    if j < |files| {
      if !(j == 0 && !items[0].token.Header?) {
        var k: nat :| k < |items| && Named(items, files[j], j, k);
        assert Named(items, file, j, k);
      }
    } else if t.Header? {
      assert file.lines[0] == line;
      assert Named(items, file, j, i);
    }
  }

  function CountHeaders(items: seq<Item>, n: nat): nat
    requires n <= |items|
  {
    if n == 0 then 0 else CountHeaders(items, n - 1) + (if items[n - 1].token.Header? then 1 else 0)
  }

  /** One file a header, and one more for lines before the first. */
  function FileCount(items: seq<Item>, n: nat): nat
    requires n <= |items|
  {
    CountHeaders(items, n) + if n > 0 && !items[0].token.Header? then 1 else 0
  }

  /**
   * The file item `i` belongs to: headers up to and including it, counted from 0, where
   * lines before the first header make a file of their own.
   */
  function FileOf(items: seq<Item>, i: nat): int
    requires i < |items|
  {
    FileCount(items, i + 1) - 1
  }

  /** The lines of file `j` among the first `n`. */
  function Part(items: seq<Item>, lines: seq<Line>, n: nat, j: int): seq<Line>
    requires |lines| == |items| && n <= |items|
  {
    if n == 0 then []
    else Part(items, lines, n - 1, j) + if FileOf(items, n - 1) == j then [lines[n - 1]] else []
  }

  /** No line belongs to a file that is yet to come. */
  lemma {:induction false} NothingAhead(items: seq<Item>, lines: seq<Line>, n: nat, j: nat)
    requires |lines| == |items| && n <= |items| && j >= FileCount(items, n)
    ensures Part(items, lines, n, j) == []
  {
    if n > 0 {
      NothingAhead(items, lines, n - 1, j);
    }
  }

  /** A line goes to the last file, be it a new one. */
  lemma PutLines(files: seq<File>, t: Token, line: Line, j: nat)
    requires j < |Put(files, t, line)|
    ensures Put(files, t, line)[j].lines
         == (if j < |files| then files[j].lines else []) + if j == |Put(files, t, line)| - 1 then [line] else []
  {
  }

  lemma PutPart(items: seq<Item>, lines: seq<Line>, n: nat, files: seq<File>, j: nat)
    requires |lines| == |items| && n < |items| && |files| == FileCount(items, n)
    requires j < |Put(files, items[n].token, lines[n])| == FileCount(items, n + 1)
    requires j < |files| ==> files[j].lines == Part(items, lines, n, j)
    ensures Put(files, items[n].token, lines[n])[j].lines == Part(items, lines, n + 1, j)
  {
    PutLines(files, items[n].token, lines[n], j);
    if j >= |files| {
      NothingAhead(items, lines, n, j);
    }
  }

  /** Two items belong to one file exactly when no header comes after the first up to the second. */
  lemma {:induction false} SameFile(items: seq<Item>, i: nat, m: nat)
    requires i <= m < |items|
    ensures FileOf(items, i) <= FileOf(items, m)
    ensures FileOf(items, i) == FileOf(items, m) <==> forall x | i < x <= m :: !items[x].token.Header?
    decreases m
  {
    if i < m {
      SameFile(items, i, m - 1);
    }
  }

  // -------------------------------------------------------------- what the parser keeps

  ghost predicate FileFacts(items: seq<Item>, lines: seq<Line>, n: nat, file: File, j: nat)
    requires |lines| == |items| && n <= |items|
  {
    && Tallies(file, Uncounted(items, j, Add), Uncounted(items, j, Remove))
    && Opened(items, file, j)
    && file.lines == Part(items, lines, n, j)
  }

  /** After `n` lines: one file a header, and the facts about every file. */
  ghost predicate Invariant(items: seq<Item>, lines: seq<Line>, n: nat, files: seq<File>)
    requires |lines| == |items| && n <= |items|
  {
    && |files| == FileCount(items, n) && (files == [] <==> n == 0)
    && forall j: nat | j < |files| :: FileFacts(items, lines, n, files[j], j)
  }

  lemma PutFacts(items: seq<Item>, lines: seq<Line>, n: nat, files: seq<File>, j: nat)
    requires Shows(items, lines) && n < |items| && Invariant(items, lines, n, files)
    requires j < |Put(files, items[n].token, lines[n])| == FileCount(items, n + 1)
    ensures FileFacts(items, lines, n + 1, Put(files, items[n].token, lines[n])[j], j)
  {
    assert j < |files| ==> FileFacts(items, lines, n, files[j], j);
    PutTallies(files, items[n].token, lines[n], j, Uncounted(items, j, Add), Uncounted(items, j, Remove));
    PutOpened(items, files, n, lines[n], j);
    PutPart(items, lines, n, files, j);
  }

  lemma PutCount(items: seq<Item>, n: nat, files: seq<File>, line: Line)
    requires n < |items| && |files| == FileCount(items, n) && (files == [] <==> n == 0)
    ensures |Put(files, items[n].token, line)| == FileCount(items, n + 1)
  {
  }

  lemma PutInvariant(items: seq<Item>, lines: seq<Line>, n: nat, files: seq<File>)
    requires Shows(items, lines) && n < |items| && Invariant(items, lines, n, files)
    ensures Invariant(items, lines, n + 1, Put(files, items[n].token, lines[n]))
  {
    var next := Put(files, items[n].token, lines[n]);
    PutCount(items, n, files, lines[n]);
    forall j: nat | j < |next| ensures FileFacts(items, lines, n + 1, next[j], j) {
      PutFacts(items, lines, n, files, j);
    }
  }

  /** One item more, on the files alone. */
  lemma OneMoreItem(items: seq<Item>, n: nat)
    requires n < |items|
    ensures After(items, n + 1).files == Put(After(items, n).files, items[n].token, Expected(items, |items|)[n])
  {
    CountersAreNumbers(items, n);
    ExpectedAt(items, |items|, n);
  }

  /** The files after item `m`, from those before it. */
  predicate PutStep(items: seq<Item>, lines: seq<Line>, trace: seq<seq<File>>, m: nat) {
    && m < |items| == |lines| && |trace| == |items| + 1
    && trace[m + 1] == Put(trace[m], items[m].token, lines[m])
  }

  /** The files before item `n` are as they should be. */
  ghost predicate Sound(items: seq<Item>, lines: seq<Line>, trace: seq<seq<File>>, n: nat) {
    |lines| == |items| && n <= |items| && |trace| == |items| + 1 && Invariant(items, lines, n, trace[n])
  }

  lemma SoundStep(items: seq<Item>, lines: seq<Line>, trace: seq<seq<File>>, n: nat)
    requires Shows(items, lines) && PutStep(items, lines, trace, n) && Sound(items, lines, trace, n)
    ensures Sound(items, lines, trace, n + 1)
  {
    PutInvariant(items, lines, n, trace[n]);
  }

  lemma SoundStart(items: seq<Item>, lines: seq<Line>, trace: seq<seq<File>>)
    requires Shows(items, lines) && |trace| == |items| + 1 && trace[0] == []
    ensures Sound(items, lines, trace, 0)
  {
  }

  lemma {:induction false} TraceInvariant(items: seq<Item>, lines: seq<Line>, trace: seq<seq<File>>, n: nat)
    requires Shows(items, lines) && n <= |items| && |trace| == |items| + 1 && trace[0] == []
    requires forall m: nat | m < |items| :: PutStep(items, lines, trace, m)
    ensures Sound(items, lines, trace, n)
  {
    if n == 0 {
      SoundStart(items, lines, trace);
    } else {
      TraceInvariant(items, lines, trace, n - 1);
      SoundStep(items, lines, trace, n - 1);
    }
  }

  lemma {:induction false} TraceFlat(items: seq<Item>, lines: seq<Line>, trace: seq<seq<File>>, n: nat)
    requires n <= |items| == |lines| && |trace| == |items| + 1 && trace[0] == []
    requires forall m: nat | m < |items| :: PutStep(items, lines, trace, m)
    ensures Flat(trace[n]) == lines[..n]
  {
    if n > 0 {
      TraceFlat(items, lines, trace, n - 1);
      assert PutStep(items, lines, trace, n - 1);
      PutFlat(trace[n - 1], items[n - 1].token, lines[n - 1]);
      assert lines[..n] == lines[..n - 1] + [lines[n - 1]];
    }
  }

  /** The files before each item and at the end. */
  predicate IsTrace(items: seq<Item>, trace: seq<seq<File>>) {
    |trace| == |items| + 1 && forall m: nat | m <= |items| :: trace[m] == After(items, m).files
  }

  lemma {:induction false} TraceStep(items: seq<Item>, lines: seq<Line>, trace: seq<seq<File>>, m: nat)
    requires IsTrace(items, trace) && lines == Expected(items, |items|) && m < |items|
    ensures PutStep(items, lines, trace, m)
  {
    OneMoreItem(items, m);
  }

  lemma {:induction false} TracedInvariant(items: seq<Item>, lines: seq<Line>, trace: seq<seq<File>>)
    requires IsTrace(items, trace) && lines == Expected(items, |items|) && Shows(items, lines)
    ensures Invariant(items, lines, |items|, trace[|items|]) && Flat(trace[|items|]) == lines
  {
    forall m: nat | m < |items| ensures PutStep(items, lines, trace, m) {
      TraceStep(items, lines, trace, m);
    }
    assert trace[0] == After(items, 0).files;
    TraceInvariant(items, lines, trace, |items|);
    TraceFlat(items, lines, trace, |items|);
    assert lines[..|items|] == lines;
  }

  lemma {:induction false} AfterInvariant(items: seq<Item>)
    ensures Invariant(items, Expected(items, |items|), |items|, After(items, |items|).files)
    ensures Flat(After(items, |items|).files) == Expected(items, |items|)
  {
    var trace := seq(|items| + 1, m requires 0 <= m <= |items| => After(items, m).files);
    ExpectedShows(items);
    TracedInvariant(items, Expected(items, |items|), trace);
  }

  // ------------------------------------------------------------------ whole texts

  lemma {:induction false} NothingFiltered(files: seq<File>)
    requires forall j | 0 <= j < |files| :: files[j].lines != []
    ensures WithLines(files) == files
  {
    if files != [] {
      NothingFiltered(files[1..]);
      assert [files[0]] + files[1..] == files;
    }
  }

  lemma OpenedNotEmpty(items: seq<Item>, lines: seq<Line>, n: nat, files: seq<File>, j: nat)
    requires |lines| == |items| && n <= |items| && Invariant(items, lines, n, files) && j < |files|
    ensures files[j].lines != []
  {
    assert FileFacts(items, lines, n, files[j], j);
  }

  lemma NothingDropped(items: seq<Item>, lines: seq<Line>, n: nat, files: seq<File>)
    requires |lines| == |items| && n <= |items| && Invariant(items, lines, n, files)
    ensures WithLines(files) == files
  {
    forall j: nat | j < |files| ensures files[j].lines != [] {
      OpenedNotEmpty(items, lines, n, files, j);
    }
    NothingFiltered(files);
  }

  /** The last filter drops nothing: a file is made only with a line to put in it. */
  lemma ParseIsAll(text: string)
    requires !Blank(text)
    ensures var items := Items(Split(text, '\n'));
            && Parse(Some(text)) == After(items, |items|).files
            && Invariant(items, Expected(items, |items|), |items|, Parse(Some(text)))
            && Flat(Parse(Some(text))) == Expected(items, |items|)
  {
    var items := Items(Split(text, '\n'));
    AfterInvariant(items);
    NothingDropped(items, Expected(items, |items|), |items|, After(items, |items|).files);
  }

  lemma {:induction false} ItemText(lines: seq<string>, i: nat)
    requires i < |lines|
    ensures Items(lines)[i].text == lines[i]
  {
    if i < |lines| - 1 {
      ItemText(lines[..|lines| - 1], i);
    }
  }

  function Texts(lines: seq<Line>): (texts: seq<string>)
    ensures |texts| == |lines|
  {
    seq(|lines|, i requires 0 <= i < |lines| => lines[i].text)
  }

  lemma ExpectedTexts(lines: seq<string>)
    ensures Texts(Expected(Items(lines), |lines|)) == lines
  {
    var items := Items(lines);
    forall i: nat | i < |lines| ensures Expected(items, |lines|)[i].text == lines[i] {
      ExpectedAt(items, |lines|, i);
      ItemText(lines, i);
    }
  }

  /** No line is lost, added or moved: joined again they are the text. */
  lemma ParseLosesNothing(text: string)
    requires !Blank(text)
    ensures var flat := Flat(Parse(Some(text)));
            Texts(flat) == Split(text, '\n') && Join(Texts(flat), '\n') == text
  {
    ParseIsAll(text);
    ExpectedTexts(Split(text, '\n'));
    JoinSplit(text, '\n');
  }

  /**
   * Every line has its kind and its numbers: the start the last hunk header gave for
   * its side, or 0 before any, plus the lines of that side since. A new file does not
   * reset them.
   */
  lemma ParseNumbersLines(text: string, i: nat)
    requires !Blank(text) && i < |Split(text, '\n')|
    ensures var items := Items(Split(text, '\n'));
            var flat := Flat(Parse(Some(text)));
            |flat| == |items| && flat[i] == Shown(items[i], OldNumber(items, i), NewNumber(items, i))
  {
    var items := Items(Split(text, '\n'));
    ParseIsAll(text);
    ExpectedAt(items, |items|, i);
  }

  /**
   * The files cut the text exactly at the headers: file `j` holds the lines whose place
   * among the headers is `j`, in order.
   */
  lemma ParseCutsAtHeaders(text: string, j: nat)
    requires !Blank(text) && j < |Parse(Some(text))|
    ensures var items := Items(Split(text, '\n'));
            Parse(Some(text))[j].lines == Part(items, Expected(items, |items|), |items|, j)
  {
    ParseIsAll(text);
    var items := Items(Split(text, '\n'));
    assert FileFacts(items, Expected(items, |items|), |items|, Parse(Some(text))[j], j);
  }

  /** There is one file a header, and one more when lines come before the first. */
  lemma FilesPerHeader(text: string)
    requires !Blank(text)
    ensures var items := Items(Split(text, '\n'));
            |Parse(Some(text))| == FileCount(items, |items|) && Parse(Some(text)) != []
  {
    ParseIsAll(text);
  }

  /** A file opens with the header line it is named after, except the unnamed first one. */
  lemma FilesOpened(text: string, j: nat)
    requires !Blank(text) && j < |Parse(Some(text))|
    ensures Opened(Items(Split(text, '\n')), Parse(Some(text))[j], j)
  {
    ParseIsAll(text);
    var items := Items(Split(text, '\n'));
    assert FileFacts(items, Expected(items, |items|), |items|, Parse(Some(text))[j], j);
  }

  predicate CountsExact(file: File) {
    file.additions == CountLines(file.lines, Add) && file.deletions == CountLines(file.lines, Remove)
  }

  lemma CountsExactly(items: seq<Item>, lines: seq<Line>, files: seq<File>)
    requires items != [] && |lines| == |items| && Invariant(items, lines, |items|, files)
    ensures (forall j | 0 <= j < |files| :: CountsExact(files[j])) <==> KindOf(items[0].token) !in {Add, Remove}
  {
    assert FileFacts(items, lines, |items|, files[0], 0);
    if KindOf(items[0].token) !in {Add, Remove} {
      forall j: nat | j < |files| ensures CountsExact(files[j]) {
        assert FileFacts(items, lines, |items|, files[j], j);
      }
    } else {
      assert !CountsExact(files[0]);
    }
  }

  /** Every file counts its added and removed lines exactly unless the very first line is one. */
  lemma ParseCountsExactly(text: string)
    requires !Blank(text)
    ensures (forall j | 0 <= j < |Parse(Some(text))| :: CountsExact(Parse(Some(text))[j]))
            <==> KindOf(Scan(Split(text, '\n')[0])) !in {Add, Remove}
  {
    var items := Items(Split(text, '\n'));
    ParseIsAll(text);
    CountsExactly(items, Expected(items, |items|), Parse(Some(text)));
    ItemAt(Split(text, '\n'), 0);
  }

  lemma {:induction false} FirstPart(text: string, prefix: string, sep: char)
    requires prefix <= text && sep !in prefix
    ensures prefix <= Split(text, sep)[0]
  {
    if prefix != [] {
      assert text[0] == prefix[0];
      FirstPart(text[1..], prefix[1..], sep);
    }
  }

  /** A diff as git prints it starts with a header, so all its counts are exact. */
  lemma GitDiffCountsExactly(text: string)
    requires StartsWith(text, GIT)
    ensures forall j | 0 <= j < |Parse(Some(text))| :: CountsExact(Parse(Some(text))[j])
  {
    assert GIT[0] == 'd' && text[0] == GIT[0];
    assert !Blank(text);
    FirstPart(text, GIT, '\n');
    ParseCountsExactly(text);
  }

  lemma DashesApart(a: string, b: string, p: string, q: string)
    requires AllDigits(a) && AllDigits(b) && |a| < |b|
    ensures a + "-" + p != b + "-" + q
  {
    assert (a + "-" + p)[|a|] == '-';
    assert (b + "-" + q)[|a|] == b[|a|] && IsDigit(b[|a|]);
  }

  lemma NumberedIdsDiffer(i: nat, j: nat, p: string, q: string)
    requires i != j
    ensures Decimal(i) + "-" + p != Decimal(j) + "-" + q
  {
    var a, b := Decimal(i), Decimal(j);
    ValueOfDecimal(i);
    ValueOfDecimal(j);
    if |a| < |b| {
      DashesApart(a, b, p, q);
    } else if |b| < |a| {
      DashesApart(b, a, q, p);
    } else {
      assert (a + "-" + p)[..|a|] == a && (b + "-" + q)[..|b|] == b;
    }
  }

  /** No two files of a parse share an id. */
  lemma IdsDistinct(text: string, i: nat, j: nat)
    requires i < j < |Parse(Some(text))|
    ensures Parse(Some(text))[i].id != Parse(Some(text))[j].id
  {
    if Blank(text) {
      return;
    }
    var items := Items(Split(text, '\n'));
    ParseIsAll(text);
    OpenedIdsDiffer(items, Expected(items, |items|), Parse(Some(text)), i, j);
  }

  lemma OpenedIdsDiffer(items: seq<Item>, lines: seq<Line>, files: seq<File>, i: nat, j: nat)
    requires |lines| == |items| && Invariant(items, lines, |items|, files) && i < j < |files|
    ensures files[i].id != files[j].id
  {
    assert FileFacts(items, lines, |items|, files[i], i) && FileFacts(items, lines, |items|, files[j], j);
    NumberedIdsDiffer(i, j, files[i].path, files[j].path);
    ValueOfDecimal(j);
    assert files[j].id[0] == Decimal(j)[0];
    assert UNNAMED.id[0] == 'u';
  }
}
