/** A printed hunk read back: every line as what it was, under its own numbers. */
module PrintedHunks {
  import opened Common
  import opened Text
  import opened DiffLines
  import opened DiffLineFacts
  import opened UnifiedDiff
  import opened UnifiedDiffFacts

  // ------------------------------------------------------------------------- marks

  /** What the numbers depend on: the kind of a printed line, and whether it is read as such. */
  datatype Mark = Mark(kind: Kind, plain: bool)

  /** A line of neither side is not printed, and a kept line is never misread. */
  predicate Printable(marks: seq<Mark>) {
    forall j | 0 <= j < |marks| :: marks[j].kind != Meta && (marks[j].kind == Context ==> marks[j].plain)
  }

  /** A misread line is meta text to the parser. */
  function ReadAs(m: Mark): Token {
    if !m.plain then Other
    else match m.kind
      case Context => Space
      case Add => Plus
      case Remove => Minus
      case Meta => Other
  }

  /** Lines of a side among the first `k`. */
  function SideLines(marks: seq<Mark>, side: set<Kind>, k: nat): nat
    requires k <= |marks|
  {
    if k == 0 then 0 else SideLines(marks, side, k - 1) + if marks[k - 1].kind in side then 1 else 0
  }

  /** Those of them that are read as such. */
  function SideRead(marks: seq<Mark>, side: set<Kind>, k: nat): nat
    requires k <= |marks|
  {
    if k == 0 then 0
    else SideRead(marks, side, k - 1) + if marks[k - 1].kind in side && marks[k - 1].plain then 1 else 0
  }

  /** The count of a side is true exactly when no line of that side was misread. */
  lemma {:induction false} ReadsTrue(marks: seq<Mark>, side: set<Kind>, k: nat)
    requires k <= |marks|
    ensures SideRead(marks, side, k) <= SideLines(marks, side, k)
    ensures SideRead(marks, side, k) == SideLines(marks, side, k) <==>
              forall j: nat | j < k :: marks[j].kind in side ==> marks[j].plain
  {
    if k > 0 {
      ReadsTrue(marks, side, k - 1);
    }
  }

  /** Misreading `m` does not disturb what is shown of `later` after it. */
  predicate Harmless(m: Mark, later: Mark) {
    m.plain || (m.kind == Add && later.kind == Remove) || (m.kind == Remove && later.kind == Add)
  }

  /** Line `k` is read as it is, after lines whose reading does no harm to it. */
  ghost predicate ShownTrue(marks: seq<Mark>, k: nat)
    requires k < |marks|
  {
    marks[k].plain && forall j: nat | j < k :: Harmless(marks[j], marks[k])
  }

  /** A line of a kind with the numbers of the sides it is on. */
  function LineOf(kind: Kind, oldLine: nat, newLine: nat, text: string): Line {
    Line(kind,
         if kind in OLD_SIDE then Some(oldLine) else None,
         if kind in NEW_SIDE then Some(newLine) else None,
         text)
  }

  /** Line `k` of the hunk with the numbers it has in the old and the new file. */
  function TrueLine(h: Hunk, marks: seq<Mark>, k: nat, text: string): Line
    requires k < |marks|
  {
    LineOf(marks[k].kind, h.oldStart + SideLines(marks, OLD_SIDE, k), h.newStart + SideLines(marks, NEW_SIDE, k), text)
  }

  /** The line the viewer shows. */
  function ShownLine(h: Hunk, marks: seq<Mark>, k: nat, text: string): Line
    requires k < |marks|
  {
    LineOf(if marks[k].plain then marks[k].kind else Meta,
           h.oldStart + SideRead(marks, OLD_SIDE, k), h.newStart + SideRead(marks, NEW_SIDE, k), text)
  }

  lemma ShownIsTrue(h: Hunk, marks: seq<Mark>, k: nat, text: string)
    requires k < |marks| && Printable(marks)
    ensures ShownLine(h, marks, k, text) == TrueLine(h, marks, k, text) <==> ShownTrue(marks, k)
    ensures ShownLine(h, marks, k, text).kind == marks[k].kind <==> marks[k].plain
  {
    ReadsTrue(marks, OLD_SIDE, k);
    ReadsTrue(marks, NEW_SIDE, k);
    if marks[k].plain {
      forall j: nat | j < k
        ensures Harmless(marks[j], marks[k]) <==>
                && (marks[k].kind in OLD_SIDE && marks[j].kind in OLD_SIDE ==> marks[j].plain)
                && (marks[k].kind in NEW_SIDE && marks[j].kind in NEW_SIDE ==> marks[j].plain)
      {
        assert marks[j].kind != Meta && marks[k].kind != Meta;
      }
    }
  }

  lemma {:induction false} HunkNumbers(items: seq<Item>, at: nat, h: Hunk, marks: seq<Mark>, k: nat)
    requires at + 1 + k <= |items| && k <= |marks| && items[at].token == HunkHeader(h)
    requires forall j: nat | j < k :: items[at + 1 + j].token == ReadAs(marks[j])
    ensures NewNumber(items, at + 1 + k) == h.newStart + SideRead(marks, NEW_SIDE, k)
    ensures OldNumber(items, at + 1 + k) == h.oldStart + SideRead(marks, OLD_SIDE, k)
  {
    if k == 0 {
      NumbersStep(items, at);
    } else {
      HunkNumbers(items, at, h, marks, k - 1);
      assert items[at + 1 + (k - 1)].token == ReadAs(marks[k - 1]);
      NumbersStep(items, at + k);
    }
  }

  // ------------------------------------------------------------------------- edits

  datatype Edit = Keep(text: string) | Insert(text: string) | Delete(text: string)

  function PrintEdit(e: Edit): string {
    match e
    case Keep(text) => [' '] + text
    case Insert(text) => ['+'] + text
    case Delete(text) => ['-'] + text
  }

  /** Plain: the text does not start with the sign it is printed under, twice. */
  function MarkOf(e: Edit): Mark {
    match e
    case Keep(_) => Mark(Context, true)
    case Insert(text) => Mark(Add, !StartsWith(text, "++"))
    case Delete(text) => Mark(Remove, !StartsWith(text, "--"))
  }

  function Marks(edits: seq<Edit>): (marks: seq<Mark>)
    ensures |marks| == |edits| && Printable(marks)
  {
    if edits == [] then []
    else
      var last := |edits| - 1;
      Marks(edits[..last]) + [MarkOf(edits[last])]
  }

  lemma {:induction false} MarkAt(edits: seq<Edit>, j: nat)
    requires j < |edits|
    ensures Marks(edits)[j] == MarkOf(edits[j])
  {
    if j < |edits| - 1 {
      MarkAt(edits[..|edits| - 1], j);
    }
  }

  lemma EditScanned(e: Edit)
    ensures Scan(PrintEdit(e)) == ReadAs(MarkOf(e))
  {
    match e
    case Keep(text) => KeptLineExact(text);
    case Insert(text) => AddedLineExact(text);
    case Delete(text) => RemovedLineExact(text);
  }

  predicate PrintedAt(lines: seq<string>, at: nat, edits: seq<Edit>, j: nat) {
    at + 1 + j < |lines| && j < |edits| && lines[at + 1 + j] == PrintEdit(edits[j])
  }

  /** From `at` on the lines are the header and the printed edits; anything may stand around them. */
  predicate Holds(lines: seq<string>, at: nat, header: string, edits: seq<Edit>) {
    at < |lines| && lines[at] == header && EditsAt(lines, at, edits)
  }

  predicate EditsAt(lines: seq<string>, at: nat, edits: seq<Edit>) {
    forall j: nat | j < |edits| :: PrintedAt(lines, at, edits, j)
  }

  /** The line is not blank and read as this hunk header. */
  predicate ReadsHeader(lines: seq<string>, at: nat, h: Hunk) {
    at < |lines| && !Blank(lines[at]) && Items(lines)[at].token == HunkHeader(h)
  }

  lemma ItemScanned(lines: seq<string>, at: nat, edits: seq<Edit>, j: nat)
    requires PrintedAt(lines, at, edits, j)
    ensures Items(lines)[at + 1 + j] == Item(ReadAs(Marks(edits)[j]), PrintEdit(edits[j]))
  {
    ItemAt(lines, at + 1 + j);
    MarkAt(edits, j);
    EditScanned(edits[j]);
  }

  // -------------------------------------------------------------------- whole texts

  /** A text that joins lines is read as these lines. */
  lemma JoinedNotBlank(lines: seq<string>, i: nat)
    requires i < |lines| && Free(lines, '\n') && !Blank(lines[i])
    ensures !Blank(Join(lines, '\n')) && Split(Join(lines, '\n'), '\n') == lines
  {
    SplitJoin(lines, '\n');
    JoinHolds(lines, i);
  }

  lemma {:induction false} JoinHolds(lines: seq<string>, i: nat)
    requires i < |lines| && !Blank(lines[i])
    ensures !Blank(Join(lines, '\n'))
  {
    var text := Join(lines, '\n');
    if i == 0 {
      var c :| 0 <= c < |lines[0]| && !IsJsSpace(lines[0][c]);
      assert text[c] == lines[0][c];
    } else {
      JoinHolds(lines[1..], i - 1);
      var tail := Join(lines[1..], '\n');
      var c :| 0 <= c < |tail| && !IsJsSpace(tail[c]);
      assert text[|lines[0]| + 1 + c] == tail[c];
    }
  }

  /** The text is read as these lines. */
  predicate ReadAsLines(text: string, lines: seq<string>) {
    !Blank(text) && Split(text, '\n') == lines
  }

  /** The lines shown are those of the items, each under its numbers. */
  predicate Numbers(flat: seq<Line>, items: seq<Item>) {
    |flat| == |items| && forall i: nat | i < |items| :: flat[i] == ExpectedLine(items, i)
  }

  lemma ExpectedNumbers(items: seq<Item>)
    ensures Numbers(Expected(items, |items|), items)
  {
    forall i: nat | i < |items| ensures Expected(items, |items|)[i] == ExpectedLine(items, i) {
      ExpectedAt(items, |items|, i);
    }
  }

  lemma TextNumbers(text: string, lines: seq<string>)
    requires ReadAsLines(text, lines)
    ensures Numbers(Flat(Parse(Some(text))), Items(lines))
  {
    ParseIsAll(text);
    ExpectedNumbers(Items(lines));
  }

  /** By the first signs of a line: what it is taken for wherever it stands. */
  function KindBySigns(raw: string): Kind {
    if raw == [] then Meta
    else if raw[0] == '+' then (if StartsWith(raw, "+++") then Meta else Add)
    else if raw[0] == '-' then (if StartsWith(raw, "---") then Meta else Remove)
    else if raw[0] == ' ' then Context
    else Meta
  }

  /** Every line of a text is shown under that kind, whatever stands around it. */
  lemma EveryKindExactly(text: string, i: nat)
    requires !Blank(text) && i < |Split(text, '\n')|
    ensures var flat := Flat(Parse(Some(text)));
            i < |flat| && flat[i].kind == KindBySigns(Split(text, '\n')[i]) && flat[i].text == Split(text, '\n')[i]
  {
    var lines := Split(text, '\n');
    TextNumbers(text, lines);
    ItemAt(lines, i);
    KindExactly(lines[i]);
  }

  lemma HunkNotBlank(h: Hunk, oldCount: Option<nat>, newCount: Option<nat>, section: string)
    ensures !Blank(PrintHunk(h, oldCount, newCount, section))
  {
    assert PrintHunk(h, oldCount, newCount, section)[0] == '@';
  }

  lemma HeaderScanned(
      lines: seq<string>, at: nat, h: Hunk, oldCount: Option<nat>, newCount: Option<nat>, section: string)
    requires at < |lines| && lines[at] == PrintHunk(h, oldCount, newCount, section)
    ensures ReadsHeader(lines, at, h)
  {
    HunkNotBlank(h, oldCount, newCount, section);
    HunkReadBack(h, oldCount, newCount, section);
    ItemAt(lines, at);
  }

  lemma ShownAsRead(items: seq<Item>, at: nat, h: Hunk, marks: seq<Mark>, k: nat)
    requires at + 1 + k < |items| && k < |marks| && items[at].token == HunkHeader(h) && Printable(marks)
    requires forall j: nat | j <= k :: items[at + 1 + j].token == ReadAs(marks[j])
    ensures var i := at + 1 + k;
            Shown(items[i], OldNumber(items, i), NewNumber(items, i)) == ShownLine(h, marks, k, items[i].text)
  {
    HunkNumbers(items, at, h, marks, k);
    assert items[at + 1 + k].token == ReadAs(marks[k]);
  }

  lemma HunkShown(lines: seq<string>, at: nat, h: Hunk, edits: seq<Edit>, k: nat)
    requires k < |edits| && EditsAt(lines, at, edits) && ReadsHeader(lines, at, h)
    ensures var items, i := Items(lines), at + 1 + k;
            && i < |items|
            && Shown(items[i], OldNumber(items, i), NewNumber(items, i))
               == ShownLine(h, Marks(edits), k, PrintEdit(edits[k]))
  {
    forall j: nat | j <= k
      ensures PrintedAt(lines, at, edits, j) && Items(lines)[at + 1 + j].token == ReadAs(Marks(edits)[j])
    {
      ItemScanned(lines, at, edits, j);
    }
    ItemScanned(lines, at, edits, k);
    ShownAsRead(Items(lines), at, h, Marks(edits), k);
  }

  /** What the viewer shows for line `k` of a hunk. */
  lemma HunkLineShown(flat: seq<Line>, lines: seq<string>, at: nat, h: Hunk, edits: seq<Edit>, k: nat)
    requires Numbers(flat, Items(lines)) && EditsAt(lines, at, edits) && ReadsHeader(lines, at, h) && k < |edits|
    ensures at + 1 + k < |flat| == |lines|
    ensures flat[at + 1 + k] == ShownLine(h, Marks(edits), k, PrintEdit(edits[k]))
  {
    HunkShown(lines, at, h, edits, k);
  }

  /**
   * The viewer shows a line of a printed hunk as the edit it is exactly when its text
   * does not start with its own sign twice, and under the numbers the line really has
   * exactly when besides no line before it was misread, but for lines of the one side
   * before a line of the other. What stands before and after the hunk does not matter.
   */
  lemma PrintedHunkRead(
      lines: seq<string>, at: nat, h: Hunk, oldCount: Option<nat>, newCount: Option<nat>, section: string,
      edits: seq<Edit>, k: nat)
    requires Free(lines, '\n') && Holds(lines, at, PrintHunk(h, oldCount, newCount, section), edits)
    requires k < |edits|
    ensures var flat := Flat(Parse(Some(Join(lines, '\n'))));
            var marks, i := Marks(edits), at + 1 + k;
            && i < |flat| == |lines|
            && (flat[i].kind == marks[k].kind <==> marks[k].plain)
            && (flat[i] == TrueLine(h, marks, k, PrintEdit(edits[k])) <==> ShownTrue(marks, k))
  {
    HeaderScanned(lines, at, h, oldCount, newCount, section);
    JoinedNotBlank(lines, at);
    var marks, printed := Marks(edits), PrintEdit(edits[k]);
    TextNumbers(Join(lines, '\n'), lines);
    HunkLineShown(Flat(Parse(Some(Join(lines, '\n')))), lines, at, h, edits, k);
    ShownIsTrue(h, marks, k, printed);
  }
}
