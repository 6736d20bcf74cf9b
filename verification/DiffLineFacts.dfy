/** Headers read back, and exactly which printed lines are taken for what they are. */
module DiffLineFacts {
  import opened Common
  import opened Text
  import opened Decimals
  import opened DiffLines

  // ------------------------------------------------------------------ hunk headers

  lemma {:induction false} DigitRunAll(digits: string, rest: string)
    requires AllDigits(digits) && (rest != [] ==> !IsDigit(rest[0]))
    ensures DigitRun(digits + rest) == |digits|
  {
    if digits == [] {
      assert digits + rest == rest;
    } else {
      assert digits[0] == (digits + rest)[0] && IsDigit(digits[0]);
      assert forall i | 0 <= i < |digits[1..]| :: digits[1..][i] == digits[i + 1];
      DigitRunAll(digits[1..], rest);
      assert (digits + rest)[1..] == digits[1..] + rest;
    }
  }

  /** `,n` or nothing. */
  function PrintCount(count: Option<nat>): string {
    if count.Some? then [','] + Decimal(count.value) else []
  }

  function PrintRange(start: nat, count: Option<nat>): string {
    Decimal(start) + PrintCount(count)
  }

  lemma SkipDigits(digits: string, rest: string)
    requires digits != "" && AllDigits(digits) && (rest != [] ==> !IsDigit(rest[0]))
    ensures SkipCount([','] + (digits + rest)) == rest
  {
    var s := [','] + (digits + rest);
    assert s[1..] == digits + rest;
    DigitRunAll(digits, rest);
    assert s[1 + |digits|..] == rest;
  }

  lemma SkipPrintedCount(count: Option<nat>, rest: string)
    requires rest != [] && !IsDigit(rest[0]) && rest[0] != ','
    ensures SkipCount(PrintCount(count) + rest) == rest
  {
    if count.Some? {
      ValueOfDecimal(count.value);
      SkipDigits(Decimal(count.value), rest);
      assert PrintCount(count) + rest == [','] + (Decimal(count.value) + rest);
    } else {
      assert PrintCount(count) + rest == rest;
    }
  }

  lemma RangeReadBack(start: nat, count: Option<nat>, rest: string)
    requires rest != [] && !IsDigit(rest[0]) && rest[0] != ','
    ensures MatchRange(PrintRange(start, count) + rest) == Some((start, rest))
  {
    var digits, tail := Decimal(start), PrintCount(count) + rest;
    assert PrintRange(start, count) + rest == digits + tail;
    ValueOfDecimal(start);
    DigitRunAll(digits, tail);
    assert (digits + tail)[..|digits|] == digits && (digits + tail)[|digits|..] == tail;
    SkipPrintedCount(count, rest);
  }

  /** A hunk header as git prints it; `section` is whatever follows the second pair of signs. */
  function PrintHunk(h: Hunk, oldCount: Option<nat>, newCount: Option<nat>, section: string): string {
    OPEN + (PrintRange(h.oldStart, oldCount) + (MIDDLE + (PrintRange(h.newStart, newCount) + (CLOSE + section))))
  }

  lemma MatchPieces(h: Hunk, oldPart: string, newPart: string, section: string)
    requires MatchRange(oldPart) == Some((h.oldStart, MIDDLE + newPart))
    requires MatchRange(newPart) == Some((h.newStart, CLOSE + section))
    ensures MatchHunk(OPEN + oldPart) == Some(h)
  {
    assert (OPEN + oldPart)[4..] == oldPart && (MIDDLE + newPart)[2..] == newPart;
  }

  lemma ScanMatched(raw: string)
    requires MatchHunk(raw).Some?
    ensures Scan(raw) == HunkHeader(MatchHunk(raw).value)
  {
    assert raw[0] == OPEN[0] == '@' && raw[1] == OPEN[1] == '@';
    assert GIT[0] == 'd' && !StartsWith(raw, GIT);
    assert StartsWith(raw, "@@") && FindHunk(raw) == MatchHunk(raw);
  }

  /** A printed hunk header gives its two starts. */
  lemma HunkReadBack(h: Hunk, oldCount: Option<nat>, newCount: Option<nat>, section: string)
    ensures Scan(PrintHunk(h, oldCount, newCount, section)) == HunkHeader(h)
  {
    var close := CLOSE + section;
    var newPart := PrintRange(h.newStart, newCount) + close;
    var oldPart := PrintRange(h.oldStart, oldCount) + (MIDDLE + newPart);
    RangeReadBack(h.newStart, newCount, close);
    RangeReadBack(h.oldStart, oldCount, MIDDLE + newPart);
    MatchPieces(h, oldPart, newPart, section);
    ScanMatched(OPEN + oldPart);
  }

  // ------------------------------------------------------------------- file headers

  /** ` b/` inside a path, not at its very start. */
  predicate Ambiguous(p: string) {
    exists k | 0 <= k < |p| :: SideAt(p, k)
  }

  lemma SplitInside(p: string, q: string, k: nat)
    requires k < |p|
    ensures SplitsAt(p + SIDE_B + q, k) <==> SideAt(p, k)
  {
    var s := p + SIDE_B + q;
    assert s[|p|] == ' ';
    if SplitsAt(s, k) {
      assert s[k..k + 3][1] == s[k + 1] && s[k..k + 3][2] == s[k + 2];
      assert SIDE_B[1] == 'b' && SIDE_B[2] == '/';
    }
    if k + 3 <= |p| {
      assert s[k..k + 3] == p[k..k + 3];
    }
  }

  /** Where the lazy group ends: at the border, unless the first path has the separator inside. */
  lemma SplitAtBorder(p: string, q: string)
    requires p != "" && q != ""
    ensures FirstSplit(p + SIDE_B + q, 1).Some?
    ensures FirstSplit(p + SIDE_B + q, 1).value <= |p|
    ensures FirstSplit(p + SIDE_B + q, 1).value == |p| <==> !Ambiguous(p)
  {
    var s := p + SIDE_B + q;
    assert s[|p|..|p| + 3] == SIDE_B;
    assert SplitsAt(s, |p|);
    var k := FirstSplit(s, 1).value;
    if k < |p| {
      SplitInside(p, q, k);
      assert Ambiguous(p);
    } else if Ambiguous(p) {
      var i: nat :| i < |p| && SideAt(p, i);
      SplitInside(p, q, i);
    }
  }

  /** A header as git prints it, with the old and the new path. */
  function PrintHeader(p: string, q: string): string {
    GIT + (SIDE_A + (p + SIDE_B + q))
  }

  lemma PrintedSides(p: string, q: string)
    ensures StartsWith(PrintHeader(p, q), GIT)
    ensures var sides := PrintHeader(p, q)[|GIT|..];
            && StartsWith(sides, SIDE_A) && sides[2..] == p + SIDE_B + q
            && TrimStart(sides) == sides && |sides| == |p| + |q| + 5
  {
    var rest := p + SIDE_B + q;
    var sides := SIDE_A + rest;
    assert PrintHeader(p, q)[|GIT|..] == sides && sides[2..] == rest;
    assert sides[0] == 'a';
  }

  lemma PathAfterSplit(p: string, q: string)
    requires p != "" && q != "" && OneLine(p + SIDE_B + q)
    ensures DiffPath(PrintHeader(p, q)) == q <==> !Ambiguous(p)
  {
    var rest := p + SIDE_B + q;
    PrintedSides(p, q);
    SplitAtBorder(p, q);
    var k := FirstSplit(rest, 1).value;
    assert DiffPath(PrintHeader(p, q)) == rest[k + 3..];
    assert rest[|p| + 3..] == q && |rest[k + 3..]| == |p| + |q| - k;
  }

  /**
   * The path shown is the new path exactly when neither path holds a line terminator
   * (a carriage return at the end is one) and the old one holds no ` b/` after its
   * first character.
   */
  lemma HeaderPathExact(p: string, q: string)
    requires p != "" && q != ""
    ensures DiffPath(PrintHeader(p, q)) == q <==> OneLine(p) && OneLine(q) && !Ambiguous(p)
  {
    OneLineParts(p, q);
    if OneLine(p + SIDE_B + q) {
      PathAfterSplit(p, q);
    } else {
      PrintedSides(p, q);
    }
  }

  /** At `k` the text has ` b/` with something before and after it. */
  predicate SecondSide(s: string, k: nat) {
    1 <= k && k + 3 < |s| && s[k] == ' ' && s[k + 1] == 'b' && s[k + 2] == '/'
  }

  predicate Unbroken(s: string) {
    forall i | 0 <= i < |s| :: s[i] != '\n' && s[i] != '\r' && s[i] != '\U{2028}' && s[i] != '\U{2029}'
  }

  /** What follows the git prefix is `a/`, a text, ` b/` and a text, all on one line. */
  predicate TwoSides(sides: string) {
    && |sides| >= 2 && sides[0] == 'a' && sides[1] == '/' && Unbroken(sides[2..])
    && exists k: nat | k < |sides| - 2 :: SecondSide(sides[2..], k)
  }

  lemma SidesAlike(sides: string)
    ensures StartsWith(sides, SIDE_A) <==> |sides| >= 2 && sides[0] == 'a' && sides[1] == '/'
    ensures |sides| >= 2 ==> (OneLine(sides[2..]) <==> Unbroken(sides[2..]))
  {
    assert SIDE_A[0] == 'a' && SIDE_A[1] == '/';
  }

  lemma SplitsAlike(s: string, k: nat)
    ensures SplitsAt(s, k) <==> SecondSide(s, k)
  {
    assert SIDE_B[0] == ' ' && SIDE_B[1] == 'b' && SIDE_B[2] == '/';
    if k + 3 <= |s| {
      assert s[k..k + 3] == [s[k], s[k + 1], s[k + 2]];
    }
  }

  /** Then the path shown is what comes after the first ` b/`. */
  lemma TwoSidesShown(sides: string, k: nat)
    requires TwoSides(sides) && k < |sides| - 2 && SecondSide(sides[2..], k)
    requires forall j: nat | j < k :: !SecondSide(sides[2..], j)
    ensures DiffPath(GIT + sides) == sides[2..][k + 3..]
  {
    assert (GIT + sides)[|GIT|..] == sides;
    SidesAlike(sides);
    FirstSplitIs(sides[2..], k);
  }

  lemma FirstSplitIs(s: string, k: nat)
    requires SecondSide(s, k) && forall j: nat | j < k :: !SecondSide(s, j)
    ensures FirstSplit(s, 1) == Some(k)
  {
    SplitsAlike(s, k);
    SplitsAlike(s, FirstSplit(s, 1).value);
  }

  /** A header of any other shape, such as one with quoted paths, shows all it says, without leading white space. */
  lemma OtherHeaderShown(space: string, sides: string)
    requires !TwoSides(space + sides) && (forall i | 0 <= i < |space| :: IsJsSpace(space[i]))
    requires sides != [] && !IsJsSpace(sides[0])
    ensures DiffPath(GIT + (space + sides)) == sides
  {
    var all := space + sides;
    assert (GIT + all)[|GIT|..] == all;
    SidesAlike(all);
    if StartsWith(all, SIDE_A) {
      forall k: nat ensures !OneLine(all[2..]) || !SplitsAt(all[2..], k) {
        SplitsAlike(all[2..], k);
      }
    }
    Trimmed(space, sides);
  }

  lemma {:induction false} Trimmed(space: string, s: string)
    requires (forall i | 0 <= i < |space| :: IsJsSpace(space[i])) && s != [] && !IsJsSpace(s[0])
    ensures TrimStart(space + s) == s
  {
    if space == [] {
      assert space + s == s;
    } else {
      assert (space + s)[1..] == space[1..] + s;
      Trimmed(space[1..], s);
    }
  }

  /** Git puts paths with special characters in quotes. */
  lemma QuotedHeaderShown(p: string, q: string)
    ensures var sides := ['"'] + "a/" + p + ['"', ' ', '"'] + "b/" + q + ['"'];
            DiffPath(GIT + sides) == sides
  {
    var sides := ['"'] + "a/" + p + ['"', ' ', '"'] + "b/" + q + ['"'];
    assert sides[0] == '"' && [] + sides == sides;
    OtherHeaderShown([], sides);
  }

  lemma OneLineParts(p: string, q: string)
    ensures OneLine(p + SIDE_B + q) <==> OneLine(p) && OneLine(q)
  {
    var s := p + SIDE_B + q;
    assert forall i | 0 <= i < |p| :: s[i] == p[i];
    assert forall i | 0 <= i < |q| :: s[|p| + 3 + i] == q[i];
    assert SIDE_B[0] == ' ' && SIDE_B[1] == 'b' && SIDE_B[2] == '/';
    assert forall i | |p| <= i < |p| + 3 :: s[i] == SIDE_B[i - |p|];
    if OneLine(p) && OneLine(q) {
      forall i | 0 <= i < |s| ensures !IsTerminator(s[i]) {
        if i >= |p| + 3 {
          assert s[i] == q[i - |p| - 3];
        }
      }
    }
    if OneLine(s) {
      forall i | 0 <= i < |p| ensures !IsTerminator(p[i]) {
        assert s[i] == p[i];
      }
      forall i | 0 <= i < |q| ensures !IsTerminator(q[i]) {
        assert s[|p| + 3 + i] == q[i];
      }
    }
  }

  // -------------------------------------------------------------------- body lines

  lemma FirstChars(raw: string, a: char)
    requires raw != [] && raw[0] == a
    ensures a != 'd' ==> !StartsWith(raw, GIT)
    ensures a != '@' ==> !StartsWith(raw, "@@")
    ensures a != 'i' ==> !StartsWith(raw, "index ")
    ensures a != '+' ==> !StartsWith(raw, "+") && !StartsWith(raw, "+++")
    ensures a != '-' ==> !StartsWith(raw, "-") && !StartsWith(raw, "---")
    ensures StartsWith(raw, [a])
  {
    assert GIT[0] == 'd' && "@@"[0] == '@' && "index "[0] == 'i';
    assert "+"[0] == '+' && "+++"[0] == '+' && "-"[0] == '-' && "---"[0] == '-';
  }

  /** A printed line is taken for what it is, or for meta text exactly when its text starts with its sign twice. */
  lemma AddedLineExact(text: string)
    ensures Scan(['+'] + text) == if StartsWith(text, "++") then Other else Plus
  {
    var raw := ['+'] + text;
    FirstChars(raw, '+');
    assert raw[1..] == text;
    assert StartsWith(raw, "+++") <==> StartsWith(text, "++");
  }

  lemma RemovedLineExact(text: string)
    ensures Scan(['-'] + text) == if StartsWith(text, "--") then Other else Minus
  {
    var raw := ['-'] + text;
    FirstChars(raw, '-');
    assert raw[1..] == text;
    assert StartsWith(raw, "---") <==> StartsWith(text, "--");
  }

  lemma KeptLineExact(text: string)
    ensures Scan([' '] + text) == Space
  {
    FirstChars([' '] + text, ' ');
  }

  lemma MetaFirst(raw: string)
    requires raw == [] || raw[0] !in {'+', '-', ' '}
    ensures Scan(raw) !in {Plus, Minus, Space}
  {
    assert "+"[0] == '+' && "-"[0] == '-' && " "[0] == ' ';
  }

  /** The kind of a line by its first signs: three of a kind are a file's, everything else is meta text. */
  lemma KindExactly(raw: string)
    ensures Scan(raw) == Plus <==> raw != [] && raw[0] == '+' && !StartsWith(raw, "+++")
    ensures Scan(raw) == Minus <==> raw != [] && raw[0] == '-' && !StartsWith(raw, "---")
    ensures Scan(raw) == Space <==> raw != [] && raw[0] == ' '
  {
    if raw == [] || raw[0] !in {'+', '-', ' '} {
      MetaFirst(raw);
    } else {
      FirstChars(raw, raw[0]);
    }
  }
}
