/** How the diff viewer reads one line (`parseUnifiedDiff`, `diffPathFromHeader`). */
module DiffLines {
  import opened Common
  import opened Text
  import opened Decimals

  // ------------------------------------------------------------------ hunk headers

  datatype Hunk = Hunk(oldStart: nat, newStart: nat)

  /** The length of the digits a text starts with. */
  function DigitRun(s: string): (n: nat)
    ensures n <= |s| && AllDigits(s[..n]) && (n < |s| ==> !IsDigit(s[n]))
  {
    if s == [] || !IsDigit(s[0]) then 0
    else
      assert forall i | 0 < i <= DigitRun(s[1..]) :: s[i] == s[1..][..DigitRun(s[1..])][i - 1];
      1 + DigitRun(s[1..])
  }

  /** `(?:,\d+)?`: the rest after an optional line count. */
  function SkipCount(s: string): string {
    if s != [] && s[0] == ',' && DigitRun(s[1..]) > 0 then s[1 + DigitRun(s[1..])..] else s
  }

  /** `(\d+)(?:,\d+)?`: the number and the rest. */
  function MatchRange(s: string): Option<(nat, string)> {
    var n := DigitRun(s);
    if n == 0 then None else Some((Value(s[..n]), SkipCount(s[n..])))
  }

  const OPEN := ['@', '@', ' ', '-']
  const MIDDLE := [' ', '+']
  const CLOSE := [' ', '@', '@']

  /** The hunk pattern at the start of a text. */
  function MatchHunk(s: string): Option<Hunk> {
    if !StartsWith(s, OPEN) then None
    else match MatchRange(s[4..])
      case None => None
      case Some((oldStart, rest)) =>
        if !StartsWith(rest, MIDDLE) then None
        else match MatchRange(rest[2..])
          case None => None
          case Some((newStart, tail)) => if StartsWith(tail, CLOSE) then Some(Hunk(oldStart, newStart)) else None
  }

  /** The pattern is not anchored: its first match anywhere in the line. */
  function FindHunk(s: string): Option<Hunk> {
    if MatchHunk(s).Some? then MatchHunk(s)
    else if s == [] then None
    else FindHunk(s[1..])
  }

  // ------------------------------------------------------------------- file headers

  const GIT := "diff --git "
  const SIDE_A := "a/"
  const SIDE_B := " b/"

  predicate IsTerminator(c: char) {
    c == '\n' || c == '\r' || c == '\U{2028}' || c == '\U{2029}'
  }

  predicate IsJsSpace(c: char) {
    || IsTerminator(c) || c == '\t' || c == '\U{000B}' || c == '\U{000C}' || c == ' ' || c == '\U{00A0}'
    || c == '\U{1680}' || '\U{2000}' <= c <= '\U{200A}' || c == '\U{202F}' || c == '\U{205F}' || c == '\U{3000}'
    || c == '\U{FEFF}'
  }

  predicate OneLine(s: string) {
    forall i | 0 <= i < |s| :: !IsTerminator(s[i])
  }

  /** The separator at `k`, after something. */
  predicate SideAt(s: string, k: nat) {
    1 <= k && k + 3 <= |s| && s[k..k + 3] == SIDE_B
  }

  /** `(.+?) b\/(.+)` splits at `k`. */
  predicate SplitsAt(s: string, k: nat) {
    SideAt(s, k) && k + 3 < |s|
  }

  /** The lazy group: the first place from `k` on. */
  function FirstSplit(s: string, k: nat): (r: Option<nat>)
    ensures r.Some? ==> k <= r.value && SplitsAt(s, r.value) && forall i: nat | k <= i < r.value :: !SplitsAt(s, i)
    ensures r.None? ==> forall i: nat | k <= i :: !SplitsAt(s, i)
    decreases |s| - k
  {
    if k >= |s| then None
    else if SplitsAt(s, k) then Some(k)
    else FirstSplit(s, k + 1)
  }

  function TrimStart(s: string): string {
    if s != [] && IsJsSpace(s[0]) then TrimStart(s[1..]) else s
  }

  /** `diffPathFromHeader`, for a line that starts with the git header. */
  function DiffPath(line: string): string
    requires StartsWith(line, GIT)
  {
    var sides := line[|GIT|..];
    var rest := if StartsWith(sides, SIDE_A) then sides[2..] else [];
    var split := if OneLine(rest) then FirstSplit(rest, 1) else None;
    if split.Some? then rest[split.value + 3..] else TrimStart(sides)
  }

  // ------------------------------------------------------------------------- lines

  /** What one line is to the parser. */
  datatype Token = Header(path: string) | HunkHeader(hunk: Hunk) | Other | Plus | Minus | Space

  /** The branches of the loop in order. */
  function Scan(raw: string): Token {
    if StartsWith(raw, GIT) then Header(DiffPath(raw))
    else if StartsWith(raw, "@@") then
      var hunk := FindHunk(raw);
      if hunk.Some? then HunkHeader(hunk.value) else Other
    else if StartsWith(raw, "+++") || StartsWith(raw, "---") || StartsWith(raw, "index ") then Other
    else if StartsWith(raw, "+") then Plus
    else if StartsWith(raw, "-") then Minus
    else if StartsWith(raw, " ") then Space
    else Other
  }
}
