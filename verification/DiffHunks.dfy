/** Exactly which texts are read as hunk headers, wherever they stand in a line. */
module DiffHunks {
  import opened Common
  import opened Text
  import opened Decimals
  import opened DiffLines
  import opened DiffLineFacts

  predicate Digits(s: string) {
    s != [] && AllDigits(s)
  }

  /** `(?:,\d+)?` */
  predicate CountText(c: string) {
    c == [] || (c[0] == ',' && Digits(c[1..]))
  }

  /** The pieces of the pattern: two starts, each with or without a count, and what follows. */
  datatype Pieces = Pieces(was: string, wasCount: string, now: string, nowCount: string, rest: string)

  predicate Fitting(p: Pieces) {
    Digits(p.was) && CountText(p.wasCount) && Digits(p.now) && CountText(p.nowCount)
  }

  function Written(p: Pieces): string {
    OPEN + (p.was + (p.wasCount + (MIDDLE + (p.now + (p.nowCount + (CLOSE + p.rest))))))
  }

  lemma NumberRead(d: string, tail: string)
    requires Digits(d) && tail != [] && !IsDigit(tail[0])
    ensures MatchRange(d + tail) == Some((Value(d), SkipCount(tail)))
  {
    DigitRunAll(d, tail);
    assert (d + tail)[..|d|] == d && (d + tail)[|d|..] == tail;
  }

  lemma CountRead(c: string, rest: string)
    requires CountText(c) && rest != [] && rest[0] == ' '
    ensures SkipCount(c + rest) == rest
  {
    if c == [] {
      assert c + rest == rest;
    } else {
      SkipDigits(c[1..], rest);
      assert c + rest == [','] + (c[1..] + rest);
    }
  }

  /** After a number and its count, a space: nothing else is taken in. */
  lemma RangeRead(d: string, c: string, rest: string)
    requires Digits(d) && CountText(c) && rest != [] && rest[0] == ' '
    ensures MatchRange(d + (c + rest)) == Some((Value(d), rest))
  {
    CountFirst(c, rest);
    CountRead(c, rest);
    NumberRead(d, c + rest);
  }

  lemma CountFirst(c: string, rest: string)
    requires CountText(c) && rest != [] && rest[0] == ' '
    ensures c + rest != [] && !IsDigit((c + rest)[0])
  {
    assert (c + rest)[0] == if c == [] then ' ' else ',';
  }

  lemma CountSplit(s: string) returns (c: string)
    ensures CountText(c) && s == c + SkipCount(s)
  {
    if s != [] && s[0] == ',' && DigitRun(s[1..]) > 0 {
      var n := DigitRun(s[1..]);
      c := s[..1 + n];
      assert c[1..] == s[1..][..n];
      assert s == c + s[1 + n..];
    } else {
      c := [];
    }
  }

  lemma RangeSplit(s: string) returns (d: string, c: string)
    requires MatchRange(s).Some?
    ensures Digits(d) && CountText(c)
    ensures s == d + (c + MatchRange(s).value.1) && Value(d) == MatchRange(s).value.0
  {
    var n := DigitRun(s);
    d := s[..n];
    c := CountSplit(s[n..]);
    assert s == d + s[n..];
  }

  lemma PiecesRead(p: Pieces)
    requires Fitting(p)
    ensures MatchHunk(Written(p)) == Some(Hunk(Value(p.was), Value(p.now)))
  {
    var newPart := p.now + (p.nowCount + (CLOSE + p.rest));
    var oldPart := p.was + (p.wasCount + (MIDDLE + newPart));
    RangeRead(p.was, p.wasCount, MIDDLE + newPart);
    RangeRead(p.now, p.nowCount, CLOSE + p.rest);
    MatchPieces(Hunk(Value(p.was), Value(p.now)), oldPart, newPart, p.rest);
  }

  lemma HunkSplit(s: string) returns (p: Pieces)
    requires MatchHunk(s).Some?
    ensures Fitting(p) && s == Written(p) && MatchHunk(s).value == Hunk(Value(p.was), Value(p.now))
  {
    var was, wasCount := RangeSplit(s[4..]);
    var afterOld := MatchRange(s[4..]).value.1;
    var now, nowCount := RangeSplit(afterOld[2..]);
    var afterNew := MatchRange(afterOld[2..]).value.1;
    p := Pieces(was, wasCount, now, nowCount, afterNew[3..]);
    PrefixSplit(afterNew, CLOSE);
    PrefixSplit(afterOld, MIDDLE);
    PrefixSplit(s, OPEN);
  }

  lemma PrefixSplit(s: string, prefix: string)
    requires StartsWith(s, prefix)
    ensures s == prefix + s[|prefix|..]
  {
  }

  /** A text starts with a hunk header of these starts exactly when it is written so. */
  lemma MatchHunkExactly(s: string, h: Hunk)
    ensures MatchHunk(s) == Some(h) <==>
              exists p :: Fitting(p) && s == Written(p) && h == Hunk(Value(p.was), Value(p.now))
  {
    if MatchHunk(s) == Some(h) {
      var p := HunkSplit(s);
      assert Fitting(p) && s == Written(p);
    }
    if p :| Fitting(p) && s == Written(p) && h == Hunk(Value(p.was), Value(p.now)) {
      PiecesRead(p);
    }
  }

  /** What stands at place `i` of the text: a header or none. */
  predicate ReadsAt(s: string, i: nat, found: Option<Hunk>) {
    i <= |s| && MatchHunk(s[i..]) == found
  }

  lemma ReadsFurther(s: string, i: nat, found: Option<Hunk>)
    requires s != []
    ensures ReadsAt(s, i + 1, found) <==> ReadsAt(s[1..], i, found)
  {
    if i < |s| {
      assert s[1..][i..] == s[i + 1..];
    }
  }

  /** In a line the first header counts, and none is found only where there is none. */
  lemma {:induction false} FindHunkFirst(s: string) returns (i: nat)
    ensures i <= |s| + 1 && forall j: nat | j < i :: ReadsAt(s, j, None)
    ensures FindHunk(s).None? <==> i == |s| + 1
    ensures FindHunk(s).Some? ==> ReadsAt(s, i, FindHunk(s))
  {
    assert s[0..] == s;
    if MatchHunk(s).Some? {
      i := 0;
    } else if s == [] {
      i := 1;
    } else {
      var k := FindHunkFirst(s[1..]);
      i := k + 1;
      forall j: nat | j < i ensures ReadsAt(s, j, None) {
        if j > 0 { ReadsFurther(s, j - 1, None); }
      }
      ReadsFurther(s, k, FindHunk(s));
    }
  }
}
