/** The parser for `git status --porcelain=v1 -z` and its inverse. */
module Porcelain {
  import opened Common
  import opened Text
  import opened WriteScope

  datatype PorcelainError = UnrecognizedEntry | IncompleteRename

  /** One status record as git writes it: the source path stands alone after the entry. */
  datatype StatusRecord = StatusRecord(status: string, path: string, source: Option<string>)

  const NUL: char := '\0'

  predicate Renames(status: string) {
    'R' in status || 'C' in status
  }

  predicate MarksNew(status: string) {
    status == "??" || 'A' in status
  }

  predicate ValidRecord(r: StatusRecord) {
    && |r.status| == 2 && NUL !in r.status
    && r.path != "" && NUL !in r.path
    && (r.source.Some? <==> Renames(r.status))
    && (r.source.Some? ==> r.source.value != "" && NUL !in r.source.value)
  }

  predicate ValidRecords(rs: seq<StatusRecord>) {
    forall i | 0 <= i < |rs| :: ValidRecord(rs[i])
  }

  function Entry(r: StatusRecord): string {
    r.status + " " + r.path
  }

  function OwnEntries(r: StatusRecord): seq<string> {
    if r.source.Some? then [Entry(r), r.source.value] else [Entry(r)]
  }

  /** The entries of a record list, NUL separators left out. */
  function Entries(rs: seq<StatusRecord>): seq<string> {
    if rs == [] then []
    else OwnEntries(rs[0]) + Entries(rs[1..])
  }

  /** Every entry followed by a NUL. */
  function Print(rs: seq<StatusRecord>): string {
    Terminated(Entries(rs))
  }

  function Terminated(entries: seq<string>): string {
    if entries == [] then "" else entries[0] + [NUL] + Terminated(entries[1..])
  }

  function Changes(r: StatusRecord): seq<ChangedPath> {
    [ChangedPath(r.path, r.status, MarksNew(r.status))]
    + if r.source.Some? then [ChangedPath(r.source.value, r.status, false)] else []
  }

  function Flatten(rs: seq<StatusRecord>): seq<ChangedPath> {
    if rs == [] then [] else Changes(rs[0]) + Flatten(rs[1..])
  }

  /** The records a list of entries holds; empty entries are skipped between records only. */
  function Records(entries: seq<string>): Result<seq<StatusRecord>, PorcelainError> {
    if entries == [] then Ok([])
    else if entries[0] == "" then Records(entries[1..])
    else
      var entry := entries[0];
      if |entry| < 4 || entry[2] != ' ' then Err(UnrecognizedEntry)
      else if Renames(entry[..2]) then
        if |entries| < 2 || entries[1] == "" then Err(IncompleteRename)
        else
          var rest :- Records(entries[2..]);
          Ok([StatusRecord(entry[..2], entry[3..], Some(entries[1]))] + rest)
      else
        var rest :- Records(entries[1..]);
        Ok([StatusRecord(entry[..2], entry[3..], None)] + rest)
  }

  function ParseSpec(output: string): Result<seq<ChangedPath>, PorcelainError> {
    var rs :- Records(Split(output, NUL));
    Ok(Flatten(rs))
  }

  /** What is left to parse, after `changed` has been collected. */
  function Resume(changed: seq<ChangedPath>, entries: seq<string>): Result<seq<ChangedPath>, PorcelainError> {
    var rs :- Records(entries);
    Ok(changed + Flatten(rs))
  }

  /** `parse_porcelain_v1_z` as the loop it is. */
  method ParsePorcelainV1Z(output: string) returns (r: Result<seq<ChangedPath>, PorcelainError>)
    ensures r == ParseSpec(output)
  {
    var entries := Split(output, NUL);
    var changed: seq<ChangedPath> := [];
    var index := 0;
    while index < |entries|
      invariant 0 <= index <= |entries|
      invariant Resume([], entries) == Resume(changed, entries[index..])
    {
      ghost var before := entries[index..];
      ghost var was := changed;
      var entry := entries[index];
      index := index + 1;
      assert entries[index..] == before[1..];
      if entry == "" {
        assert Records(before) == Records(before[1..]);
        continue;
      }
      if |entry| < 4 || entry[2] != ' ' { return Err(UnrecognizedEntry); }
      var status := entry[..2];
      changed := changed + [ChangedPath(entry[3..], status, MarksNew(status))];
      if Renames(status) {
        if index >= |entries| || entries[index] == "" { return Err(IncompleteRename); }
        var source := entries[index];
        index := index + 1;
        assert entries[index..] == before[2..] && before[1] == source;
        changed := changed + [ChangedPath(source, status, false)];
      }
      ResumeStep(was, before, changed, entries[index..]);
    }
    assert Resume(changed, entries[|entries|..]) == Ok(changed + []) && changed + [] == changed;
    assert Resume([], entries) == ParseSpec(output) by {
      if Records(entries).Ok? {
        assert [] + Flatten(Records(entries).value) == Flatten(Records(entries).value);
      }
    }
    return Ok(changed);
  }

  lemma ResumeStep(was: seq<ChangedPath>, before: seq<string>, now: seq<ChangedPath>, after: seq<string>)
    requires before != [] && |before[0]| >= 4 && before[0][2] == ' '
    requires var r := before[0][..2];
             if Renames(r) then
               |before| > 1 && before[1] != "" && after == before[2..] &&
               now == was + [ChangedPath(before[0][3..], r, MarksNew(r))] + [ChangedPath(before[1], r, false)]
             else
               after == before[1..] && now == was + [ChangedPath(before[0][3..], r, MarksNew(r))]
    ensures Resume(was, before) == Resume(now, after)
  {
    if Records(after).Ok? {
      var tail := Records(after).value;
      var r := Records(before).value[0];
      assert Records(before).value == [r] + tail;
      assert was + (Changes(r) + Flatten(tail)) == now + Flatten(tail);
    }
  }

  // ------------------------------------------------------------------ round trip

  lemma {:induction false} SplitTerminated(entries: seq<string>)
    requires Free(entries, NUL)
    ensures Split(Terminated(entries), NUL) == entries + [""]
  {
    if entries != [] {
      SplitTerminated(entries[1..]);
      SplitConcat(entries[0], Terminated(entries[1..]), NUL);
      SplitWhole(entries[0], NUL);
    }
  }

  lemma {:induction false} EntriesFree(rs: seq<StatusRecord>)
    requires ValidRecords(rs)
    ensures Free(Entries(rs), NUL)
  {
    if rs != [] {
      EntriesFree(rs[1..]);
      assert ValidRecord(rs[0]);
    }
  }

  /** The first record is read back from its entries. */
  lemma FirstRecordRead(r: StatusRecord, entries: seq<string>)
    requires ValidRecord(r)
    ensures Records(entries).Ok? ==> Records(OwnEntries(r) + entries) == Ok([r] + Records(entries).value)
  {
    var entry := Entry(r);
    assert entry[..2] == r.status && entry[3..] == r.path && entry[2] == ' ';
    if r.source.Some? {
      assert ([entry, r.source.value] + entries)[2..] == entries;
    } else {
      assert ([entry] + entries)[1..] == entries;
    }
  }

  lemma EntriesOfMore(r: StatusRecord, rs: seq<StatusRecord>)
    ensures Entries([r] + rs) + [""] == OwnEntries(r) + (Entries(rs) + [""])
  {
    assert ([r] + rs)[1..] == rs;
  }

  lemma {:induction false} RecordsOfEntries(rs: seq<StatusRecord>)
    requires ValidRecords(rs)
    ensures Records(Entries(rs) + [""]) == Ok(rs)
  {
    if rs == [] {
      assert Records([""]) == Records([]);
    } else {
      assert ValidRecord(rs[0]);
      RecordsOfEntries(rs[1..]);
      EntriesOfMore(rs[0], rs[1..]);
      FirstRecordRead(rs[0], Entries(rs[1..]) + [""]);
      assert [rs[0]] + rs[1..] == rs;
    }
  }

  /** Parsing what git would print for any list of records gives the records back. */
  lemma ParsePrint(rs: seq<StatusRecord>)
    requires ValidRecords(rs)
    ensures ParseSpec(Print(rs)) == Ok(Flatten(rs))
  {
    EntriesFree(rs);
    SplitTerminated(Entries(rs));
    RecordsOfEntries(rs);
  }

  function NonEmpty(entries: seq<string>): seq<string> {
    if entries == [] then []
    else (if entries[0] == "" then [] else [entries[0]]) + NonEmpty(entries[1..])
  }

  lemma EntrySplits(entry: string)
    requires |entry| >= 4 && entry[2] == ' ' && NUL !in entry
    ensures entry == entry[..2] + " " + entry[3..]
    ensures NUL !in entry[..2] && NUL !in entry[3..] && entry[3..] != ""
  {
  }

  /** The first record read is valid, and its entries are the first ones. */
  lemma FirstRecordComplete(entries: seq<string>)
    requires entries != [] && entries[0] != "" && Records(entries).Ok? && Free(entries, NUL)
    ensures var rs := Records(entries).value;
            && rs != [] && ValidRecord(rs[0]) && |OwnEntries(rs[0])| <= |entries|
            && OwnEntries(rs[0]) == entries[..|OwnEntries(rs[0])|]
            && Records(entries[|OwnEntries(rs[0])|..]) == Ok(rs[1..])
  {
    EntrySplits(entries[0]);
    assert Renames(entries[0][..2]) ==> entries[1] in entries;
  }

  lemma {:induction false} NonEmptySplits(entries: seq<string>, n: nat)
    requires n <= |entries| && forall i | 0 <= i < n :: entries[i] != ""
    ensures NonEmpty(entries) == entries[..n] + NonEmpty(entries[n..])
  {
    if n > 0 {
      NonEmptySplits(entries[1..], n - 1);
      assert entries[1..][n - 1..] == entries[n..];
      assert [entries[0]] + entries[1..][..n - 1] == entries[..n];
    }
  }

  lemma {:induction false} RecordsComplete(entries: seq<string>)
    requires Records(entries).Ok? && Free(entries, NUL)
    ensures ValidRecords(Records(entries).value)
    ensures Entries(Records(entries).value) == NonEmpty(entries)
    decreases |entries|
  {
    if entries != [] && entries[0] == "" {
      RecordsComplete(entries[1..]);
    } else if entries != [] {
      FirstRecordComplete(entries);
      var rs := Records(entries).value;
      var n := |OwnEntries(rs[0])|;
      assert forall i | 0 <= i < n :: entries[i] == OwnEntries(rs[0])[i];
      RecordsComplete(entries[n..]);
      NonEmptySplits(entries, n);
    }
  }

  lemma {:induction false} FlattenMatchesEntries(rs: seq<StatusRecord>)
    requires ValidRecords(rs)
    ensures |Flatten(rs)| == |Entries(rs)|
    ensures forall i | 0 <= i < |Flatten(rs)| :: CarriedBy(Flatten(rs)[i], Entries(rs)[i])
  {
    if rs != [] {
      FlattenMatchesEntries(rs[1..]);
      var cs, es := Flatten(rs[1..]), Entries(rs[1..]);
      var k := |Changes(rs[0])|;
      assert ValidRecord(rs[0]);
      assert CarriedBy(Flatten(rs)[0], Entries(rs)[0]);
      forall i | k <= i < |Flatten(rs)| ensures CarriedBy(Flatten(rs)[i], Entries(rs)[i]) {
        assert CarriedBy(cs[i - k], es[i - k]);
      }
    }
  }

  /** The change a status entry, or the bare source entry after it, stands for. */
  predicate CarriedBy(change: ChangedPath, entry: string) {
    || entry == change.status + " " + change.path
    || (entry == change.path && !change.isNewFile && Renames(change.status))
  }

  /**
   * Nothing git reported is dropped or invented: on any output that parses, the
   * non-empty entries are the print of valid records, and they correspond one to
   * one, in order, to the changed paths.
   */
  lemma ParseComplete(output: string)
    requires ParseSpec(output).Ok?
    ensures var changes, entries := ParseSpec(output).value, NonEmpty(Split(output, NUL));
            && |changes| == |entries|
            && (forall i | 0 <= i < |changes| :: CarriedBy(changes[i], entries[i]))
            && (exists rs :: ValidRecords(rs) && changes == Flatten(rs) && entries == Entries(rs))
  {
    SplitFree(output, NUL);
    var rs := Records(Split(output, NUL)).value;
    RecordsComplete(Split(output, NUL));
    FlattenMatchesEntries(rs);
  }

  /**
   * A record read back, letter by letter: a path is new when it is untracked or has `A` in
   * either column; a renamed or copied one stands with its source, which is not new.
   */
  lemma PrintedRecordRead(x: char, y: char, path: string, source: string)
    requires NUL !in [x, y] && path != "" && NUL !in path && source != "" && NUL !in source
    ensures var status, moved := [x, y], x == 'R' || x == 'C' || y == 'R' || y == 'C';
            var isNew := (x == '?' && y == '?') || x == 'A' || y == 'A';
            var printed := (status + " " + path + [NUL]) + if moved then source + [NUL] else "";
            ParseSpec(printed) == Ok(
              [ChangedPath(path, status, isNew)] + if moved then [ChangedPath(source, status, false)] else [])
  {
    var status := [x, y];
    var r := StatusRecord(status, path, if Renames(status) then Some(source) else None);
    assert status == "??" <==> x == '?' && y == '?';
    ParsePrint([r]);
    PrintedOne(r);
    assert [r][1..] == [] && Flatten([]) == [];
    assert Flatten([r]) == Changes(r) + [] == Changes(r);
  }

  lemma TerminatedPair(a: string, b: string)
    ensures Terminated([a]) == a + [NUL]
    ensures Terminated([a, b]) == (a + [NUL]) + (b + [NUL])
  {
    assert [a][1..] == [] && [b][1..] == [] && [a, b][1..] == [b];
    assert Terminated([]) == "";
  }

  lemma PrintedOne(r: StatusRecord)
    ensures Print([r]) == (Entry(r) + [NUL]) + if r.source.Some? then r.source.value + [NUL] else ""
  {
    assert [r][1..] == [];
    assert Entries([r]) == OwnEntries(r) + [] == OwnEntries(r);
    TerminatedPair(Entry(r), if r.source.Some? then r.source.value else "");
  }
}
