/** What normalisation delivers, and when normalising twice is the same as once. */
module WriteScopeNormalForm {
  import opened Common
  import opened Text
  import opened WriteScope

  /**
   * A normalised scope entry: `.` itself, or clean components joined by single
   * slashes, none of them `..`, with at most one trailing slash.
   */
  predicate IsNormal(entry: string) {
    || entry == "."
    || (var cs := Components(entry);
        && cs != [] && ".." !in cs && '\\' !in entry
        && (entry == Join(cs, '/') || entry == Join(cs, '/') + "/"))
  }

  // ------------------------------------------------------------ text and parts

  lemma {:induction false} SplitOmits(s: string, sep: char, x: char)
    requires x !in s
    ensures Free(Split(s, sep), x)
  {
    if s != [] {
      SplitOmits(s[1..], sep, x);
    }
  }

  lemma {:induction false} JoinOmits(parts: seq<string>, sep: char, x: char)
    requires Free(parts, x) && x != sep
    ensures x !in Join(parts, sep)
  {
    if |parts| > 1 {
      JoinOmits(parts[1..], sep, x);
    }
  }

  lemma {:induction false} KeptFree(parts: seq<string>, x: char)
    requires Free(parts, x)
    ensures Free(Kept(parts), x)
  {
    if parts != [] {
      KeptFree(parts[1..], x);
    }
  }

  lemma ComponentsClean(value: string)
    ensures Clean(Components(value))
  {
    SplitFree(value, '/');
    KeptFree(Split(value, '/'), '/');
    var cs := Components(value);
    forall i | 0 <= i < |cs| ensures cs[i] != "" && cs[i] != "." {
      assert cs[i] in cs;
    }
  }

  lemma {:induction false} KeptIdentity(cs: seq<string>)
    requires forall i | 0 <= i < |cs| :: cs[i] != "" && cs[i] != "."
    ensures Kept(cs) == cs && Kept(cs + [""]) == cs
  {
    if cs == [] {
      assert Kept([""]) == [];
    } else {
      KeptIdentity(cs[1..]);
      assert (cs + [""])[1..] == cs[1..] + [""];
    }
  }

  /** Clean components survive being joined, with or without a trailing slash. */
  lemma ComponentsOfJoin(cs: seq<string>)
    requires Clean(cs) && cs != []
    ensures Split(Join(cs, '/'), '/') == cs
    ensures Components(Join(cs, '/')) == cs
    ensures Components(Join(cs, '/') + "/") == cs
  {
    SplitJoin(cs, '/');
    KeptIdentity(cs);
    SplitConcat(Join(cs, '/'), "", '/');
    assert Join(cs, '/') + ['/'] + "" == Join(cs, '/') + "/";
  }

  lemma {:induction false} JoinEnds(cs: seq<string>)
    requires Clean(cs) && cs != []
    ensures var j := Join(cs, '/'); j != "" && j[0] == cs[0][0] != '/' && j[|j| - 1] != '/'
    ensures Join(cs, '/') != "."
  {
    assert cs[0] != "" && '/' !in cs[0] && cs[0] != ".";
    if |cs| > 1 {
      JoinEnds(cs[1..]);
      assert Clean(cs[1..]);
    }
  }

  lemma {:induction false} JoinOfKeptIsShort(parts: seq<string>)
    ensures |Join(Kept(parts), '/')| <= |Join(parts, '/')|
    ensures Kept(parts) != [] && parts != [] && parts[|parts| - 1] == "" ==>
              |Join(Kept(parts), '/')| + 1 <= |Join(parts, '/')|
  {
    if |parts| > 1 {
      JoinOfKeptIsShort(parts[1..]);
      if parts[0] != "" && parts[0] != "." {
        var kept := Kept(parts[1..]);
        assert ([parts[0]] + kept)[1..] == kept;
      }
    } else if |parts| == 1 {
      assert Kept(parts[1..]) == [];
    }
  }

  // ------------------------------------------------------------------- results

  /** Every result of normalisation is in normal form. */
  lemma NormalizePathIsNormal(raw: string)
    requires NormalizePath(raw).Ok?
    ensures IsNormal(NormalizePath(raw).value)
  {
    var value := Slashed(Strip(raw));
    if value != "." {
      var cs := Components(value);
      ComponentsClean(value);
      ComponentsOfJoin(cs);
      SplitOmits(value, '/', '\\');
      KeptFree(Split(value, '/'), '\\');
      JoinOmits(cs, '/', '\\');
      var entry := NormalizePath(raw).value;
      assert entry == Join(cs, '/') || entry == Join(cs, '/') + "/";
      assert Components(entry) == cs && '\\' !in entry;
    }
  }

  /** What normal form means for a reader of the path: it stays below the root. */
  lemma NormalMeansRelative(entry: string)
    requires IsNormal(entry) && entry != "."
    ensures entry != "" && entry[0] != '/' && '\\' !in entry
    ensures var body := if EndsWith(entry, "/") then entry[..|entry| - 1] else entry;
            forall part :: part in Split(body, '/') ==> part != "" && part != "." && part != ".."
    ensures Components(entry) == Split(if EndsWith(entry, "/") then entry[..|entry| - 1] else entry, '/')
  {
    var cs := Components(entry);
    ComponentsClean(entry);
    JoinEnds(cs);
    ComponentsOfJoin(cs);
    assert (Join(cs, '/') + "/")[..|Join(cs, '/')|] == Join(cs, '/');
    forall part | part in cs ensures part != "" && part != "." && part != ".." {
    }
  }

  lemma StripIdentity(s: string)
    requires !OuterSpace(s)
    ensures Strip(s) == s
  {
  }

  lemma StripShorter(s: string)
    requires OuterSpace(s)
    ensures |Strip(s)| < |s|
  {
    if IsSpace(s[0]) {
      assert |StripLeft(s)| <= |s[1..]|;
    } else {
      assert StripLeft(s) == s;
      assert |StripRight(s)| <= |s[..|s| - 1]|;
    }
  }

  lemma NormalizeNotLonger(raw: string)
    requires NormalizePath(raw).Ok?
    ensures |NormalizePath(raw).value| <= |Strip(raw)|
  {
    var value := Slashed(Strip(raw));
    if value != "." {
      var parts := Split(value, '/');
      JoinSplit(value, '/');
      JoinOfKeptIsShort(parts);
      if EndsWith(value, "/") {
        SplitConcat(value[..|value| - 1], "", '/');
        assert value[..|value| - 1] + ['/'] + "" == value;
        assert parts[|parts| - 1] == "";
      }
    }
  }

  lemma TrailingSlash(entry: string)
    requires IsNormal(entry) && entry != "."
    ensures Clean(Components(entry)) && entry != "" && entry[0] != '/'
    ensures entry == Join(Components(entry), '/') + if EndsWith(entry, "/") then "/" else ""
  {
    var cs := Components(entry);
    ComponentsClean(entry);
    JoinEnds(cs);
    var j := Join(cs, '/');
    if entry == j + "/" {
      assert entry[|entry| - 1..] == "/";
    } else {
      assert entry[|entry| - 1..] == [j[|j| - 1]];
    }
  }

  lemma SpacedNotFixed(entry: string)
    requires OuterSpace(entry)
    ensures NormalizePath(entry) != Ok(entry)
  {
    StripShorter(entry);
    if NormalizePath(entry).Ok? {
      NormalizeNotLonger(entry);
    }
  }

  /**
   * Normalising a normalised entry changes nothing exactly when the entry has no
   * outer white space and does not look like a drive path. `./C:/x` and `./ a`
   * normalise to entries that fail one test each.
   */
  lemma NormalizeTwice(entry: string)
    requires IsNormal(entry)
    ensures NormalizePath(entry) == Ok(entry) <==> !OuterSpace(entry) && !LooksLikeDrive(entry)
  {
    if OuterSpace(entry) {
      SpacedNotFixed(entry);
    } else if entry != "." {
      StripIdentity(entry);
      TrailingSlash(entry);
      var value := Slashed(Strip(entry));
      assert value == entry && value != "" && !StartsWith(value, "/");
    }
  }

  lemma DotSlashComponents(entry: string)
    ensures Components("./" + entry) == Components(entry)
  {
    assert "./" + entry == "." + ['/'] + entry;
    SplitConcat(".", entry, '/');
    SplitWhole(".", '/');
    assert (["."] + Split(entry, '/'))[1..] == Split(entry, '/');
  }

  lemma DotSlashValue(entry: string)
    requires '\\' !in entry && entry != "" && !IsSpace(entry[|entry| - 1])
    ensures Slashed(Strip("./" + entry)) == "./" + entry
    ensures EndsWith("./" + entry, "/") == EndsWith(entry, "/")
  {
    StripIdentity("./" + entry);
    assert ("./" + entry)[|entry| + 1..] == entry[|entry| - 1..];
  }

  /** Every normal entry without a trailing space is the result of some raw path. */
  lemma DotSlashNormalizes(entry: string)
    requires IsNormal(entry) && entry != "." && !IsSpace(entry[|entry| - 1])
    ensures NormalizePath("./" + entry) == Ok(entry)
  {
    TrailingSlash(entry);
    DotSlashComponents(entry);
    DotSlashValue(entry);
    var value := "./" + entry;
    assert value[0] == '.' && value[1] == '/';
    assert !LooksLikeDrive(value) && !StartsWith(value, "/") && |value| >= 2;
  }

  const DRIVE := ['C', ':', '/', 'x']

  lemma DriveIsNormal()
    ensures IsNormal(DRIVE)
  {
    var cs := [['C', ':'], ['x']];
    assert Join(cs[1..], '/') == ['x'];
    assert DRIVE == Join(cs, '/');
    IsNormalJoin(cs, DRIVE);
  }

  /** So both exceptions arise: normalisation is not idempotent on every input. */
  lemma NormalizeTwiceFailsOnDrives()
    ensures NormalizePath("./" + DRIVE) == Ok(DRIVE) && NormalizePath(DRIVE) != Ok(DRIVE)
  {
    DriveIsNormal();
    DotSlashNormalizes(DRIVE);
    NormalizeTwice(DRIVE);
  }

  lemma NormalizeTwiceFailsOnSpaces()
    ensures NormalizePath("./" + " a") == Ok(" a") && NormalizePath(" a") != Ok(" a")
  {
    IsNormalJoin([" a"], " a");
    DotSlashNormalizes(" a");
    SpacedNotFixed(" a");
  }

  lemma IsNormalJoin(cs: seq<string>, entry: string)
    requires Clean(cs) && cs != [] && ".." !in cs && '\\' !in entry && entry == Join(cs, '/')
    ensures IsNormal(entry)
  {
    ComponentsOfJoin(cs);
  }

  // --------------------------------------------------------------- whole scopes

  predicate Distinct(paths: seq<string>) {
    forall i, j | 0 <= i < j < |paths| :: paths[i] != paths[j]
  }

  predicate AllAccepted(items: seq<Json>) {
    forall i | 0 <= i < |items| :: items[i].JString? && NormalizePath(items[i].text).Ok?
  }

  /** The normalised texts of an accepted list, duplicates included. */
  function AllNormalized(items: seq<Json>): seq<string>
    requires AllAccepted(items)
  {
    if items == [] then []
    else [NormalizePath(items[0].text).value] + AllNormalized(items[1..])
  }

  /** Wherever `y` stands in `all`, `x` has already appeared. */
  predicate Before(all: seq<string>, x: string, y: string) {
    forall m | 0 <= m < |all| && all[m] == y :: x in all[..m]
  }

  /** `paths` is `all` without repeats, in the order of first appearance. */
  ghost predicate FirstSeen(all: seq<string>, paths: seq<string>) {
    && Distinct(paths)
    && (forall x :: x in all <==> x in paths)
    && (forall i, j | 0 <= i < j < |paths| :: Before(all, paths[i], paths[j]))
  }

  /** The loop of `normalize_write_scope` on texts that are already normalised. */
  function Deduplicated(all: seq<string>, done: seq<string>): seq<string>
    decreases |all|
  {
    if all == [] then done
    else Deduplicated(all[1..], if all[0] in done then done else done + [all[0]])
  }

  lemma FirstSeenStep(all: seq<string>, paths: seq<string>, x: string)
    requires FirstSeen(all, paths)
    ensures FirstSeen(all + [x], if x in paths then paths else paths + [x])
  {
    var all', paths' := all + [x], if x in paths then paths else paths + [x];
    forall i, j | 0 <= i < j < |paths'| ensures Before(all', paths'[i], paths'[j]) {
      assert paths'[i] == paths[i] && paths[i] in all;
      forall m | 0 <= m < |all'| && all'[m] == paths'[j] ensures paths'[i] in all'[..m] {
        if m < |all| {
          assert all'[..m] == all[..m] && Before(all, paths[i], paths'[j]);
        } else {
          assert all'[..m] == all;
        }
      }
    }
  }

  lemma {:induction false} DeduplicatedSnoc(all: seq<string>, done: seq<string>, x: string)
    ensures var d := Deduplicated(all, done);
            Deduplicated(all + [x], done) == if x in d then d else d + [x]
    decreases |all|
  {
    if all == [] {
      assert [x][1..] == [];
    } else {
      assert (all + [x])[1..] == all[1..] + [x];
      DeduplicatedSnoc(all[1..], if all[0] in done then done else done + [all[0]], x);
    }
  }

  lemma {:induction false} DeduplicatedFirstSeen(all: seq<string>)
    ensures FirstSeen(all, Deduplicated(all, []))
  {
    if all != [] {
      var init, last := all[..|all| - 1], all[|all| - 1];
      assert all == init + [last];
      DeduplicatedFirstSeen(init);
      DeduplicatedSnoc(init, [], last);
      FirstSeenStep(init, Deduplicated(init, []), last);
    }
  }

  lemma {:induction false} AcceptedEntries(items: seq<Json>, done: seq<string>)
    requires NormalizeEntries(items, done).Ok?
    ensures AllAccepted(items)
  {
    if items != [] {
      var n := NormalizePath(items[0].text).value;
      AcceptedEntries(items[1..], if n in done then done else done + [n]);
    }
  }

  lemma {:induction false} NormalizeEntriesDeduplicates(items: seq<Json>, done: seq<string>)
    requires AllAccepted(items)
    ensures NormalizeEntries(items, done) == Ok(Deduplicated(AllNormalized(items), done))
    decreases |items|
  {
    if items != [] {
      var n := NormalizePath(items[0].text).value;
      NormalizeEntriesDeduplicates(items[1..], if n in done then done else done + [n]);
    }
  }

  lemma {:induction false} NormalizeEntriesNormal(items: seq<Json>, done: seq<string>)
    requires NormalizeEntries(items, done).Ok?
    requires forall x :: x in done ==> IsNormal(x)
    ensures forall x :: x in NormalizeEntries(items, done).value ==> IsNormal(x)
    decreases |items|
  {
    if items != [] {
      var n := NormalizePath(items[0].text).value;
      NormalizePathIsNormal(items[0].text);
      NormalizeEntriesNormal(items[1..], if n in done then done else done + [n]);
    }
  }

  /**
   * A scope that is accepted holds exactly the normalised entries of the raw list,
   * each once, in first-seen order; every entry is in normal form and there is at
   * least one.
   */
  lemma NormalizedScope(raw: RawScope)
    requires NormalizeScope(raw).Ok?
    ensures var paths := NormalizeScope(raw).value.paths;
            paths != [] && Distinct(paths) && forall x :: x in paths ==> IsNormal(x)
    ensures raw.Some? ==>
              && Get(raw.value, "paths").Some? && Get(raw.value, "paths").value.JList?
              && var items := Get(raw.value, "paths").value.items;
                 AllAccepted(items) && FirstSeen(AllNormalized(items), NormalizeScope(raw).value.paths)
  {
    if raw.Some? {
      var items := Get(raw.value, "paths").value.items;
      AcceptedEntries(items, []);
      NormalizeEntriesNormal(items, []);
      NormalizeEntriesDeduplicates(items, []);
      DeduplicatedFirstSeen(AllNormalized(items));
      assert [] + AllNormalized(items) == AllNormalized(items);
      assert AllNormalized(items)[0] in AllNormalized(items);
    } else {
      assert forall x :: x in DEFAULT_SCOPE.paths ==> x == ".";
    }
  }

  // ------------------------------------------------------------ scopes, twice

  function Texts(paths: seq<string>): (items: seq<Json>)
    ensures |items| == |paths| && forall i | 0 <= i < |paths| :: items[i] == JString(paths[i])
  {
    seq(|paths|, i requires 0 <= i < |paths| => JString(paths[i]))
  }

  /** A normalised scope written back as the JSON it could have come from. */
  function AsRaw(scope: Scope): RawScope {
    Some(map[
      "mode" := JString("paths"),
      "paths" := JList(Texts(scope.paths)),
      "allow_new_files" := JBool(scope.allowNewFiles),
      "allow_protected_paths" := JBool(scope.allowProtectedPaths)])
  }

  lemma KeysDiffer()
    ensures "mode" != "paths" && "mode" != "allow_new_files" && "mode" != "allow_protected_paths"
    ensures "paths" != "allow_new_files" && "paths" != "allow_protected_paths"
    ensures "allow_new_files" != "allow_protected_paths"
  {
    assert |"mode"| == 4 && |"paths"| == 5 && |"allow_new_files"| == 15 && |"allow_protected_paths"| == 21;
  }

  lemma AsRawReadBack(scope: Scope)
    requires scope.paths != []
    ensures NormalizeScope(AsRaw(scope)) ==
            match NormalizeEntries(Texts(scope.paths), [])
            case Ok(paths) => Ok(Scope(paths, scope.allowNewFiles, scope.allowProtectedPaths))
            case Err(error) => Err(error)
  {
    KeysDiffer();
    var raw := AsRaw(scope).value;
    assert Get(raw, "mode") == Some(JString("paths"));
    assert Get(raw, "paths") == Some(JList(Texts(scope.paths)));
    assert Flag(raw, "allow_new_files", BadNewFilesFlag) == Ok(scope.allowNewFiles);
    assert Flag(raw, "allow_protected_paths", BadProtectedFlag) == Ok(scope.allowProtectedPaths);
  }

  lemma {:induction false} NoRepeatsNoChange(all: seq<string>, done: seq<string>)
    ensures |Deduplicated(all, done)| <= |done| + |all|
    ensures |Deduplicated(all, done)| == |done| + |all| ==> Deduplicated(all, done) == done + all
    ensures Distinct(done + all) ==> Deduplicated(all, done) == done + all
    decreases |all|
  {
    if all == [] {
      assert done + all == done;
    } else {
      var next := if all[0] in done then done else done + [all[0]];
      NoRepeatsNoChange(all[1..], next);
      assert done + [all[0]] + all[1..] == done + all;
      if all[0] in done {
        var k :| 0 <= k < |done| && done[k] == all[0];
        assert (done + all)[k] == (done + all)[|done|];
      }
    }
  }

  lemma {:induction false} AllNormalizedAt(items: seq<Json>, i: nat)
    requires AllAccepted(items) && i < |items|
    ensures |AllNormalized(items)| == |items| && AllNormalized(items)[i] == NormalizePath(items[i].text).value
  {
    if |items| > 1 {
      AllNormalizedAt(items[1..], if i == 0 then 0 else i - 1);
    }
  }

  /**
   * Normalising a whole normalised scope again changes nothing exactly when none of
   * its entries has outer white space or looks like a drive path.
   */
  lemma NormalizeScopeTwice(raw: RawScope)
    requires NormalizeScope(raw).Ok?
    ensures var scope := NormalizeScope(raw).value;
            NormalizeScope(AsRaw(scope)) == Ok(scope) <==>
              forall p :: p in scope.paths ==> !OuterSpace(p) && !LooksLikeDrive(p)
  {
    var scope := NormalizeScope(raw).value;
    var paths, items := scope.paths, Texts(scope.paths);
    NormalizedScope(raw);
    AsRawReadBack(scope);
    forall p | p in paths ensures NormalizePath(p) == Ok(p) <==> !OuterSpace(p) && !LooksLikeDrive(p) {
      NormalizeTwice(p);
    }
    if NormalizeScope(AsRaw(scope)) == Ok(scope) {
      AcceptedEntries(items, []);
      EntriesUnchanged(paths);
    } else if forall p :: p in paths ==> NormalizePath(p) == Ok(p) {
      EntriesStay(paths);
    }
  }

  lemma EntriesUnchanged(paths: seq<string>)
    requires AllAccepted(Texts(paths)) && NormalizeEntries(Texts(paths), []) == Ok(paths)
    ensures forall p :: p in paths ==> NormalizePath(p) == Ok(p)
  {
    forall i: nat | i < |paths| ensures NormalizePath(paths[i]) == Ok(paths[i]) {
      EntryUnchanged(paths, i);
    }
  }

  lemma EntryUnchanged(paths: seq<string>, i: nat)
    requires AllAccepted(Texts(paths)) && NormalizeEntries(Texts(paths), []) == Ok(paths) && i < |paths|
    ensures NormalizePath(paths[i]) == Ok(paths[i])
  {
    var items := Texts(paths);
    var all := AllNormalized(items);
    AllNormalizedAt(items, i);
    NormalizeEntriesDeduplicates(items, []);
    NoRepeatsNoChange(all, []);
    assert [] + all == all && items[i] == JString(paths[i]);
  }

  lemma EntriesStay(paths: seq<string>)
    requires Distinct(paths) && paths != [] && forall p :: p in paths ==> NormalizePath(p) == Ok(p)
    ensures NormalizeEntries(Texts(paths), []) == Ok(paths)
  {
    var items := Texts(paths);
    forall i | 0 <= i < |items| ensures NormalizePath(items[i].text) == Ok(paths[i]) {
      assert paths[i] in paths;
    }
    var all := AllNormalized(items);
    forall i: nat | i < |paths| ensures |all| == |paths| && all[i] == paths[i] {
      AllNormalizedAt(items, i);
    }
    assert all == paths && [] + all == all;
    NormalizeEntriesDeduplicates(items, []);
    NoRepeatsNoChange(all, []);
  }
}
