/** Exactly which raw paths and raw scopes are accepted, and as what. */
module WriteScopeInput {
  import opened Common
  import opened Text
  import opened WriteScope
  import opened WriteScopeNormalForm

  // ------------------------------------------------------------------ single paths

  predicate AllSpace(s: string) {
    forall i | 0 <= i < |s| :: IsSpace(s[i])
  }

  /** In ASCII these are the blanks, the line breaks and the four separators. */
  lemma AsciiSpace(c: char)
    requires c < '\U{80}'
    ensures IsSpace(c) <==>
              c in {' ', '\t', '\n', '\r', '\U{0B}', '\U{0C}', '\U{1C}', '\U{1D}', '\U{1E}', '\U{1F}'}
  {
  }

  lemma {:induction false} LeftSpaceGoes(pre: string, s: string)
    requires AllSpace(pre)
    ensures StripLeft(pre + s) == StripLeft(s)
  {
    if pre == [] {
      assert pre + s == s;
    } else {
      assert (pre + s)[1..] == pre[1..] + s;
      LeftSpaceGoes(pre[1..], s);
    }
  }

  lemma {:induction false} RightSpaceGoes(s: string, post: string)
    requires AllSpace(post)
    ensures StripRight(s + post) == StripRight(s)
  {
    if post == [] {
      assert s + post == s;
    } else {
      var last := |post| - 1;
      assert (s + post)[..|s + post| - 1] == s + post[..last];
      RightSpaceGoes(s, post[..last]);
    }
  }

  /** Stripping takes white space off both ends, all of it and nothing else. */
  lemma StripExactly(pre: string, body: string, post: string)
    requires AllSpace(pre) && AllSpace(post) && !OuterSpace(body)
    ensures Strip(pre + body + post) == body
  {
    assert pre + body + post == pre + (body + post);
    LeftSpaceGoes(pre, body + post);
    if body == [] {
      assert body + post == post && post + [] == post;
      LeftSpaceGoes(post, []);
    } else {
      assert StripLeft(body + post) == body + post;
      RightSpaceGoes(body, post);
    }
  }

  lemma {:induction false} SlashedAt(s: string, i: nat)
    requires i < |s|
    ensures Slashed(s)[i] == if s[i] == '\\' then '/' else s[i]
  {
    if i > 0 {
      SlashedAt(s[1..], i - 1);
    }
  }

  /** Of the parts between slashes, empty ones and `.` are dropped, the others kept in order. */
  lemma {:induction false} KeptConcat(a: seq<string>, b: seq<string>)
    ensures Kept(a + b) == Kept(a) + Kept(b)
  {
    if a == [] {
      assert a + b == b;
    } else {
      assert (a + b)[1..] == a[1..] + b;
      KeptConcat(a[1..], b);
    }
  }

  lemma KeptOne(part: string)
    ensures Kept([part]) == if part == "" || part == "." then [] else [part]
  {
    assert Kept([]) == [];
  }

  lemma KeptMembers(parts: seq<string>, x: string)
    ensures x in Kept(parts) <==> x in parts && x != "" && x != "."
  {
    if parts != [] {
      KeptMembers(parts[1..], x);
      assert parts == [parts[0]] + parts[1..];
    }
  }

  /** A drive letter with its colon, alone or before a slash. */
  predicate DriveForm(v: string) {
    && |v| >= 2 && ('a' <= v[0] <= 'z' || 'A' <= v[0] <= 'Z') && v[1] == ':'
    && (|v| > 2 ==> v[2] == '/')
  }

  /** Absolute for POSIX or for Windows. */
  predicate Absolute(v: string) {
    (v != "" && v[0] == '/') || DriveForm(v)
  }

  predicate HasName(parts: seq<string>) {
    exists p :: p in parts && p != "" && p != "."
  }

  /** Which paths are accepted, and what is wrong with every other, the first fault counting. */
  lemma AcceptedExactly(raw: string)
    ensures var v, n := Slashed(Strip(raw)), NormalizePath(raw);
            && (n.Ok? <==> v != "" && !Absolute(v) && ".." !in Split(v, '/') && (v == "." || HasName(Split(v, '/'))))
            && (n == Err(EmptyPath) <==> v == "")
            && (n == Err(AbsolutePath) <==> Absolute(v))
            && (n == Err(Traversal) <==> !Absolute(v) && ".." in Split(v, '/'))
  {
    var v := Slashed(Strip(raw));
    var parts := Split(v, '/');
    KeptMembers(parts, "..");
    JoinSplit(v, '/');
    if v != "" {
      assert StartsWith(v, "/") <==> v[0] == '/';
    }
    assert v == "." ==> parts == ["."];
    if Kept(parts) != [] {
      assert Kept(parts)[0] in Kept(parts);
      assert HasName(parts);
    }
    if p :| p in parts && p != "" && p != "." {
      KeptMembers(parts, p);
    }
  }

  /** And accepted as what: the proper parts in order, with the slash at the end kept. */
  lemma AcceptedAs(raw: string)
    requires NormalizePath(raw).Ok?
    ensures var v, entry := Slashed(Strip(raw)), NormalizePath(raw).value;
            if v == "." then entry == "."
            else Components(entry) == Kept(Split(v, '/')) && (EndsWith(entry, "/") <==> EndsWith(v, "/"))
  {
    var v, entry := Slashed(Strip(raw)), NormalizePath(raw).value;
    if v != "." {
      ComponentsClean(v);
      ComponentsOfJoin(Components(v));
      JoinEnds(Components(v));
      var j := Join(Components(v), '/');
      if EndsWith(v, "/") {
        assert entry[|entry| - 1..] == "/";
      } else {
        assert entry == j && entry[|entry| - 1..] == [j[|j| - 1]];
      }
    }
  }

  // ----------------------------------------------------------------- whole scopes

  predicate FlagGiven(m: map<string, Json>, key: string) {
    key in m && m[key] == JBool(true)
  }

  predicate FlagFine(m: map<string, Json>, key: string) {
    key in m ==> m[key].JBool?
  }

  /** What a raw scope has to look like. */
  predicate WellFormed(m: map<string, Json>) {
    && "mode" in m && m["mode"] == JString("paths")
    && "paths" in m && m["paths"].JList? && m["paths"].items != [] && AllAccepted(m["paths"].items)
    && FlagFine(m, "allow_new_files") && FlagFine(m, "allow_protected_paths")
  }

  /** A scope is accepted exactly when it is well-formed; a flag that is absent is off. */
  lemma ScopeAcceptedExactly(m: map<string, Json>)
    ensures NormalizeScope(Some(m)).Ok? <==> WellFormed(m)
    ensures WellFormed(m) ==>
              var scope := NormalizeScope(Some(m)).value;
              && (scope.allowNewFiles <==> FlagGiven(m, "allow_new_files"))
              && (scope.allowProtectedPaths <==> FlagGiven(m, "allow_protected_paths"))
  {
    if "paths" in m && m["paths"].JList? {
      EntriesAcceptedExactly(m["paths"].items);
    }
    FlagExactly(m, "allow_new_files", BadNewFilesFlag);
    FlagExactly(m, "allow_protected_paths", BadProtectedFlag);
  }

  lemma EntriesAcceptedExactly(items: seq<Json>)
    ensures NormalizeEntries(items, []).Ok? <==> AllAccepted(items)
  {
    if AllAccepted(items) {
      NormalizeEntriesDeduplicates(items, []);
    } else if NormalizeEntries(items, []).Ok? {
      AcceptedEntries(items, []);
    }
  }

  lemma FlagExactly(m: map<string, Json>, key: string, error: ScopeError)
    ensures Flag(m, key, error) == if FlagFine(m, key) then Ok(FlagGiven(m, key)) else Err(error)
  {
  }

  /** Without a scope everything may be changed, but nothing added and nothing protected touched. */
  lemma NoScopeGiven()
    ensures NormalizeScope(None) == Ok(Scope(["."], false, false))
  {
  }

  /** What is wrong with a scope, the first fault counting. */
  lemma ScopeRefusedWith(m: map<string, Json>)
    requires NormalizeScope(Some(m)).Err?
    ensures var error := NormalizeScope(Some(m)).error;
            if "mode" !in m || m["mode"] != JString("paths") then error == BadMode
            else if "paths" !in m || !m["paths"].JList? || m["paths"].items == [] then error == BadPaths
            else if !AllAccepted(m["paths"].items) then Err(error) == FirstFault(m["paths"].items)
            else if "allow_new_files" in m && !m["allow_new_files"].JBool? then error == BadNewFilesFlag
            else error == BadProtectedFlag
  {
    if Get(m, "paths").Some? && m["paths"].JList? {
      FaultFound(m["paths"].items, []);
    }
  }

  /** The fault of the first entry that is not a text or not accepted. */
  function FirstFault(items: seq<Json>): Result<string, ScopeError> {
    if items == [] then Ok("")
    else if !items[0].JString? then Err(NotAString)
    else if NormalizePath(items[0].text).Err? then NormalizePath(items[0].text)
    else FirstFault(items[1..])
  }

  lemma {:induction false} FaultFound(items: seq<Json>, done: seq<string>)
    ensures AllAccepted(items) <==> FirstFault(items).Ok?
    ensures FirstFault(items).Err? ==> NormalizeEntries(items, done) == Err(FirstFault(items).error)
    ensures FirstFault(items).Ok? ==> NormalizeEntries(items, done).Ok?
    decreases |items|
  {
    if items != [] && items[0].JString? && NormalizePath(items[0].text).Ok? {
      var n := NormalizePath(items[0].text).value;
      FaultFound(items[1..], if n in done then done else done + [n]);
      assert AllAccepted(items) <==> AllAccepted(items[1..]);
    }
  }

  // ----------------------------------------------------------------- reported paths

  lemma {:induction false} TrimKeepsParts(s: string)
    ensures Kept(Split(TrimSlashes(s), '/')) == Kept(Split(s, '/'))
    ensures TrimSlashes(s) == "" <==> forall i | 0 <= i < |s| :: s[i] == '/'
    decreases |s|
  {
    if s != [] && s[0] == '/' {
      assert s == [] + ['/'] + s[1..];
      SplitConcat([], s[1..], '/');
      KeptConcat([""], Split(s[1..], '/'));
      KeptOne("");
      TrimKeepsParts(s[1..]);
    } else if s != [] && s[|s| - 1] == '/' {
      var init := s[..|s| - 1];
      assert s == init + ['/'] + [];
      SplitConcat(init, [], '/');
      KeptConcat(Split(init, '/'), [""]);
      KeptOne("");
      TrimKeepsParts(init);
    }
  }

  /** A reported path is safe when it is more than slashes and has no `..`, and stands for its proper parts. */
  lemma ChangedExactly(path: string)
    ensures var v, n := Slashed(path), NormalizeChanged(path);
            && (n.Ok? <==> (exists i :: 0 <= i < |v| && v[i] != '/') && ".." !in Split(v, '/'))
            && (n.Ok? ==> n.value == Join(Kept(Split(v, '/')), '/'))
            && (n.Err? ==> n.error == Violation([path]))
  {
    var v := Slashed(path);
    TrimKeepsParts(v);
    KeptMembers(Split(v, '/'), "..");
  }
}
