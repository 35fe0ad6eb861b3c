/** Folder paths as strings and as lists of names (internal/store/paths.go). */
module Paths {
  import opened Results
  import opened Text

  const MAX_NAME_LEN := 255
  const MAX_PATH_LEN := 1024
  const MAX_PATH_DEPTH := 32

  predicate Name(s: string) {
    s != "" && '/' !in s
  }

  /** A list of folder names, from the root down. */
  predicate Names(names: seq<string>) {
    forall i | 0 <= i < |names| :: Name(names[i])
  }

  function PathOf(names: seq<string>): string {
    if names == [] then "/" else "/" + Join(names)
  }

  /** What chk_folders_path_absolute demands: '/' or one or more '/name'. */
  predicate Absolute(p: string) {
    p == "/" || (p != "" && p[0] == '/' && Names(Split(p[1..])))
  }

  function NamesOf(p: string): (names: seq<string>)
    requires Absolute(p)
    ensures Names(names)
  {
    if p == "/" then [] else Split(p[1..])
  }

  lemma PathOfNames(names: seq<string>)
    requires Names(names)
    ensures Absolute(PathOf(names)) && NamesOf(PathOf(names)) == names
  {
    if names != [] {
      assert PathOf(names)[1..] == Join(names);
      SplitJoin(names);
      JoinNotEmpty(names);
    }
  }

  lemma {:induction false} JoinNotEmpty(names: seq<string>)
    requires Names(names) && names != []
    ensures Join(names) != ""
  {
  }

  lemma NamesOfPath(p: string)
    requires Absolute(p)
    ensures PathOf(NamesOf(p)) == p
  {
    if p != "/" {
      JoinSplit(p[1..]);
      assert "/" + p[1..] == p;
    }
  }

  lemma {:induction false} JoinSplit(s: string)
    ensures Join(Split(s)) == s
    decreases |s|
  {
    if s != "" {
      JoinSplit(s[1..]);
      var rest := Split(s[1..]);
      if s[0] == '/' {
        assert ([""] + rest)[1..] == rest;
        assert "" + "/" + Join(rest) == s;
      } else if |rest| == 1 {
        assert [s[0]] + s[1..] == s;
      } else {
        assert ([[s[0]] + rest[0]] + rest[1..])[1..] == rest[1..];
        assert [s[0]] + rest[0] + "/" + Join(rest[1..]) == [s[0]] + (rest[0] + "/" + Join(rest[1..])) == s;
      }
    }
  }

  lemma {:induction false} JoinConcat(a: seq<string>, b: seq<string>)
    requires a != [] && b != []
    ensures Join(a + b) == Join(a) + "/" + Join(b)
    decreases |a|
  {
    if |a| == 1 {
      assert (a + b)[1..] == b;
    } else {
      JoinConcat(a[1..], b);
      assert (a + b)[1..] == a[1..] + b;
      assert Join(a + b) == a[0] + "/" + (Join(a[1..]) + "/" + Join(b));
    }
  }

  lemma SlashAssociates(a: string, b: string, c: string)
    ensures (a + "/" + b) + "/" + c == a + "/" + (b + "/" + c)
  {
  }

  lemma {:induction false} SplitOfPrefix(names: seq<string>, rest: string)
    requires names != [] && Names(names)
    ensures Split(Join(names) + "/" + rest) == names + Split(rest)
    decreases |names|
  {
    if |names| == 1 {
      SplitOfPart(names[0], rest);
      assert names == [names[0]];
    } else {
      SplitOfPrefix(names[1..], rest);
      SlashAssociates(names[0], Join(names[1..]), rest);
      SplitOfPart(names[0], Join(names[1..]) + "/" + rest);
      assert [names[0]] + names[1..] == names;
      assert names + Split(rest) == [names[0]] + (names[1..] + Split(rest));
    }
  }

  // ---------------------------------------------------------------------------
  // Joining, splitting, and the subtree test
  // ---------------------------------------------------------------------------

  function JoinPath(parent: string, name: string): string {
    if parent == "" || parent == "/" then "/" + name else parent + "/" + name
  }

  /** strings.LastIndexByte(s, '/'). */
  function LastSlash(s: string): (i: int)
    ensures -1 <= i < |s|
    ensures i >= 0 ==> s[i] == '/'
    ensures forall k | i < k < |s| :: s[k] != '/'
  {
    if s == "" then -1
    else if s[|s| - 1] == '/' then |s| - 1
    else LastSlash(s[..|s| - 1])
  }

  function SplitPath(normalized: string): (string, string)
    requires normalized != ""
  {
    if normalized == "/" then ("", "")
    else
      var i := LastSlash(normalized);
      if i <= 0 then ("/", normalized[1..]) else (normalized[..i], normalized[i + 1..])
  }

  predicate IsAtOrUnder(candidate: string, ancestor: string) {
    candidate == ancestor || ancestor == "/" || ancestor + "/" <= candidate
  }

  lemma JoinPathIsPathOf(names: seq<string>, name: string)
    requires Names(names) && Name(name)
    ensures JoinPath(PathOf(names), name) == PathOf(names + [name])
  {
    if names != [] {
      JoinConcat(names, [name]);
      JoinNotEmpty(names);
      assert PathOf(names + [name]) == "/" + (Join(names) + "/" + name);
    }
  }

  /** Splitting a joined path gives back the parent and the name, and joining a split one the path. */
  lemma SplitInvertsJoin(parent: string, name: string)
    requires Absolute(parent) && Name(name)
    ensures Absolute(JoinPath(parent, name)) && JoinPath(parent, name) != "/"
    ensures SplitPath(JoinPath(parent, name)) == (parent, name)
  {
    var names := NamesOf(parent);
    NamesOfPath(parent);
    JoinPathIsPathOf(names, name);
    PathOfNames(names + [name]);
    var head := if parent == "/" then "" else parent;
    LastSlashOf(head, name);
  }

  lemma LastSlashOf(head: string, name: string)
    requires '/' !in name
    ensures var p := head + "/" + name;
            LastSlash(p) == |head| && p[..|head|] == head && p[|head| + 1..] == name
  {
    var p := head + "/" + name;
    assert p[|head|] == '/';
    assert forall k | |head| < k < |p| :: p[k] == name[k - |head| - 1];
    assert p[..|head|] == head && p[|head| + 1..] == name;
  }

  lemma JoinInvertsSplit(p: string)
    requires Absolute(p) && p != "/"
    ensures Absolute(SplitPath(p).0) && Name(SplitPath(p).1)
    ensures JoinPath(SplitPath(p).0, SplitPath(p).1) == p
  {
    var names := NamesOf(p);
    NamesOfPath(p);
    assert names != [];
    var init, last := names[..|names| - 1], names[|names| - 1];
    assert init + [last] == names;
    JoinPathIsPathOf(init, last);
    PathOfNames(init);
    SplitInvertsJoin(PathOf(init), last);
  }

  /** The string test says exactly that the ancestor's names are a prefix of the candidate's. */
  lemma AtOrUnderIff(candidate: string, ancestor: string)
    requires Absolute(candidate) && Absolute(ancestor)
    ensures IsAtOrUnder(candidate, ancestor) <==> NamesOf(ancestor) <= NamesOf(candidate)
  {
    var c, a := NamesOf(candidate), NamesOf(ancestor);
    NamesOfPath(candidate);
    NamesOfPath(ancestor);
    if ancestor != "/" && ancestor + "/" <= candidate {
      var rest := candidate[|ancestor| + 1..];
      assert candidate == ancestor + "/" + rest;
      assert candidate[1..] == ancestor[1..] + "/" + rest;
      SplitOfPrefix(a, rest);
      JoinSplit(ancestor[1..]);
    }
    if a <= c && a != c && a != [] {
      assert c == a + c[|a|..];
      JoinConcat(a, c[|a|..]);
      assert candidate == "/" + (Join(a) + "/" + Join(c[|a|..]));
    }
  }

  /** A child is at or under a folder exactly when it is that folder or its parent is at or under it. */
  lemma ChildAtOrUnderIff(parent: string, name: string, ancestor: string)
    requires Absolute(parent) && Absolute(ancestor) && Name(name)
    ensures Absolute(JoinPath(parent, name))
    ensures IsAtOrUnder(JoinPath(parent, name), ancestor) <==>
      JoinPath(parent, name) == ancestor || IsAtOrUnder(parent, ancestor)
  {
    var names := NamesOf(parent);
    NamesOfPath(parent);
    NamesOfPath(ancestor);
    JoinPathIsPathOf(names, name);
    PathOfNames(names + [name]);
    AtOrUnderIff(parent, ancestor);
    AtOrUnderIff(JoinPath(parent, name), ancestor);
    var a := NamesOf(ancestor);
    if a <= names + [name] && a != names + [name] {
      assert a == (names + [name])[..|a|] == names[..|a|];
    }
  }

  // ---------------------------------------------------------------------------
  // The LIKE pattern of a subtree
  // ---------------------------------------------------------------------------

  function EscapedChar(c: char): string {
    if c == '\\' || c == '%' || c == '_' then ['\\', c] else [c]
  }

  function EscapedLike(s: string): string {
    if s == "" then ""
    else EscapedChar(s[0]) + EscapedLike(s[1..])
  }

  method EscapeLike(s: string) returns (b: string)
    ensures b == EscapedLike(s)
  {
    b := "";
    for i := 0 to |s|
      invariant b + EscapedLike(s[i..]) == EscapedLike(s)
    {
      var c := s[i];
      assert s[i..][1..] == s[i + 1..];
      ghost var done := b;
      if c == '\\' || c == '%' || c == '_' {
        b := b + ['\\'];
      }
      b := b + [c];
      assert done + EscapedLike(s[i..]) == b + EscapedLike(s[i + 1..]);
    }
  }

  function SubtreePattern(p: string): string {
    if p == "/" then "/%" else EscapedLike(p) + "/%"
  }

  /** LIKE with the default escape character: '%' any text, '_' any character. */
  predicate Like(s: string, pattern: string)
    decreases |pattern|, |s|
  {
    if pattern == "" then s == ""
    else if pattern[0] == '%' then Like(s, pattern[1..]) || (s != "" && Like(s[1..], pattern))
    else if pattern[0] == '\\' && |pattern| > 1 then s != "" && s[0] == pattern[1] && Like(s[1..], pattern[2..])
    else s != "" && (pattern[0] == '_' || s[0] == pattern[0]) && Like(s[1..], pattern[1..])
  }

  lemma {:induction false} LikeAny(s: string)
    ensures Like(s, "%")
    decreases |s|
  {
    if s == "" {
      assert "%"[1..] == "";
    } else {
      LikeAny(s[1..]);
    }
  }

  lemma {:induction false} LikeChar(s: string, c: char, pattern: string)
    ensures Like(s, EscapedChar(c) + pattern) <==> s != "" && s[0] == c && Like(s[1..], pattern)
  {
    var whole := EscapedChar(c) + pattern;
    assert whole[|EscapedChar(c)|..] == pattern;
  }

  lemma {:induction false} LikeEscaped(s: string, p: string, rest: string)
    ensures Like(s, EscapedLike(p) + rest) <==> p <= s && Like(s[|p|..], rest)
    decreases |p|
  {
    if p == "" {
      assert EscapedLike(p) + rest == rest && s[0..] == s;
    } else {
      assert EscapedLike(p) + rest == EscapedChar(p[0]) + (EscapedLike(p[1..]) + rest);
      LikeChar(s, p[0], EscapedLike(p[1..]) + rest);
      if s != "" {
        LikeEscaped(s[1..], p[1..], rest);
        PrefixStep(p, s);
      }
    }
  }

  lemma PrefixStep(p: string, s: string)
    requires p != "" && s != ""
    ensures p <= s <==> s[0] == p[0] && p[1..] <= s[1..]
    ensures p <= s ==> s[1..][|p| - 1..] == s[|p|..]
  {
    if s[0] == p[0] && p[1..] <= s[1..] {
      assert p == [p[0]] + p[1..] && s[..|p|] == [s[0]] + s[1..][..|p| - 1];
    }
  }

  /**
    The two comparisons every subtree statement makes, equality and LIKE, together
    select exactly the paths at or under the folder: the root included, and names
    holding wildcard characters included.
  */
  lemma {:induction false} SubtreePatternIff(s: string, p: string)
    requires Absolute(s) && Absolute(p)
    ensures s == p || Like(s, SubtreePattern(p)) <==> IsAtOrUnder(s, p)
  {
    var prefix := if p == "/" then "/" else p + "/";
    if p == "/" {
      assert SubtreePattern(p) == EscapedLike("/") + "%";
    } else {
      EscapeSlash(p);
      assert SubtreePattern(p) == EscapedLike(p + "/") + "%";
    }
    LikeEscaped(s, prefix, "%");
    if prefix <= s {
      LikeAny(s[|prefix|..]);
    }
  }

  lemma {:induction false} EscapeSlash(p: string)
    ensures EscapedLike(p + "/") == EscapedLike(p) + "/"
    decreases |p|
  {
    if p == "" {
      assert p + "/" == "/" && "/"[1..] == "";
    } else {
      assert (p + "/")[1..] == p[1..] + "/";
      EscapeSlash(p[1..]);
    }
  }

  // ---------------------------------------------------------------------------
  // Walking a path
  // ---------------------------------------------------------------------------

  lemma TakeSegment(s: string, start: nat, i: nat)
    requires start <= i <= |s| && '/' !in s[start..i] && (i < |s| ==> s[i] == '/')
    ensures Split(s[start..]) == if i == |s| then [s[start..i]] else [s[start..i]] + Split(s[i + 1..])
  {
    var part := s[start..i];
    if i == |s| {
      SplitOfOne(part);
      assert s[start..] == part;
    } else {
      SplitOfPart(part, s[i + 1..]);
      assert s[start..] == part + "/" + s[i + 1..];
    }
  }

  /** splitSegments: the names of a path, found by one scan. */
  method SplitSegments(normalized: string) returns (names: seq<string>)
    requires Absolute(normalized)
    ensures names == NamesOf(normalized)
  {
    if normalized == "/" {
      return [];
    }
    names := [];
    var start, i := 1, 1;
    ghost var all := Split(normalized[1..]);
    while i <= |normalized|
      invariant 1 <= start <= i <= |normalized| + 1
      invariant i <= |normalized| ==> '/' !in normalized[start..i] && all == names + Split(normalized[start..])
      invariant i == |normalized| + 1 ==> all == names
    {
      if i == |normalized| || normalized[i] == '/' {
        var part := normalized[start..i];
        TakeSegment(normalized, start, i);
        names := names + [part];
        start := i + 1;
      }
      i := i + 1;
    }
  }

  // ---------------------------------------------------------------------------
  // Re-rooting a subtree
  // ---------------------------------------------------------------------------

  /** new || substring(path from length(old) + 1). */
  function Rebased(path: string, oldRoot: string, newRoot: string): string
    requires IsAtOrUnder(path, oldRoot) && Absolute(path) && Absolute(oldRoot)
  {
    newRoot + path[|oldRoot|..]
  }

  lemma RebasedNames(path: string, oldRoot: string, newRoot: string)
    requires Absolute(path) && Absolute(oldRoot) && Absolute(newRoot)
    requires oldRoot != "/" && newRoot != "/" && IsAtOrUnder(path, oldRoot)
    ensures Absolute(Rebased(path, oldRoot, newRoot)) && NamesOf(oldRoot) <= NamesOf(path)
    ensures NamesOf(Rebased(path, oldRoot, newRoot)) == NamesOf(newRoot) + NamesOf(path)[|NamesOf(oldRoot)|..]
    ensures IsAtOrUnder(Rebased(path, oldRoot, newRoot), newRoot)
  {
    var o, n, p := NamesOf(oldRoot), NamesOf(newRoot), NamesOf(path);
    AtOrUnderIff(path, oldRoot);
    NamesOfPath(oldRoot);
    NamesOfPath(newRoot);
    NamesOfPath(path);
    var rest := p[|o|..];
    assert p == o + rest;
    PathOfNames(n + rest);
    ReplacedPrefix(o, n, rest);
    assert Rebased(path, oldRoot, newRoot) == PathOf(n + rest);
    AtOrUnderIff(Rebased(path, oldRoot, newRoot), newRoot);
  }

  /** Replacing the string of a prefix replaces the names of that prefix. */
  lemma ReplacedPrefix(o: seq<string>, n: seq<string>, rest: seq<string>)
    requires o != [] && n != []
    ensures |PathOf(o)| <= |PathOf(o + rest)|
    ensures PathOf(n) + PathOf(o + rest)[|PathOf(o)|..] == PathOf(n + rest)
  {
    if rest == [] {
      assert n + rest == n && o + rest == o;
    } else {
      JoinConcat(o, rest);
      JoinConcat(n, rest);
      TailOfJoined(Join(o), Join(n), Join(rest));
    }
  }

  lemma TailOfJoined(a: string, b: string, c: string)
    ensures ("/" + b) + ("/" + (a + "/" + c))[|"/" + a|..] == "/" + (b + "/" + c)
  {
    assert ("/" + (a + "/" + c))[|"/" + a|..] == "/" + c;
  }

  // ---------------------------------------------------------------------------
  // Normalization
  // ---------------------------------------------------------------------------

  predicate Alnum(c: char) {
    'a' <= c <= 'z' || 'A' <= c <= 'Z' || '0' <= c <= '9'
  }

  /** ValidateFolderName; '.' and '..' fail its pattern as well. */
  predicate ValidFolderName(name: string) {
    && 0 < |name| <= MAX_NAME_LEN && name != "." && name != ".."
    && Alnum(name[0]) && Alnum(name[|name| - 1])
    && forall i | 0 <= i < |name| :: Alnum(name[i]) || name[i] == '.' || name[i] == '_' || name[i] == '-'
  }

  predicate AllValid(names: seq<string>) {
    forall i | 0 <= i < |names| :: ValidFolderName(names[i])
  }

  /** The names path.Clean keeps of a rooted path without '..'. */
  function Kept(names: seq<string>): (kept: seq<string>)
    ensures forall i | 0 <= i < |kept| :: kept[i] in names && kept[i] != "" && kept[i] != "."
  {
    if names == [] then []
    else (if names[0] == "" || names[0] == "." then [] else [names[0]]) + Kept(names[1..])
  }

  function NormalizePath(p: string): Result<string, AppError> {
    var s := TrimSpace(p);
    if s == "" || s == "/" then Ok("/")
    else
      var rooted := if s[0] == '/' then s else "/" + s;
      if ".." in Split(rooted) then Err(Validation)
      else
        var names := Kept(Split(rooted));
        if names == [] then Ok("/")
        else if |PathOf(names)| > MAX_PATH_LEN || |names| > MAX_PATH_DEPTH then Err(Validation)
        else if AllValid(names) then Ok(PathOf(names))
        else Err(Validation)
  }

  /** The segments are the names with empty ones and dots put in anywhere. */
  predicate Padded(segments: seq<string>, names: seq<string>) {
    if segments == [] then names == []
    else if segments[0] == "" || segments[0] == "." then Padded(segments[1..], names)
    else names != [] && segments[0] == names[0] && Padded(segments[1..], names[1..])
  }

  lemma {:induction false} PaddedIsKept(segments: seq<string>, names: seq<string>)
    requires Padded(segments, names)
    ensures Kept(segments) == names
    decreases |segments|
  {
    if segments != [] {
      if segments[0] == "" || segments[0] == "." {
        PaddedIsKept(segments[1..], names);
      } else {
        PaddedIsKept(segments[1..], names[1..]);
        assert [names[0]] + names[1..] == names;
      }
    }
  }

  lemma {:induction false} RootedSplits(s: string, names: seq<string>)
    requires s != "" && Padded(Split(s), names)
    ensures var rooted := if s[0] == '/' then s else "/" + s;
            Kept(Split(rooted)) == names && (".." in Split(rooted) <==> ".." in Split(s))
  {
    PaddedIsKept(Split(s), names);
    if s[0] != '/' {
      assert ("/" + s)[1..] == s;
      assert Split("/" + s) == [""] + Split(s) && ([""] + Split(s))[1..] == Split(s);
      assert Kept([""] + Split(s)) == [] + Kept(Split(s));
    }
  }

  lemma {:induction false} NothingNamed(s: string, names: seq<string>)
    requires (s == "" || s == "/") && Padded(Split(s), names)
    ensures names == [] && ".." !in Split(s)
  {
    PaddedIsKept(Split(s), names);
    assert s == "/" ==> s[1..] == "";
    assert Split(s) == if s == "" then [""] else [""] + [""];
    assert Kept([""]) == [] + Kept([]) && Kept(["", ""]) == [] + Kept(["", ""][1..]);
  }

  lemma CanonicalNames(names: seq<string>)
    requires Names(names)
    ensures Canonical(PathOf(names)) <==>
      |PathOf(names)| <= MAX_PATH_LEN && |names| <= MAX_PATH_DEPTH && AllValid(names)
  {
    PathOfNames(names);
  }

  /**
    What any text is normalized to: with space around it gone, the path of its names,
    whatever slashes and dots stand around them and whether or not it begins with one.
    It is refused if it steps up anywhere, or if that path is none a folder may have.
  */
  lemma {:induction false} NormalizesToItsNames(p: string, segments: seq<string>, names: seq<string>)
    requires segments != [] && TrimSpace(p) == Join(segments)
    requires forall i | 0 <= i < |segments| :: '/' !in segments[i]
    requires Padded(segments, names)
    ensures NormalizePath(p) ==
      if ".." in segments || !Canonical(PathOf(names)) then Err(Validation) else Ok(PathOf(names))
  {
    var s := TrimSpace(p);
    SplitJoin(segments);
    PaddedIsKept(segments, names);
    forall i | 0 <= i < |names| ensures Name(names[i]) {
      assert names[i] in segments;
    }
    CanonicalNames(names);
    if s == "" || s == "/" {
      NothingNamed(s, names);
      assert NormalizePath(p) == Ok("/") && PathOf(names) == "/";
    } else {
      RootedSplits(s, names);
    }
  }

  /** A path within the limits and made of valid names. */
  predicate Canonical(p: string) {
    && Absolute(p)
    && |p| <= MAX_PATH_LEN && |NamesOf(p)| <= MAX_PATH_DEPTH
    && AllValid(NamesOf(p))
  }

  lemma {:induction false} KeptAll(names: seq<string>)
    requires forall i | 0 <= i < |names| :: names[i] != "" && names[i] != "."
    ensures Kept(names) == names
    decreases |names|
  {
    if names != [] {
      KeptAll(names[1..]);
      assert names == [names[0]] + names[1..];
    }
  }

  lemma ValidNameIsName(name: string)
    requires ValidFolderName(name)
    ensures Name(name) && !Blank(name[|name| - 1])
  {
    forall i | 0 <= i < |name| ensures name[i] != '/' {
      assert Alnum(name[i]) || name[i] == '.' || name[i] == '_' || name[i] == '-';
    }
  }

  lemma LastOfPath(names: seq<string>)
    requires Names(names) && names != []
    ensures PathOf(names)[|PathOf(names)| - 1] == names[|names| - 1][|names[|names| - 1]| - 1]
  {
    var init, last := names[..|names| - 1], names[|names| - 1];
    assert names == init + [last];
    if init != [] {
      JoinConcat(init, [last]);
    }
  }

  lemma NormalizesToCanonical(p: string)
    requires NormalizePath(p).Ok?
    ensures Canonical(NormalizePath(p).value)
  {
    if NormalizePath(p) != Ok("/") {
      var s := TrimSpace(p);
      var rooted := if s[0] == '/' then s else "/" + s;
      var names := Kept(Split(rooted));
      assert NormalizePath(p) == Ok(PathOf(names));
      assert AllValid(names);
      forall i | 0 <= i < |names| ensures Name(names[i]) {
        ValidNameIsName(names[i]);
      }
      PathOfNames(names);
    }
  }

  lemma {:induction false} CanonicalIsTrimmed(p: string)
    requires Canonical(p) && p != "/"
    ensures TrimSpace(p) == p && p[0] == '/'
  {
    var names := NamesOf(p);
    NamesOfPath(p);
    LastOfPath(names);
    ValidNameIsName(names[|names| - 1]);
  }

  lemma {:induction false} CanonicalSplits(p: string)
    requires Canonical(p) && p != "/"
    ensures Split(p) == [""] + NamesOf(p) && ".." !in Split(p)
    ensures Kept(Split(p)) == NamesOf(p)
  {
    var names := NamesOf(p);
    NamesOfPath(p);
    forall i | 0 <= i < |names| ensures names[i] != ".." && names[i] != "" && names[i] != "." {
      assert ValidFolderName(names[i]);
    }
    KeptAll(names);
    assert ([""] + names)[1..] == names;
    assert Kept([""] + names) == [] + Kept(names);
  }

  lemma CanonicalIsFixed(p: string)
    requires Canonical(p)
    ensures NormalizePath(p) == Ok(p)
  {
    if p != "/" {
      CanonicalIsTrimmed(p);
      CanonicalSplits(p);
      NamesOfPath(p);
    }
  }

  /**
    The paths a caller can name are exactly the canonical ones, and normalizing
    changes none of them; so normalizing twice is normalizing once.
  */
  lemma NameableIff(path: string)
    ensures (exists p :: NormalizePath(p) == Ok(path)) <==> Canonical(path)
    ensures Canonical(path) <==> NormalizePath(path) == Ok(path)
  {
    if Canonical(path) {
      CanonicalIsFixed(path);
    }
    forall p | NormalizePath(p) == Ok(path) ensures Canonical(path) {
      NormalizesToCanonical(p);
    }
  }
}
