/** The string operations of Go's strings package that the components below call. */
module Text {

  /** strings.Index: where the first occurrence of `pat` in `s` begins, or -1. */
  function Index(s: string, pat: string): (i: int)
    ensures -1 <= i
    ensures i >= 0 ==> i + |pat| <= |s| && pat <= s[i..]
  {
    IndexAfter(s, pat, 0)
  }

  function IndexAfter(s: string, pat: string, from: nat): (i: int)
    requires from <= |s|
    ensures i == -1 || from <= i
    ensures i >= 0 ==> i + |pat| <= |s| && pat <= s[i..]
    decreases |s| - from
  {
    if pat <= s[from..] then from
    else if from == |s| then -1
    else IndexAfter(s, pat, from + 1)
  }

  lemma {:induction false} IndexAfterFirst(s: string, pat: string, from: nat)
    requires from <= |s|
    ensures var i := IndexAfter(s, pat, from); forall k | from <= k <= |s| && (i < 0 || k < i) :: !(pat <= s[k..])
    decreases |s| - from
  {
    if !(pat <= s[from..]) && from < |s| {
      IndexAfterFirst(s, pat, from + 1);
    }
  }

  /** Nothing before the answer, and nothing at all if there is none. */
  lemma IndexIsFirst(s: string, pat: string)
    ensures forall k | 0 <= k <= |s| && (Index(s, pat) < 0 || k < Index(s, pat)) :: !(pat <= s[k..])
  {
    IndexAfterFirst(s, pat, 0);
  }

  /** strings.Contains. */
  predicate Contains(s: string, pat: string) {
    Index(s, pat) >= 0
  }

  /** strings.ReplaceAll for a non-empty `old`: left to right, never overlapping, never rescanning. */
  function ReplaceAll(s: string, old_: string, new_: string): string
    requires old_ != ""
    decreases |s|
  {
    if s == "" then ""
    else if old_ <= s then new_ + ReplaceAll(s[|old_|..], old_, new_)
    else [s[0]] + ReplaceAll(s[1..], old_, new_)
  }

  /** A stretch of `s` in which no occurrence of `old_` begins is copied unchanged. */
  lemma {:induction false} ReplaceAllSkips(a: string, rest: string, old_: string, new_: string)
    requires old_ != ""
    requires forall i | 0 <= i < |a| :: !(old_ <= (a + rest)[i..])
    ensures ReplaceAll(a + rest, old_, new_) == a + ReplaceAll(rest, old_, new_)
    decreases |a|
  {
    if a == "" {
      assert a + rest == rest;
    } else {
      assert (a + rest)[0..] == a + rest;
      assert (a + rest)[1..] == a[1..] + rest;
      forall i | 0 <= i < |a[1..]| ensures !(old_ <= (a[1..] + rest)[i..]) {
        assert (a[1..] + rest)[i..] == (a + rest)[i + 1..];
      }
      ReplaceAllSkips(a[1..], rest, old_, new_);
    }
  }

  /** An occurrence at the front is replaced, and the rest is scanned on its own. */
  lemma {:induction false} ReplaceAllTakes(rest: string, old_: string, new_: string)
    requires old_ != ""
    ensures ReplaceAll(old_ + rest, old_, new_) == new_ + ReplaceAll(rest, old_, new_)
  {
    assert (old_ + rest)[|old_|..] == rest;
  }

  predicate Blank(c: char) {
    c == ' ' || c == '\t' || c == '\n' || c == '\r' || c == '\U{000B}' || c == '\U{000C}'
  }

  /** strings.TrimSpace over ASCII text. */
  function TrimSpace(s: string): string {
    if s != "" && Blank(s[0]) then TrimSpace(s[1..])
    else if s != "" && Blank(s[|s| - 1]) then TrimSpace(s[..|s| - 1])
    else s
  }

  /** The ASCII characters Go takes for space. */
  const SPACES := " \t\n\r\U{000B}\U{000C}"

  predicate AllSpaces(s: string) {
    forall i | 0 <= i < |s| :: s[i] in SPACES
  }

  /** Space around a text makes no difference, and what is left has none at either end. */
  lemma {:induction false} SpacesAroundAreTrimmed(left: string, s: string, right: string)
    requires AllSpaces(left) && AllSpaces(right)
    ensures TrimSpace(left + s + right) == TrimSpace(s)
    decreases |left|
  {
    if left == "" {
      assert left + s + right == s + right;
      SpacesAfterAreTrimmed(s, right);
    } else {
      assert left[0] in SPACES && forall i | 0 <= i < |left[1..]| :: left[1..][i] == left[i + 1];
      assert (left + s + right)[1..] == left[1..] + s + right;
      SpacesAroundAreTrimmed(left[1..], s, right);
    }
  }

  lemma {:induction false} SpacesAfterAreTrimmed(s: string, right: string)
    requires AllSpaces(right)
    ensures TrimSpace(s + right) == TrimSpace(s)
    decreases |s| + |right|
  {
    var t := s + right;
    if right == "" {
      assert t == s;
    } else if s == "" {
      assert t == right && right[0] in SPACES;
      assert forall i | 0 <= i < |right[1..]| :: right[1..][i] == right[i + 1];
      SpacesAfterAreTrimmed(s, right[1..]);
      assert s + right[1..] == right[1..];
    } else if Blank(s[0]) {
      assert t[1..] == s[1..] + right;
      SpacesAfterAreTrimmed(s[1..], right);
    } else {
      var n := |right| - 1;
      assert t[|t| - 1] == right[n] && right[n] in SPACES && t[..|t| - 1] == s + right[..n];
      SpacesAfterAreTrimmed(s, right[..n]);
    }
  }

  /** strings.Trim(s, "/"). */
  function TrimSlashes(s: string): string {
    if s != "" && s[0] == '/' then TrimSlashes(s[1..])
    else if s != "" && s[|s| - 1] == '/' then TrimSlashes(s[..|s| - 1])
    else s
  }

  predicate AllSlashes(s: string) {
    forall i | 0 <= i < |s| :: s[i] == '/'
  }

  lemma {:induction false} SlashesAroundAreTrimmed(left: string, s: string, right: string)
    requires AllSlashes(left) && AllSlashes(right)
    ensures TrimSlashes(left + s + right) == TrimSlashes(s)
    decreases |left|
  {
    if left == "" {
      assert left + s + right == s + right;
      SlashesAfterAreTrimmed(s, right);
    } else {
      assert left[0] == '/' && forall i | 0 <= i < |left[1..]| :: left[1..][i] == left[i + 1];
      assert (left + s + right)[1..] == left[1..] + s + right;
      SlashesAroundAreTrimmed(left[1..], s, right);
    }
  }

  lemma {:induction false} SlashesAfterAreTrimmed(s: string, right: string)
    requires AllSlashes(right)
    ensures TrimSlashes(s + right) == TrimSlashes(s)
    decreases |s| + |right|
  {
    var t := s + right;
    if right == "" {
      assert t == s;
    } else if s == "" {
      assert t == right && right[0] == '/';
      assert forall i | 0 <= i < |right[1..]| :: right[1..][i] == right[i + 1];
      SlashesAfterAreTrimmed(s, right[1..]);
      assert s + right[1..] == right[1..];
    } else if s[0] == '/' {
      assert t[1..] == s[1..] + right;
      SlashesAfterAreTrimmed(s[1..], right);
    } else {
      var n := |right| - 1;
      assert t[|t| - 1] == right[n] && right[n] == '/' && t[..|t| - 1] == s + right[..n];
      SlashesAfterAreTrimmed(s, right[..n]);
    }
  }

  /** strings.Split(s, "/"). */
  function Split(s: string): (parts: seq<string>)
    ensures parts != []
    ensures forall k | 0 <= k < |parts| :: '/' !in parts[k]
  {
    if s == "" then [""]
    else
      var rest := Split(s[1..]);
      if s[0] == '/' then [""] + rest else [[s[0]] + rest[0]] + rest[1..]
  }

  /** strings.Join(parts, "/"). */
  function Join(parts: seq<string>): string {
    if parts == [] then "" else if |parts| == 1 then parts[0] else parts[0] + "/" + Join(parts[1..])
  }

  lemma {:induction false} SplitOfPart(a: string, rest: string)
    requires '/' !in a
    ensures Split(a + "/" + rest) == [a] + Split(rest)
    decreases |a|
  {
    var s := a + "/" + rest;
    if a == "" {
      assert s[1..] == rest;
    } else {
      assert s[1..] == a[1..] + "/" + rest;
      SplitOfPart(a[1..], rest);
      assert [a[0]] + a[1..] == a;
    }
  }

  lemma {:induction false} SplitOfOne(a: string)
    requires '/' !in a
    ensures Split(a) == [a]
    decreases |a|
  {
    if a != "" {
      SplitOfOne(a[1..]);
      assert [a[0]] + a[1..] == a;
    }
  }

  /** Joining and splitting undo each other on parts without a slash. */
  lemma {:induction false} SplitJoin(parts: seq<string>)
    requires parts != [] && forall k | 0 <= k < |parts| :: '/' !in parts[k]
    ensures Split(Join(parts)) == parts
    decreases |parts|
  {
    if |parts| == 1 {
      SplitOfOne(parts[0]);
    } else {
      SplitJoin(parts[1..]);
      SplitOfPart(parts[0], Join(parts[1..]));
      assert parts == [parts[0]] + parts[1..];
    }
  }
}
