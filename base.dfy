/** Values shared by the task runner and the release job extension: optional and
    failing results, the exceptions the two components raise or observe, and the
    handful of .NET string operations their decisions depend on. */
module Base {

  datatype Option<+T> = None | Some(value: T) {
    /** `x ?? d` */
    function GetOr(default: T): T {
      match this
      case Some(v) => v
      case None => default
    }
  }

  datatype Result<+T, +E> = Ok(value: T) | Err(error: E)

  /** A .NET string reference: `None` is `null`. */
  type NString = Option<string>

  /** `string.IsNullOrEmpty` */
  predicate IsNullOrEmpty(s: NString) {
    s.None? || s.value == ""
  }

  /** The exceptions that decide control flow in the modelled code. */
  datatype Exn =
    | ArgumentError(param: string)          // ArgUtil.NotNull/NotNullOrEmpty, or null passed to a framework call
    | NullableWithoutValue                  // `.Value` read on a null `bool?`
    | NullReference                         // member access through a null reference
    | KeyNotFound(key: string)              // dictionary indexer read of an absent key
    | SupportedTaskHandlerNotFound          // no handler for the stage
    | ArtifactTypeNotSupported              // no artifact extension for the artifact's type
    | DirectoryNotFound
    | UnauthorizedAccess
    | ArtifactCleanupFailed(path: string, inner: Exn)
    | ArtifactDownloadFailed(reason: string)  // ArtifactDownloadException
    | InvalidPath                           // Path.GetFullPath refused its argument
    | MalformedJson                         // JSON deserialisation failed or produced null
    | Other(name: string)                   // any other exception (I/O, network, ...)

  // ---------------------------------------------------------------------------
  // Ordinal case-insensitive comparison (StringComparison.OrdinalIgnoreCase)

  /** Upper-cases ASCII letters; every other character is its own case fold here. */
  function FoldChar(c: char): char {
    if 'a' <= c <= 'z' then (c as int - 32) as char else c
  }

  function Fold(s: string): (r: string)
    ensures |r| == |s|
    ensures forall i :: 0 <= i < |s| ==> r[i] == FoldChar(s[i])
  {
    seq(|s|, i requires 0 <= i < |s| => FoldChar(s[i]))
  }

  predicate EqualsIgnoreCase(a: string, b: string) {
    Fold(a) == Fold(b)
  }

  /** `string.Equals(a, b, OrdinalIgnoreCase)` on possibly-null strings. */
  predicate NEqualsIgnoreCase(a: NString, b: string) {
    a.Some? && EqualsIgnoreCase(a.value, b)
  }

  // ---------------------------------------------------------------------------
  // Trimming (string.Trim() and string.Trim(char))

  /** The characters `char.IsWhiteSpace` accepts. */
  const WhiteSpace: set<char> := {
    '\U{0009}', '\U{000A}', '\U{000B}', '\U{000C}', '\U{000D}', '\U{0020}', '\U{0085}', '\U{00A0}',
    '\U{1680}', '\U{2000}', '\U{2001}', '\U{2002}', '\U{2003}', '\U{2004}', '\U{2005}', '\U{2006}',
    '\U{2007}', '\U{2008}', '\U{2009}', '\U{200A}', '\U{2028}', '\U{2029}', '\U{202F}', '\U{205F}',
    '\U{3000}'
  }

  /** Drops the longest prefix made of characters in `trimmed`. */
  function TrimStart(s: string, trimmed: set<char>): (r: string)
    ensures |r| <= |s| && r == s[|s| - |r|..]
    ensures r != [] ==> r[0] !in trimmed
    ensures forall k :: 0 <= k < |s| - |r| ==> s[k] in trimmed
    decreases |s|
  {
    if |s| > 0 && s[0] in trimmed then TrimStart(s[1..], trimmed) else s
  }

  /** Drops the longest suffix made of characters in `trimmed`. */
  function TrimEnd(s: string, trimmed: set<char>): (r: string)
    ensures |r| <= |s| && r == s[..|r|]
    ensures r != [] ==> r[|r| - 1] !in trimmed
    ensures forall k :: |r| <= k < |s| ==> s[k] in trimmed
    decreases |s|
  {
    if |s| > 0 && s[|s| - 1] in trimmed then TrimEnd(s[..|s| - 1], trimmed) else s
  }

  function TrimChars(s: string, trimmed: set<char>): string {
    TrimEnd(TrimStart(s, trimmed), trimmed)
  }

  /** `s.Trim()` */
  function Trim(s: string): string {
    TrimChars(s, WhiteSpace)
  }

  /** `s?.Trim() ?? string.Empty` */
  function TrimOrEmpty(s: NString): string {
    if s.None? then "" else Trim(s.value)
  }

  /** `r` is `s[i..j]`, and everything outside that slice is in `trimmed`. */
  predicate TrimmedSlice(s: string, r: string, trimmed: set<char>, i: int, j: int) {
    && 0 <= i <= j <= |s| && r == s[i..j]
    && (forall k :: 0 <= k < i ==> s[k] in trimmed)
    && (forall k :: j <= k < |s| ==> s[k] in trimmed)
  }

  lemma TrimStartStable(r: string, trimmed: set<char>)
    requires r != [] ==> r[0] !in trimmed
    ensures TrimStart(r, trimmed) == r
  {
  }

  lemma TrimEndStable(r: string, trimmed: set<char>)
    requires r != [] ==> r[|r| - 1] !in trimmed
    ensures TrimEnd(r, trimmed) == r
  {
  }

  /** Trimming removes characters only at the two ends, only characters of the trimmed
      set, and leaves no such character at either end; trimming again changes nothing. */
  lemma {:induction false} TrimCharsIsCore(s: string, trimmed: set<char>)
    ensures var r := TrimChars(s, trimmed);
      && (exists i, j :: TrimmedSlice(s, r, trimmed, i, j))
      && (r != [] ==> r[0] !in trimmed && r[|r| - 1] !in trimmed)
      && TrimChars(r, trimmed) == r
  {
    var a := TrimStart(s, trimmed);
    var r := TrimEnd(a, trimmed);
    assert r == TrimChars(s, trimmed);
    var i := |s| - |a|;
    var j := i + |r|;
    assert a == s[i..] && r == a[..|r|];
    forall k | j <= k < |s|
      ensures s[k] in trimmed
    {
      assert s[k] == a[k - i];
    }
    assert TrimmedSlice(s, r, trimmed, i, j);
    if r != [] {
      assert r[0] == a[0];
    }
    TrimStartStable(r, trimmed);
    TrimEndStable(r, trimmed);
  }

  /** `t` is `s` stripped of the characters of `trimmed` at both ends: a slice of `s`
      with only such characters outside it and none at either of its own ends. */
  ghost predicate StrippedOf(s: string, t: string, trimmed: set<char>) {
    && (exists i, j :: TrimmedSlice(s, t, trimmed, i, j))
    && (t != [] ==> t[0] !in trimmed && t[|t| - 1] !in trimmed)
  }

  /** `t` is what `s?.Trim() ?? string.Empty` must give: "" for null, else `s` stripped
      of white space at both ends. */
  ghost predicate Stripped(s: NString, t: string) {
    if s.None? then t == "" else StrippedOf(s.value, t, WhiteSpace)
  }

  /** `s` is non-null and has a character other than white space. */
  predicate HasNonSpace(s: NString) {
    s.Some? && exists k :: 0 <= k < |s.value| && s.value[k] !in WhiteSpace
  }

  /** Null-tolerant trimming strips the white space at both ends, and gives "" exactly
      when there is no other character. */
  lemma TrimOrEmptyStrips(s: NString)
    ensures Stripped(s, TrimOrEmpty(s))
    ensures TrimOrEmpty(s) == "" <==> !HasNonSpace(s)
  {
    if s.Some? {
      TrimCharsIsCore(s.value, WhiteSpace);
      StrippedEmptyIffAllTrimmed(s.value, TrimOrEmpty(s), WhiteSpace);
    }
  }

  /** `TrimChars` strips exactly the characters of its set from both ends. */
  lemma TrimCharsStrips(s: string, trimmed: set<char>)
    ensures StrippedOf(s, TrimChars(s, trimmed), trimmed)
  {
    TrimCharsIsCore(s, trimmed);
  }

  /** A stripped string is empty exactly when every character was stripped. */
  lemma StrippedEmptyIffAllTrimmed(s: string, t: string, trimmed: set<char>)
    requires StrippedOf(s, t, trimmed)
    ensures t == "" <==> forall k :: 0 <= k < |s| ==> s[k] in trimmed
  {
    var i, j :| TrimmedSlice(s, t, trimmed, i, j);
    if t == "" {
      forall k | 0 <= k < |s|
        ensures s[k] in trimmed
      {
        assert k < i || j <= k;
      }
    } else {
      assert s[i] == t[0];
    }
  }

  // ---------------------------------------------------------------------------
  // Subsequences

  /** `a` can be obtained from `b` by deleting elements. */
  predicate IsSubsequence<T(==)>(a: seq<T>, b: seq<T>)
    decreases |b|
  {
    if a == [] then true
    else if b == [] then false
    else (a[0] == b[0] && IsSubsequence(a[1..], b[1..])) || IsSubsequence(a, b[1..])
  }

  /** Appending to the longer sequence keeps a subsequence, with or without the same
      element appended to the shorter one. */
  lemma {:induction false} SubsequenceSnoc<T>(a: seq<T>, b: seq<T>, x: T)
    requires IsSubsequence(a, b)
    ensures IsSubsequence(a + [x], b + [x])
    ensures IsSubsequence(a, b + [x])
    decreases |b|
  {
    if b == [] {
      assert a == [];
      assert (a + [x])[1..] == [];
    } else {
      assert (b + [x])[1..] == b[1..] + [x];
      if a == [] {
        SubsequenceSnoc(a, b[1..], x);
        assert a + [x] == [x];
      } else {
        assert (a + [x])[0] == a[0] && (a + [x])[1..] == a[1..] + [x];
        if a[0] == b[0] && IsSubsequence(a[1..], b[1..]) {
          SubsequenceSnoc(a[1..], b[1..], x);
        } else {
          SubsequenceSnoc(a, b[1..], x);
        }
      }
    }
  }
}
