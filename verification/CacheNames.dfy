/** Names of entries and of staging directories in `cli/src/download_cache.rs`. */
module CacheNames {

  const MARKER := ".staging-"

  predicate HasMarker(s: string) {
    exists i | 0 <= i <= |s| :: MARKER <= s[i..]
  }

  /** An entry name in which the staging marker does not occur. */
  predicate Plain(name: string) {
    !HasMarker(name)
  }

  function StagingName(name: string, id: string): string {
    name + MARKER + id
  }

  /** `path` is a staging directory of `name`; a UUID holds no dot. */
  predicate IsStaging(path: string, name: string) {
    name + MARKER <= path && '.' !in path[|name| + |MARKER|..]
  }

  lemma StagingNameIs(name: string, id: string)
    requires '.' !in id
    ensures IsStaging(StagingName(name, id), name)
  {
  }

  /** The prefix used for reaping `name` matches a staging directory of `other` exactly when the names
      are equal or `other` itself continues the prefix. */
  lemma PrefixMatches(name: string, other: string, path: string)
    requires IsStaging(path, other)
    ensures name + MARKER <= path <==> name == other || name + MARKER <= other
  {
    assert other == path[..|other|] && MARKER <= path[|other|..];
    NoLaterMarker(path, |other| + |MARKER|, |name|);
    if name + MARKER <= path {
      assert name == path[..|name|] && MARKER <= path[|name|..];
      MarkersApart(path, |name|, |other|);
      MarkersApart(path, |other|, |name|);
      if |name| < |other| { assert other[..|name| + |MARKER|] == path[..|name| + |MARKER|] == name + MARKER; }
    }
  }

  /** Two occurrences of the marker do not overlap, for only its first character is a dot. */
  lemma MarkersApart(s: string, i: nat, j: nat)
    requires i <= |s| && j <= |s| && MARKER <= s[i..] && MARKER <= s[j..]
    ensures i < j ==> i + |MARKER| <= j
  {
    assert s[i..][..|MARKER|] == MARKER && s[j] == MARKER[0];
    assert forall k | 0 <= k < |MARKER| :: s[i + k] == MARKER[k];
  }

  lemma NoLaterMarker(s: string, k: nat, i: nat)
    requires k <= |s| && '.' !in s[k..]
    ensures k <= i <= |s| ==> !(MARKER <= s[i..])
  {
    if k <= i < |s| { assert s[i] == s[k..][i - k]; }
  }

  /** For entry names without the marker the match means the same name. */
  lemma PlainPrefixMatches(name: string, other: string, path: string)
    requires Plain(other) && IsStaging(path, other)
    ensures name + MARKER <= path <==> name == other
  {
    PrefixMatches(name, other, path);
    PrefixMarks(name, other);
  }

  lemma PrefixMarks(name: string, path: string)
    ensures name + MARKER <= path ==> HasMarker(path)
  {
    if name + MARKER <= path { assert MARKER <= path[|name|..]; }
  }

  /** With the marker inside an entry name the match goes wrong: reaping `a` hits a staging directory
      of the entry `a.staging-b`. */
  lemma MarkedNameIsReaped()
    ensures var other := "a.staging-b";
            "a" != other && "a" + MARKER <= StagingName(other, "1") && IsStaging(StagingName(other, "1"), other)
  {
  }
}
