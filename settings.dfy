/** The `database_url` validator shared by both generations of the service's
    settings: Heroku-style `postgres://` URLs are rewritten to the
    `postgresql://` scheme SQLAlchemy accepts. */
module Settings {
  import opened Base
  import opened Strings

  const LegacyScheme := "postgres://"
  const Scheme := "postgresql://"

  /** `s.replace(pattern, replacement, 1)`: the first occurrence of `pattern` is replaced. */
  function ReplaceFirst(s: string, pattern: string, replacement: string): (r: string)
    requires pattern != []
    ensures !Contains(s, pattern) ==> r == s
    decreases |s|
  {
    if |s| < |pattern| then s
    else if s[..|pattern|] == pattern then replacement + s[|pattern|..]
    else [s[0]] + ReplaceFirst(s[1..], pattern, replacement)
  }

  /** `pattern` occurs in `s` starting at index `i`. */
  predicate OccursAt(s: string, pattern: string, i: nat)
  {
    i + |pattern| <= |s| && s[i..i + |pattern|] == pattern
  }

  /** `ReplaceFirst` replaces the first occurrence and keeps the text on both
      sides of it. */
  lemma {:induction false} ReplaceFirstAt(s: string, pattern: string, replacement: string, i: nat)
    requires pattern != []
    requires OccursAt(s, pattern, i)
    requires forall j: nat :: j < i ==> !OccursAt(s, pattern, j)
    ensures ReplaceFirst(s, pattern, replacement) == s[..i] + replacement + s[i + |pattern|..]
    decreases i
  {
    if i == 0 {
      assert s[..|pattern|] == pattern;
    } else {
      assert !OccursAt(s, pattern, 0);
      assert s[..|pattern|] != pattern;
      var t := s[1..];
      OccursAfterFirst(s, pattern, i);
      ReplaceFirstAt(t, pattern, replacement, i - 1);
      var before, after := t[..i - 1], t[i - 1 + |pattern|..];
      assert [s[0]] + before == s[..i];
      assert after == s[i + |pattern|..];
      calc {
        ReplaceFirst(s, pattern, replacement);
        [s[0]] + ReplaceFirst(t, pattern, replacement);
        [s[0]] + (before + replacement + after);
        ([s[0]] + before) + replacement + after;
      }
    }
  }

  /** Dropping the first character shifts every occurrence one place left. */
  lemma OccursAfterFirst(s: string, pattern: string, i: nat)
    requires i > 0 && OccursAt(s, pattern, i)
    requires forall j: nat :: j < i ==> !OccursAt(s, pattern, j)
    ensures OccursAt(s[1..], pattern, i - 1)
    ensures forall j: nat :: j < i - 1 ==> !OccursAt(s[1..], pattern, j)
  {
    var t := s[1..];
    assert t[i - 1..i - 1 + |pattern|] == s[i..i + |pattern|];
    forall j: nat | j < i - 1
      ensures !OccursAt(t, pattern, j)
    {
      assert !OccursAt(s, pattern, j + 1);
      if j + |pattern| <= |t| {
        assert t[j..j + |pattern|] == s[j + 1..j + 1 + |pattern|];
      }
    }
  }

  /** `Settings.fix_database_url`; `None` passes through. */
  function FixDatabaseUrl(value: Option<string>): (r: Option<string>)
    ensures value.None? ==> r.None?
    ensures value.Some? && StartsWith(value.value, LegacyScheme) ==>
      r == Some(Scheme + value.value[|LegacyScheme|..])
    ensures value.Some? && !StartsWith(value.value, LegacyScheme) ==> r == value
  {
    if value.Some? && StartsWith(value.value, LegacyScheme) then
      Some(ReplaceFirst(value.value, LegacyScheme, Scheme))
    else value
  }

  /** The rewritten URL keeps everything after the scheme and is two characters longer. */
  lemma FixPreservesRest(url: string)
    requires StartsWith(url, LegacyScheme)
    ensures FixDatabaseUrl(Some(url)).Some?
    ensures |FixDatabaseUrl(Some(url)).value| == |url| + 2
    ensures FixDatabaseUrl(Some(url)).value[|Scheme|..] == url[|LegacyScheme|..]
  {
  }

  /** No URL comes out with the `postgres://` scheme. */
  lemma FixNeverLegacy(value: Option<string>)
    ensures FixDatabaseUrl(value).Some? ==> !StartsWith(FixDatabaseUrl(value).value, LegacyScheme)
  {
    var r := FixDatabaseUrl(value);
    if value.Some? && StartsWith(value.value, LegacyScheme) {
      assert r.value[8] == 'q' && LegacyScheme[8] == ':';
    }
  }

  /** Applying the validator twice is the same as applying it once. */
  lemma FixIdempotent(value: Option<string>)
    ensures FixDatabaseUrl(FixDatabaseUrl(value)) == FixDatabaseUrl(value)
  {
    FixNeverLegacy(value);
  }
}
