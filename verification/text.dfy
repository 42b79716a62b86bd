/** Prefix and suffix stripping on strings: the readers that undo the fixed
    decorations the item renderer puts around a product's fields. */
module Text {
  import opened Wrappers

  /** The rest of `s` after `prefix`, or `None` when `s` does not start with it. */
  function StripPrefix(prefix: string, s: string): (r: Option<string>)
    ensures r.Some? <==> prefix <= s
    ensures r.Some? ==> s == prefix + r.value
  {
    if prefix <= s then
      assert s == prefix + s[|prefix|..];
      Some(s[|prefix|..])
    else
      None
  }

  /** The start of `s` before `suffix`, or `None` when `s` does not end with it. */
  function StripSuffix(suffix: string, s: string): (r: Option<string>)
    ensures r.Some? <==> |suffix| <= |s| && s[|s| - |suffix|..] == suffix
    ensures r.Some? ==> s == r.value + suffix
  {
    if |suffix| <= |s| && s[|s| - |suffix|..] == suffix then
      assert s == s[..|s| - |suffix|] + suffix;
      Some(s[..|s| - |suffix|])
    else
      None
  }

  /** Stripping a prefix that was just added gives the original text back. */
  lemma StripPrefixOfConcat(prefix: string, s: string)
    ensures StripPrefix(prefix, prefix + s) == Some(s)
  {
    assert (prefix + s)[|prefix|..] == s;
  }

  /** Stripping a suffix that was just added gives the original text back. */
  lemma StripSuffixOfConcat(suffix: string, s: string)
    ensures StripSuffix(suffix, s + suffix) == Some(s)
  {
    var t := s + suffix;
    assert t[|t| - |suffix|..] == suffix;
    assert t[..|t| - |suffix|] == s;
  }
}
