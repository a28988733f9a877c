/** URL handling: the trailing-slash strip of `site_info` and `update_description`,
    and the substring test the collection job uses to spot links. */
module Urls {

  predicate EndsWithSlash(s: string)
  {
    |s| > 0 && s[|s| - 1] == '/'
  }

  /** Removes one trailing '/', if there is one. */
  function StripTrailingSlash(url: string): (key: string)
    ensures EndsWithSlash(url) ==> key + "/" == url
    ensures !EndsWithSlash(url) ==> key == url
  {
    if EndsWithSlash(url) then url[..|url| - 1] else url
  }

  /** A URL and the same URL followed by one slash resolve to the same key. */
  lemma SlashFormsShareKey(url: string)
    requires !EndsWithSlash(url)
    ensures StripTrailingSlash(url + "/") == StripTrailingSlash(url) == url
  {
    assert (url + "/")[..|url|] == url;
  }

  /** The strip is not idempotent: it removes only one of several trailing slashes. */
  lemma StripIsNotIdempotent()
    ensures StripTrailingSlash(StripTrailingSlash("a//")) != StripTrailingSlash("a//")
  {
    assert StripTrailingSlash("a//") == "a/";
    assert StripTrailingSlash("a/") == "a";
  }

  /** `sub` occurs in `s` starting at index `i`. */
  ghost predicate OccursAt(s: string, sub: string, i: int)
  {
    0 <= i && i + |sub| <= |s| && s[i..i + |sub|] == sub
  }

  /** Python's `sub in s` on strings. */
  function Contains(s: string, sub: string): (b: bool)
    ensures b <==> exists i :: OccursAt(s, sub, i)
    decreases |s|
  {
    if |sub| > |s| then
      assert forall i :: !OccursAt(s, sub, i);
      false
    else if s[..|sub|] == sub then
      assert OccursAt(s, sub, 0);
      true
    else
      OccursAfterHead(s, sub);
      Contains(s[1..], sub)
  }

  /** When `sub` is not a prefix of `s`, it occurs in `s` exactly when it occurs in `s[1..]`. */
  lemma OccursAfterHead(s: string, sub: string)
    requires |sub| <= |s| && s[..|sub|] != sub
    ensures (exists i :: OccursAt(s, sub, i)) <==> (exists j :: OccursAt(s[1..], sub, j))
  {
    forall j | OccursAt(s[1..], sub, j)
      ensures OccursAt(s, sub, j + 1)
    {
      assert s[1..][j..j + |sub|] == s[j + 1..j + 1 + |sub|];
    }
    forall i | OccursAt(s, sub, i)
      ensures OccursAt(s[1..], sub, i - 1)
    {
      assert i != 0;
      assert s[1..][i - 1..i - 1 + |sub|] == s[i..i + |sub|];
    }
  }
}
