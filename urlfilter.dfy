/**
  `extension_is_valid`, the media-file test inside `filter_urls` of
  full.py: a URL is rejected when its case-folded text ends with one of a
  fixed list of extensions.
*/
module UrlFilter {

  /** `EXTS`, in the order the loop tries them. */
  const EXTS: seq<string> := ["jpg", "jpeg", "svg", "png", "pdf", "gif", "bmp", "mp3", "dvi"]

  /** `str.casefold` restricted to ASCII: upper-case letters become lower-case. */
  function CaseFold(s: string): (r: string)
    ensures |r| == |s|
  {
    seq(|s|, i requires 0 <= i < |s| => if 'A' <= s[i] <= 'Z' then (s[i] as int + 32) as char else s[i])
  }

  /** `str.endswith` */
  predicate EndsWith(s: string, suffix: string) {
    |suffix| <= |s| && s[|s| - |suffix|..] == suffix
  }

  /** The URL names a media file: its case-folded form ends with one of EXTS. */
  predicate IsMedia(url: string) {
    exists e | e in EXTS :: EndsWith(CaseFold(url), e)
  }

  /** `extension_is_valid(url)`: tries each extension in turn, returning False at the first match. */
  method ExtensionIsValid(url: string) returns (valid: bool)
    ensures valid <==> !IsMedia(url)
  {
    for i := 0 to |EXTS|
      invariant forall j | 0 <= j < i :: !EndsWith(CaseFold(url), EXTS[j])
    {
      if EndsWith(CaseFold(url), EXTS[i]) {
        return false;
      }
    }
    return true;
  }

  /** Case folding is idempotent, so the test ignores case: URL and folded URL agree. */
  lemma IsMediaIgnoresCase(url: string)
    ensures IsMedia(CaseFold(url)) == IsMedia(url)
  {
    assert CaseFold(CaseFold(url)) == CaseFold(url);
  }

  /**
    Every URL `filter_urls` builds ends with the '/' of its `profile/.../`
    pattern, and no extension ends with '/': such URLs are never rejected.
  */
  lemma SlashTerminatedIsNotMedia(url: string)
    requires |url| > 0 && url[|url| - 1] == '/'
    ensures !IsMedia(url)
  {
    forall e | e in EXTS
      ensures !EndsWith(CaseFold(url), e)
    {
      assert CaseFold(url)[|url| - 1] == '/';
      assert e[|e| - 1] != '/';
    }
  }

  /**
    The test is on the bare suffix: no dot is needed before the extension,
    so any name ending in "JPG" counts as media, whatever precedes it.
  */
  lemma SuffixWithoutDotIsMedia(prefix: string)
    ensures IsMedia(prefix + "JPG")
  {
    var u := prefix + "JPG";
    assert CaseFold(u)[|u| - 3..] == "jpg";
    assert EndsWith(CaseFold(u), EXTS[0]);
  }
}
