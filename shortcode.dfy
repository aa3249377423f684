/** extractShortCode: the last '/'-separated segment of a URL, with trailing
    '/' and ' ' characters trimmed. */
module ShortCode {
  import opened CodeGen

  /** The characters strings.TrimRight removes, the cutset "/ ". */
  const TrimSet: set<char> := {'/', ' '}

  /** The last element of strings.Split(s, "/"). It holds no '/'; the lemma
      LastSegmentIsSuffix says which suffix of s it is. */
  function LastSegment(s: string): (seg: string)
    ensures |seg| <= |s|
    ensures '/' !in seg
  {
    if s == [] then []
    else if s[|s| - 1] == '/' then []
    else LastSegment(s[..|s| - 1]) + [s[|s| - 1]]
  }

  /** strings.TrimRight(s, cutset): the longest prefix of s that does not end
      in a cutset character, after which s holds only cutset characters. */
  function TrimRight(s: string, cutset: set<char>): (t: string)
    ensures |t| <= |s| && t == s[..|t|]
    ensures t == [] || t[|t| - 1] !in cutset
    ensures forall i | |t| <= i < |s| :: s[i] in cutset
  {
    if s != [] && s[|s| - 1] in cutset then TrimRight(s[..|s| - 1], cutset) else s
  }

  /** extractShortCode (main.go). */
  function ExtractShortCode(shortUrl: string): (code: string)
    ensures '/' !in code
    ensures code == [] || code[|code| - 1] != ' '
  {
    TrimRight(LastSegment(shortUrl), TrimSet)
  }

  /** The last segment is the longest suffix of s free of '/': all of s, or
      the part after the last '/'. */
  lemma {:induction false} LastSegmentIsSuffix(s: string)
    ensures var seg := LastSegment(s);
            seg == s[|s| - |seg|..] && (|seg| == |s| || s[|s| - |seg| - 1] == '/')
  {
    if s != [] && s[|s| - 1] != '/' {
      var init := s[..|s| - 1];
      LastSegmentIsSuffix(init);
      var seg := LastSegment(init);
      assert s[|s| - |seg| - 1..] == init[|init| - |seg|..] + [s[|s| - 1]];
    }
  }

  /** A string without '/' is its own last segment. */
  lemma {:induction false} LastSegmentNoSlash(s: string)
    requires '/' !in s
    ensures LastSegment(s) == s
  {
    if s != [] {
      LastSegmentNoSlash(s[..|s| - 1]);
      assert s == s[..|s| - 1] + [s[|s| - 1]];
    }
  }

  /** After a '/', the last segment is whatever follows, when that has no '/'. */
  lemma LastSegmentAfterSlash(p: string, c: string)
    requires '/' !in c
    ensures LastSegment(p + "/" + c) == c
  {
    var s := p + "/" + c;
    var seg := LastSegment(s);
    LastSegmentIsSuffix(s);
    assert s[|p|] == '/';
    assert s[|p| + 1..] == c;
  }

  /** Extraction is idempotent: the frontend extracts the code from the
      node's reply and storeUrlMapping extracts it again, with no effect. */
  lemma ExtractIdempotent(s: string)
    ensures ExtractShortCode(ExtractShortCode(s)) == ExtractShortCode(s)
  {
    var code := ExtractShortCode(s);
    LastSegmentNoSlash(code);
  }

  /** Extraction recovers any code that holds no '/' and does not end in a
      space, from behind any prefix ending in '/'. */
  lemma ExtractAfterSlash(p: string, code: string)
    requires '/' !in code
    requires code == [] || code[|code| - 1] != ' '
    ensures ExtractShortCode(p + "/" + code) == code
  {
    LastSegmentAfterSlash(p, code);
  }

  /** Round trip: extracting from shortenUrl's result gives back the code. */
  lemma ExtractShortUrl(url: string)
    ensures ExtractShortCode(ShortUrl(url)) == Code(url)
  {
    CodeShape(url);
    var prefix := "http://localhost:8080";
    assert ShortUrl(url) == prefix + "/" + Code(url);
    ExtractAfterSlash(prefix, Code(url));
  }

  /** The '/' in the cutset never takes effect: a URL ending in '/' has an
      empty last segment, so its extracted code is empty. */
  lemma ExtractTrailingSlash(s: string)
    ensures ExtractShortCode(s + "/") == ""
  {
    assert (s + "/")[|s|] == '/';
  }
}
