/**
 * `getHostName(url)` of script.js: the host part of a story's URL, shown next to its title.
 * A URL with "://" anywhere takes the third `/`-separated piece, any other URL the first;
 * one leading "www." is then cut off.  Nothing is validated: every string has a host name.
 */
module HostNames {
  import opened JsStrings

  const SchemeMarker: string := "://"
  const WwwPrefix: string := "www."

  /** "://" in `url` puts at least two slashes in it, so splitting on `/` gives three pieces. */
  lemma SchemeYieldsThreeSegments(url: string)
    requires IndexOf(url, SchemeMarker) > -1
    ensures |Split(url, '/')| >= 3
  {
    var j := IndexOf(url, SchemeMarker);
    assert url[j + 1] == url[j..j + 3][1] && url[j + 2] == url[j..j + 3][2];
    NextSepAtMost(url, '/', 0, j + 1);
    var first := NextSep(url, '/', 0);
    NextSepAtMost(url, '/', first + 1, j + 2);
    SplitFromCons(url, '/', 0);
    SplitFromCons(url, '/', first + 1);
  }

  /** The host before "www." is removed: piece 2 or piece 0 of `url.split("/")`. */
  function PreStripHost(url: string): (h: string)
    ensures '/' !in h
    ensures |h| <= |url|
  {
    var parts := Split(url, '/');
    if IndexOf(url, SchemeMarker) > -1 then
      SchemeYieldsThreeSegments(url);
      PieceAt(url, '/', 2);
      parts[2]
    else
      PieceAt(url, '/', 0);
      parts[0]
  }

  /** `if (h.slice(0, 4) === "www.") h = h.slice(4)`. */
  function StripWww(h: string): (r: string)
    ensures |r| <= |h| && r == h[|h| - |r|..]
  {
    if Slice(h, 0, 4) == WwwPrefix then SliceFrom(h, 4) else h
  }

  /** `getHostName(url)`. */
  function GetHostName(url: string): (host: string)
    ensures '/' !in host
    ensures |host| <= |url|
  {
    StripWww(PreStripHost(url))
  }

  /**
   * With "://" present, the pre-strip host is the stretch of `url` that starts right after
   * its second `/` and runs up to the next `/` or to the end.  That is what follows
   * "scheme://" only when no `/` comes before the "://"; otherwise it may even be empty.
   */
  lemma HostAfterScheme(url: string)
    requires IndexOf(url, SchemeMarker) > -1
    ensures var h := PreStripHost(url);
      exists o :: OccursAt(url, h, o) && 0 < o && url[o - 1] == '/'
        && Count(url[..o], '/') == 2 && (o + |h| == |url| || url[o + |h|] == '/')
  {
    var h := PreStripHost(url);
    SchemeHostIsThirdPiece(url);
    var o := ThirdPieceOccurs(url);
    assert OccursAt(url, h, o) && 0 < o && url[o - 1] == '/'
      && Count(url[..o], '/') == 2 && (o + |h| == |url| || url[o + |h|] == '/');
  }

  /** With "://" present, the pre-strip host is piece 2. */
  lemma SchemeHostIsThirdPiece(url: string)
    requires IndexOf(url, SchemeMarker) > -1
    ensures |Split(url, '/')| >= 3 && PreStripHost(url) == Split(url, '/')[2]
  {
    SchemeYieldsThreeSegments(url);
  }

  /** Piece 2 of `url.split("/")` sits right after the second `/`, up to a `/` or the end. */
  lemma ThirdPieceOccurs(url: string) returns (o: nat)
    requires |Split(url, '/')| >= 3
    ensures var h := Split(url, '/')[2];
      OccursAt(url, h, o) && 0 < o && url[o - 1] == '/'
        && Count(url[..o], '/') == 2 && (o + |h| == |url| || url[o + |h|] == '/')
  {
    var h := Split(url, '/')[2];
    PieceAt(url, '/', 2);
    o := SegmentStart(url, '/', 2);
    assert h == url[o..NextSep(url, '/', o)];
    assert o + |h| == NextSep(url, '/', o);
  }

  /**
   * Without "://", the pre-strip host is the text before the first `/`: a prefix of `url`
   * followed by `/` or by the end, and the whole of `url` when it has no `/`.
   */
  lemma HostWithoutScheme(url: string)
    requires IndexOf(url, SchemeMarker) == -1
    ensures var h := PreStripHost(url);
      && h == url[..|h|]
      && (|h| == |url| || url[|h|] == '/')
      && ('/' !in url ==> h == url)
  {
    var h := PreStripHost(url);
    PieceAt(url, '/', 0);
    assert h == url[..NextSep(url, '/', 0)];
    if '/' !in url {
      assert NextSep(url, '/', 0) == |url|;
    }
  }

  /**
   * Exactly one leading "www." is removed; a host that does not start with "www."
   * (a host shorter than four characters included) is returned unchanged.
   */
  lemma StripWwwRemovesOnePrefix(h: string)
    ensures |h| >= 4 && h[..4] == WwwPrefix ==> StripWww(h) == h[4..]
    ensures !(|h| >= 4 && h[..4] == WwwPrefix) ==> StripWww(h) == h
  {
    if |h| < 4 {
      assert |Slice(h, 0, 4)| < 4;
    }
  }

  /** Removing "www." undoes putting it in front. */
  lemma StripWwwAfterPrefix(h: string)
    ensures StripWww(WwwPrefix + h) == h
  {
    var w := WwwPrefix + h;
    assert w[..4] == WwwPrefix;
    assert w[4..] == h;
  }

  /** Only one "www." goes: the strip is not idempotent. */
  lemma StripWwwOnlyOnce()
    ensures StripWww("www.www.x") == "www.x"
    ensures StripWww(StripWww("www.www.x")) == "x"
  {
    StripWwwAfterPrefix("www.x");
    assert "www.www.x" == WwwPrefix + "www.x";
    StripWwwAfterPrefix("x");
    assert "www.x" == WwwPrefix + "x";
  }

  /** A suffix of a piece of `s` is a piece of `s`. */
  lemma SuffixOccurs(s: string, h: string, o: nat, r: string)
    requires OccursAt(s, h, o) && |r| <= |h| && r == h[|h| - |r|..]
    ensures OccursAt(s, r, o + |h| - |r|)
  {
    assert s[o + |h| - |r|..o + |h|] == s[o..o + |h|][|h| - |r|..];
  }

  /** The host name is a contiguous piece of the URL. */
  lemma HostNameIsSubstring(url: string)
    ensures exists i :: OccursAt(url, GetHostName(url), i)
  {
    var h := PreStripHost(url);
    var o: nat;
    if IndexOf(url, SchemeMarker) > -1 {
      HostAfterScheme(url);
      o :| OccursAt(url, h, o);
    } else {
      HostWithoutScheme(url);
      o := 0;
    }
    assert OccursAt(url, h, o);
    SuffixOccurs(url, h, o, GetHostName(url));
  }

  /** The usual case: "http://a.com/x" has host name "a.com". */
  lemma GetHostNameExample()
    ensures GetHostName("http://a.com/x") == "a.com"
  {
    PreStripHostExample();
    StripWwwRemovesOnePrefix("a.com");
    assert "a.com"[0] != WwwPrefix[0];
  }

  lemma SchemeInExample()
    ensures IndexOf("http://a.com/x", SchemeMarker) > -1
  {
    assert OccursAt("http://a.com/x", SchemeMarker, 4);
  }

  /**
   * Exactly one `/` before the "://": the second `/` is the first one of "://", and the host
   * is empty.
   */
  lemma EmptyHostExample()
    ensures GetHostName("a.com/r?u=http://x") == ""
  {
    var url := "a.com/r?u=http://x";
    assert OccursAt(url, SchemeMarker, 14);
    var parts := ["a.com", "r?u=http:", "", "x"];
    assert Join(parts, '/') == url by {
      assert parts[1..] == ["r?u=http:", "", "x"];
      assert parts[1..][1..] == ["", "x"];
      assert parts[1..][1..][1..] == ["x"];
    }
    SplitJoin(parts, '/');
    StripWwwRemovesOnePrefix("");
  }

  /** Two `/` before the "://": piece 2 lies before the "://" and keeps its ':'. */
  lemma EarlySlashesExample()
    ensures GetHostName("a/b/c://x") == "c:"
  {
    var url := "a/b/c://x";
    assert OccursAt(url, SchemeMarker, 5);
    var parts := ["a", "b", "c:", "", "x"];
    assert Join(parts, '/') == url by {
      assert parts[1..] == ["b", "c:", "", "x"];
      assert parts[1..][1..] == ["c:", "", "x"];
      assert parts[1..][1..][1..] == ["", "x"];
      assert parts[1..][1..][1..][1..] == ["x"];
    }
    SplitJoin(parts, '/');
    StripWwwRemovesOnePrefix("c:");
  }

  lemma PreStripHostExample()
    ensures PreStripHost("http://a.com/x") == "a.com"
  {
    SchemeInExample();
    SplitExample();
  }
}
