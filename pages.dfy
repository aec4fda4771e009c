/**
 * Resolution of the current location's path to the name of the page the
 * layout highlights: one trailing '/' is dropped, the last path segment is
 * taken without its query part, and it is matched case-insensitively
 * against the page names in declaration order, the first page being the
 * fallback.
 */
module Pages {
  import opened Common

  /** The keys of the page table, in declaration order. */
  const PageNames: seq<string> := [
    "ExecutiveDashboard", "RevenueAnalytics", "AlertsInsights", "DataIntegration",
    "ProductAnalytics", "CustomerHealth", "Account360", "RegionalDashboard",
    "HtmlExport", "DeveloperDocumentation", "DataUploader"
  ]

  /** `if (url.endsWith('/')) url = url.slice(0, -1)`. */
  function StripTrailingSlash(url: string): (r: string)
    ensures url != [] && url[|url| - 1] == '/' ==> url == r + "/"
    ensures url == [] || url[|url| - 1] != '/' ==> r == url
  {
    if url != [] && url[|url| - 1] == '/' then url[..|url| - 1] else url
  }

  /**
   * `s.split('/').pop()`: the longest suffix of s without a '/', which is
   * the whole of s or is preceded by a '/'.
   */
  function LastSegment(s: string): (segment: string)
    ensures |segment| <= |s|
    ensures '/' !in segment
    ensures '/' !in s ==> segment == s
    decreases |s|
  {
    if s == [] then []
    else if s[|s| - 1] == '/' then []
    else LastSegment(s[..|s| - 1]) + [s[|s| - 1]]
  }

  lemma {:induction false} LastSegmentIsSlashFreeSuffix(s: string)
    ensures '/' !in LastSegment(s)
    ensures |LastSegment(s)| <= |s| && s[|s| - |LastSegment(s)|..] == LastSegment(s)
    ensures |LastSegment(s)| == |s| || s[|s| - |LastSegment(s)| - 1] == '/'
    decreases |s|
  {
    if s != [] && s[|s| - 1] != '/' {
      var init := s[..|s| - 1];
      LastSegmentIsSlashFreeSuffix(init);
      var r0 := LastSegment(init);
      assert LastSegment(s) == r0 + [s[|s| - 1]];
      assert s[|s| - |r0| - 1..] == init[|init| - |r0|..] + [s[|s| - 1]];
    }
  }

  /**
   * `s.split('?')[0]`: the longest prefix of s without a '?', which is the
   * whole of s or is followed by a '?'.
   */
  function BeforeQuery(s: string): (r: string)
    ensures '?' !in r
    ensures r <= s
    ensures |r| == |s| || s[|r|] == '?'
    decreases |s|
  {
    if s == [] then []
    else if s[0] == '?' then []
    else [s[0]] + BeforeQuery(s[1..])
  }

  /** The segment `_getCurrentPage` looks up: the last segment, cut at its first '?'. */
  function PageSegment(url: string): (seg: string)
    ensures '/' !in seg && '?' !in seg
  {
    var last := LastSegment(StripTrailingSlash(url));
    LastSegmentIsSlashFreeSuffix(StripTrailingSlash(url));
    if '?' in last then BeforeQuery(last) else last
  }

  /**
   * `names.find(page => page.toLowerCase() === target)`, as the index of the
   * first name whose lower-case form is target.
   */
  function FindPage(names: seq<string>, target: string): (r: Option<nat>)
    ensures r.Some? ==> r.value < |names| && ToLower(names[r.value]) == target
    ensures r.Some? ==> forall j :: 0 <= j < r.value ==> ToLower(names[j]) != target
    ensures r.None? ==> forall j :: 0 <= j < |names| ==> ToLower(names[j]) != target
    decreases |names|
  {
    if names == [] then None
    else if ToLower(names[0]) == target then Some(0)
    else match FindPage(names[1..], target) {
      case None => None
      case Some(i) => Some(i + 1)
    }
  }

  /**
   * `_getCurrentPage(url)`: the first page whose name equals the segment up
   * to letter case, or the first page when none does.
   */
  function CurrentPage(url: string): (r: string)
    ensures r in PageNames
    ensures (exists i :: 0 <= i < |PageNames| && ToLower(PageNames[i]) == ToLower(PageSegment(url)))
            <==> ToLower(r) == ToLower(PageSegment(url))
    ensures ToLower(r) != ToLower(PageSegment(url)) ==> r == PageNames[0]
  {
    match FindPage(PageNames, ToLower(PageSegment(url))) {
      case Some(i) => PageNames[i]
      case None => PageNames[0]
    }
  }

  /** Which page a lower-cased page name is, read off its first, second, third and fifth letters. */
  function NameIndex(l: string): nat
    requires |l| >= 5
  {
    if l[0] == 'e' then 0
    else if l[0] == 'r' then (if l[2] == 'v' then 1 else 7)
    else if l[0] == 'a' then (if l[2] == 'e' then 2 else 6)
    else if l[0] == 'd' then (if l[1] == 'e' then 9 else if l[4] == 'i' then 3 else 10)
    else if l[0] == 'p' then 4
    else if l[0] == 'c' then 5
    else 8
  }

  lemma NameIndexOfPage(k: nat)
    requires k < |PageNames|
    ensures |ToLower(PageNames[k])| >= 5 && NameIndex(ToLower(PageNames[k])) == k
  {
    var s := PageNames[k];
    var l := ToLower(s);
    assert |s| >= 5;
    assert l[0] == LowerChar(s[0]) && l[1] == LowerChar(s[1]) && l[2] == LowerChar(s[2]) && l[4] == LowerChar(s[4]);
  }

  /** Spelled in lower case, no two page names coincide. */
  lemma LowerPageNamesDistinct(i: nat, j: nat)
    requires i < j < |PageNames|
    ensures ToLower(PageNames[i]) != ToLower(PageNames[j])
  {
    NameIndexOfPage(i);
    NameIndexOfPage(j);
  }

  /**
   * A segment that spells a page name, in any letter case, resolves to that
   * page, after a leading path and whatever query string.
   */
  lemma NameResolvesInAnyCase(prefix: string, seg: string, i: nat)
    requires i < |PageNames|
    requires '/' !in seg && '?' !in seg
    requires ToLower(seg) == ToLower(PageNames[i])
    ensures CurrentPage(prefix + "/" + seg) == PageNames[i]
  {
    var url := prefix + "/" + seg;
    assert |seg| == |PageNames[i]| > 0 by {
      PageNamesInitials();
    }
    assert StripTrailingSlash(url) == url by {
      assert url[|url| - 1] == seg[|seg| - 1];
    }
    assert LastSegment(url) == seg by {
      SegmentAfterSlash(prefix, seg);
    }
    assert PageSegment(url) == seg;
    var r := FindPage(PageNames, ToLower(seg));
    if r.Some? && r.value != i {
      if r.value < i {
        LowerPageNamesDistinct(r.value, i);
      }
      assert false;
    }
  }

  /** The last segment of `prefix + "/" + seg` is seg when seg holds no '/'. */
  lemma {:induction false} SegmentAfterSlash(prefix: string, seg: string)
    requires '/' !in seg
    ensures LastSegment(prefix + "/" + seg) == seg
  {
    var p := prefix + "/";
    assert LastSegment(p) == [] by {
      assert p[|p| - 1] == '/';
    }
    LastSegmentAppend(p, seg);
  }

  /** Every page name is non-empty and starts with one of the capitals E, R, A, D, P, C, H. */
  lemma PageNamesInitials()
    ensures forall k :: 0 <= k < |PageNames| ==> |PageNames[k]| > 0 && PageNames[k][0] in "ERADPCH"
  {
  }

  /** The segment of `"/" + seg` is seg itself when seg holds no '/' or '?'. */
  lemma SegmentOfPath(seg: string)
    requires '/' !in seg && '?' !in seg
    ensures PageSegment("/" + seg) == seg
  {
    var url := "/" + seg;
    if seg == [] {
      assert StripTrailingSlash(url) == "";
    } else {
      assert url[|url| - 1] == seg[|seg| - 1];
      assert StripTrailingSlash(url) == url;
      SegmentAfterSlash("", seg);
      assert "" + "/" + seg == url;
    }
  }

  /** A segment that is empty or starts with the letter n matches no page. */
  lemma NoPageMatches(seg: string)
    requires '/' !in seg && '?' !in seg
    requires seg == [] || seg[0] in "Nn"
    ensures CurrentPage("/" + seg) == "ExecutiveDashboard"
  {
    SegmentOfPath(seg);
    assert forall k :: 0 <= k < |PageNames| ==> ToLower(PageNames[k]) != ToLower(seg) by {
      NoNameStartsWithN(seg);
    }
  }

  lemma NoNameStartsWithN(seg: string)
    requires seg == [] || seg[0] in "Nn"
    ensures forall k :: 0 <= k < |PageNames| ==> ToLower(PageNames[k]) != ToLower(seg)
  {
    forall k | 0 <= k < |PageNames|
      ensures ToLower(PageNames[k]) != ToLower(seg)
    {
      PageNamesInitials();
      if seg != [] {
        assert ToLower(seg)[0] == 'n';
        assert ToLower(PageNames[k])[0] == LowerChar(PageNames[k][0]);
      }
    }
  }

  /** The root path falls back to the first page. */
  lemma RootResolvesToDefault()
    ensures CurrentPage("/") == "ExecutiveDashboard"
  {
    NoPageMatches("");
    assert "/" + "" == "/";
  }

  /** One trailing '/' is dropped: a path and the same path with a '/' appended resolve alike. */
  lemma TrailingSlashIgnored(url: string)
    requires url == [] || url[|url| - 1] != '/'
    ensures CurrentPage(url + "/") == CurrentPage(url)
  {
    var slashed := url + "/";
    assert PageSegment(slashed) == PageSegment(url) by {
      assert slashed[..|url|] == url;
      assert StripTrailingSlash(slashed) == url;
    }
  }

  /**
   * Only one '/' is dropped: with two, the last segment is empty and the
   * page is the fallback, whatever precedes them.
   */
  lemma SecondTrailingSlashNotIgnored(url: string)
    ensures CurrentPage(url + "//") == "ExecutiveDashboard"
  {
    var stripped := StripTrailingSlash(url + "//");
    assert stripped == url + "/" by {
      assert url + "//" == (url + "/") + "/";
    }
    assert PageSegment(url + "//") == [] by {
      assert stripped[|stripped| - 1] == '/';
    }
    PageNamesInitials();
    assert forall k :: 0 <= k < |PageNames| ==> |ToLower(PageNames[k])| > 0;
  }

  /** A query string after the last segment does not change the page. */
  lemma {:induction false} QueryIgnored(url: string, query: string)
    requires url == [] || url[|url| - 1] != '/'
    requires '/' !in query
    ensures CurrentPage(url + "?" + query) == CurrentPage(url)
  {
    assert PageSegment(url + "?" + query) == PageSegment(url) by {
      var last := LastSegment(url);
      var extended := last + "?" + query;
      assert LastSegment(StripTrailingSlash(url + "?" + query)) == extended by {
        QueryExtendsLastSegment(url, query);
      }
      assert '?' in extended by {
        assert extended[|last|] == '?';
      }
      assert StripTrailingSlash(url) == url;
      BeforeQueryAppend(last, query);
    }
  }

  lemma QueryExtendsLastSegment(url: string, query: string)
    requires '/' !in query
    ensures LastSegment(StripTrailingSlash(url + "?" + query)) == LastSegment(url) + "?" + query
  {
    var tail := "?" + query;
    var full := url + tail;
    assert full == url + "?" + query;
    assert '/' !in tail by {
      assert forall x :: x in tail ==> x == '?' || x in query;
    }
    assert StripTrailingSlash(full) == full by {
      assert full[|full| - 1] == tail[|tail| - 1];
      assert tail[|tail| - 1] in tail;
    }
    LastSegmentAppend(url, tail);
    assert LastSegment(url) + tail == LastSegment(url) + "?" + query;
  }

  /** Appending '/'-free text to a string extends its last segment by that text. */
  lemma {:induction false} LastSegmentAppend(s: string, t: string)
    requires '/' !in t
    ensures LastSegment(s + t) == LastSegment(s) + t
    decreases |t|
  {
    if t == [] {
      assert s + t == s;
    } else {
      var init, c := t[..|t| - 1], t[|t| - 1];
      assert t == init + [c];
      assert c != '/' by {
        assert c in t;
      }
      assert '/' !in init by {
        assert forall x :: x in init ==> x in t;
      }
      var st := s + t;
      assert st[..|st| - 1] == s + init;
      assert st[|st| - 1] == c;
      assert LastSegment(st) == LastSegment(s + init) + [c];
      LastSegmentAppend(s, init);
    }
  }

  /** Cutting at the first '?' ignores everything after an appended '?'. */
  lemma {:induction false} BeforeQueryAppend(s: string, query: string)
    ensures BeforeQuery(s + "?" + query) == BeforeQuery(s)
    ensures (if '?' in s then BeforeQuery(s) else s) == BeforeQuery(s)
    decreases |s|
  {
    if s == [] {
      assert (s + "?" + query)[0] == '?';
    } else {
      assert (s + "?" + query)[1..] == s[1..] + "?" + query;
      BeforeQueryAppend(s[1..], query);
    }
  }
}
