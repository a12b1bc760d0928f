/** Rewriting urls to the external domains: the canonical prefix, `fixUrl` and `adminUrl`. */
module UrlRewrite {
  import opened PhpStrings

  /** isset($options[key]) and true === $options[key]: the flag is stored as the boolean true. */
  predicate IsTrue(options: map<string, Value>, key: string)
  {
    key in options && options[key] == Bool(true)
  }

  /** The canonical prefix the constructor builds: nothing unless use_canonical is true, otherwise
      the scheme chosen by use_ssl followed by "www." when use_www is true. */
  function CanonicalPrefix(options: map<string, Value>): (prefix: string)
    ensures !IsTrue(options, "use_canonical") ==> prefix == ""
    ensures IsTrue(options, "use_canonical") ==>
      prefix == (if IsTrue(options, "use_ssl") then "https://" else "http://")
              + (if IsTrue(options, "use_www") then "www." else "")
  {
    if !IsTrue(options, "use_canonical") then ""
    else
      var scheme := if IsTrue(options, "use_ssl") then "https://" else "http://";
      if IsTrue(options, "use_www") then scheme + "www." else scheme
  }

  /** The prefix is empty, or a scheme ending in "//" possibly followed by "www.". */
  lemma PrefixShape(options: map<string, Value>)
    ensures var prefix := CanonicalPrefix(options);
      prefix == "" || prefix == "http://" || prefix == "https://"
      || prefix == "http://www." || prefix == "https://www."
    ensures CanonicalPrefix(options) != "" <==> IsTrue(options, "use_canonical")
  {
  }

  /** The url with one trailing '/' dropped, if it has one. */
  function WithoutTrailingSlash(url: string): string
  {
    if |url| > 0 && url[|url| - 1] == '/' then url[..|url| - 1] else url
  }

  /** The slug fixUrl proposes: the text after the last '/' before the final character (the whole url
      when there is none), with every leading and trailing '/' trimmed. */
  function CandidateSlug(url: string): (slug: string)
    ensures |slug| <= |url|
    ensures slug == [] || (slug[0] != '/' && slug[|slug| - 1] != '/')
  {
    var proposed := match LastIndexBefore(url, '/', |url| - 1)
      case None => url
      case Some(i) => url[i + 1..];
    Trim(proposed, {'/'})
  }

  /** Whether seg is the last '/'-free segment of body: a suffix of body free of '/', that is all of
      body or follows a '/'. */
  predicate LastSegment(body: string, seg: string)
  {
    '/' !in seg && |seg| <= |body| && seg == body[|body| - |seg|..]
    && (|seg| == |body| || body[|body| - |seg| - 1] == '/')
  }

  /** A body has at most one last segment. */
  lemma LastSegmentUnique(body: string, a: string, b: string)
    requires LastSegment(body, a) && LastSegment(body, b)
    ensures a == b
  {
  }

  /** A '/'-free tail of the body lies inside its last segment. */
  lemma TailInLastSegment(body: string, seg: string, head: string, tail: string)
    requires LastSegment(body, seg) && body == head + tail && '/' !in tail
    ensures |tail| <= |seg| && seg[|seg| - |tail|..] == tail
  {
  }

  /** Trimming '/' off a segment with at most one '/' appended gives the segment. */
  lemma TrimSlashes(seg: string, s: string)
    requires '/' !in seg && (s == seg || s == seg + "/")
    ensures Trim(s, {'/'}) == seg
  {
    if s == seg {
      TrimKeeps(seg, {'/'});
    } else if seg == [] {
      assert s == "/";
    } else {
      assert s[0] == seg[0];
      assert TrimLeft(s, {'/'}) == s;
      assert s[..|s| - 1] == seg;
      assert TrimRight(s, {'/'}) == TrimRight(seg, {'/'});
    }
  }

  /** Trimming what follows a '/' (or the whole url) that no later '/' but the final character
      follows gives the last segment of the url without its trailing '/'. */
  lemma SegmentFrom(url: string, start: int)
    requires start == 0 || (0 < start < |url| && url[start - 1] == '/')
    requires forall k :: start <= k < |url| - 1 ==> url[k] != '/'
    ensures LastSegment(WithoutTrailingSlash(url), Trim(url[start..], {'/'}))
  {
    var body := WithoutTrailingSlash(url);
    SlashFree(url, start, body);
    TrimSlashes(body[start..], url[start..]);
    LastSegmentFrom(body, start);
  }

  /** The part of the body from start holds no '/', and the url from start is that part with at most
      a '/' after it. */
  lemma SlashFree(url: string, start: int, body: string)
    requires body == WithoutTrailingSlash(url)
    requires start == 0 || (0 < start < |url| && url[start - 1] == '/')
    requires forall k :: start <= k < |url| - 1 ==> url[k] != '/'
    ensures 0 <= start <= |body| && '/' !in body[start..]
    ensures url[start..] == body[start..] || url[start..] == body[start..] + "/"
    ensures start == 0 || body[start - 1] == '/'
  {
    var seg := body[start..];
    forall k | 0 <= k < |seg| ensures seg[k] != '/' {
      assert seg[k] == url[start + k];
    }
    if body != url {
      assert url[start..] == seg + "/";
    }
    if start > 0 {
      assert body[start - 1] == url[start - 1];
    }
  }

  lemma LastSegmentFrom(body: string, start: int)
    requires 0 <= start <= |body| && '/' !in body[start..]
    requires start == 0 || body[start - 1] == '/'
    ensures LastSegment(body, body[start..])
  {
  }

  /** The proposed slug is the last segment of the url once one trailing '/' is dropped. */
  lemma CandidateSlugIsLastSegment(url: string)
    ensures LastSegment(WithoutTrailingSlash(url), CandidateSlug(url))
  {
    match LastIndexBefore(url, '/', |url| - 1)
    case None =>
      SegmentFrom(url, 0);
    case Some(i) =>
      SegmentFrom(url, i + 1);
  }

  /** fixUrl: a url whose proposed slug is a key of the canonicals becomes prefix + that slug's
      domain; any other url is returned as it is. */
  function FixUrl(canonicals: map<string, string>, prefix: string, url: string): (fixed: string)
    ensures CandidateSlug(url) in canonicals ==> fixed == prefix + canonicals[CandidateSlug(url)]
    ensures CandidateSlug(url) !in canonicals ==> fixed == url
  {
    var slug := CandidateSlug(url);
    if slug in canonicals then prefix + canonicals[slug] else url
  }

  /** A permalink site/slug/ (or site/slug) of a mapped slug becomes the slug's domain with the prefix. */
  lemma {:induction false} FixUrlMapsPermalink(canonicals: map<string, string>, prefix: string, site: string, slug: string, url: string)
    requires '/' !in slug && slug != [] && slug in canonicals
    requires url == site + "/" + slug + "/" || url == site + "/" + slug
    ensures FixUrl(canonicals, prefix, url) == prefix + canonicals[slug]
  {
    var body := site + "/" + slug;
    assert WithoutTrailingSlash(url) == body by {
      if url == body + "/" {
        assert url[..|url| - 1] == body;
      } else {
        assert url[|url| - 1] == slug[|slug| - 1];
      }
    }
    assert body[|body| - |slug|..] == slug;
    assert LastSegment(body, slug);
    CandidateSlugIsLastSegment(url);
    LastSegmentUnique(body, slug, CandidateSlug(url));
  }

  /** A trailing '/' does not change the proposed slug. */
  lemma {:induction false} TrailingSlashSameCandidate(url: string)
    requires url == [] || url[|url| - 1] != '/'
    ensures CandidateSlug(url + "/") == CandidateSlug(url)
  {
    var u := url + "/";
    assert WithoutTrailingSlash(u) == url by {
      assert u[..|u| - 1] == url;
    }
    CandidateSlugIsLastSegment(u);
    CandidateSlugIsLastSegment(url);
    LastSegmentUnique(url, CandidateSlug(u), CandidateSlug(url));
  }

  /** The proposed slug of prefix + domain holds all of the domain when the domain has no '/'. */
  lemma {:induction false} CandidateHoldsDomain(prefix: string, domain: string)
    requires '/' !in domain && '.' in domain
    ensures '.' in CandidateSlug(prefix + domain)
  {
    var fixed := prefix + domain;
    assert WithoutTrailingSlash(fixed) == fixed by {
      assert fixed[|fixed| - 1] == domain[|domain| - 1];
    }
    CandidateSlugIsLastSegment(fixed);
    DotInLastSegment(fixed, CandidateSlug(fixed), prefix, domain);
  }

  /** A '.' in a '/'-free tail of the body is a '.' of the last segment. */
  lemma DotInLastSegment(body: string, seg: string, head: string, tail: string)
    requires LastSegment(body, seg) && body == head + tail && '/' !in tail && '.' in tail
    ensures '.' in seg
  {
    TailInLastSegment(body, seg, head, tail);
    var k :| 0 <= k < |tail| && tail[k] == '.';
    assert seg[|seg| - |tail|..][k] == '.';
  }

  /** fixUrl leaves its own output alone, as long as slugs hold no '.' and domains hold a '.' and no '/'. */
  lemma {:induction false} FixUrlIdempotent(canonicals: map<string, string>, prefix: string, url: string)
    requires forall slug :: slug in canonicals ==> '.' !in slug
    requires forall slug :: slug in canonicals ==> '.' in canonicals[slug] && '/' !in canonicals[slug]
    ensures FixUrl(canonicals, prefix, FixUrl(canonicals, prefix, url)) == FixUrl(canonicals, prefix, url)
  {
    var slug := CandidateSlug(url);
    if slug in canonicals {
      CandidateHoldsDomain(prefix, canonicals[slug]);
    }
  }

  /** adminUrl: on a landing page whose slug is a canonical, every occurrence of the site url is
      replaced by what fixUrl makes of the slug; otherwise the url is returned as it is. */
  function AdminUrl(slug: Option<string>, canonicals: map<string, string>, prefix: string, siteUrl: string, url: string): (r: string)
    ensures slug.None? || slug.value !in canonicals ==> r == url
    ensures siteUrl == [] || !Occurs(url, siteUrl) ==> r == url
  {
    if slug.Some? && slug.value in canonicals then
      StrReplace(url, siteUrl, FixUrl(canonicals, prefix, slug.value))
    else url
  }

  /** For a slug without '/', the site url is replaced by the landing page's own domain. */
  lemma {:induction false} AdminUrlUsesDomain(slug: string, canonicals: map<string, string>, prefix: string, siteUrl: string, url: string)
    requires '/' !in slug && slug in canonicals
    ensures AdminUrl(Some(slug), canonicals, prefix, siteUrl, url)
         == StrReplace(url, siteUrl, prefix + canonicals[slug])
  {
    assert CandidateSlug(slug) == slug by {
      CandidateSlugIsLastSegment(slug);
      assert WithoutTrailingSlash(slug) == slug;
      assert LastSegment(slug, slug) by {
        assert slug[|slug| - |slug|..] == slug;
      }
      LastSegmentUnique(slug, slug, CandidateSlug(slug));
    }
  }

  /** An admin url on the network site moves to the landing page's domain, path kept. */
  lemma {:induction false} AdminUrlMovesPath(slug: string, canonicals: map<string, string>, prefix: string, siteUrl: string, path: string)
    requires '/' !in slug && slug in canonicals && siteUrl != [] && !Occurs(path, siteUrl)
    ensures AdminUrl(Some(slug), canonicals, prefix, siteUrl, siteUrl + path) == prefix + canonicals[slug] + path
  {
    AdminUrlUsesDomain(slug, canonicals, prefix, siteUrl, siteUrl + path);
    StrReplaceAtStart(siteUrl, path, prefix + canonicals[slug]);
  }
}
