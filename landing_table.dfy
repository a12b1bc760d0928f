/** The shared landing-page table (one row per external domain) and the canonical index derived from it. */
module LandingTable {

  /** A row of the table; `domain` is its primary key, so it is the key of the map below. The
      date_created column is not modelled. */
  datatype Row = Row(blogId: int, siteId: int, postName: string, txtRecord: string, approved: bool)

  /** The table, keyed by domain. */
  type Table = map<string, Row>

  /** Whether `d` holds the same row, or no row, in both tables. */
  predicate SameRow(t: Table, u: Table, d: string)
  {
    (d in t <==> d in u) && (d in t ==> t[d] == u[d])
  }

  /** DELETE ... WHERE domain = d: that row goes, every other row stays. */
  function Delete(t: Table, domain: string): (r: Table)
    ensures domain !in r
    ensures forall d :: d != domain ==> SameRow(r, t, d)
  {
    t - {domain}
  }

  /** UPDATE ... SET post_name = slug WHERE domain = d: a missing row is no error. */
  function Reslug(t: Table, domain: string, slug: string): (r: Table)
    ensures r.Keys == t.Keys
    ensures domain in t ==> r[domain] == t[domain].(postName := slug)
    ensures forall d :: d != domain ==> SameRow(r, t, d)
  {
    if domain in t then t[domain := t[domain].(postName := slug)] else t
  }

  /** DELETE ... WHERE blog_id = blog, as deactivating the plugin on one blog does. */
  function WithoutBlog(t: Table, blog: int): (r: Table)
    ensures forall d :: d in r <==> d in t && t[d].blogId != blog
    ensures forall d :: d in r ==> r[d] == t[d]
  {
    map d | d in t && t[d].blogId != blog :: t[d]
  }

  /** DELETE ... WHERE blog_id NOT IN (SELECT blog_id FROM blogs): the rows of blogs that are gone. */
  function WithoutOrphans(t: Table, blogs: set<int>): (r: Table)
    ensures forall d :: d in r <==> d in t && t[d].blogId in blogs
    ensures forall d :: d in r ==> r[d] == t[d]
  {
    map d | d in t && t[d].blogId in blogs :: t[d]
  }

  /** A row the canonical query of a blog selects: WHERE blog_id = blog AND approved = 1. */
  predicate Serves(row: Row, blog: int)
  {
    row.blogId == blog && row.approved
  }

  /** One (domain, post_name) pair of the canonical query's result. */
  datatype CanonicalRow = CanonicalRow(domain: string, postName: string)

  /** The canonical query's result, with the rows in the order the database lists the domains. */
  function CanonicalRows(t: Table, blog: int, listing: seq<string>): (rows: seq<CanonicalRow>)
    ensures forall k :: 0 <= k < |rows| ==>
      rows[k].domain in t && Serves(t[rows[k].domain], blog) && rows[k].postName == t[rows[k].domain].postName
  {
    if listing == [] then []
    else
      var d := listing[0];
      var rest := CanonicalRows(t, blog, listing[1..]);
      if d in t && Serves(t[d], blog) then [CanonicalRow(d, t[d].postName)] + rest else rest
  }

  /** Every approved row of the blog the database lists is in the canonical query's result. */
  lemma {:induction false} CanonicalRowsCover(t: Table, blog: int, listing: seq<string>, d: string)
    requires d in listing && d in t && Serves(t[d], blog)
    ensures exists k :: 0 <= k < |CanonicalRows(t, blog, listing)| && CanonicalRows(t, blog, listing)[k].domain == d
  {
    var rows := CanonicalRows(t, blog, listing);
    var rest := CanonicalRows(t, blog, listing[1..]);
    if listing[0] == d {
      assert rows[0].domain == d;
    } else {
      assert d in listing[1..];
      CanonicalRowsCover(t, blog, listing[1..], d);
      var k :| 0 <= k < |rest| && rest[k].domain == d;
      if listing[0] in t && Serves(t[listing[0]], blog) {
        assert rows[k + 1] == rest[k];
      } else {
        assert rows[k] == rest[k];
      }
    }
  }

  /** The slug -> domain index that foreach ($rows ...) $canonicals[$row->post_name] = $row->domain
      builds: later rows overwrite earlier ones. */
  function Index(rows: seq<CanonicalRow>): map<string, string>
  {
    if rows == [] then map[]
    else
      var n := |rows| - 1;
      Index(rows[..n])[rows[n].postName := rows[n].domain]
  }

  /** Whether rows[k] is the last row that carries its slug. */
  predicate LastWithSlug(rows: seq<CanonicalRow>, k: int)
  {
    0 <= k < |rows| && forall j :: k < j < |rows| ==> rows[j].postName != rows[k].postName
  }

  /** The index holds every slug of the rows, mapped to the domain of the last row carrying it. */
  lemma {:induction false} IndexLastWins(rows: seq<CanonicalRow>)
    ensures forall s :: s in Index(rows) <==> exists k :: 0 <= k < |rows| && rows[k].postName == s
    ensures forall s :: s in Index(rows) ==>
      exists k :: LastWithSlug(rows, k) && rows[k].postName == s && Index(rows)[s] == rows[k].domain
  {
    if rows != [] {
      var n := |rows| - 1;
      var earlier := rows[..n];
      IndexLastWins(earlier);
      assert forall k :: 0 <= k < n ==> earlier[k] == rows[k];
      assert Index(rows) == Index(earlier)[rows[n].postName := rows[n].domain];
      forall s | s in Index(rows)
        ensures exists k :: LastWithSlug(rows, k) && rows[k].postName == s && Index(rows)[s] == rows[k].domain
      {
        if s == rows[n].postName {
          assert LastWithSlug(rows, n);
        } else {
          var k :| LastWithSlug(earlier, k) && earlier[k].postName == s && Index(earlier)[s] == earlier[k].domain;
          assert LastWithSlug(rows, k);
        }
      }
    }
  }

  /** The foreach loop itself, filling the index one row at a time. */
  method IndexCanonicals(rows: seq<CanonicalRow>) returns (index: map<string, string>)
    ensures index == Index(rows)
  {
    index := map[];
    for i := 0 to |rows|
      invariant index == Index(rows[..i])
    {
      assert rows[..i + 1][..i] == rows[..i];
      index := index[rows[i].postName := rows[i].domain];
    }
    assert rows[..|rows|] == rows;
  }

  /** Every domain in the index holds an approved row of the blog with that slug. */
  lemma IndexedDomainsServe(t: Table, blog: int, listing: seq<string>, slug: string)
    requires slug in Index(CanonicalRows(t, blog, listing))
    ensures var d := Index(CanonicalRows(t, blog, listing))[slug];
            d in t && Serves(t[d], blog) && t[d].postName == slug
  {
    IndexLastWins(CanonicalRows(t, blog, listing));
  }

  /** When the listing covers the table, the index holds exactly the slugs of the blog's approved rows. */
  lemma {:induction false} IndexCoversServingSlugs(t: Table, blog: int, listing: seq<string>)
    requires forall d :: d in t ==> d in listing
    ensures Index(CanonicalRows(t, blog, listing)).Keys
         == set d | d in t && Serves(t[d], blog) :: t[d].postName
  {
    var rows := CanonicalRows(t, blog, listing);
    IndexLastWins(rows);
    var left := Index(rows).Keys;
    var right := set d | d in t && Serves(t[d], blog) :: t[d].postName;
    forall s | s in left ensures s in right {
      var k :| 0 <= k < |rows| && rows[k].postName == s;
      assert t[rows[k].domain].postName == s;
    }
    forall s | s in right ensures s in left {
      var d :| d in t && Serves(t[d], blog) && t[d].postName == s;
      CanonicalRowsCover(t, blog, listing, d);
      var k :| 0 <= k < |rows| && rows[k].domain == d;
      assert rows[k].postName == s;
    }
  }

  /** A slug served by a single approved row of the blog maps to that row's domain, whatever the order. */
  lemma {:induction false} UniqueSlugIndexed(t: Table, blog: int, listing: seq<string>, d: string)
    requires d in t && d in listing && Serves(t[d], blog)
    requires forall e :: e in t && Serves(t[e], blog) && t[e].postName == t[d].postName ==> e == d
    ensures t[d].postName in Index(CanonicalRows(t, blog, listing))
    ensures Index(CanonicalRows(t, blog, listing))[t[d].postName] == d
  {
    var rows := CanonicalRows(t, blog, listing);
    IndexLastWins(rows);
    CanonicalRowsCover(t, blog, listing, d);
    var k :| 0 <= k < |rows| && rows[k].domain == d;
    assert rows[k].postName == t[d].postName;
  }

  /** A deleted domain is no longer anybody's canonical domain. */
  lemma DeletedDomainNotCanonical(t: Table, domain: string, blog: int, listing: seq<string>)
    ensures domain !in Index(CanonicalRows(Delete(t, domain), blog, listing)).Values
  {
    var index := Index(CanonicalRows(Delete(t, domain), blog, listing));
    if domain in index.Values {
      var s :| s in index && index[s] == domain;
      IndexedDomainsServe(Delete(t, domain), blog, listing, s);
    }
  }

  /** After the per-blog delete, the blog has no canonicals left. */
  lemma WithoutBlogEmptiesIndex(t: Table, blog: int, listing: seq<string>)
    ensures Index(CanonicalRows(WithoutBlog(t, blog), blog, listing)) == map[]
  {
    NoServingRows(WithoutBlog(t, blog), blog, listing);
  }

  lemma {:induction false} NoServingRows(t: Table, blog: int, listing: seq<string>)
    requires forall d :: d in t ==> !Serves(t[d], blog)
    ensures CanonicalRows(t, blog, listing) == []
  {
    if listing != [] {
      NoServingRows(t, blog, listing[1..]);
    }
  }

  /** Purging the rows of vanished blogs leaves a live blog's canonical rows as they were. */
  lemma {:induction false} PurgeKeepsLiveRows(t: Table, blogs: set<int>, blog: int, listing: seq<string>)
    requires blog in blogs
    ensures CanonicalRows(WithoutOrphans(t, blogs), blog, listing) == CanonicalRows(t, blog, listing)
  {
    if listing != [] {
      PurgeKeepsLiveRows(t, blogs, blog, listing[1..]);
    }
  }
}
