/** The plugin object (class ruigehond011) and the WordPress objects it updates in place. */
module Landingpages {
  import opened PhpStrings
  import opened TxtRecord
  import opened LandingTable
  import opened UrlRewrite
  import opened Routing
  import opened Settings

  /** The database as the plugin sees it: the shared landing-page table, this blog's ruigehond011
      option and the ruigehond011_warning transient. */
  class Database {
    var table: Table
    var options: Option<map<string, Value>>   // None: the option is not stored
    var warning: Option<Notice>

    constructor (table: Table, options: Option<map<string, Value>>, warning: Option<Notice>)
      ensures this.table == table && this.options == options && this.warning == warning
    {
      this.table := table;
      this.options := options;
      this.warning := warning;
    }
  }

  /** get_option('ruigehond011') read as an array: a missing option reads as no keys at all. */
  function Stored(option: Option<map<string, Value>>): map<string, Value>
  {
    match option
    case None => map[]
    case Some(m) => m
  }

  /** The WP request object `get` receives and rewrites. */
  class Request {
    var queryVars: map<string, Value>
    var request: string
    var matchedRule: string
    var matchedQuery: string
    var didPermalink: bool

    constructor (queryVars: map<string, Value>, request: string, matchedRule: string, matchedQuery: string, didPermalink: bool)
      ensures this.queryVars == queryVars && this.request == request && this.matchedRule == matchedRule
      ensures this.matchedQuery == matchedQuery && this.didPermalink == didPermalink
    {
      this.queryVars := queryVars;
      this.request := request;
      this.matchedRule := matchedRule;
      this.matchedQuery := matchedQuery;
      this.didPermalink := didPermalink;
    }
  }

  class Landingpages {
    const db: Database
    const blogId: Option<int>
    /** RUIGEHOND011_SLUG: the landing slug the sunrise file found for this request's domain. */
    const slug: Option<string>
    const mandatory: bool
    /** manage_cache: whether RUIGEHOND011_WP_ROCKET_CACHE_DIR is defined. */
    const manageCache: bool
    const dns: Dns
    /** The posts query: the post_type of the published post with a given post_name, if any. */
    const publishedType: string -> Option<string>
    const options: map<string, Value>
    const useCanonical: bool
    const canonicalPrefix: string
    const canonicals: map<string, string>
    const removeSitename: bool
    const txtRecord: string
    const dbVersion: Value
    /** The post-type cache: a stored None is a lookup that found nothing and is repeated. */
    var postTypes: map<string, Option<string>>
    /** How many times the posts query has run. */
    ghost var queries: nat
    /** The WP Rocket cache removals asked for. */
    var purges: seq<CachePurge>

    /** The post-type cache agrees with the posts query. */
    ghost predicate Valid()
      reads this
    {
      forall s :: s in postTypes ==> postTypes[s].None? || postTypes[s] == publishedType(s)
    }

    /** The constructor: cache management, the options with their defaults filled in (saved when they
        were missing), the canonical prefix, and the slug -> domain index of this blog's approved rows.
        `cacheDir` is None when RUIGEHOND011_WP_ROCKET_CACHE_DIR is not defined, otherwise whether that
        directory is writable. `listing` is every domain of the table, once each, in the order the
        database returns the rows. */
    constructor (db: Database, blogId: Option<int>, slug: Option<string>, mandatoryConstant: Option<bool>,
                 cacheDir: Option<bool>, dns: Dns, publishedType: string -> Option<string>, listing: seq<string>,
                 uuid: string)
      requires forall d :: d in db.table ==> d in listing
      requires forall i, j :: 0 <= i < j < |listing| ==> listing[i] != listing[j]
      modifies db`options, db`warning
      ensures this.db == db && this.blogId == blogId && this.slug == slug && this.dns == dns
      ensures this.publishedType == publishedType
      ensures mandatory == Mandatory(mandatoryConstant)
      ensures manageCache == cacheDir.Some?
      ensures db.warning == if cacheDir == Some(false) then Some(CacheDirNotWritable) else old(db.warning)
      ensures var stored := Stored(old(db.options));
        options == LoadOptions(stored, uuid).0
        && db.options == (if LoadOptions(stored, uuid).1 then Some(options) else old(db.options))
        && useCanonical == IsTrue(stored, "use_canonical")
        && canonicalPrefix == CanonicalPrefix(stored)
        && removeSitename == IsTrue(stored, "remove_sitename")
      ensures txtRecord == AsString(options["txt_record"]) && dbVersion == options["db_version"]
      ensures canonicals == if blogId.Some? then Index(CanonicalRows(db.table, blogId.value, listing)) else map[]
      ensures blogId.Some? ==> canonicals.Keys == set d | d in db.table && Serves(db.table[d], blogId.value) :: db.table[d].postName
      ensures blogId.Some? ==> forall s :: s in canonicals ==>
        canonicals[s] in db.table && Serves(db.table[canonicals[s]], blogId.value) && db.table[canonicals[s]].postName == s
      ensures postTypes == map[] && queries == 0 && purges == []
      ensures Valid()
    {
      this.db := db;
      this.blogId := blogId;
      this.slug := slug;
      this.mandatory := Mandatory(mandatoryConstant);
      this.manageCache := cacheDir.Some?;
      this.dns := dns;
      this.publishedType := publishedType;
      var stored := Stored(db.options);
      this.useCanonical := IsTrue(stored, "use_canonical");
      this.canonicalPrefix := CanonicalPrefix(stored);
      var index := map[];
      if blogId.Some? {
        index := IndexCanonicals(CanonicalRows(db.table, blogId.value, listing));
        IndexCoversServingSlugs(db.table, blogId.value, listing);
        forall s | s in index
          ensures index[s] in db.table && Serves(db.table[index[s]], blogId.value) && db.table[index[s]].postName == s
        {
          IndexedDomainsServe(db.table, blogId.value, listing, s);
        }
      }
      this.canonicals := index;
      this.removeSitename := IsTrue(stored, "remove_sitename");
      var (loaded, changed) := LoadOptions(stored, uuid);
      this.options := loaded;
      this.txtRecord := AsString(loaded["txt_record"]);
      this.dbVersion := loaded["db_version"];
      this.postTypes := map[];
      this.queries := 0;
      this.purges := [];
      new;
      if cacheDir == Some(false) {
        db.warning := Some(CacheDirNotWritable);
      }
      if changed {
        db.options := Some(loaded);
      }
    }

    /** postType: the cached type when one is cached, otherwise the posts query, whose answer is cached
        (a None answer too, which the next call will not trust). */
    method PostType(s: string) returns (t: Option<string>)
      requires Valid()
      modifies this`postTypes, this`queries
      ensures Valid()
      ensures t == publishedType(s)
      ensures old(s in postTypes && postTypes[s].Some?) ==> postTypes == old(postTypes) && queries == old(queries)
      ensures old(s !in postTypes || postTypes[s].None?) ==>
        postTypes == old(postTypes)[s := t] && queries == old(queries) + 1
    {
      if s in postTypes && postTypes[s].Some? {
        t := postTypes[s];
      } else {
        t := publishedType(s);
        queries := queries + 1;
        postTypes := postTypes[s := t];
      }
    }

    /** get: on a landing page whose slug has a published page, the query asks for that page; for a
        post or cartflows step, for that single post; otherwise the query is left as it is. */
    method Get(query: Request)
      requires Valid()
      modifies this`postTypes, this`queries, query
      ensures Valid()
      ensures slug.None? ==> postTypes == old(postTypes) && queries == old(queries)
      ensures slug.Some? && old(slug.value in postTypes && postTypes[slug.value].Some?) ==>
        postTypes == old(postTypes) && queries == old(queries)
      ensures slug.Some? && old(slug.value !in postTypes || postTypes[slug.value].None?) ==>
        postTypes == old(postTypes)[slug.value := publishedType(slug.value)] && queries == old(queries) + 1
      ensures var route := Route(slug, if slug.Some? then publishedType(slug.value) else None);
        match route
        case Unchanged => unchanged(query)
        case AsPage(s) =>
          query.queryVars == old(query.queryVars)["pagename" := Str(s)]["request" := Str(s)]["did_permalink" := Bool(true)]
          && query.request == old(query.request) && query.matchedRule == old(query.matchedRule)
          && query.matchedQuery == old(query.matchedQuery) && query.didPermalink == old(query.didPermalink)
        case AsPost(s) =>
          query.queryVars == old(query.queryVars)["page" := Str("")]["name" := Str(s)]
          && query.request == s && query.matchedRule == "" && query.matchedQuery == "name=" + s + "$page="
          && query.didPermalink
    {
      if slug.None? {
        return;
      }
      var s := slug.value;
      var postType := PostType(s);
      if postType.Some? && Truthy(postType.value) {
        var t := postType.value;
        if t == "page" {
          query.queryVars := query.queryVars["pagename" := Str(s)];
          query.queryVars := query.queryVars["request" := Str(s)];
          query.queryVars := query.queryVars["did_permalink" := Bool(true)];
        } else if t in SupportedPostTypes {
          query.queryVars := query.queryVars["page" := Str("")];
          query.queryVars := query.queryVars["name" := Str(s)];
          query.request := s;
          query.matchedRule := "";
          query.matchedQuery := "name=" + s + "$page=";
          query.didPermalink := true;
        }
      }
    }

    /** What a save of the settings page depends on besides the submission. */
    function AdminOf(networkId: int, idn: Option<string -> string>, sanitize: string -> string): Admin
    {
      Admin(mandatory, manageCache, dns, txtRecord, blogId, networkId, idn, sanitize, canonicals)
    }

    /** The state a save works on, with `saved` as the options being built. */
    ghost function State(saved: map<string, Value>): Submission
      reads this, db
    {
      Submission(saved, db.table, db.warning, purges)
    }

    /** settings_validate: walk the submitted pairs, updating the options that will be saved, the table,
        the warning and the cache removals as Validate says. */
    method SettingsValidate(input: seq<(string, Value)>, networkId: int, idn: Option<string -> string>, sanitize: string -> string)
      returns (saved: map<string, Value>)
      requires Valid()
      modifies db`table, db`warning, this`purges
      ensures Valid()
      ensures var r := Validate(AdminOf(networkId, idn, sanitize),
                                Submission(Stored(db.options), old(db.table), old(db.warning), old(purges)), input);
        saved == r.options && db.table == r.table && db.warning == r.notice && purges == r.purges
    {
      ghost var a := AdminOf(networkId, idn, sanitize);
      ghost var start := Submission(Stored(db.options), db.table, db.warning, purges);
      saved := Stored(db.options);
      for i := 0 to |input|
        invariant Validate(a, start, input[..i]) == State(saved)
      {
        assert input[..i + 1][..i] == input[..i];
        var (key, value) := input[i];
        EmptyValuesSkipped(a, State(saved));
        if key in FlagKeys {
          saved := SaveFlag(a, saved, key, value);
        } else if key == "domain_new" {
          if value != Str("") {
            ghost var before := State(saved);
            NewDomain(a, saved, value, networkId, idn);
            StepDomainNew(a, before, value);
          }
        } else if key == "__delete__" {
          if value != Str("") {
            DeleteDomain(a, saved, value);
          }
        } else {
          ChangeSlug(a, saved, key, value, sanitize);
        }
      }
      assert input[..|input|] == input;
    }

    /** A flag: stored as a boolean; a change of a flag that was set empties the sub-site's cache. */
    method SaveFlag(ghost a: Admin, options: map<string, Value>, key: string, value: Value) returns (saved: map<string, Value>)
      requires key in FlagKeys && a.manageCache == manageCache
      modifies this`purges, db`warning
      ensures State(saved) == Step(a, old(State(options)), key, value)
    {
      var on := value == Str("1") || value == Bool(true);
      if key in options && options[key] != Null && options[key] != Bool(on) {
        RemoveCacheDir("");
      }
      saved := options[key := Bool(on)];
    }

    /** domain_new with a non-empty value. */
    method NewDomain(ghost a: Admin, ghost options: map<string, Value>, value: Value, networkId: int, idn: Option<string -> string>)
      requires a == AdminOf(networkId, idn, a.sanitize) && value != Str("")
      modifies db`table, db`warning
      ensures State(options) == AddDomain(a, old(State(options)), SubmittedDomain(a, AsString(value)))
    {
      var domain := AsString(value);
      if StartsWith(domain, "www.") {
        domain := domain[4..];
      }
      if idn.Some? {
        domain := idn.value(domain);
      }
      assert domain == SubmittedDomain(a, AsString(value));
      if Check(mandatory, dns, domain, txtRecord) {
        if !mandatory && domain in db.table {
          db.warning := Some(DomainInUse(domain));
        } else {
          db.table := Delete(db.table, domain);
          if blogId.Some? {
            db.table := db.table[domain := Row(blogId.value, networkId, "", txtRecord, true)];
          }
        }
      } else {
        db.warning := Some(TxtRecordMissing(idn.None?));
      }
    }

    /** __delete__ with a non-empty value. */
    method DeleteDomain(ghost a: Admin, ghost options: map<string, Value>, value: Value)
      requires value != Str("") && a.manageCache == manageCache
      modifies db`table, db`warning, this`purges
      ensures State(options) == Step(a, old(State(options)), "__delete__", value)
    {
      db.table := Delete(db.table, AsString(value));
      RemoveCacheDir(AsString(value));
    }

    /** Any other key: the domain whose slug changes; the cache goes unless the slug already maps to it. */
    method ChangeSlug(ghost a: Admin, ghost options: map<string, Value>, domain: string, value: Value, sanitize: string -> string)
      requires a == AdminOf(a.networkId, a.idn, sanitize)
      requires domain !in FlagKeys && domain != "domain_new" && domain != "__delete__"
      modifies db`table, db`warning, this`purges
      ensures State(options) == Step(a, old(State(options)), domain, value)
    {
      var slug := sanitize(AsString(value));
      db.table := Reslug(db.table, domain, slug);
      if slug !in canonicals || canonicals[slug] != domain {
        RemoveCacheDir(domain);
      }
    }

    /** removeCacheDirIfNecessary: the removal is recorded; with cache management on, removing the
        whole sub-site (the empty domain) leaves the "Cleared cache" warning. */
    method RemoveCacheDir(domain: string)
      modifies this`purges, db`warning
      ensures purges == old(purges) + [PurgeFor(domain)]
      ensures db.warning == if manageCache && domain == "" then Some(CacheCleared) else old(db.warning)
    {
      purges := purges + [PurgeFor(domain)];
      if manageCache && domain == "" {
        db.warning := Some(CacheCleared);
      }
    }

    /** The clean-up on the settings page: rows of blogs that no longer exist are deleted. */
    method PurgeOrphans(blogs: set<int>)
      requires Valid()
      modifies db`table
      ensures Valid()
      ensures db.table == WithoutOrphans(old(db.table), blogs)
    {
      db.table := WithoutOrphans(db.table, blogs);
    }

    /** deactivate for this blog only: its option goes, and so do its rows when the blog is known. */
    method Deactivate()
      requires Valid()
      modifies db`table, db`options
      ensures Valid()
      ensures db.options.None?
      ensures db.table == if blogId.Some? then WithoutBlog(old(db.table), blogId.value) else old(db.table)
    {
      db.options := None;
      if blogId.Some? {
        db.table := WithoutBlog(db.table, blogId.value);
      }
    }
  }
}
