# Multisite Landingpages, modelled in Dafny

This project models the core of the WordPress plugin *Multisite Landingpages* (version 1.2.9). The
plugin lets every blog of a multisite network map external domains onto landing pages of its own.
Everything lives in the class `ruigehond011` in `multisite-landingpages.php`. The model covers:

- **Ownership check** (`TxtRecord`): `checkTxtRecord` looks the domain up for a TXT record whose trimmed
  text is the sub-site's token. Failing that, it drops the leftmost label and tries again, while a `.`
  remains. The DNS is a parameter: a function from a name to its answer.
- **Landing-page table** (`LandingTable`): the shared table as a map from domain (its primary key) to a
  row. The SQL statements of the plugin are functions on that map. The slug → domain index the
  constructor builds is `Index`, filled by the loop `IndexCanonicals`.
- **URL rewriting** (`UrlRewrite`): the canonical prefix, `fixUrl` (last path segment → `prefix + domain`)
  and `adminUrl` (`str_replace` of the site url).
- **Routing and status** (`Routing`): the decision `get` takes on a slug's post type, and the status the
  settings page shows for a domain.
- **Saving the settings** (`Settings`): `settings_validate` as a fold of `Step` over the submitted pairs.
  This covers flags, adding, deleting and re-slugging domains, the warning transient and the cache
  removals asked for. With cache management on (RUIGEHOND011_WP_ROCKET_CACHE_DIR defined), a whole-site
  removal leaves the "Cleared cache" warning. It also holds the option defaults (`LoadOptions`) the
  constructor fills in.
- **The plugin object** (`Landingpages`): a class with the constructor, the memoised `postType`, `get`
  (which updates the WP request object in place), the `settings_validate` loop, the orphan clean-up and
  the per-blog `deactivate`. The database (table, option, transient) is a `Database` object the plugin
  updates.

PHP built-ins are modelled in `PhpStrings`: `trim`, `strpos`, `strrpos` with offset `-2`, `str_replace`,
truthiness and string conversion. `isset` on the options is `Settings.IsSet`, and the `isset(...) and
true === ...` test on a flag is `UrlRewrite.IsTrue`. `dns_get_record`, `idn_to_ascii`, `sanitize_title`,
`get_site_url`, `wp_generate_uuid4`, `get_current_network_id` and the posts query are parameters of the
operations that use them. Where `idn_to_ascii` fails it returns false; that is the empty string once
used as a domain, so the model lets the idn parameter return "". The constructor takes `listing`:
every domain of the table, once each, in the order the database returns the rows. The canonical query
keeps the approved rows of the blog from it, so the listing decides only the order in which rows with
the same slug overwrite each other, never which rows are read.

The call `strrpos($url, '/', -2)` in `fixUrl` fails for urls shorter than two characters.
PHP 7 warns and returns false, so the whole url is the candidate. PHP 8 throws instead. The model follows
PHP 7: `LastIndexBefore` with a bound of 0 or less finds nothing.

## Model

| member | source | states |
|---|---|---|
| `TxtRecord.Mandatory` | multisite-landingpages.php:47-48 | verification is mandatory unless the constant is defined, in which case it is the constant's value |
| `TxtRecord.Check` | multisite-landingpages.php:620-639 | with verification off every domain passes; a proving record on the domain itself always verifies it |
| `TxtRecord.CheckWalksParents` | multisite-landingpages.php:623-638 | a mandatory check succeeds exactly when some name on the walk (the domain, then what follows each `.` while a `.` remains) has a record whose trimmed txt equals the untrimmed token |
| `TxtRecord.Lookups` | multisite-landingpages.php:620-639 | dns_get_record runs at least once exactly when verification is mandatory |
| `TxtRecord.LookupsBounded` | multisite-landingpages.php:632-636 | a mandatory check looks up at least one name and never more than the domain has dots (one for a dotless name) |
| `TxtRecord.NotMandatoryAcceptsAll` | multisite-landingpages.php:622 | with the constant set to false the check passes whatever the DNS says |
| `TxtRecord.ParentRecordProvesSubdomain` | multisite-landingpages.php:625-635 | a blank-padded record on the parent (example.com) proves a sub-domain (shop.example.com) that has no record of its own |
| `TxtRecord.QueriedProves` | multisite-landingpages.php:623-636 | a proving record on any name of the walk verifies the domain |
| `LandingTable.Delete` | multisite-landingpages.php:552-553 | DELETE by domain removes that row and keeps every other |
| `LandingTable.Reslug` | multisite-landingpages.php:559-561 | UPDATE post_name by domain changes only that row's slug; a missing row is no error |
| `LandingTable.WithoutBlog` | multisite-landingpages.php:772-774 | the per-blog DELETE keeps exactly the rows of other blogs, unchanged |
| `LandingTable.WithoutOrphans` | multisite-landingpages.php:129-130 | the clean-up keeps exactly the rows whose blog still exists, unchanged |
| `LandingTable.CanonicalRows` | multisite-landingpages.php:79-80 | the canonical query returns only approved rows of the blog, each with its own slug |
| `LandingTable.CanonicalRowsCover` | multisite-landingpages.php:79-80 | every approved row of the blog that the database lists is in the query's result |
| `LandingTable.IndexLastWins` | multisite-landingpages.php:82-84 | the index the foreach builds (`Index`) holds every slug of the rows, mapped to the domain of the last row with that slug |
| `LandingTable.IndexCanonicals` | multisite-landingpages.php:82-84 | the foreach loop builds exactly that index |
| `LandingTable.IndexedDomainsServe` | multisite-landingpages.php:79-84 | every domain in the index has an approved row of the blog with the indexed slug |
| `LandingTable.IndexCoversServingSlugs` | multisite-landingpages.php:79-84 | the index's slugs are exactly the slugs of the blog's approved rows |
| `LandingTable.UniqueSlugIndexed` | multisite-landingpages.php:82-84 | a slug held by one approved row maps to that row's domain, whatever order the rows come in |
| `LandingTable.DeletedDomainNotCanonical` | multisite-landingpages.php:550-555 | once a domain is deleted it is no longer the canonical domain of any slug |
| `LandingTable.WithoutBlogEmptiesIndex` | multisite-landingpages.php:772-774 | after the per-blog delete the blog has no canonicals |
| `LandingTable.NoServingRows` | multisite-landingpages.php:79-80 | a blog without approved rows gets an empty canonical query result |
| `LandingTable.PurgeKeepsLiveRows` | multisite-landingpages.php:129-130 | the clean-up leaves the canonical rows of an existing blog as they were |
| `UrlRewrite.CanonicalPrefix` | multisite-landingpages.php:66-76 | empty unless use_canonical is true; then https:// iff use_ssl is true (else http://), then www. iff use_www is true |
| `UrlRewrite.PrefixShape` | multisite-landingpages.php:66-76 | the prefix is one of five strings, and non-empty exactly when use_canonical is true |
| `UrlRewrite.CandidateSlug` | multisite-landingpages.php:229-230 | the proposed slug is no longer than the url and neither starts nor ends with '/' |
| `UrlRewrite.CandidateSlugIsLastSegment` | multisite-landingpages.php:229-230 | the proposed slug is the last '/'-free segment of the url with one trailing '/' dropped |
| `UrlRewrite.TrailingSlashSameCandidate` | multisite-landingpages.php:228-230 | adding a trailing '/' does not change the proposed slug |
| `UrlRewrite.FixUrl` | multisite-landingpages.php:226-236 | a proposed slug in the canonicals gives prefix + its domain; any other url is returned unchanged |
| `UrlRewrite.FixUrlMapsPermalink` | multisite-landingpages.php:226-236 | site/slug/ and site/slug of a mapped slug become prefix + the slug's domain |
| `UrlRewrite.FixUrlIdempotent` | multisite-landingpages.php:226-236 | when slugs hold no '.' and domains hold a '.' but no '/', fixing a fixed url changes nothing |
| `UrlRewrite.AdminUrl` | multisite-landingpages.php:158-165 | without a landing slug in the canonicals, or when the site url does not occur, the url is unchanged |
| `UrlRewrite.AdminUrlUsesDomain` | multisite-landingpages.php:160-161 | on a canonical landing page every occurrence of the site url becomes prefix + the slug's domain |
| `UrlRewrite.AdminUrlMovesPath` | multisite-landingpages.php:160-161 | an admin url under the site url moves to the landing domain with its path kept |
| `PhpStrings.TrimLeft` | multisite-landingpages.php:626 | ltrim keeps a suffix, drops only characters of the set, and what it keeps starts outside the set |
| `PhpStrings.TrimRight` | multisite-landingpages.php:626 | rtrim keeps a prefix, drops only characters of the set, and what it keeps ends outside the set |
| `PhpStrings.Trim` | multisite-landingpages.php:626 | trim never lengthens its input, and what it keeps starts and ends on characters outside the set |
| `PhpStrings.TrimIsSlice` | multisite-landingpages.php:626 | what trim keeps is a slice of its input, with only characters of the set dropped around it |
| `PhpStrings.IndexOf` | multisite-landingpages.php:632-633 | strpos finds nothing exactly when the character is absent, and otherwise its first position |
| `PhpStrings.LastIndexBefore` | multisite-landingpages.php:229 | strrpos with offset -2 finds the last '/' before the final character, or reports that there is none |
| `PhpStrings.StrReplace` | multisite-landingpages.php:161 | str_replace leaves the subject alone when the search string is empty or does not occur |
| `Routing.Route` | multisite-landingpages.php:173-201 | a page is routed as a page and another supported type as a post, both only with a slug and a truthy post type; otherwise nothing changes |
| `Routing.AdminStatus` | multisite-landingpages.php:377-405 | unverified iff not approved; slug not found iff approved without a truthy type and slug; not supported, served (loaded in canonicals or serving by use_canonical) or silent otherwise |
| `Routing.StatusAgreesWithRoute` | multisite-landingpages.php:379-393 | a domain shown as served routes its slug, and one shown as not supported leaves requests alone |
| `Settings.PurgeFor` | multisite-landingpages.php:576-587 | an empty domain asks for the whole sub-site's cache to go, any other for that domain's directory |
| `Settings.FlagValue` | multisite-landingpages.php:500 | a flag is on exactly when submitted as the string "1" or as true |
| `Settings.SubmittedDomain` | multisite-landingpages.php:506-512 | one leading www. is dropped; then idn_to_ascii, when it exists, converts what remains |
| `Settings.AddDomain` | multisite-landingpages.php:513-549 | an unverified domain leaves the table and warns; without mandatory verification a taken domain is refused; otherwise the domain gets one approved row of this blog with no slug and the token; no other row changes |
| `Settings.VerifiedDomainMoves` | multisite-landingpages.php:513-534 | with mandatory verification a proven domain moves to this blog, whichever blog held it |
| `Settings.UnverifiedCannotTakeOver` | multisite-landingpages.php:517-524 | without mandatory verification a domain that has a row keeps it |
| `Settings.Step` | multisite-landingpages.php:494-565 | only a flag changes the options, to its normalised value; a pair asks for at most its own cache removal (none for domain_new); the warning changes only for domain_new or to "Cleared cache" under cache management |
| `Settings.Validate` | multisite-landingpages.php:493-566 | without flag keys in the input the options come back unchanged, and earlier cache removals stay in front |
| `Settings.Requests` | multisite-landingpages.php:496-564 | the removal each pair may ask for, one per pair in submission order |
| `Settings.EmptyValuesSkipped` | multisite-landingpages.php:507 | empty domain_new and __delete__ values change nothing |
| `Settings.DeleteOnlyNamed` | multisite-landingpages.php:550-555 | __delete__ removes that row only, is a no-op for a missing row, and asks for that domain's cache to go, leaving the warning alone unless the value reads as the empty string |
| `Settings.SlugChangeOnlyNamed` | multisite-landingpages.php:556-561 | any other key changes only that domain's slug, to the sanitized value |
| `Settings.OnlyFlagsChange` | multisite-landingpages.php:490-568 | the returned options differ from the stored ones only at the flag keys, where they hold booleans |
| `Settings.LastFlagWins` | multisite-landingpages.php:496-504 | a submitted flag ends up as its normalised submitted value |
| `Settings.UntouchedRowsKept` | multisite-landingpages.php:490-568 | a domain no submitted pair names keeps its row |
| `Settings.PurgesGrow` | multisite-landingpages.php:493-566 | earlier cache removals stay in front, and those appended are the pairs' own requests in submission order, at most one per pair |
| `Settings.LoadOptions` | multisite-landingpages.php:88-103 | txt_record and db_version are set (to a uuid-based token and 1.2.9) only when unset; every other option is kept; the options are saved exactly when one was missing |
| `Settings.LoadOptionsSettles` | multisite-landingpages.php:88-103 | loading the completed options again changes and saves nothing |
| `Landingpages.Landingpages.constructor` | multisite-landingpages.php:39-103 | cache management when the constant is defined (warning when its directory is not writable), the options with defaults (saved when changed), the prefix, and the index of the blog's approved rows: its slugs are exactly theirs and each maps to one of them (empty without a blog id) |
| `Landingpages.Landingpages.PostType` | multisite-landingpages.php:243-252 | returns the published post type; a cached type is reused without a query, anything else is queried and cached |
| `Landingpages.Landingpages.Get` | multisite-landingpages.php:173-201 | the request gains pagename, request and did_permalink query vars for a page; page, name, request, matched rule, matched query and did_permalink for a post; nothing otherwise; the slug's post type is queried only when not cached |
| `Landingpages.Landingpages.SettingsValidate` | multisite-landingpages.php:490-568 | the loop leaves the options, the table, the warning and the cache removals as Validate says, and keeps the post-type cache valid |
| `Landingpages.Landingpages.SaveFlag` | multisite-landingpages.php:496-504 | a flag key stores its normalised boolean and asks for the whole site's cache to go when a set value changes, as Step says |
| `Landingpages.Landingpages.NewDomain` | multisite-landingpages.php:506-549 | a non-empty domain_new updates the table and the warning as AddDomain says for the domain it stands for |
| `Landingpages.Landingpages.DeleteDomain` | multisite-landingpages.php:550-555 | a non-empty __delete__ deletes that row and asks for its cache to go, as Step says |
| `Landingpages.Landingpages.ChangeSlug` | multisite-landingpages.php:556-561 | any other key re-slugs that domain and asks for its cache to go unless the slug already maps to it, as Step says |
| `Landingpages.Landingpages.RemoveCacheDir` | multisite-landingpages.php:576-585 | the removal is recorded, and a whole-site removal under cache management leaves the "Cleared cache" warning (line 612) |
| `Landingpages.Landingpages.PurgeOrphans` | multisite-landingpages.php:129-130 | the table loses exactly the rows of blogs that no longer exist |
| `Landingpages.Landingpages.Deactivate` | multisite-landingpages.php:768-775 | the option is deleted, and so are the blog's rows when the blog id is set |

## Left out

- Rendering: the settings page, its sections and fields apart from the status decision, the settings link, the menu item, the title rendering and the admin warning display. They only produce output.
- Hook registration, `initialize`, `activate` and the title-hook swapping that `get` does when remove_sitename is on (lines 178-184). They are framework plumbing; the flag itself is read by the constructor.
- File-system work: `.htaccess` handling, the WP Rocket directory removal itself (the directories `removeCacheForEntireSubSite` walks) and the is_readable test. Whether the cache directory is writable is a constructor parameter. The model records each requested cache removal as a `CachePurge`, whether or not cache management is configured; only the warning depends on it.
- The real DNS query, the SQL text with its escaping, table creation and alteration, `updateWhenNecessary` and `network_uninstall`. The table is a map and the DNS a parameter.
- The database collations: the table compares domains and slugs case-insensitively, and the model compares them exactly. `date_created` is not modelled.
- The network-wide branch of `deactivate`: it loops over blogs with switch_to_blog. The ruigehond011_htaccess_warning option that `deactivate` also deletes belongs to the .htaccess handling and is not modelled.
- PHP's loose comparison in `switch ($key)` and `in_array`: the model compares keys and post types exactly. They differ only for integer keys, which the form does not produce.
- `Landingpages.Landingpages.constructor`: a txt_record option that is not a string is compared in its string form.
- `Landingpages.Landingpages.PostType`: the posts query is a fixed function for the life of the object, so the cache cannot go stale.
- The lookup from domain to slug in the sunrise file is not part of this model. The slug arrives as a constructor parameter.
- An absent option array reads as no keys. PHP's `(array)false` has one integer key the plugin never reads.
