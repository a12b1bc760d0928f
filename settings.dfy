/** What saving the settings page does (`settings_validate`), and the option defaults the constructor
    fills in. The DNS, idn_to_ascii, sanitize_title and the network id are parameters. */
module Settings {
  import opened PhpStrings
  import opened TxtRecord
  import opened LandingTable

  /** The on/off options. */
  const FlagKeys: set<string> := {"use_canonical", "use_www", "use_ssl", "remove_sitename"}

  /** The version the plugin stores as db_version when none is set. */
  const Version: string := "1.2.9"

  /** The warning left in the ruigehond011_warning transient. */
  datatype Notice =
    | DomainInUse(domain: string)
    | TxtRecordMissing(punycodeHint: bool)   // the hint is added when idn_to_ascii is missing
    | CacheCleared                           // removeCacheForEntireSubSite ran
    | CacheDirNotWritable                    // the WP Rocket directory is defined but not writable

  /** A WP Rocket cache removal removeCacheDirIfNecessary is asked for. */
  datatype CachePurge = WholeSite | DomainDir(domain: string)

  /** removeCacheDirIfNecessary($domain): the empty string stands for the whole sub-site. */
  function PurgeFor(domain: string): (p: CachePurge)
    ensures p == WholeSite <==> domain == ""
    ensures p.DomainDir? ==> p.domain == domain
  {
    if domain == "" then WholeSite else DomainDir(domain)
  }

  /** What a save of the settings page depends on besides the submission. */
  datatype Admin = Admin(
    mandatory: bool,                  // txt_record_mandatory
    manageCache: bool,                // manage_cache: RUIGEHOND011_WP_ROCKET_CACHE_DIR is defined
    dns: Dns,                         // dns_get_record
    token: string,                    // this sub-site's txt_record
    blogId: Option<int>,              // the current blog, if any
    networkId: int,                   // get_current_network_id()
    idn: Option<string -> string>,    // idn_to_ascii when the function exists ("" on failure)
    sanitize: string -> string,       // sanitize_title
    canonicals: map<string, string>)  // the slug -> domain index loaded by the constructor

  /** The state a save works on: the options being built, the landing-page table, the warning and
      the cache removals asked for so far. */
  datatype Submission = Submission(options: map<string, Value>, table: Table, notice: Option<Notice>, purges: seq<CachePurge>)

  /** A flag is on when it was submitted as the string "1" or as true. */
  function FlagValue(v: Value): (on: bool)
    ensures on <==> v == Str("1") || v == Bool(true)
  {
    v == Str("1") || v == Bool(true)
  }

  /** The domain a domain_new value stands for: one leading "www." dropped, then converted to ascii
      when idn_to_ascii exists. */
  function SubmittedDomain(a: Admin, value: string): (domain: string)
    ensures a.idn.None? && !StartsWith(value, "www.") ==> domain == value
    ensures a.idn.None? && StartsWith(value, "www.") ==> "www." + domain == value
    ensures a.idn.Some? && !StartsWith(value, "www.") ==> domain == a.idn.value(value)
    ensures a.idn.Some? && StartsWith(value, "www.") ==> exists bare :: "www." + bare == value && domain == a.idn.value(bare)
  {
    var bare := if StartsWith(value, "www.") then value[4..] else value;
    assert StartsWith(value, "www.") ==> value == "www." + bare;
    match a.idn
    case None => bare
    case Some(toAscii) => toAscii(bare)
  }

  /** The row a verified domain gets: this blog, this network, no slug yet, this sub-site's token,
      approved. */
  function NewRow(a: Admin): Row
    requires a.blogId.Some?
  {
    Row(a.blogId.value, a.networkId, "", a.token, true)
  }

  /** domain_new: an unverified domain only leaves a warning; without mandatory verification a domain
      that already has a row is refused; otherwise any row of the domain (whichever blog has it) is
      replaced by a new approved row of this blog. Without a blog id the INSERT has no value and fails,
      so only the DELETE takes effect. */
  function AddDomain(a: Admin, s: Submission, domain: string): (r: Submission)
    ensures r.options == s.options && r.purges == s.purges
    ensures !Check(a.mandatory, a.dns, domain, a.token) ==>
      r.table == s.table && r.notice == Some(TxtRecordMissing(a.idn.None?))
    ensures !a.mandatory && domain in s.table ==>
      r.table == s.table && r.notice == Some(DomainInUse(domain))
    ensures Check(a.mandatory, a.dns, domain, a.token) && (a.mandatory || domain !in s.table) ==>
      r.notice == s.notice
      && (a.blogId.Some? ==> domain in r.table && r.table[domain] == NewRow(a))
      && (a.blogId.None? ==> domain !in r.table)
    ensures forall d :: d != domain ==> SameRow(r.table, s.table, d)
  {
    if !Check(a.mandatory, a.dns, domain, a.token) then
      s.(notice := Some(TxtRecordMissing(a.idn.None?)))
    else if !a.mandatory && domain in s.table then
      s.(notice := Some(DomainInUse(domain)))
    else
      var cleared := Delete(s.table, domain);
      s.(table := if a.blogId.Some? then cleared[domain := NewRow(a)] else cleared)
  }

  /** With mandatory verification, a domain whose TXT walk finds this sub-site's token moves to this
      blog, whichever blog held it before. */
  lemma VerifiedDomainMoves(a: Admin, s: Submission, domain: string, i: int)
    requires a.mandatory && a.blogId.Some?
    requires Queried(domain, i) && AnswerProves(a.dns(domain[i..]), a.token)
    ensures var t := AddDomain(a, s, domain).table;
      domain in t && t[domain].blogId == a.blogId.value && t[domain].approved
  {
    QueriedProves(a.dns, domain, i, a.token);
  }

  /** Without mandatory verification, a domain that has a row keeps it, whoever submits it. */
  lemma UnverifiedCannotTakeOver(a: Admin, s: Submission, domain: string)
    requires !a.mandatory && domain in s.table
    ensures AddDomain(a, s, domain).table == s.table
  {
  }

  /** removeCacheDirIfNecessary($domain), recorded as a request; with cache management on, the
      whole-site removal (removeCacheForEntireSubSite) leaves the "Cleared cache" warning. */
  function Purge(a: Admin, s: Submission, domain: string): Submission
  {
    s.(purges := s.purges + [PurgeFor(domain)],
       notice := if a.manageCache && domain == "" then Some(CacheCleared) else s.notice)
  }

  /** The cache removal a submitted pair may ask for: the whole sub-site for a flag, the named domain for
      __delete__, the key's domain for a slug change (domain_new asks for none). */
  function Requested(key: string, value: Value): CachePurge
  {
    if key in FlagKeys then WholeSite
    else if key == "__delete__" then PurgeFor(AsString(value))
    else PurgeFor(key)
  }

  /** One submitted key/value pair: the switch in settings_validate. A flag is the only key that
      changes the options; a pair asks for at most its own cache removal; and the warning changes only
      for domain_new or, with cache management on, to "Cleared cache". */
  function Step(a: Admin, s: Submission, key: string, value: Value): (r: Submission)
    ensures key in FlagKeys ==> r.options == s.options[key := Bool(FlagValue(value))]
    ensures key !in FlagKeys ==> r.options == s.options
    ensures key != "domain_new" ==> r.purges == s.purges || r.purges == s.purges + [Requested(key, value)]
    ensures key == "domain_new" ==> r.purges == s.purges
    ensures r.notice != s.notice ==> key == "domain_new" || (a.manageCache && r.notice == Some(CacheCleared))
  {
    if key in FlagKeys then
      var on := FlagValue(value);
      var changed := key in s.options && s.options[key] != Null && s.options[key] != Bool(on);
      var saved := s.(options := s.options[key := Bool(on)]);
      if changed then Purge(a, saved, "") else saved
    else if key == "domain_new" then
      if value == Str("") then s else AddDomain(a, s, SubmittedDomain(a, AsString(value)))
    else if key == "__delete__" then
      if value == Str("") then s
      else Purge(a, s.(table := Delete(s.table, AsString(value))), AsString(value))
    else
      var slug := a.sanitize(AsString(value));
      var changed := slug !in a.canonicals || a.canonicals[slug] != key;
      var reslugged := s.(table := Reslug(s.table, key, slug));
      if changed then Purge(a, reslugged, key) else reslugged
  }

  /** A non-empty domain_new value adds the domain it stands for. */
  lemma StepDomainNew(a: Admin, s: Submission, value: Value)
    requires value != Str("")
    ensures Step(a, s, "domain_new", value) == AddDomain(a, s, SubmittedDomain(a, AsString(value)))
  {
  }

  /** Empty domain_new and __delete__ values are skipped. */
  lemma EmptyValuesSkipped(a: Admin, s: Submission)
    ensures Step(a, s, "domain_new", Str("")) == s
    ensures Step(a, s, "__delete__", Str("")) == s
  {
  }

  /** __delete__ removes the named domain's row and no other, and asks for that domain's cache to go. */
  lemma DeleteOnlyNamed(a: Admin, s: Submission, value: Value)
    requires value != Str("")
    ensures var r := Step(a, s, "__delete__", value);
      AsString(value) !in r.table
      && (forall d :: d != AsString(value) ==> SameRow(r.table, s.table, d))
      && (AsString(value) !in s.table ==> r.table == s.table)
      && r.options == s.options && r.purges == s.purges + [PurgeFor(AsString(value))]
      && (AsString(value) != "" || !a.manageCache ==> r.notice == s.notice)
  {
  }

  /** Any other key is a domain whose row gets the sanitized slug; no other row changes, and a missing
      row is no error. */
  lemma SlugChangeOnlyNamed(a: Admin, s: Submission, key: string, value: Value)
    requires key !in FlagKeys && key != "domain_new" && key != "__delete__"
    ensures var r := Step(a, s, key, value);
      r.table.Keys == s.table.Keys && r.options == s.options
      && (key in s.table ==> r.table[key] == s.table[key].(postName := a.sanitize(AsString(value))))
      && (forall d :: d != key ==> SameRow(r.table, s.table, d))
  {
  }

  /** settings_validate over the submitted pairs, in order. Without flags in the input the options
      come back as they were, and the cache removals asked for earlier stay in front. */
  function Validate(a: Admin, s: Submission, input: seq<(string, Value)>): (r: Submission)
    ensures (forall k :: 0 <= k < |input| ==> input[k].0 !in FlagKeys) ==> r.options == s.options
    ensures |s.purges| <= |r.purges| && r.purges[..|s.purges|] == s.purges
  {
    if input == [] then s
    else
      var n := |input| - 1;
      Step(a, Validate(a, s, input[..n]), input[n].0, input[n].1)
  }

  /** Whether the stored options agree at every key except the flags, and hold booleans at the flags
      the first one has. */
  predicate FlagsOnlyDiffer(before: map<string, Value>, after: map<string, Value>)
  {
    after.Keys - FlagKeys == before.Keys - FlagKeys
    && (forall k :: k in after && k in before && k !in FlagKeys ==> after[k] == before[k])
    && (forall k :: k in after && k in FlagKeys && (k !in before || before[k] != after[k]) ==> after[k].Bool?)
  }

  /** The options returned differ from the stored ones only in the flag keys, and a changed flag holds a
      boolean. */
  lemma {:induction false} OnlyFlagsChange(a: Admin, s: Submission, input: seq<(string, Value)>)
    ensures FlagsOnlyDiffer(s.options, Validate(a, s, input).options)
  {
    if input != [] {
      var n := |input| - 1;
      OnlyFlagsChange(a, s, input[..n]);
    }
  }

  /** A flag submitted in the input ends up as the normalised last value submitted for it. */
  lemma {:induction false} LastFlagWins(a: Admin, s: Submission, input: seq<(string, Value)>, k: int)
    requires 0 <= k < |input| && input[k].0 in FlagKeys
    requires forall j :: k < j < |input| ==> input[j].0 != input[k].0
    ensures var options := Validate(a, s, input).options;
      input[k].0 in options && options[input[k].0] == Bool(FlagValue(input[k].1))
  {
    var n := |input| - 1;
    var prev := Validate(a, s, input[..n]);
    assert Validate(a, s, input) == Step(a, prev, input[n].0, input[n].1);
    if k < n {
      LastFlagWins(a, s, input[..n], k);
      StepKeepsFlag(a, prev, input[n].0, input[n].1, input[k].0);
    }
  }

  /** One pair for another key leaves a flag as it was. */
  lemma StepKeepsFlag(a: Admin, s: Submission, key: string, value: Value, flag: string)
    requires flag in FlagKeys && key != flag
    ensures flag in Step(a, s, key, value).options <==> flag in s.options
    ensures flag in s.options ==> Step(a, s, key, value).options[flag] == s.options[flag]
  {
  }

  /** Whether a submitted pair may change the row of domain d. */
  predicate Touches(a: Admin, key: string, value: Value, d: string)
  {
    if key in FlagKeys then false
    else if key == "domain_new" then value != Str("") && SubmittedDomain(a, AsString(value)) == d
    else if key == "__delete__" then value != Str("") && AsString(value) == d
    else key == d
  }

  /** A domain no submitted pair names keeps its row (or its absence). */
  lemma {:induction false} UntouchedRowsKept(a: Admin, s: Submission, input: seq<(string, Value)>, d: string)
    requires forall j :: 0 <= j < |input| ==> !Touches(a, input[j].0, input[j].1, d)
    ensures SameRow(Validate(a, s, input).table, s.table, d)
  {
    if input != [] {
      var n := |input| - 1;
      var prev := Validate(a, s, input[..n]);
      UntouchedRowsKept(a, s, input[..n], d);
      assert SameRow(Validate(a, s, input).table, prev.table, d) by {
        assert Validate(a, s, input) == Step(a, prev, input[n].0, input[n].1);
        StepKeepsUntouched(a, prev, input[n].0, input[n].1, d);
      }
    }
  }

  /** One pair that does not name d leaves d's row alone. */
  lemma StepKeepsUntouched(a: Admin, s: Submission, key: string, value: Value, d: string)
    requires !Touches(a, key, value, d)
    ensures SameRow(Step(a, s, key, value).table, s.table, d)
  {
  }

  /** Whether xs is ys with some elements left out, the rest kept in order. */
  predicate Subsequence<T(==)>(xs: seq<T>, ys: seq<T>)
    decreases |ys|
  {
    if ys == [] then xs == []
    else
      var n := |ys| - 1;
      Subsequence(xs, ys[..n]) || (xs != [] && xs[|xs| - 1] == ys[n] && Subsequence(xs[..|xs| - 1], ys[..n]))
  }

  /** The removal each submitted pair may ask for, pair by pair. */
  function Requests(input: seq<(string, Value)>): (r: seq<CachePurge>)
    ensures |r| == |input|
    ensures forall k :: 0 <= k < |input| ==> r[k] == Requested(input[k].0, input[k].1)
  {
    if input == [] then []
    else
      var n := |input| - 1;
      Requests(input[..n]) + [Requested(input[n].0, input[n].1)]
  }

  /** Cache removals are only appended, and those appended are the pairs' own requests, in submission
      order, each pair asking at most once. */
  lemma {:induction false} PurgesGrow(a: Admin, s: Submission, input: seq<(string, Value)>)
    ensures |s.purges| <= |Validate(a, s, input).purges|
    ensures Validate(a, s, input).purges[..|s.purges|] == s.purges
    ensures Subsequence(Validate(a, s, input).purges[|s.purges|..], Requests(input))
  {
    var r := Validate(a, s, input);
    if input == [] {
      assert r.purges[|s.purges|..] == [];
    } else {
      var n := |input| - 1;
      var prev := Validate(a, s, input[..n]);
      var x := Requested(input[n].0, input[n].1);
      PurgesGrow(a, s, input[..n]);
      assert r.purges == prev.purges || r.purges == prev.purges + [x] by {
        assert r == Step(a, prev, input[n].0, input[n].1);
      }
      AppendedInOrder(prev.purges, r.purges, |s.purges|, Requests(input[..n]), x);
    }
  }

  /** Appending at most x to a list whose tail past m follows reqs leaves a tail that follows reqs + [x]. */
  lemma AppendedInOrder(before: seq<CachePurge>, after: seq<CachePurge>, m: nat, reqs: seq<CachePurge>, x: CachePurge)
    requires m <= |before| && Subsequence(before[m..], reqs)
    requires after == before || after == before + [x]
    ensures m <= |after| && Subsequence(after[m..], reqs + [x])
  {
    var ys := reqs + [x];
    assert ys[..|reqs|] == reqs;
    if after != before {
      var xs := after[m..];
      assert xs == before[m..] + [x];
      assert xs[..|xs| - 1] == before[m..];
    }
  }

  /** The option defaults the constructor fills in: a txt_record built from a fresh uuid and the current
      db_version, each only when not set (null counts as unset); `saved` says whether update_option runs. */
  function LoadOptions(stored: map<string, Value>, uuid: string): (r: (map<string, Value>, bool))
    ensures var (options, saved) := r;
      (forall k :: k in options <==> k in stored || k == "txt_record" || k == "db_version")
      && (forall k :: k in stored && k != "txt_record" && k != "db_version" ==> options[k] == stored[k])
      && options["txt_record"] != Null && options["db_version"] != Null
      && ("txt_record" in stored && stored["txt_record"] != Null ==> options["txt_record"] == stored["txt_record"])
      && ("txt_record" !in stored || stored["txt_record"] == Null ==>
            options["txt_record"] == Str("multisite-landingpages=" + uuid))
      && ("db_version" in stored && stored["db_version"] != Null ==> options["db_version"] == stored["db_version"])
      && ("db_version" !in stored || stored["db_version"] == Null ==> options["db_version"] == Str(Version))
      && (saved <==> !IsSet(stored, "txt_record") || !IsSet(stored, "db_version"))
  {
    var withTxt := if IsSet(stored, "txt_record") then stored
                   else stored["txt_record" := Str("multisite-landingpages=" + uuid)];
    var withVersion := if IsSet(withTxt, "db_version") then withTxt else withTxt["db_version" := Str(Version)];
    (withVersion, !IsSet(stored, "txt_record") || !IsSet(stored, "db_version"))
  }

  /** isset($options[key]). */
  predicate IsSet(options: map<string, Value>, key: string)
  {
    key in options && options[key] != Null
  }

  /** Once the defaults are in, loading again changes nothing and saves nothing. */
  lemma LoadOptionsSettles(stored: map<string, Value>, uuid: string, uuid2: string)
    ensures LoadOptions(LoadOptions(stored, uuid).0, uuid2) == (LoadOptions(stored, uuid).0, false)
  {
  }
}
