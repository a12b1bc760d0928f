/** Domain ownership: the recursive TXT-record check of `checkTxtRecord`. */
module TxtRecord {
  import opened PhpStrings

  /** One element of the list dns_get_record($domain, DNS_TXT) returns: an array that may hold a
      'txt' entry, or anything else (which the check skips). */
  datatype DnsRecord = NotAnArray | Record(txt: Option<string>)

  /** dns_get_record's answer: false when the lookup fails, otherwise the list of records. */
  datatype DnsAnswer = LookupFailed | Answer(records: seq<DnsRecord>)

  /** The DNS as seen during one admin request: the answer for every name. */
  type Dns = string -> DnsAnswer

  /** Whether TXT verification is mandatory: the constant RUIGEHOND011_TXT_RECORD_MANDATORY when it is
      defined, true otherwise. */
  function Mandatory(constant: Option<bool>): (mandatory: bool)
    ensures constant.None? ==> mandatory
    ensures constant.Some? ==> mandatory == constant.value
  {
    match constant
    case None => true
    case Some(b) => b
  }

  /** A record proves ownership when it is an array with a 'txt' value whose trimmed text is the token;
      the token itself is not trimmed. */
  predicate Proves(record: DnsRecord, token: string)
  {
    record.Record? && record.txt.Some? && Trim(record.txt.value, Blanks) == token
  }

  predicate AnswerProves(answer: DnsAnswer, token: string)
  {
    answer.Answer? && exists k :: 0 <= k < |answer.records| && Proves(answer.records[k], token)
  }

  /** checkTxtRecord($domain, $txt_value): look the name up; failing a match, drop everything up to and
      including the first '.', and go on with the rest while the rest still holds a '.'. */
  function Check(mandatory: bool, dns: Dns, domain: string, token: string): (verified: bool)
    ensures !mandatory ==> verified
    ensures AnswerProves(dns(domain), token) ==> verified
    decreases |domain|
  {
    if !mandatory then true
    else if AnswerProves(dns(domain), token) then true
    else match IndexOf(domain, '.')
      case None => false
      case Some(p) =>
        var parent := domain[p + 1..];
        '.' in parent && Check(mandatory, dns, parent, token)
  }

  /** Whether the walk from `domain` looks up domain[i..]: the name itself, or what follows a '.' as
      long as that still holds a '.' (so a bare top-level label is never looked up). */
  predicate Queried(domain: string, i: int)
  {
    i == 0 || (0 < i <= |domain| && domain[i - 1] == '.' && '.' in domain[i..])
  }

  /** A mandatory check succeeds exactly when some name on the walk has a proving record. */
  lemma {:induction false} CheckWalksParents(dns: Dns, domain: string, token: string)
    ensures Check(true, dns, domain, token)
        <==> exists i :: Queried(domain, i) && AnswerProves(dns(domain[i..]), token)
    decreases |domain|, 1
  {
    assert domain[0..] == domain;
    if AnswerProves(dns(domain), token) {
      assert Queried(domain, 0);
    } else {
      WalkPastDomain(dns, domain, token);
    }
  }

  /** Without a proving record on the domain itself, the check succeeds exactly when a name further
      along the walk has one. */
  lemma {:induction false} WalkPastDomain(dns: Dns, domain: string, token: string)
    requires !AnswerProves(dns(domain), token)
    ensures Check(true, dns, domain, token)
        <==> exists i :: Queried(domain, i) && i > 0 && AnswerProves(dns(domain[i..]), token)
    decreases |domain|, 0
  {
    match IndexOf(domain, '.')
    case None =>
      NoDotNoWalk(domain);
    case Some(p) =>
      var parent := domain[p + 1..];
      assert Check(true, dns, domain, token) == ('.' in parent && Check(true, dns, parent, token));
      if '.' in parent {
        var fromParent := exists j :: Queried(parent, j) && AnswerProves(dns(parent[j..]), token);
        var pastDomain := exists i :: Queried(domain, i) && i > 0 && AnswerProves(dns(domain[i..]), token);
        assert Check(true, dns, parent, token) == fromParent by {
          CheckWalksParents(dns, parent, token);
        }
        assert fromParent == pastDomain by {
          ParentWalk(dns, domain, p, parent, token);
        }
      } else {
        LastLabelEndsWalk(domain, p);
      }
  }

  /** A dotless domain is the only name its walk looks up. */
  lemma NoDotNoWalk(domain: string)
    requires '.' !in domain
    ensures forall i :: Queried(domain, i) ==> i == 0
  {
  }

  /** Once no '.' follows the first one, the walk stops at the domain itself. */
  lemma LastLabelEndsWalk(domain: string, p: nat)
    requires p < |domain| && domain[p] == '.' && '.' !in domain[..p] && '.' !in domain[p + 1..]
    ensures forall i :: Queried(domain, i) ==> i == 0
  {
    forall i | Queried(domain, i) && i > 0
      ensures false
    {
      QueriedInParent(domain, p, i);
    }
  }

  /** Past the domain itself, the walk from the domain and the walk from its parent reach the same
      names. */
  lemma ParentWalk(dns: Dns, domain: string, p: nat, parent: string, token: string)
    requires p < |domain| && domain[p] == '.' && '.' !in domain[..p] && parent == domain[p + 1..] && '.' in parent
    ensures (exists j :: Queried(parent, j) && AnswerProves(dns(parent[j..]), token))
        <==> (exists i :: Queried(domain, i) && i > 0 && AnswerProves(dns(domain[i..]), token))
  {
    if exists j :: Queried(parent, j) && AnswerProves(dns(parent[j..]), token) {
      var j :| Queried(parent, j) && AnswerProves(dns(parent[j..]), token);
      ParentQueried(domain, p, j);
      assert Queried(domain, p + 1 + j) && p + 1 + j > 0;
    }
    if exists i :: Queried(domain, i) && i > 0 && AnswerProves(dns(domain[i..]), token) {
      var i :| Queried(domain, i) && i > 0 && AnswerProves(dns(domain[i..]), token);
      QueriedInParent(domain, p, i);
      assert Queried(parent, i - p - 1);
    }
  }

  /** A name the walk from the parent looks up is one the walk from the domain looks up. */
  lemma ParentQueried(domain: string, p: nat, j: int)
    requires p < |domain| && domain[p] == '.' && '.' in domain[p + 1..]
    requires Queried(domain[p + 1..], j)
    ensures Queried(domain, p + 1 + j) && domain[p + 1..][j..] == domain[p + 1 + j..]
  {
  }

  /** Past the domain itself, the walk only looks up names inside the part after the first dot. */
  lemma QueriedInParent(domain: string, p: nat, i: int)
    requires p < |domain| && domain[p] == '.' && '.' !in domain[..p]
    requires Queried(domain, i) && i > 0
    ensures p + 1 <= i && '.' in domain[p + 1..]
    ensures Queried(domain[p + 1..], i - p - 1) && domain[p + 1..][i - p - 1..] == domain[i..]
  {
    FirstDotBefore(domain, p, i - 1);
    var k :| 0 <= k < |domain[i..]| && domain[i..][k] == '.';
    assert domain[p + 1..][i - p - 1 + k] == '.';
  }

  lemma FirstDotBefore(domain: string, p: nat, q: nat)
    requires p < |domain| && '.' !in domain[..p]
    requires q < |domain| && domain[q] == '.'
    ensures p <= q
  {
  }

  /** How many times dns_get_record runs during Check. */
  function Lookups(mandatory: bool, dns: Dns, domain: string, token: string): (n: nat)
    ensures n == 0 <==> !mandatory
    decreases |domain|
  {
    if !mandatory then 0
    else if AnswerProves(dns(domain), token) then 1
    else 1 + match IndexOf(domain, '.')
      case None => 0
      case Some(p) =>
        var parent := domain[p + 1..];
        if '.' in parent then Lookups(mandatory, dns, parent, token) else 0
  }

  /** A check never looks up more names than the domain has dots (and at least one). */
  lemma {:induction false} LookupsBounded(mandatory: bool, dns: Dns, domain: string, token: string)
    ensures mandatory ==> 1 <= Lookups(mandatory, dns, domain, token)
    ensures Lookups(mandatory, dns, domain, token) <= if '.' in domain then multiset(domain)['.'] else 1
    decreases |domain|
  {
    if mandatory && !AnswerProves(dns(domain), token) {
      match IndexOf(domain, '.')
      case None =>
      case Some(p) =>
        var parent := domain[p + 1..];
        assert domain == domain[..p] + [domain[p]] + parent;
        assert multiset(domain)['.'] == multiset(domain[..p])['.'] + 1 + multiset(parent)['.'];
        if '.' in parent {
          LookupsBounded(mandatory, dns, parent, token);
        }
    }
  }

  /** With verification switched off by the constant, every domain passes whatever the DNS says. */
  lemma NotMandatoryAcceptsAll(dns: Dns, domain: string, token: string)
    ensures Check(Mandatory(Some(false)), dns, domain, token)
  {
  }

  /** A record on the parent domain (example.com for shop.example.com) proves ownership of a
      sub-domain that has none of its own; blanks around the record's text do not matter. */
  lemma ParentRecordProvesSubdomain(dns: Dns, host: string, parent: string, token: string)
    requires '.' in parent
    requires |token| > 0 && token[0] !in Blanks && token[|token| - 1] !in Blanks
    requires dns(parent) == Answer([Record(Some(" " + token + "\n"))])
    ensures Check(true, dns, host + "." + parent, token)
  {
    var domain := host + "." + parent;
    var i := |host| + 1;
    assert Proves(dns(parent).records[0], token) by {
      TrimPadded(token, ' ', '\n', Blanks);
    }
    assert domain[i..] == parent && domain[i - 1] == '.';
    QueriedProves(dns, domain, i, token);
  }

  lemma QueriedProves(dns: Dns, domain: string, i: int, token: string)
    requires Queried(domain, i) && AnswerProves(dns(domain[i..]), token)
    ensures Check(true, dns, domain, token)
  {
    CheckWalksParents(dns, domain, token);
  }
}
