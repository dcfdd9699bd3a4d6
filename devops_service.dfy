/** The decision logic of `AzureDevOpsService`: organization URL
    normalization, the pool-id rule, the empty-response fallback and the
    online-and-enabled subset. The HTTP calls themselves are not modelled:
    their results are parameters. */
module DevOps {
  import opened Wrappers
  import opened Text
  import opened Sequences
  import opened Agents

  // ---------------------------------------------------------------------------
  // Organization URL
  // ---------------------------------------------------------------------------

  const ServiceHost: string := "dev.azure.com"
  const LegacyHostSuffix: string := ".visualstudio.com"
  const ServicePrefix: string := "https://dev.azure.com/"

  /** `NormalizeOrganizationUrl`: strips every trailing `/`; a text naming
      one of the service hosts is then a full URL and is kept, anything else
      is taken for an organization name and appended to the service URL. */
  function NormalizeOrganizationUrl(organization: string): (url: string)
    ensures var trimmed := TrimEndChar(organization, '/');
            if Contains(trimmed, ServiceHost) || Contains(trimmed, LegacyHostSuffix)
            then url == trimmed
            else url == ServicePrefix + trimmed
  {
    var trimmed := TrimEndChar(organization, '/');
    if Contains(trimmed, ServiceHost) || Contains(trimmed, LegacyHostSuffix) then trimmed
    else ServicePrefix + trimmed
  }

  /** The service URL holds the service host after its scheme. */
  lemma PrefixNamesHost()
    ensures 8 + |ServiceHost| < |ServicePrefix|
    ensures ServicePrefix[8..8 + |ServiceHost|] == ServiceHost
  {
    assert ServicePrefix == "https://" + ServiceHost + "/";
  }

  /** The result always names a service host, and it ends in a `/` only when
      the input was nothing but slashes. */
  lemma NormalizedShape(organization: string)
    ensures var url := NormalizeOrganizationUrl(organization);
            Contains(url, ServiceHost) || Contains(url, LegacyHostSuffix)
    ensures TrimEndChar(organization, '/') != [] ==>
              var url := NormalizeOrganizationUrl(organization);
              |url| > 0 && url[|url| - 1] != '/'
  {
    var trimmed := TrimEndChar(organization, '/');
    TrimEndCharSplits(organization, '/');
    if !(Contains(trimmed, ServiceHost) || Contains(trimmed, LegacyHostSuffix)) {
      var url := ServicePrefix + trimmed;
      PrefixNamesHost();
      assert url[8..8 + |ServiceHost|] == ServicePrefix[8..8 + |ServiceHost|];
      ContainsAt(url, ServiceHost, 8);
      if trimmed != [] {
        assert url[|url| - 1] == trimmed[|trimmed| - 1];
      }
    }
  }

  /** Normalizing a normalized URL changes nothing, provided the input was
      more than slashes. */
  lemma NormalizeIdempotent(organization: string)
    requires TrimEndChar(organization, '/') != []
    ensures NormalizeOrganizationUrl(NormalizeOrganizationUrl(organization))
         == NormalizeOrganizationUrl(organization)
  {
    var url := NormalizeOrganizationUrl(organization);
    NormalizedShape(organization);
    TrimEndCharSplits(url, '/');
    assert TrimEndChar(url, '/') == url;
  }

  /** An empty organization (or one of slashes only) is the exception: it
      normalizes to the bare service URL with its trailing `/`, which
      normalizes further to the same URL without it. */
  lemma NormalizeEmpty()
    ensures NormalizeOrganizationUrl("") == "https://dev.azure.com/"
    ensures NormalizeOrganizationUrl("https://dev.azure.com/") == "https://dev.azure.com"
  {
    assert !Contains("", ServiceHost);
    ServiceUrlTrimmed();
  }

  lemma ServiceUrlTrimmed()
    ensures TrimEndChar("https://dev.azure.com/", '/') == "https://dev.azure.com"
    ensures Contains("https://dev.azure.com", ServiceHost)
  {
    var u := "https://dev.azure.com";
    assert TrimEndChar("https://dev.azure.com/", '/') == u by {
      assert "https://dev.azure.com/"[..|u|] == u;
    }
    PrefixNamesHost();
    assert u == ServicePrefix[..|u|];
    assert u[8..8 + |ServiceHost|] == ServicePrefix[8..8 + |ServiceHost|];
    ContainsAt(u, ServiceHost, 8);
  }

  // ---------------------------------------------------------------------------
  // Pool id
  // ---------------------------------------------------------------------------

  /** The white space `int.TryParse` skips before and after the number. */
  predicate IsNumberWhite(c: char) {
    ('\U{9}' <= c <= '\U{D}') || c == ' '
  }

  function TrimNumberWhite(s: string): (r: string)
    decreases |s|
  {
    if |s| > 0 && IsNumberWhite(s[0]) then TrimNumberWhite(s[1..])
    else if |s| > 0 && IsNumberWhite(s[|s| - 1]) then TrimNumberWhite(s[..|s| - 1])
    else s
  }

  /** `int.TryParse` with the integer number style: surrounding white space,
      an optional sign and decimal digits, within the range of `int`. */
  function TryParseInt32(s: string): (r: Option<Int32>)
    ensures r.Some? ==> ParseInteger(TrimNumberWhite(s)) == Some(r.value as int)
    ensures r.None? ==> match ParseInteger(TrimNumberWhite(s))
                        case None => true
                        case Some(v) => v < MinInt32 || v > MaxInt32
  {
    match ParseInteger(TrimNumberWhite(s))
    case None => None
    case Some(v) => if MinInt32 <= v <= MaxInt32 then Some(v as Int32) else None
  }

  /** The text of every `int` parses back to it. */
  lemma TryParseInt32RoundTrip(n: Int32)
    ensures TryParseInt32(IntToString(n)) == Some(n)
  {
    IntToStringShape(n);
    ParseIntegerRoundTrip(n);
    var s := IntToString(n);
    assert !IsNumberWhite(s[0]) && !IsNumberWhite(s[|s| - 1]);
  }

  /** An agent pool: its id and its (possibly null) name. */
  datatype Pool = Pool(id: Int32, name: Option<string>)

  /** The position of the first pool named `name` ignoring case, or the
      number of pools when there is none (`FirstOrDefault`). */
  function FirstPoolNamed(pools: seq<Pool>, name: string): (i: nat)
    ensures i <= |pools|
    ensures i < |pools| ==> PoolNamed(pools[i], name)
    ensures forall j :: 0 <= j < i ==> !PoolNamed(pools[j], name)
    decreases |pools|
  {
    if pools == [] then 0
    else if PoolNamed(pools[0], name) then 0
    else 1 + FirstPoolNamed(pools[1..], name)
  }

  /** A pool whose name is non-null and equal to `name` ignoring case. */
  predicate PoolNamed(p: Pool, name: string) {
    p.name.Some? && EqualsIgnoreCase(p.name.value, name)
  }

  /** The decision in `GetPoolIdAsync`: a text that parses as an `int` is the
      id; otherwise the id of the first listed pool with that name, if any.
      `pools` is the `value` list of the pool response (null when the body
      or the list is missing). */
  function GetPoolId(pool: string, pools: Option<seq<Pool>>): (r: Option<Int32>)
    ensures TryParseInt32(pool).Some? ==> r == TryParseInt32(pool)
  {
    match TryParseInt32(pool)
    case Some(id) => Some(id)
    case None =>
      match pools
      case None => None
      case Some(ps) =>
        var i := FirstPoolNamed(ps, pool);
        if i < |ps| then Some(ps[i].id) else None
  }

  /** A numeric pool text never depends on the pool list. */
  lemma NumericPoolNeedsNoLookup(pool: string, pools1: Option<seq<Pool>>, pools2: Option<seq<Pool>>)
    requires TryParseInt32(pool).Some?
    ensures GetPoolId(pool, pools1) == GetPoolId(pool, pools2)
  {
  }

  /** A pool name resolves to the id of the first pool so named ignoring
      case, and to nothing when no pool has the name; pools without a name
      never match. */
  lemma PoolByName(pool: string, pools: seq<Pool>)
    requires TryParseInt32(pool).None?
    ensures GetPoolId(pool, Some(pools)).Some? ==>
              exists i :: 0 <= i < |pools| && pools[i].id == GetPoolId(pool, Some(pools)).value
                          && pools[i].name.Some? && EqualsIgnoreCase(pools[i].name.value, pool)
                          && forall j :: 0 <= j < i ==> !PoolNamed(pools[j], pool)
    ensures GetPoolId(pool, Some(pools)).None? <==>
              forall j :: 0 <= j < |pools| ==> !PoolNamed(pools[j], pool)
  {
  }

  // ---------------------------------------------------------------------------
  // Agent lists
  // ---------------------------------------------------------------------------

  /** `agentResponse?.Value ?? []`: a missing body or list gives no agents. */
  function AgentsOrEmpty(response: Option<Option<seq<Agent>>>): (r: seq<Agent>)
    ensures response.Some? && response.value.Some? ==> r == response.value.value
    ensures response.None? || response.value.None? ==> r == []
  {
    match response
    case Some(Some(agents)) => agents
    case _ => []
  }

  /** `GetOnlineEnabledAgentsAsync`: the online and enabled agents, in order. */
  function OnlineEnabledAgents(agents: seq<Agent>): (r: seq<Agent>)
    ensures IsSubsequence(r, agents)
    ensures forall a :: a in r <==> a in agents && IsOnlineAndEnabled(a)
    ensures forall a :: multiset(r)[a] == if IsOnlineAndEnabled(a) then multiset(agents)[a] else 0
  {
    FilterMembers(agents, IsOnlineAndEnabled);
    FilterIsSubsequence(agents, IsOnlineAndEnabled);
    FilterCounts(agents, IsOnlineAndEnabled);
    Filter(agents, IsOnlineAndEnabled)
  }
}
