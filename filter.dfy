/** `AgentFilterService`: filtering agents by a capability filter string and
    collecting the column schema of all capability keys. */
module AgentFilter {
  import opened Wrappers
  import opened Text
  import opened Sequences
  import opened Agents

  // ---------------------------------------------------------------------------
  // Parsing the filter string
  // ---------------------------------------------------------------------------

  /** A parsed filter: a capability name and, for `name=value`, the value. */
  datatype Query = Query(name: string, value: Option<string>)

  /** `s.Split(c, 2)`: the text before the first `c` and, when there is one,
      everything after it (which may contain more `c`s). */
  function SplitFirst(s: string, c: char): (r: (string, Option<string>))
    ensures r.1.None? ==> r.0 == s && c !in s
    ensures r.1.Some? ==> s == r.0 + [c] + r.1.value && c !in r.0
    decreases |s|
  {
    if s == [] then ([], None)
    else if s[0] == c then ([], Some(s[1..]))
    else
      var rest := SplitFirst(s[1..], c);
      ([s[0]] + rest.0, rest.1)
  }

  /** Splits a filter at its first `=` and trims both parts; without an `=`
      there is no value part. */
  function ParseFilter(filter: string): Query {
    var parts := SplitFirst(filter, '=');
    Query(Trim(parts.0), if parts.1.Some? then Some(Trim(parts.1.value)) else None)
  }

  /** The per-agent test of `FilterByCapability`. Without a value: some merged
      key contains the name ignoring case. With a value: the merged map has
      the name as a key (ignoring case) and its value contains the value
      ignoring case. */
  predicate Matches(q: Query, a: Agent) {
    var caps := Merged(a);
    match q.value
    case None =>
      exists i :: 0 <= i < |caps.entries| && ContainsIgnoreCase(caps.entries[i].key, q.name)
    case Some(v) =>
      caps.TryGetValue(q.name).Some? && ContainsIgnoreCase(caps.TryGetValue(q.name).value, v)
  }

  /** `FilterByCapability`: a null or blank filter returns the list unchanged;
      otherwise the agents that match the parsed filter, in order. */
  function FilterByCapability(agents: seq<Agent>, filter: Option<string>): (r: seq<Agent>)
    ensures IsNullOrWhiteSpace(filter) ==> r == agents
    ensures IsSubsequence(r, agents)
    ensures !IsNullOrWhiteSpace(filter) ==>
              forall a :: a in r <==> a in agents && Matches(ParseFilter(filter.value), a)
    ensures !IsNullOrWhiteSpace(filter) ==>
              forall a :: multiset(r)[a]
                          == if Matches(ParseFilter(filter.value), a) then multiset(agents)[a] else 0
  {
    if IsNullOrWhiteSpace(filter) then
      SubsequenceRefl(agents);
      agents
    else
      var q := ParseFilter(filter.value);
      var p := (a: Agent) => Matches(q, a);
      FilterMembers(agents, p);
      FilterIsSubsequence(agents, p);
      FilterCounts(agents, p);
      Filter(agents, p)
  }

  /** `FilterByExactCapability`: the agents whose merged value for the key
      (looked up ignoring case) equals the given value ignoring case. */
  function FilterByExactCapability(agents: seq<Agent>, name: string, exactValue: string): (r: seq<Agent>)
    ensures IsSubsequence(r, agents)
    ensures forall a :: a in r <==>
              a in agents && Merged(a).TryGetValue(name).Some?
              && EqualsIgnoreCase(Merged(a).TryGetValue(name).value, exactValue)
    ensures forall a :: multiset(r)[a]
              == if Merged(a).TryGetValue(name).Some?
                    && EqualsIgnoreCase(Merged(a).TryGetValue(name).value, exactValue)
                 then multiset(agents)[a] else 0
  {
    var p := (a: Agent) =>
      Merged(a).TryGetValue(name).Some? && EqualsIgnoreCase(Merged(a).TryGetValue(name).value, exactValue);
    FilterMembers(agents, p);
    FilterIsSubsequence(agents, p);
    FilterCounts(agents, p);
    Filter(agents, p)
  }

  lemma {:induction false} SubsequenceRefl<T>(s: seq<T>)
    ensures IsSubsequence(s, s)
    decreases |s|
  {
    if s != [] {
      SubsequenceRefl(s[1..]);
    }
  }

  // ---------------------------------------------------------------------------
  // Properties of the filter
  // ---------------------------------------------------------------------------

  /** The filter is split at its first `=` only: the name is the trimmed text
      before it and the value the trimmed rest, which may contain `=`. */
  lemma ParseFilterSplit(filter: string, i: nat)
    requires i < |filter| && filter[i] == '=' && '=' !in filter[..i]
    ensures ParseFilter(filter) == Query(Trim(filter[..i]), Some(Trim(filter[i + 1..])))
  {
    var parts := SplitFirst(filter, '=');
    var n := |parts.0|;
    assert filter[n] == '=' by {
      assert filter == parts.0 + ['='] + parts.1.value;
    }
    assert filter[..n] == parts.0;
    assert filter[n + 1..] == parts.1.value;
  }

  /** A filter without `=` is a name-only filter on its trimmed text. */
  lemma ParseFilterNameOnly(filter: string)
    requires '=' !in filter
    ensures ParseFilter(filter) == Query(Trim(filter), None)
  {
  }

  /** The filter "=" is not "match everything": it keeps the agents whose
      merged capabilities have the empty string as a key. */
  lemma EqualsSignFilter(agents: seq<Agent>)
    ensures forall a :: a in FilterByCapability(agents, Some("=")) <==>
              a in agents && Merged(a).TryGetValue("").Some?
  {
    assert !IsWhiteSpace('=');
    ParseFilterSplit("=", 0);
    assert "="[..0] == "" && "="[1..] == "";
    forall a | a in agents ensures Matches(Query("", Some("")), a) == Merged(a).TryGetValue("").Some? {
      if Merged(a).TryGetValue("").Some? {
        ContainsPrefix(Fold(Merged(a).TryGetValue("").value), "");
      }
    }
  }

  /** A name-only filter keeps an agent exactly when one of its system or
      user capability keys contains the name ignoring case; an agent with no
      capabilities is never kept. */
  lemma NameOnlyMatch(name: string, a: Agent)
    ensures Matches(Query(name, None), a) <==>
              exists e :: e in a.systemCapabilities.GetOr([]) + a.userCapabilities.GetOr([])
                          && ContainsIgnoreCase(e.key, name)
    ensures a.systemCapabilities.GetOr([]) + a.userCapabilities.GetOr([]) == [] ==>
              !Matches(Query(name, None), a)
  {
    var src := a.systemCapabilities.GetOr([]) + a.userCapabilities.GetOr([]);
    var es := Merged(a).entries;
    MergedKeys(a);
    assert FoldedKeys(src) == FoldedKeys(es) by {
      assert forall e :: e in src <==> e in a.systemCapabilities.GetOr([]) || e in a.userCapabilities.GetOr([]);
    }
    if Matches(Query(name, None), a) {
      var i :| 0 <= i < |es| && ContainsIgnoreCase(es[i].key, name);
      assert es[i] in es;
      assert Fold(es[i].key) in FoldedKeys(src);
      var e :| e in src && Fold(e.key) == Fold(es[i].key);
      FoldIdempotent(e.key);
      FoldIdempotent(es[i].key);
      assert ContainsIgnoreCase(e.key, name);
    }
    if exists e :: e in src && ContainsIgnoreCase(e.key, name) {
      var e :| e in src && ContainsIgnoreCase(e.key, name);
      assert Fold(e.key) in FoldedKeys(es);
      var f :| f in es && Fold(f.key) == Fold(e.key);
      var i :| 0 <= i < |es| && es[i] == f;
      assert ContainsIgnoreCase(es[i].key, name);
    }
  }

  /** A `name=value` filter keeps an agent exactly when the user capabilities,
      or failing them the system capabilities, give the name (ignoring case)
      a value containing the value ignoring case; `name=` keeps exactly the
      agents that have the key. */
  lemma NameValueMatch(name: string, value: string, a: Agent)
    ensures Matches(Query(name, Some(value)), a) <==>
              var found := LastValue(a.userCapabilities.GetOr([]), name)
                             .OrElse(LastValue(a.systemCapabilities.GetOr([]), name));
              found.Some? && ContainsIgnoreCase(found.value, value)
    ensures Matches(Query(name, Some("")), a) <==> Merged(a).TryGetValue(name).Some?
  {
    MergedLookup(a, name);
    if Merged(a).TryGetValue(name).Some? {
      ContainsPrefix(Fold(Merged(a).TryGetValue(name).value), "");
    }
  }

  /** Filtering the result of a filter with the same filter changes nothing. */
  lemma FilterByCapabilityIdempotent(agents: seq<Agent>, filter: Option<string>)
    ensures FilterByCapability(FilterByCapability(agents, filter), filter)
         == FilterByCapability(agents, filter)
  {
    if !IsNullOrWhiteSpace(filter) {
      var q := ParseFilter(filter.value);
      FilterIdempotent(agents, (a: Agent) => Matches(q, a));
    }
  }

  // ---------------------------------------------------------------------------
  // The capability schema
  // ---------------------------------------------------------------------------

  /** `SelectMany(a => a.GetAllCapabilities().Keys)`. */
  function AllKeys(agents: seq<Agent>): seq<string>
    decreases |agents|
  {
    if agents == [] then [] else Merged(agents[0]).Keys() + AllKeys(agents[1..])
  }

  /** `Distinct(StringComparer.OrdinalIgnoreCase)` with the case-folded forms
      in `seen` already taken: the first spelling of each key is kept. */
  function DistinctFrom(s: seq<string>, seen: set<string>): seq<string>
    decreases |s|
  {
    if s == [] then []
    else if Fold(s[0]) in seen then DistinctFrom(s[1..], seen)
    else [s[0]] + DistinctFrom(s[1..], seen + {Fold(s[0])})
  }

  function DistinctIgnoringCase(s: seq<string>): seq<string> {
    DistinctFrom(s, {})
  }

  /** `GetAllCapabilityKeys`: every agent's merged keys, without duplicates
      ignoring case, in ascending order. */
  function GetAllCapabilityKeys(agents: seq<Agent>): seq<string> {
    SortByText(DistinctIgnoringCase(AllKeys(agents)), Fold)
  }

  lemma {:induction false} AllKeysMembers(agents: seq<Agent>, k: string)
    ensures k in AllKeys(agents) <==> exists a :: a in agents && k in Merged(a).Keys()
    decreases |agents|
  {
    if agents != [] {
      AllKeysMembers(agents[1..], k);
      assert forall a :: a in agents <==> a == agents[0] || a in agents[1..];
    }
  }

  /** `DistinctFrom` keeps only elements of its input that were not seen. */
  lemma {:induction false} DistinctFromSound(s: seq<string>, seen: set<string>)
    ensures forall x :: x in DistinctFrom(s, seen) ==> x in s && Fold(x) !in seen
    decreases |s|
  {
    if s != [] {
      DistinctFromSound(s[1..], seen);
      DistinctFromSound(s[1..], seen + {Fold(s[0])});
    }
  }

  /** No two elements `DistinctFrom` keeps are equal ignoring case. */
  lemma {:induction false} DistinctFromUnique(s: seq<string>, seen: set<string>)
    ensures forall i, j :: 0 <= i < j < |DistinctFrom(s, seen)| ==>
              Fold(DistinctFrom(s, seen)[i]) != Fold(DistinctFrom(s, seen)[j])
    decreases |s|
  {
    if s != [] {
      if Fold(s[0]) in seen {
        DistinctFromUnique(s[1..], seen);
      } else {
        var seen' := seen + {Fold(s[0])};
        var rest := DistinctFrom(s[1..], seen');
        DistinctFromUnique(s[1..], seen');
        DistinctFromSound(s[1..], seen');
        var r := DistinctFrom(s, seen);
        assert r == [s[0]] + rest;
        forall i, j | 0 <= i < j < |r| ensures Fold(r[i]) != Fold(r[j]) {
          if i == 0 {
            assert r[j] == rest[j - 1];
            assert rest[j - 1] in rest;
          } else {
            assert r[i] == rest[i - 1] && r[j] == rest[j - 1];
          }
        }
      }
    }
  }

  /** Every unseen element of the input has an element equal to it ignoring
      case among those `DistinctFrom` keeps. */
  lemma {:induction false} DistinctFromComplete(s: seq<string>, seen: set<string>, x: string)
    requires x in s && Fold(x) !in seen
    ensures exists y :: y in DistinctFrom(s, seen) && Fold(y) == Fold(x)
    decreases |s|
  {
    var r := DistinctFrom(s, seen);
    if Fold(s[0]) in seen {
      assert x != s[0];
      DistinctFromComplete(s[1..], seen, x);
    } else if Fold(x) == Fold(s[0]) {
      assert s[0] in r;
    } else {
      var seen' := seen + {Fold(s[0])};
      assert x in s[1..];
      DistinctFromComplete(s[1..], seen', x);
      var y :| y in DistinctFrom(s[1..], seen') && Fold(y) == Fold(x);
      assert y in r;
    }
  }

  /** The schema is in strictly ascending order of the case-folded keys, so
      no two entries are equal ignoring case. */
  lemma CapabilityKeysSorted(agents: seq<Agent>)
    ensures StrictlySortedByText(GetAllCapabilityKeys(agents), Fold)
    ensures forall i, j :: 0 <= i < j < |GetAllCapabilityKeys(agents)| ==>
              !EqualsIgnoreCase(GetAllCapabilityKeys(agents)[i], GetAllCapabilityKeys(agents)[j])
  {
    var d := DistinctIgnoringCase(AllKeys(agents));
    var r := GetAllCapabilityKeys(agents);
    DistinctFromUnique(AllKeys(agents), {});
    SortByTextStrict(d, Fold);
    forall i, j | 0 <= i < j < |r| ensures !EqualsIgnoreCase(r[i], r[j]) {
      LexLessIrreflexive(Fold(r[i]));
    }
  }

  lemma SchemaMembers(agents: seq<Agent>)
    ensures forall x :: x in GetAllCapabilityKeys(agents) <==> x in DistinctIgnoringCase(AllKeys(agents))
  {
    var d := DistinctIgnoringCase(AllKeys(agents));
    var r := GetAllCapabilityKeys(agents);
    SortByTextCorrect(d, Fold);
    assert forall x :: x in r <==> x in multiset(r);
    assert forall x :: x in d <==> x in multiset(d);
  }

  /** Every merged key of every agent has a schema entry equal to it ignoring
      case. */
  lemma CapabilityKeysCover(agents: seq<Agent>, a: Agent, k: string)
    requires a in agents && k in Merged(a).Keys()
    ensures exists j :: 0 <= j < |GetAllCapabilityKeys(agents)|
                        && EqualsIgnoreCase(GetAllCapabilityKeys(agents)[j], k)
  {
    var r := GetAllCapabilityKeys(agents);
    AllKeysMembers(agents, k);
    DistinctFromComplete(AllKeys(agents), {}, k);
    var y :| y in DistinctIgnoringCase(AllKeys(agents)) && Fold(y) == Fold(k);
    SchemaMembers(agents);
    var j :| 0 <= j < |r| && r[j] == y;
  }

  /** Every schema entry is a merged key of some agent. */
  lemma CapabilityKeysSound(agents: seq<Agent>, k: string)
    requires k in GetAllCapabilityKeys(agents)
    ensures exists a :: a in agents && k in Merged(a).Keys()
  {
    SchemaMembers(agents);
    DistinctFromSound(AllKeys(agents), {});
    AllKeysMembers(agents, k);
  }
}
