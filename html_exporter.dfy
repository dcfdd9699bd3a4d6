/** The server-rendered part of the interactive report (`HtmlExporter`): the
    choices of the sort drop-down, the data attributes of each agent card and
    the capability sections listed on it. Static markup and styles are not
    modelled, and the HTML encoders are treated as transparent: every value
    here is the decoded text the browser reads back. */
module HtmlExport {
  import opened Wrappers
  import opened Text
  import opened Sequences
  import opened Agents

  // ---------------------------------------------------------------------------
  // Sort choices
  // ---------------------------------------------------------------------------

  /** At most this many schema keys become sort choices. */
  const MaxCapabilitySortOptions: nat := 50

  /** The values of the five fixed sort choices, in order. */
  const FixedSortOptions: seq<string> := ["name", "id", "version", "os", "status"]

  /** The prefix that marks a capability sort choice. */
  const CapabilityOptionPrefix: string := "cap:"

  function Min(a: nat, b: nat): nat {
    if a < b then a else b
  }

  /** `AppendFilterControls`: the values of the sort drop-down, namely the
      five fixed choices and then one `cap:<key>` choice for each of the first
      fifty schema keys, in schema order. */
  method AppendFilterControls(keys: seq<string>) returns (values: seq<string>)
    ensures |values| == |FixedSortOptions| + Min(|keys|, MaxCapabilitySortOptions)
    ensures values[..|FixedSortOptions|] == FixedSortOptions
    ensures forall i :: 0 <= i < |values| - |FixedSortOptions| ==>
              values[|FixedSortOptions| + i] == CapabilityOptionPrefix + keys[i]
  {
    values := FixedSortOptions;
    var n := Min(|keys|, MaxCapabilitySortOptions);
    for i := 0 to n
      invariant |values| == |FixedSortOptions| + i
      invariant values[..|FixedSortOptions|] == FixedSortOptions
      invariant forall j :: 0 <= j < i ==> values[|FixedSortOptions| + j] == CapabilityOptionPrefix + keys[j]
    {
      values := values + [CapabilityOptionPrefix + keys[i]];
    }
  }

  // ---------------------------------------------------------------------------
  // Agent cards
  // ---------------------------------------------------------------------------

  /** The `data-*` attributes of one agent card, as the browser reads them:
      the id as decimal text, name, version and OS (empty when null), the
      lower-cased status, the enabled flag as `true`/`false`, and the merged
      capabilities as the object the client parses from their JSON. */
  datatype Card = Card(
    id: string,
    name: string,
    version: string,
    os: string,
    status: string,
    enabled: string,
    capabilities: seq<Entry>)

  /** The lower-cased status, or `unknown` when the status is null. */
  function CardStatus(a: Agent): string {
    match a.status
    case None => "unknown"
    case Some(s) => Fold(s)
  }

  /** `Enabled == true`: a null flag counts as not enabled. */
  predicate CardEnabled(a: Agent) {
    a.enabled == Some(true)
  }

  /** `bool.ToString().ToLower()`. */
  function BoolText(b: bool): string {
    if b then "true" else "false"
  }

  /** The CSS classes of the status value on the card. */
  function StatusClass(a: Agent): string {
    (if CardStatus(a) == "online" then "status-online" else "status-offline")
    + (if CardEnabled(a) then "" else " status-disabled")
  }

  /** The attributes of the card written for `a`, given its merged map. */
  function CardWith(a: Agent, caps: CapabilityMap): Card {
    Card(IntToString(a.id), a.name.GetOr(""), a.version.GetOr(""), a.osDescription.GetOr(""),
         CardStatus(a), BoolText(CardEnabled(a)), caps.entries)
  }

  function CardFor(a: Agent): Card {
    CardWith(a, Merged(a))
  }

  /** `AppendAgentCards`: one card per agent, in input order, each with its
      status class. */
  method AppendAgentCards(agents: seq<Agent>) returns (cards: seq<Card>, classes: seq<string>)
    ensures |cards| == |agents| && |classes| == |agents|
    ensures forall i :: 0 <= i < |agents| ==> cards[i] == CardFor(agents[i])
    ensures forall i :: 0 <= i < |agents| ==> classes[i] == StatusClass(agents[i])
  {
    cards, classes := [], [];
    for i := 0 to |agents|
      invariant |cards| == i && |classes| == i
      invariant forall j :: 0 <= j < i ==> cards[j] == CardFor(agents[j])
      invariant forall j :: 0 <= j < i ==> classes[j] == StatusClass(agents[j])
    {
      var card, statusClass := AppendAgentCard(agents[i]);
      cards := cards + [card];
      classes := classes + [statusClass];
    }
  }

  /** One iteration of `AppendAgentCards`: the merged capabilities, the
      lower-cased status, the enabled flag and the status class of one
      agent. */
  method AppendAgentCard(agent: Agent) returns (card: Card, statusClass: string)
    ensures card == CardFor(agent)
    ensures statusClass == StatusClass(agent)
  {
    var allCaps := GetAllCapabilities(agent);
    var status := if agent.status.Some? then Fold(agent.status.value) else "unknown";
    var enabled := agent.enabled == Some(true);
    statusClass := if status == "online" then "status-online" else "status-offline";
    if !enabled {
      statusClass := statusClass + " status-disabled";
    }
    card := Card(IntToString(agent.id), agent.name.GetOr(""), agent.version.GetOr(""),
                 agent.osDescription.GetOr(""), status, BoolText(enabled), allCaps.entries);
  }

  predicate IsSuffix(p: string, s: string) {
    |p| <= |s| && s[|s| - |p|..] == p
  }

  /** The card carries the agent's id (read back by parsing), its name,
      version and OS (empty text for null), a status equal to `online` exactly
      when the agent's status is `online` in any casing, and an enabled flag
      that is `true` exactly when the agent's flag is true. */
  lemma CardAttributes(a: Agent)
    ensures ParseInteger(CardFor(a).id) == Some(a.id as int)
    ensures CardFor(a).name == a.name.GetOr("")
    ensures CardFor(a).version == a.version.GetOr("")
    ensures CardFor(a).os == a.osDescription.GetOr("")
    ensures CardFor(a).status == "online" <==> a.status.Some? && EqualsIgnoreCase(a.status.value, "online")
    ensures CardFor(a).enabled == "true" <==> a.enabled == Some(true)
    ensures CardFor(a).enabled in {"true", "false"}
  {
    ParseIntegerRoundTrip(a.id);
    assert Fold("online") == "online";
    assert Fold("unknown") != "online";
  }

  /** The capabilities on the card are the merged map: every lookup ignoring
      case gives the user value, else the system value, and no two of its keys
      are equal ignoring case. */
  lemma CardCapabilities(a: Agent, q: string)
    ensures CapabilityMap(CardFor(a).capabilities).TryGetValue(q)
         == LastValue(a.userCapabilities.GetOr([]), q).OrElse(LastValue(a.systemCapabilities.GetOr([]), q))
    ensures CapabilityMap(CardFor(a).capabilities).Valid()
  {
    MergedLookup(a, q);
    MergedKeys(a);
  }

  /** The status class starts with `status-online` exactly when the
      lower-cased status is `online` (otherwise it starts with
      `status-offline`), and ends with ` status-disabled` exactly when the
      agent is not enabled; it is plain `status-online` exactly for the agents
      that are online and enabled. */
  lemma StatusClassMeaning(a: Agent)
    ensures IsPrefix("status-online", StatusClass(a)) <==> CardStatus(a) == "online"
    ensures IsPrefix("status-offline", StatusClass(a)) <==> CardStatus(a) != "online"
    ensures IsSuffix(" status-disabled", StatusClass(a)) <==> a.enabled != Some(true)
    ensures StatusClass(a) == "status-online" <==> IsOnlineAndEnabled(a)
  {
    var c := StatusClass(a);
    assert Fold("online") == "online";
    if CardStatus(a) != "online" {
      assert c[8] == 'f';
    } else {
      assert c[8] == 'n';
    }
    if CardEnabled(a) {
      assert |c| < 16;
    }
  }

  // ---------------------------------------------------------------------------
  // Capability sections
  // ---------------------------------------------------------------------------

  /** One capability section of a card: its title, the count shown next to
      it and the listed entries. */
  datatype Section = Section(title: string, count: nat, items: seq<Entry>)

  const SystemTitle: string := "System Capabilities"
  const UserTitle: string := "User Capabilities"

  /** The order of `OrderBy(c => c.Key)`, modelled on case-folded keys. */
  function EntryKey(e: Entry): string {
    Fold(e.key)
  }

  /** The section for one source dictionary: none when it is null or empty,
      otherwise its entries in key order. */
  function SectionOf(title: string, caps: Option<Capabilities>): seq<Section> {
    if caps.Some? && |caps.value| > 0 then [Section(title, |caps.value|, SortByText(caps.value, EntryKey))]
    else []
  }

  /** `AppendCapabilitySections`: the system section, then the user section. */
  method AppendCapabilitySections(a: Agent) returns (sections: seq<Section>)
    ensures sections == SectionOf(SystemTitle, a.systemCapabilities) + SectionOf(UserTitle, a.userCapabilities)
  {
    sections := [];
    if a.systemCapabilities.Some? && |a.systemCapabilities.value| > 0 {
      var s := AppendSection(SystemTitle, a.systemCapabilities.value);
      sections := sections + [s];
    }
    if a.userCapabilities.Some? && |a.userCapabilities.value| > 0 {
      var s := AppendSection(UserTitle, a.userCapabilities.value);
      sections := sections + [s];
    }
  }

  /** One section: the title with the entry count, then the `foreach` over
      the entries in key order. */
  method AppendSection(title: string, caps: Capabilities) returns (section: Section)
    ensures section == Section(title, |caps|, SortByText(caps, EntryKey))
  {
    var sorted := SortByText(caps, EntryKey);
    SortByTextCorrect(caps, EntryKey);
    var items: seq<Entry> := [];
    for k := 0 to |sorted|
      invariant items == sorted[..k]
      invariant SortedByText(items, EntryKey)
    {
      items := items + [sorted[k]];
    }
    assert sorted[..|sorted|] == sorted;
    section := Section(title, |caps|, items);
  }

  /** A section is emitted exactly when its dictionary is non-null and
      non-empty; it then shows the dictionary's size and lists every entry
      exactly once, in ascending key order. */
  lemma SectionOfMeaning(title: string, caps: Option<Capabilities>)
    ensures |SectionOf(title, caps)| == (if caps.Some? && |caps.value| > 0 then 1 else 0)
    ensures caps.Some? && |caps.value| > 0 ==>
              var s := SectionOf(title, caps)[0];
              s.title == title && s.count == |caps.value|
              && SortedByText(s.items, EntryKey) && multiset(s.items) == multiset(caps.value)
  {
    if caps.Some? {
      SortByTextCorrect(caps.value, EntryKey);
    }
  }
}
