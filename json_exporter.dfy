/** `JsonExporter`: the report value that is serialized, not its text. */
module JsonExport {
  import opened Wrappers
  import opened Text
  import opened Agents
  import opened Options

  /** One agent as emitted: its scalar fields as they are, both source
      dictionaries (a null one as an empty dictionary) and the merged view. */
  datatype AgentEntry = AgentEntry(
    id: Int32,
    name: Option<string>,
    status: Option<string>,
    enabled: Option<bool>,
    version: Option<string>,
    osDescription: Option<string>,
    systemCapabilities: Capabilities,
    userCapabilities: Capabilities,
    allCapabilities: CapabilityMap)

  /** The report: a timestamp (passed in; the source reads the clock), the
      pool name, the agent count and the agents. */
  datatype Report = Report(generatedAt: string, poolName: string, totalAgents: nat, agents: seq<AgentEntry>)

  /** The projection of one agent. */
  function Entry(a: Agent): AgentEntry {
    AgentEntry(a.id, a.name, a.status, a.enabled, a.version, a.osDescription,
               a.systemCapabilities.GetOr([]), a.userCapabilities.GetOr([]), Merged(a))
  }

  /** The anonymous report object built by `ExportAsync`. */
  function BuildReport(agents: seq<Agent>, options: ExportOptions, generatedAt: string): (r: Report)
    ensures r.totalAgents == |r.agents| == |agents|
    ensures r.poolName == options.poolName
    ensures forall i :: 0 <= i < |agents| ==> r.agents[i] == Entry(agents[i])
  {
    Report(generatedAt, options.poolName, |agents|,
           seq(|agents|, i requires 0 <= i < |agents| => Entry(agents[i])))
  }

  /** The agent an entry describes, with the emitted dictionaries as its
      capabilities. */
  function AsAgent(e: AgentEntry): Agent {
    Agent(e.id, e.name, e.status, e.enabled, e.version, e.osDescription,
          Some(e.systemCapabilities), Some(e.userCapabilities))
  }

  /** Each emitted entry is consistent on its own: merging the two emitted
      dictionaries gives the emitted merged view, because a null source and
      an empty one merge alike. Its scalar fields are the agent's. */
  lemma EntryConsistent(a: Agent)
    ensures Merged(AsAgent(Entry(a))) == Entry(a).allCapabilities
    ensures AsAgent(Entry(a)).(systemCapabilities := a.systemCapabilities,
                               userCapabilities := a.userCapabilities) == a
  {
  }

  /** A source dictionary is emitted as it is; a null one as an empty one. */
  lemma EntrySources(a: Agent)
    ensures a.systemCapabilities.Some? ==> Entry(a).systemCapabilities == a.systemCapabilities.value
    ensures a.systemCapabilities.None? ==> Entry(a).systemCapabilities == []
    ensures a.userCapabilities.Some? ==> Entry(a).userCapabilities == a.userCapabilities.value
    ensures a.userCapabilities.None? ==> Entry(a).userCapabilities == []
  {
  }

  /** Every emitted merged value is the one the user dictionary, or failing
      it the system dictionary, of the same entry gives for that key. */
  lemma ReportLookups(agents: seq<Agent>, options: ExportOptions, generatedAt: string, i: nat, key: string)
    requires i < |agents|
    ensures var e := BuildReport(agents, options, generatedAt).agents[i];
            e.allCapabilities.TryGetValue(key)
            == LastValue(e.userCapabilities, key).OrElse(LastValue(e.systemCapabilities, key))
  {
    MergedLookup(agents[i], key);
  }
}
