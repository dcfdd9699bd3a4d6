/** The export dialog of the report's embedded script: the capability keys it
    offers (`showExportModal`), the checkbox helpers (`selectAllCaps`,
    `selectNoneCaps`, `selectCommonCaps`), and the JSON and CSV re-exports of
    the visible agents restricted to the selected keys (`exportToJson`,
    `exportToCsv`, `escapeCsv`). The lemmas at the end record where this
    second implementation differs from the service's schema and CSV
    writer. */
module ClientExport {
  import opened Wrappers
  import opened Text
  import opened Sequences
  import opened Agents
  import opened AgentFilter
  import opened CsvFormat
  import opened CsvExport
  import opened HtmlExport
  import opened JsObjects
  import opened ClientView

  // ---------------------------------------------------------------------------
  // The visible agents
  // ---------------------------------------------------------------------------

  /** One agent as `getVisibleAgentsData` reads it from a card. */
  datatype AgentData = AgentData(
    id: int,
    name: string,
    status: string,
    enabled: bool,
    version: string,
    osDescription: string,
    capabilities: seq<Entry>)

  function DataOf(c: Card): AgentData {
    AgentData(ClientId(c), c.name, c.status, c.enabled == "true", c.version, c.os, c.capabilities)
  }

  /** `getVisibleAgentsData`: the cards without the `hidden` class, in
      container order. */
  function VisibleAgentsData(cards: seq<Card>, container: seq<nat>, visibleCount: nat): (r: seq<AgentData>)
    requires visibleCount <= |container|
    requires forall k :: 0 <= k < |container| ==> container[k] < |cards|
    ensures |r| == visibleCount
    ensures forall k :: 0 <= k < visibleCount ==> r[k] == DataOf(cards[container[k]])
  {
    seq(visibleCount, k requires 0 <= k < visibleCount => DataOf(cards[container[k]]))
  }

  /** What the page reads back of an agent: its id, name, version and OS as
      the service returned them (empty text for null), the lower-cased
      status, whether it is enabled, and its merged capabilities. */
  lemma AgentDataOf(a: Agent)
    ensures DataOf(CardFor(a)).id == a.id as int
    ensures DataOf(CardFor(a)).name == a.name.GetOr("")
    ensures DataOf(CardFor(a)).version == a.version.GetOr("")
    ensures DataOf(CardFor(a)).osDescription == a.osDescription.GetOr("")
    ensures DataOf(CardFor(a)).status == CardStatus(a)
    ensures DataOf(CardFor(a)).enabled <==> a.enabled == Some(true)
    ensures DataOf(CardFor(a)).capabilities == Merged(a).entries
  {
    CardIdRoundTrip(a);
  }

  // ---------------------------------------------------------------------------
  // The keys offered for export
  // ---------------------------------------------------------------------------

  /** `agents.flatMap(a => Object.keys(a.capabilities))`. */
  function AllDataKeys(data: seq<AgentData>): seq<string>
    decreases |data|
  {
    if data == [] then [] else KeysOf(data[0].capabilities) + AllDataKeys(data[1..])
  }

  function KeysOf(obj: seq<Entry>): (r: seq<string>)
    ensures |r| == |obj|
    ensures forall i :: 0 <= i < |obj| ==> r[i] == obj[i].key
  {
    seq(|obj|, i requires 0 <= i < |obj| => obj[i].key)
  }

  /** `[...new Set(s)]` with the strings in `seen` already taken: the first
      occurrence of each string is kept, strings that differ only in case are
      different. */
  function Dedup(s: seq<string>, seen: set<string>): seq<string>
    decreases |s|
  {
    if s == [] then []
    else if s[0] in seen then Dedup(s[1..], seen)
    else [s[0]] + Dedup(s[1..], seen + {s[0]})
  }

  /** The default `sort()` order: the strings themselves, compared
      character by character. */
  function Ordinal(s: string): string {
    s
  }

  /** `allCapabilityKeys`: the distinct keys of the visible agents, sorted. */
  function ExportKeys(data: seq<AgentData>): seq<string> {
    SortByText(Dedup(AllDataKeys(data), {}), Ordinal)
  }

  /** `showExportModal`: no dialog (an alert) when no agent is visible,
      otherwise a dialog offering the export keys, all checked. */
  function ShowExportModal(data: seq<AgentData>): Option<seq<string>> {
    if |data| == 0 then None else Some(ExportKeys(data))
  }

  lemma {:induction false} AllDataKeysMembers(data: seq<AgentData>, k: string)
    ensures k in AllDataKeys(data) <==> exists d :: d in data && k in KeysOf(d.capabilities)
    decreases |data|
  {
    if data != [] {
      AllDataKeysMembers(data[1..], k);
      assert forall d :: d in data <==> d == data[0] || d in data[1..];
    }
  }

  lemma {:induction false} DedupMembers(s: seq<string>, seen: set<string>)
    ensures forall x :: x in Dedup(s, seen) <==> x in s && x !in seen
    ensures forall i, j :: 0 <= i < j < |Dedup(s, seen)| ==> Dedup(s, seen)[i] != Dedup(s, seen)[j]
    decreases |s|
  {
    if s != [] {
      DedupMembers(s[1..], seen);
      DedupMembers(s[1..], seen + {s[0]});
      if s[0] !in seen {
        var r := Dedup(s, seen);
        var rest := Dedup(s[1..], seen + {s[0]});
        assert r == [s[0]] + rest;
        forall i, j | 0 <= i < j < |r|
          ensures r[i] != r[j]
        {
          assert r[j] == rest[j - 1];
          assert rest[j - 1] in rest;
          if i > 0 {
            assert r[i] == rest[i - 1];
          }
        }
      }
    }
  }

  /** The offered keys are in strictly ascending character order, so no key
      appears twice; a key is offered exactly when some visible agent has a
      capability of exactly that name. */
  lemma ExportKeysCorrect(data: seq<AgentData>, k: string)
    ensures StrictlySortedByText(ExportKeys(data), Ordinal)
    ensures k in ExportKeys(data) <==> exists d :: d in data && k in KeysOf(d.capabilities)
  {
    var d := Dedup(AllDataKeys(data), {});
    DedupMembers(AllDataKeys(data), {});
    SortByTextStrict(d, Ordinal);
    SortByTextCorrect(d, Ordinal);
    assert k in ExportKeys(data) <==> k in multiset(ExportKeys(data));
    assert k in d <==> k in multiset(d);
    AllDataKeysMembers(data, k);
  }

  // ---------------------------------------------------------------------------
  // The checkboxes of the dialog
  // ---------------------------------------------------------------------------

  /** The patterns of "Select Common". */
  const CommonPatterns: seq<string> :=
    ["agent.", "node", "npm", "dotnet", "java", "python", "maven", "msbuild", "visualstudio", "docker", "git"]

  /** A key "Select Common" checks: its lower-cased form contains one of the
      patterns. */
  predicate IsCommon(key: string) {
    exists i :: 0 <= i < |CommonPatterns| && Contains(Fold(key), CommonPatterns[i])
  }

  /** The checkbox of `key` is hidden by the search box: the lower-cased
      search text is non-empty and does not occur in the lower-cased label,
      which is a space followed by the key. */
  predicate HiddenBySearch(key: string, search: string) {
    var f := Fold(search);
    f != [] && !Contains(Fold(" " + key), f)
  }

  /** `selectAllCaps`: every checkbox the search leaves visible is checked,
      the others keep their state. */
  function SelectAll(keys: seq<string>, checked: seq<bool>, search: string): (r: seq<bool>)
    requires |checked| == |keys|
    ensures |r| == |keys|
  {
    seq(|keys|, i requires 0 <= i < |keys| => checked[i] || !HiddenBySearch(keys[i], search))
  }

  /** `selectNoneCaps`: every checkbox, hidden or not, is cleared. */
  function SelectNone(keys: seq<string>): (r: seq<bool>)
    ensures |r| == |keys|
  {
    seq(|keys|, i requires 0 <= i < |keys| => false)
  }

  /** `selectCommonCaps`: exactly the common keys are checked. */
  function SelectCommon(keys: seq<string>): (r: seq<bool>)
    ensures |r| == |keys|
  {
    seq(|keys|, i requires 0 <= i < |keys| => IsCommon(keys[i]))
  }

  /** `getSelectedCapabilities`: the keys whose box is checked, in list
      order. */
  function Selected(keys: seq<string>, checked: seq<bool>): seq<string>
    requires |checked| == |keys|
    decreases |keys|
  {
    if keys == [] then [] else (if checked[0] then [keys[0]] else []) + Selected(keys[1..], checked[1..])
  }

  /** A key is selected exactly when one of its boxes is checked, and the
      selection keeps the list order. */
  lemma {:induction false} SelectedMembers(keys: seq<string>, checked: seq<bool>, x: string)
    requires |checked| == |keys|
    ensures x in Selected(keys, checked) <==> exists i :: 0 <= i < |keys| && keys[i] == x && checked[i]
    ensures IsSubsequence(Selected(keys, checked), keys)
    decreases |keys|
  {
    if keys != [] {
      SelectedMembers(keys[1..], checked[1..], x);
      var rest := Selected(keys[1..], checked[1..]);
      if (exists i :: 0 <= i < |keys| && keys[i] == x && checked[i]) && !(keys[0] == x && checked[0]) {
        var i :| 0 <= i < |keys| && keys[i] == x && checked[i];
        assert keys[1..][i - 1] == x && checked[1..][i - 1];
      }
      if x in rest {
        var i :| 0 <= i < |keys[1..]| && keys[1..][i] == x && checked[1..][i];
        assert keys[i + 1] == x && checked[i + 1];
      }
      if checked[0] {
        assert Selected(keys, checked) == [keys[0]] + rest;
        assert Selected(keys, checked)[1..] == rest;
        assert keys[1..] == keys[1..];
      } else {
        assert Selected(keys, checked) == rest;
        SubsequenceCons(rest, keys[0], keys[1..]);
        assert [keys[0]] + keys[1..] == keys;
      }
    }
  }

  lemma {:induction false} SelectedAll(keys: seq<string>, checked: seq<bool>)
    requires |checked| == |keys|
    requires forall i :: 0 <= i < |keys| ==> checked[i]
    ensures Selected(keys, checked) == keys
    decreases |keys|
  {
    if keys != [] {
      SelectedAll(keys[1..], checked[1..]);
    }
  }

  lemma {:induction false} SelectedNone(keys: seq<string>, checked: seq<bool>)
    requires |checked| == |keys|
    requires forall i :: 0 <= i < |keys| ==> !checked[i]
    ensures Selected(keys, checked) == []
    decreases |keys|
  {
    if keys != [] {
      SelectedNone(keys[1..], checked[1..]);
    }
  }

  /** The dialog opens with every box checked, so every offered key is
      selected. */
  lemma InitialSelection(keys: seq<string>)
    ensures Selected(keys, seq(|keys|, i => true)) == keys
  {
    SelectedAll(keys, seq(|keys|, i => true));
  }

  /** "Select None" leaves nothing selected. */
  lemma SelectNoneSelectsNothing(keys: seq<string>)
    ensures Selected(keys, SelectNone(keys)) == []
  {
    SelectedNone(keys, SelectNone(keys));
  }

  /** "Select All" keeps every selected key and adds every key whose label
      contains the search text ignoring case; with an empty search it selects
      every key. */
  lemma SelectAllMeaning(keys: seq<string>, checked: seq<bool>, search: string, x: string)
    requires |checked| == |keys|
    ensures x in Selected(keys, SelectAll(keys, checked, search))
        <==> exists i :: 0 <= i < |keys| && keys[i] == x
                         && (checked[i] || Fold(search) == [] || ContainsIgnoreCase(" " + x, search))
    ensures Fold(search) == [] ==> Selected(keys, SelectAll(keys, checked, search)) == keys
  {
    SelectedMembers(keys, SelectAll(keys, checked, search), x);
    if Fold(search) == [] {
      SelectedAll(keys, SelectAll(keys, checked, search));
    }
  }

  /** "Select Common" selects exactly the offered keys that contain one of
      the common patterns ignoring case. */
  lemma SelectCommonMeaning(keys: seq<string>, x: string)
    ensures x in Selected(keys, SelectCommon(keys)) <==> x in keys && IsCommon(x)
  {
    SelectedMembers(keys, SelectCommon(keys), x);
    if x in keys && IsCommon(x) {
      var i :| 0 <= i < |keys| && keys[i] == x;
      assert SelectCommon(keys)[i];
    }
  }

  /** For instance the agent's own capabilities and the .NET SDK are common
      whatever their casing. */
  lemma CommonExamples()
    ensures IsCommon("Agent.Version")
    ensures IsCommon("DOTNET")
  {
    assert Fold("Agent.Version")[..6] == "agent.";
    assert Contains(Fold("Agent.Version"), CommonPatterns[0]);
    assert Fold("DOTNET") == "dotnet";
    assert IsPrefix(CommonPatterns[3], Fold("DOTNET"));
    assert Contains(Fold("DOTNET"), CommonPatterns[3]);
  }

  // ---------------------------------------------------------------------------
  // The JSON re-export
  // ---------------------------------------------------------------------------

  /** `filteredCaps`: for each selected key the agent has (exact lookup), in
      selection order, `filteredCaps[key] = value`. */
  function Restrict(caps: seq<Entry>, selected: seq<string>): seq<Entry>
    decreases |selected|
  {
    if selected == [] then []
    else
      var prev := Restrict(caps, selected[..|selected| - 1]);
      var key := selected[|selected| - 1];
      match Get(caps, key)
      case None => prev
      case Some(v) => Put(prev, key, v)
  }

  /** The object the JSON re-export writes. */
  datatype ClientReport = ClientReport(
    generatedAt: string,
    exportedFrom: string,
    totalAgents: nat,
    selectedCapabilities: seq<string>,
    agents: seq<AgentData>)

  /** `exportToJson`, with the timestamp as a parameter. */
  function ExportToJson(data: seq<AgentData>, selected: seq<string>, generatedAt: string): ClientReport {
    ClientReport(generatedAt, "HTML Report", |data|, selected,
                 seq(|data|, i requires 0 <= i < |data| =>
                               data[i].(capabilities := Restrict(data[i].capabilities, selected))))
  }

  /** A restricted object holds a key exactly when the key is selected and
      the agent has it, with the agent's value. */
  lemma {:induction false} RestrictLookup(caps: seq<Entry>, selected: seq<string>, k: string)
    ensures Get(Restrict(caps, selected), k) == if k in selected then Get(caps, k) else None
    decreases |selected|
  {
    if selected != [] {
      var init := selected[..|selected| - 1];
      var key := selected[|selected| - 1];
      RestrictLookup(caps, init, k);
      assert selected == init + [key];
      assert k in selected <==> k in init || k == key;
      match Get(caps, key)
      case None =>
      case Some(v) =>
        GetPut(Restrict(caps, init), key, v, k);
    }
  }

  /** The report counts the visible agents and names the selection; each
      agent keeps every field but its capabilities, which are cut down to the
      selected keys the agent has. */
  lemma ClientJsonReport(data: seq<AgentData>, selected: seq<string>, generatedAt: string, i: nat, k: string)
    requires i < |data|
    ensures ExportToJson(data, selected, generatedAt).totalAgents == |data|
    ensures |ExportToJson(data, selected, generatedAt).agents| == |data|
    ensures ExportToJson(data, selected, generatedAt).selectedCapabilities == selected
    ensures ExportToJson(data, selected, generatedAt).exportedFrom == "HTML Report"
    ensures ExportToJson(data, selected, generatedAt).agents[i].(capabilities := data[i].capabilities) == data[i]
    ensures Get(ExportToJson(data, selected, generatedAt).agents[i].capabilities, k)
         == if k in selected then Get(data[i].capabilities, k) else None
  {
    RestrictLookup(data[i].capabilities, selected, k);
  }

  // ---------------------------------------------------------------------------
  // The CSV re-export
  // ---------------------------------------------------------------------------

  /** `escapeCsv`: null gives empty text, anything else has its quotes
      doubled. */
  function EscapeCsv(value: Option<string>): string {
    match value
    case None => ""
    case Some(s) => Escape(s)
  }

  /** `escapeCsv` agrees with the service's escaping, null aside, and is
      undone by undoubling. */
  lemma EscapeCsvMeaning(s: string)
    ensures EscapeCsv(None) == ""
    ensures EscapeCsv(Some(s)) == Escape(s)
    ensures Unescape(EscapeCsv(Some(s))) == s
  {
    UnescapeEscape(s);
  }

  /** The cell of a selected key: the agent's value under exactly that key;
      a missing or empty value gives empty text. */
  function ClientCell(caps: seq<Entry>, key: string): string {
    Get(caps, key).GetOr("")
  }

  function ClientCells(caps: seq<Entry>, keys: seq<string>): (r: seq<string>)
    ensures |r| == |keys|
    ensures forall i :: 0 <= i < |keys| ==> r[i] == ClientCell(caps, keys[i])
  {
    seq(|keys|, i requires 0 <= i < |keys| => ClientCell(caps, keys[i]))
  }

  /** The six fixed fields of the client's record: id, status and enabled
      flag bare (the flag as `true`/`false`), the others quoted. */
  function ClientFixedFields(d: AgentData): seq<Field> {
    [Bare(IntToString(d.id)), Quoted(d.name), Bare(d.status), Bare(BoolText(d.enabled)),
     Quoted(d.version), Quoted(d.osDescription)]
  }

  function ClientRowFields(d: AgentData, selected: seq<string>): seq<Field> {
    ClientFixedFields(d) + QuotedAll(ClientCells(d.capabilities, selected))
  }

  function ClientRows(data: seq<AgentData>, selected: seq<string>): (r: seq<seq<Field>>)
    ensures |r| == |data|
    ensures forall j :: 0 <= j < |data| ==> r[j] == ClientRowFields(data[j], selected)
  {
    seq(|data|, j requires 0 <= j < |data| => ClientRowFields(data[j], selected))
  }

  /** The records of the client's CSV, header first; the header has the same
      layout as the service's, over the selected keys. */
  function ClientRecords(data: seq<AgentData>, selected: seq<string>): seq<seq<Field>> {
    [HeaderFields(selected)] + ClientRows(data, selected)
  }

  /** `exportToCsv`: the header with one quoted column per selected key, then
      one line per visible agent, built by appending to one string. */
  method ExportToCsv(data: seq<AgentData>, selected: seq<string>) returns (csv: string)
    ensures csv == RenderDocument(ClientRecords(data, selected))
  {
    csv := "Id,Name,Status,Enabled,Version,OsDescription";
    FixedHeaderText();
    assert HeaderFields(selected[..0]) == BareAll(FixedColumns);
    for i := 0 to |selected|
      invariant csv == RenderRecord(HeaderFields(selected[..i]))
    {
      HeaderStep(selected, i);
      csv := csv + (",\"" + EscapeCsv(Some(selected[i])) + "\"");
    }
    assert selected[..|selected|] == selected;
    csv := csv + "\n";
    ghost var header := HeaderFields(selected);
    assert [header] + ClientRows(data[..0], selected) == [header];
    SingleRecordDocument(header);
    for j := 0 to |data|
      invariant csv == RenderDocument([header] + ClientRows(data[..j], selected))
    {
      ClientRowsSnoc(header, data, selected, j);
      csv := AppendClientRow(csv, data[j], selected);
    }
    assert data[..|data|] == data;
  }

  /** One agent's line: the six fixed fields, one quoted cell per selected
      key, the line break. */
  method AppendClientRow(csv: string, agent: AgentData, selected: seq<string>) returns (out: string)
    ensures out == csv + RenderRecord(ClientRowFields(agent, selected)) + NewLine
  {
    out := AppendClientFixed(csv, agent);
    out := AppendClientCells(csv, out, agent, selected);
    out := out + "\n";
  }

  method AppendClientFixed(csv: string, agent: AgentData) returns (out: string)
    ensures out == csv + RenderRecord(ClientFixedFields(agent))
  {
    out := csv + (IntToString(agent.id) + ",");
    ghost var written := IntToString(agent.id) + ",";
    var piece := "\"" + EscapeCsv(Some(agent.name)) + "\",";
    AppendAssoc(csv, written, piece);
    out := out + piece;
    written := written + piece;
    piece := agent.status + ",";
    AppendAssoc(csv, written, piece);
    out := out + piece;
    written := written + piece;
    piece := BoolText(agent.enabled) + ",";
    AppendAssoc(csv, written, piece);
    out := out + piece;
    written := written + piece;
    piece := "\"" + EscapeCsv(Some(agent.version)) + "\",";
    AppendAssoc(csv, written, piece);
    out := out + piece;
    written := written + piece;
    piece := "\"" + EscapeCsv(Some(agent.osDescription)) + "\"";
    AppendAssoc(csv, written, piece);
    out := out + piece;
    written := written + piece;
    ClientFixedText(agent);
  }

  method AppendClientCells(csv: string, start: string, agent: AgentData, selected: seq<string>)
    returns (out: string)
    requires start == csv + RenderRecord(ClientFixedFields(agent))
    ensures out == csv + RenderRecord(ClientRowFields(agent, selected))
  {
    out := start;
    assert ClientFixedFields(agent) == ClientRowFields(agent, selected[..0]);
    for k := 0 to |selected|
      invariant out == csv + RenderRecord(ClientRowFields(agent, selected[..k]))
    {
      var value := Get(agent.capabilities, selected[k]).GetOr("");
      var piece := ",\"" + EscapeCsv(Some(value)) + "\"";
      ClientCellStep(csv, agent, selected, k, piece);
      out := out + piece;
    }
    assert selected[..|selected|] == selected;
  }

  lemma ClientFixedText(d: AgentData)
    ensures RenderRecord(ClientFixedFields(d))
         == (IntToString(d.id) + ",") + ("\"" + EscapeCsv(Some(d.name)) + "\",")
            + (d.status + ",") + (BoolText(d.enabled) + ",")
            + ("\"" + EscapeCsv(Some(d.version)) + "\",")
            + ("\"" + EscapeCsv(Some(d.osDescription)) + "\"")
  {
    RenderSix(ClientFixedFields(d));
    QuotedComma(d.name);
    QuotedComma(d.version);
  }

  lemma ClientCellStep(csv: string, agent: AgentData, selected: seq<string>, k: nat, piece: string)
    requires k < |selected|
    requires piece == ",\"" + Escape(ClientCell(agent.capabilities, selected[k])) + "\""
    ensures csv + RenderRecord(ClientRowFields(agent, selected[..k])) + piece
         == csv + RenderRecord(ClientRowFields(agent, selected[..k + 1]))
  {
    ClientRowSnoc(agent, selected, k);
    ExtendRecord(ClientRowFields(agent, selected[..k + 1]), piece);
    AppendAssoc(csv, RenderRecord(ClientRowFields(agent, selected[..k])), piece);
  }

  lemma ClientRowSnoc(d: AgentData, selected: seq<string>, k: nat)
    requires k < |selected|
    ensures ClientRowFields(d, selected[..k + 1])
         == ClientRowFields(d, selected[..k]) + [Quoted(ClientCell(d.capabilities, selected[k]))]
    ensures ClientRowFields(d, selected[..k + 1])[..6 + k] == ClientRowFields(d, selected[..k])
  {
  }

  lemma ClientRowsSnoc(header: seq<Field>, data: seq<AgentData>, selected: seq<string>, j: nat)
    requires j < |data|
    ensures RenderDocument([header] + ClientRows(data[..j + 1], selected))
         == RenderDocument([header] + ClientRows(data[..j], selected))
            + RenderRecord(ClientRowFields(data[j], selected)) + NewLine
  {
    assert [header] + ClientRows(data[..j + 1], selected)
        == ([header] + ClientRows(data[..j], selected)) + [ClientRowFields(data[j], selected)];
    RenderDocumentAppend([header] + ClientRows(data[..j], selected), ClientRowFields(data[j], selected));
  }

  /** What reading an agent's line back should give. */
  function ClientRowTexts(d: AgentData, selected: seq<string>): seq<string> {
    [IntToString(d.id), d.name, d.status, BoolText(d.enabled), d.version, d.osDescription]
    + ClientCells(d.capabilities, selected)
  }

  predicate PlainText(s: string) {
    ',' !in s && '"' !in s && '\n' !in s
  }

  lemma ClientRowReadable(d: AgentData, selected: seq<string>)
    requires PlainText(d.status)
    ensures ReadableRecord(ClientRowFields(d, selected))
    ensures Texts(ClientRowFields(d, selected)) == ClientRowTexts(d, selected)
  {
    IdPlain(d.id);
    assert PlainText(BoolText(d.enabled));
    FixedThenQuoted(ClientFixedFields(d), ClientCells(d.capabilities, selected));
  }

  /** Read back, the client's CSV is one header and one line per visible
      agent in container order: the header holds the fixed column names and
      the selected keys; each line holds the agent's fixed values and, per
      selected key, its value under exactly that key or empty text. This
      needs the unescaped status column to hold no comma, quote or line
      break. */
  lemma ClientCsvReadsBack(data: seq<AgentData>, selected: seq<string>)
    requires forall d :: d in data ==> PlainText(d.status)
    ensures ParseDocument(RenderDocument(ClientRecords(data, selected))).Some?
    ensures |ParseDocument(RenderDocument(ClientRecords(data, selected))).value| == |data| + 1
    ensures ParseDocument(RenderDocument(ClientRecords(data, selected))).value[0] == FixedColumns + selected
    ensures forall j :: 0 <= j < |data| ==>
              ParseDocument(RenderDocument(ClientRecords(data, selected))).value[j + 1]
              == ClientRowTexts(data[j], selected)
  {
    var rs := ClientRecords(data, selected);
    forall i | 0 <= i < |rs|
      ensures ReadableRecord(rs[i])
      ensures Texts(rs[i]) == if i == 0 then FixedColumns + selected else ClientRowTexts(data[i - 1], selected)
    {
      ClientRecordReadable(data, selected, i);
    }
    DocumentRoundTrip(rs);
  }

  lemma ClientRecordReadable(data: seq<AgentData>, selected: seq<string>, i: nat)
    requires forall d :: d in data ==> PlainText(d.status)
    requires i < |ClientRecords(data, selected)|
    ensures ReadableRecord(ClientRecords(data, selected)[i])
    ensures Texts(ClientRecords(data, selected)[i])
         == if i == 0 then FixedColumns + selected else ClientRowTexts(data[i - 1], selected)
  {
    if i == 0 {
      HeaderReadable(selected);
      HeaderTexts(selected);
    } else {
      assert data[i - 1] in data;
      ClientRowReadable(data[i - 1], selected);
    }
  }

  // ---------------------------------------------------------------------------
  // Where the client differs from the service
  // ---------------------------------------------------------------------------

  /** For a key the agent stores under exactly that spelling, the client's
      cell and the service's cell agree. */
  lemma ClientCellAgrees(a: Agent, key: string)
    requires key in Merged(a).Keys()
    ensures ClientCell(DataOf(CardFor(a)).capabilities, key) == CellValue(Merged(a), key)
  {
    var m := Merged(a);
    MergedKeys(a);
    var j :| 0 <= j < |m.entries| && m.entries[j].key == key;
    GetStoredKey(m, j);
    GetAgreesWithTryGetValue(m, key);
  }

  /** An agent with the single system capability `Foo`, and one with `foo`. */
  const UpperFoo: Agent := Agent(1, None, None, None, None, None, Some([Entry("Foo", "1")]), None)
  const LowerFoo: Agent := Agent(2, None, None, None, None, None, Some([Entry("foo", "2")]), None)

  /** Two agents whose capability names differ only in case: the service's
      schema has one column for both, the client's dialog offers two. */
  lemma ClientKeysKeepCaseVariants()
    ensures GetAllCapabilityKeys([UpperFoo, LowerFoo]) == ["Foo"]
    ensures ExportKeys([DataOf(CardFor(UpperFoo)), DataOf(CardFor(LowerFoo))]) == ["Foo", "foo"]
  {
    ServerKeysFoo();
    ClientKeysFoo();
  }

  lemma ServerKeysFoo()
    ensures GetAllCapabilityKeys([UpperFoo, LowerFoo]) == ["Foo"]
  {
    AllKeysFoo();
    assert Fold("Foo") == Fold("foo");
    assert DistinctIgnoringCase(["Foo", "foo"]) == ["Foo"];
  }

  lemma AllKeysFoo()
    ensures AllKeys([UpperFoo, LowerFoo]) == ["Foo", "foo"]
  {
    SingleMerge(UpperFoo, Entry("Foo", "1"));
    SingleMerge(LowerFoo, Entry("foo", "2"));
    assert [UpperFoo, LowerFoo][1..] == [LowerFoo];
    assert AllKeys([LowerFoo]) == Merged(LowerFoo).Keys() + AllKeys([]);
    assert Merged(UpperFoo).Keys() == ["Foo"];
    assert Merged(LowerFoo).Keys() == ["foo"];
  }

  lemma ClientKeysFoo()
    ensures ExportKeys([DataOf(CardFor(UpperFoo)), DataOf(CardFor(LowerFoo))]) == ["Foo", "foo"]
  {
    SingleMerge(UpperFoo, Entry("Foo", "1"));
    SingleMerge(LowerFoo, Entry("foo", "2"));
    ExportKeysFoo(DataOf(CardFor(UpperFoo)), DataOf(CardFor(LowerFoo)));
  }

  lemma ExportKeysFoo(d1: AgentData, d2: AgentData)
    requires d1.capabilities == [Entry("Foo", "1")] && d2.capabilities == [Entry("foo", "2")]
    ensures ExportKeys([d1, d2]) == ["Foo", "foo"]
  {
    assert AllDataKeys([d1, d2]) == ["Foo", "foo"] by {
      assert [d1, d2][1..] == [d2];
      assert AllDataKeys([d2]) == KeysOf(d2.capabilities) + AllDataKeys([]);
      assert KeysOf(d1.capabilities) == ["Foo"];
      assert KeysOf(d2.capabilities) == ["foo"];
    }
    assert Dedup(["Foo", "foo"], {}) == ["Foo", "foo"];
    assert LexLess("Foo", "foo");
    LexLessAsymmetric("Foo", "foo");
    assert SortByText(["foo"], Ordinal) == ["foo"];
  }

  /** The merge of an agent with one system capability and nothing else. */
  lemma SingleMerge(a: Agent, e: Entry)
    requires a.systemCapabilities == Some([e]) && a.userCapabilities.None?
    ensures Merged(a).entries == [e]
  {
    assert [e][..0] == [];
    assert SetAll(EmptyMap, [e]) == SetAll(EmptyMap, []).Set(e.key, e.value);
    assert FindKey([], e.key) == 0;
    assert EmptyMap.Set(e.key, e.value).entries == [e];
  }

  /** The service looks a column up ignoring case, the client only under the
      exact spelling: an agent whose capability is `Foo` fills the service's
      `foo` column but leaves the client's empty. */
  lemma ClientCellIsCaseSensitive()
    ensures var a := Agent(1, None, None, None, None, None, Some([Entry("Foo", "1")]), None);
            CellValue(Merged(a), "foo") == "1"
            && ClientCell(DataOf(CardFor(a)).capabilities, "foo") == ""
  {
    var a := Agent(1, None, None, None, None, None, Some([Entry("Foo", "1")]), None);
    SingleMerge(a, Entry("Foo", "1"));
    assert Fold("Foo") == Fold("foo");
  }

  /** The client writes the lower-cased status and `true`/`false`, where the
      service writes the status as returned and `True`/`False`, or nothing
      for a null flag. */
  lemma ClientFixedFieldsDiffer()
    ensures var a := Agent(1, None, Some("Online"), None, None, None, None, None);
            FixedFields(a)[2..4] == [Bare("Online"), Bare("")]
            && ClientFixedFields(DataOf(CardFor(a)))[2..4] == [Bare("online"), Bare("false")]
  {
    var a := Agent(1, None, Some("Online"), None, None, None, None, None);
    assert Fold("Online") == "online";
  }
}
