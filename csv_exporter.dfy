/** `CsvExporter.GenerateCsv`: one header record over the capability schema,
    then one record per agent. */
module CsvExport {
  import opened Wrappers
  import opened Text
  import opened Agents
  import opened AgentFilter
  import opened CsvFormat

  /** The six fixed columns, written bare. */
  const FixedColumns: seq<string> := ["Id", "Name", "Status", "Enabled", "Version", "OsDescription"]

  /** The text of a nullable `bool` in an interpolated string. */
  function NullableBoolText(b: Option<bool>): string {
    match b
    case None => ""
    case Some(true) => "True"
    case Some(false) => "False"
  }

  function BareAll(names: seq<string>): (r: seq<Field>)
    ensures |r| == |names|
    ensures forall i :: 0 <= i < |names| ==> r[i] == Bare(names[i])
  {
    seq(|names|, i requires 0 <= i < |names| => Bare(names[i]))
  }

  function QuotedAll(texts: seq<string>): (r: seq<Field>)
    ensures |r| == |texts|
    ensures forall i :: 0 <= i < |texts| ==> r[i] == Quoted(texts[i])
  {
    seq(|texts|, i requires 0 <= i < |texts| => Quoted(texts[i]))
  }

  /** The header: the fixed columns, then each schema key quoted. */
  function HeaderFields(keys: seq<string>): seq<Field> {
    BareAll(FixedColumns) + QuotedAll(keys)
  }

  /** The value written for a key: the merged value, or empty when missing. */
  function CellValue(caps: CapabilityMap, key: string): string {
    caps.TryGetValue(key).GetOr("")
  }

  function CellValues(caps: CapabilityMap, keys: seq<string>): (r: seq<string>)
    ensures |r| == |keys|
    ensures forall i :: 0 <= i < |keys| ==> r[i] == CellValue(caps, keys[i])
  {
    seq(|keys|, i requires 0 <= i < |keys| => CellValue(caps, keys[i]))
  }

  /** The six fixed fields of an agent's record: id, status and enabled flag
      bare, the others quoted; a null field is written as empty text. */
  function FixedFields(a: Agent): seq<Field> {
    [Bare(IntToString(a.id)), Quoted(a.name.GetOr("")), Bare(a.status.GetOr("")),
     Bare(NullableBoolText(a.enabled)), Quoted(a.version.GetOr("")), Quoted(a.osDescription.GetOr(""))]
  }

  /** An agent's record: the fixed fields, then one quoted cell per key. */
  function RowFields(a: Agent, keys: seq<string>): seq<Field> {
    RowFieldsWith(a, Merged(a), keys)
  }

  function RowFieldsWith(a: Agent, caps: CapabilityMap, keys: seq<string>): seq<Field> {
    FixedFields(a) + QuotedAll(CellValues(caps, keys))
  }

  function Rows(agents: seq<Agent>, keys: seq<string>): (r: seq<seq<Field>>)
    ensures |r| == |agents|
    ensures forall j :: 0 <= j < |agents| ==> r[j] == RowFields(agents[j], keys)
  {
    seq(|agents|, j requires 0 <= j < |agents| => RowFields(agents[j], keys))
  }

  /** The records of the document, header first. */
  function CsvRecords(agents: seq<Agent>): seq<seq<Field>> {
    var keys := GetAllCapabilityKeys(agents);
    [HeaderFields(keys)] + Rows(agents, keys)
  }

  /** `GenerateCsv`: the header loop and then the loop over agents, appending
      to one growing text. */
  method GenerateCsv(agents: seq<Agent>) returns (csv: string)
    ensures csv == RenderDocument(CsvRecords(agents))
  {
    var keys := GetAllCapabilityKeys(agents);
    var sb := "Id,Name,Status,Enabled,Version,OsDescription";
    FixedHeaderText();
    assert HeaderFields(keys[..0]) == BareAll(FixedColumns);
    for i := 0 to |keys|
      invariant sb == RenderRecord(HeaderFields(keys[..i]))
    {
      HeaderStep(keys, i);
      sb := sb + (",\"" + Escape(keys[i]) + "\"");
    }
    assert keys[..|keys|] == keys;
    sb := sb + NewLine;
    ghost var header := HeaderFields(keys);
    assert [header] + Rows(agents[..0], keys) == [header];
    SingleRecordDocument(header);
    for j := 0 to |agents|
      invariant sb == RenderDocument([header] + Rows(agents[..j], keys))
    {
      RowsSnoc(header, agents, keys, j);
      sb := AppendAgentRow(sb, agents[j], keys);
    }
    assert agents[..|agents|] == agents;
    csv := sb;
  }

  /** One iteration of the loop over agents: the six fixed fields, then the
      inner loop over the schema keys, then the line terminator. */
  method AppendAgentRow(sb: string, agent: Agent, keys: seq<string>) returns (out: string)
    ensures out == sb + RenderRecord(RowFields(agent, keys)) + NewLine
  {
    var caps := GetAllCapabilities(agent);
    out := AppendFixedFields(sb, agent);
    out := AppendCells(sb, out, agent, caps, keys);
    out := out + NewLine;
  }

  /** The inner loop: one quoted cell per schema key, the merged value or
      empty text when the agent lacks the key. */
  method AppendCells(sb: string, start: string, agent: Agent, caps: CapabilityMap, keys: seq<string>)
    returns (out: string)
    requires start == sb + RenderRecord(FixedFields(agent))
    ensures out == sb + RenderRecord(RowFieldsWith(agent, caps, keys))
  {
    out := start;
    assert FixedFields(agent) == RowFieldsWith(agent, caps, keys[..0]);
    for k := 0 to |keys|
      invariant out == sb + RenderRecord(RowFieldsWith(agent, caps, keys[..k]))
    {
      var piece := ",\"" + Escape(caps.TryGetValue(keys[k]).GetOr("")) + "\"";
      CellStep(sb, agent, caps, keys, k, piece);
      out := out + piece;
    }
    assert keys[..|keys|] == keys;
  }

  /** The six appends of an agent's fixed fields, each field with the comma
      that follows it. */
  method AppendFixedFields(sb: string, agent: Agent) returns (out: string)
    ensures out == sb + RenderRecord(FixedFields(agent))
  {
    out := sb + (IntToString(agent.id) + ",");
    ghost var written := IntToString(agent.id) + ",";
    var piece := "\"" + Escape(agent.name.GetOr("")) + "\",";
    AppendAssoc(sb, written, piece);
    out := out + piece;
    written := written + piece;
    piece := agent.status.GetOr("") + ",";
    AppendAssoc(sb, written, piece);
    out := out + piece;
    written := written + piece;
    piece := NullableBoolText(agent.enabled) + ",";
    AppendAssoc(sb, written, piece);
    out := out + piece;
    written := written + piece;
    piece := "\"" + Escape(agent.version.GetOr("")) + "\",";
    AppendAssoc(sb, written, piece);
    out := out + piece;
    written := written + piece;
    piece := "\"" + Escape(agent.osDescription.GetOr("")) + "\"";
    AppendAssoc(sb, written, piece);
    out := out + piece;
    written := written + piece;
    FixedFieldsText(agent);
  }

  lemma AppendAssoc(a: string, b: string, c: string)
    ensures a + b + c == a + (b + c)
  {
  }

  /** The six fixed fields, written as the appends write them. */
  lemma FixedFieldsText(a: Agent)
    ensures RenderRecord(FixedFields(a))
         == (IntToString(a.id) + ",") + ("\"" + Escape(a.name.GetOr("")) + "\",")
            + (a.status.GetOr("") + ",") + (NullableBoolText(a.enabled) + ",")
            + ("\"" + Escape(a.version.GetOr("")) + "\",")
            + ("\"" + Escape(a.osDescription.GetOr("")) + "\"")
  {
    var fs := FixedFields(a);
    var r := seq(6, i requires 0 <= i < 6 => RenderField(fs[i]));
    RenderSix(fs);
    QuotedComma(a.name.GetOr(""));
    QuotedComma(a.version.GetOr(""));
  }

  lemma QuotedComma(t: string)
    ensures RenderField(Quoted(t)) + "," == "\"" + Escape(t) + "\","
  {
  }

  /** A six-field record is its fields with five commas between. */
  lemma RenderSix(fs: seq<Field>)
    requires |fs| == 6
    ensures RenderRecord(fs)
         == (RenderField(fs[0]) + ",") + (RenderField(fs[1]) + ",") + (RenderField(fs[2]) + ",")
            + (RenderField(fs[3]) + ",") + (RenderField(fs[4]) + ",") + RenderField(fs[5])
  {
    RenderFrom(fs, 0);
    RenderFrom(fs, 1);
    RenderFrom(fs, 2);
    RenderFrom(fs, 3);
    RenderFrom(fs, 4);
    assert fs[0..] == fs;
    var a0, a1, a2, a3, a4 := RenderField(fs[0]) + ",", RenderField(fs[1]) + ",", RenderField(fs[2]) + ",",
                              RenderField(fs[3]) + ",", RenderField(fs[4]) + ",";
    AppendAssoc(a0, a1, RenderRecord(fs[2..]));
    AppendAssoc(a0 + a1, a2, RenderRecord(fs[3..]));
    AppendAssoc(a0 + a1 + a2, a3, RenderRecord(fs[4..]));
    AppendAssoc(a0 + a1 + a2 + a3, a4, RenderRecord(fs[5..]));
  }

  /** The record from field `k` on: field `k`, a comma, the record from
      `k + 1` on. */
  lemma RenderFrom(fs: seq<Field>, k: nat)
    requires k + 1 < |fs|
    ensures RenderRecord(fs[k..]) == (RenderField(fs[k]) + ",") + RenderRecord(fs[k + 1..])
  {
    RenderRecordCons(fs[k], fs[k + 1..]);
    assert [fs[k]] + fs[k + 1..] == fs[k..];
  }

  /** The fixed column names written with commas between. */
  lemma FixedHeaderText()
    ensures RenderRecord(BareAll(FixedColumns)) == "Id,Name,Status,Enabled,Version,OsDescription"
  {
    RenderSix(BareAll(FixedColumns));
    HeaderLiteral();
  }

  lemma HeaderLiteral()
    ensures ("Id" + ",") + ("Name" + ",") + ("Status" + ",") + ("Enabled" + ",") + ("Version" + ",") + "OsDescription"
         == "Id,Name,Status,Enabled,Version,OsDescription"
  {
    assert ("Id" + ",") + ("Name" + ",") == "Id,Name,";
    assert "Id,Name," + ("Status" + ",") == "Id,Name,Status,";
    assert "Id,Name,Status," + ("Enabled" + ",") == "Id,Name,Status,Enabled,";
    assert "Id,Name,Status,Enabled," + ("Version" + ",") == "Id,Name,Status,Enabled,Version,";
  }

  /** Writing a comma and the last field of a record after the others gives
      the whole record. */
  lemma ExtendRecord(fs: seq<Field>, piece: string)
    requires |fs| > 1
    requires piece == "," + RenderField(fs[|fs| - 1])
    ensures RenderRecord(fs[..|fs| - 1]) + piece == RenderRecord(fs)
  {
    var init, last := fs[..|fs| - 1], fs[|fs| - 1];
    assert init + [last] == fs;
    RenderRecordAppend(init, last);
    AppendAssoc(RenderRecord(init), ",", RenderField(last));
  }

  /** One iteration of the header loop extends the header by one column. */
  lemma HeaderStep(keys: seq<string>, i: nat)
    requires i < |keys|
    ensures RenderRecord(HeaderFields(keys[..i])) + (",\"" + Escape(keys[i]) + "\"")
         == RenderRecord(HeaderFields(keys[..i + 1]))
  {
    HeaderFieldsSnoc(keys, i);
    ExtendRecord(HeaderFields(keys[..i + 1]), ",\"" + Escape(keys[i]) + "\"");
  }

  lemma HeaderFieldsSnoc(keys: seq<string>, i: nat)
    requires i < |keys|
    ensures HeaderFields(keys[..i + 1]) == HeaderFields(keys[..i]) + [Quoted(keys[i])]
    ensures HeaderFields(keys[..i + 1])[..6 + i] == HeaderFields(keys[..i])
  {
  }

  /** One iteration of the inner loop extends the record by one cell. */
  lemma CellStep(sb: string, agent: Agent, caps: CapabilityMap, keys: seq<string>, k: nat, piece: string)
    requires k < |keys|
    requires piece == ",\"" + Escape(caps.TryGetValue(keys[k]).GetOr("")) + "\""
    ensures sb + RenderRecord(RowFieldsWith(agent, caps, keys[..k])) + piece
         == sb + RenderRecord(RowFieldsWith(agent, caps, keys[..k + 1]))
  {
    RowFieldsSnoc(agent, caps, keys, k);
    ExtendRecord(RowFieldsWith(agent, caps, keys[..k + 1]), piece);
    AppendAssoc(sb, RenderRecord(RowFieldsWith(agent, caps, keys[..k])), piece);
  }

  lemma RowFieldsSnoc(a: Agent, caps: CapabilityMap, keys: seq<string>, k: nat)
    requires k < |keys|
    ensures RowFieldsWith(a, caps, keys[..k + 1])
         == RowFieldsWith(a, caps, keys[..k]) + [Quoted(caps.TryGetValue(keys[k]).GetOr(""))]
    ensures RowFieldsWith(a, caps, keys[..k + 1])[..6 + k] == RowFieldsWith(a, caps, keys[..k])
  {
  }

  lemma RowsSnoc(header: seq<Field>, agents: seq<Agent>, keys: seq<string>, j: nat)
    requires j < |agents|
    ensures RenderDocument([header] + Rows(agents[..j + 1], keys))
         == RenderDocument([header] + Rows(agents[..j], keys)) + RenderRecord(RowFields(agents[j], keys)) + NewLine
  {
    assert [header] + Rows(agents[..j + 1], keys)
        == ([header] + Rows(agents[..j], keys)) + [RowFields(agents[j], keys)];
    RenderDocumentAppend([header] + Rows(agents[..j], keys), RowFields(agents[j], keys));
  }

  // ---------------------------------------------------------------------------
  // Properties of the document
  // ---------------------------------------------------------------------------

  /** What reading an agent's record back should give. */
  function RowTexts(a: Agent, keys: seq<string>): seq<string> {
    [IntToString(a.id), a.name.GetOr(""), a.status.GetOr(""), NullableBoolText(a.enabled),
     a.version.GetOr(""), a.osDescription.GetOr("")] + CellValues(Merged(a), keys)
  }

  /** A status that the bare status column can carry without breaking the
      record apart. */
  predicate PlainStatus(a: Agent) {
    var s := a.status.GetOr("");
    ',' !in s && '"' !in s && '\n' !in s
  }

  lemma ReadableRow(a: Agent, keys: seq<string>)
    requires PlainStatus(a)
    ensures ReadableRecord(RowFields(a, keys))
    ensures Texts(RowFields(a, keys)) == RowTexts(a, keys)
  {
    IdPlain(a.id);
    FixedThenQuoted(FixedFields(a), CellValues(Merged(a), keys));
  }

  /** Decimal text holds no comma, quote or line break. */
  lemma IdPlain(n: int)
    ensures ',' !in IntToString(n) && '"' !in IntToString(n) && '\n' !in IntToString(n)
  {
    IntToStringShape(n);
    var id := IntToString(n);
    forall i | 0 <= i < |id| ensures id[i] != ',' && id[i] != '"' && id[i] != '\n' { }
  }

  /** Readable fixed fields followed by quoted cells read back as the fixed
      texts followed by the cell texts. */
  lemma FixedThenQuoted(fixed: seq<Field>, texts: seq<string>)
    requires ReadableRecord(fixed)
    ensures ReadableRecord(fixed + QuotedAll(texts))
    ensures Texts(fixed + QuotedAll(texts)) == Texts(fixed) + texts
  {
    var fs := fixed + QuotedAll(texts);
    forall i | 0 <= i < |fs| ensures Readable(fs[i]) {
      if i >= |fixed| {
        assert fs[i] == Quoted(texts[i - |fixed|]);
      }
    }
  }

  lemma HeaderReadable(keys: seq<string>)
    ensures ReadableRecord(HeaderFields(keys))
  {
    forall i | 0 <= i < 6 ensures Readable(Bare(FixedColumns[i])) {
      var t := FixedColumns[i];
      assert forall j :: 0 <= j < |t| ==> 'A' <= t[j] <= 'z';
    }
  }

  lemma HeaderTexts(keys: seq<string>)
    ensures Texts(HeaderFields(keys)) == FixedColumns + keys
  {
  }

  lemma CsvRecordsReadable(agents: seq<Agent>)
    requires forall a :: a in agents ==> PlainStatus(a)
    ensures forall i :: 0 <= i < |CsvRecords(agents)| ==> ReadableRecord(CsvRecords(agents)[i])
    ensures forall i :: 0 <= i < |CsvRecords(agents)| ==>
              Texts(CsvRecords(agents)[i])
              == if i == 0 then FixedColumns + GetAllCapabilityKeys(agents)
                 else RowTexts(agents[i - 1], GetAllCapabilityKeys(agents))
  {
    forall i | 0 <= i < |CsvRecords(agents)|
      ensures ReadableRecord(CsvRecords(agents)[i])
      ensures Texts(CsvRecords(agents)[i])
           == if i == 0 then FixedColumns + GetAllCapabilityKeys(agents)
              else RowTexts(agents[i - 1], GetAllCapabilityKeys(agents))
    {
      CsvRecordReadable(agents, GetAllCapabilityKeys(agents), i);
    }
  }

  lemma CsvRecordReadable(agents: seq<Agent>, keys: seq<string>, i: nat)
    requires forall a :: a in agents ==> PlainStatus(a)
    requires i <= |agents|
    ensures ReadableRecord(([HeaderFields(keys)] + Rows(agents, keys))[i])
    ensures Texts(([HeaderFields(keys)] + Rows(agents, keys))[i])
         == if i == 0 then FixedColumns + keys else RowTexts(agents[i - 1], keys)
  {
    if i == 0 {
      HeaderReadable(keys);
      HeaderTexts(keys);
    } else {
      assert agents[i - 1] in agents;
      ReadableRow(agents[i - 1], keys);
    }
  }

  /** Read back, the document is one header record and one record per agent,
      in input order. The header holds the six fixed column names and then
      the schema keys; each agent's record holds its six fixed values (a null
      one as empty text, the enabled flag as `True`/`False`) and then, for
      every schema key in order, its merged value or empty text. This needs
      the unescaped status column to hold no comma, quote or line break. */
  lemma CsvReadsBack(agents: seq<Agent>)
    requires forall a :: a in agents ==> PlainStatus(a)
    ensures ParseDocument(RenderDocument(CsvRecords(agents))).Some?
    ensures |ParseDocument(RenderDocument(CsvRecords(agents))).value| == |agents| + 1
    ensures ParseDocument(RenderDocument(CsvRecords(agents))).value[0]
         == FixedColumns + GetAllCapabilityKeys(agents)
    ensures forall j :: 0 <= j < |agents| ==>
              ParseDocument(RenderDocument(CsvRecords(agents))).value[j + 1]
              == RowTexts(agents[j], GetAllCapabilityKeys(agents))
  {
    CsvRecordsReadable(agents);
    DocumentRoundTrip(CsvRecords(agents));
  }

  /** Every record, the header included, has the six fixed fields and then
      exactly one field per schema key. */
  lemma CsvFieldCounts(agents: seq<Agent>)
    ensures forall r :: r in CsvRecords(agents) ==> |r| == 6 + |GetAllCapabilityKeys(agents)|
  {
  }

  /** A capability cell holds the user value for the key (in any casing),
      else the system value, else empty text. */
  lemma CellValueSources(a: Agent, key: string)
    ensures CellValue(Merged(a), key)
         == LastValue(a.userCapabilities.GetOr([]), key)
              .OrElse(LastValue(a.systemCapabilities.GetOr([]), key)).GetOr("")
  {
    MergedLookup(a, key);
  }
}
