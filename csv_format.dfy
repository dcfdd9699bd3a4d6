/** The comma-separated text both CSV writers produce: quote-doubling escape,
    fields written quoted or bare, records joined by commas and ended by a
    line break. A reader for that text is given too, so that the layout can
    be stated as "reading the text back gives the fields". */
module CsvFormat {
  import opened Wrappers

  /** The line terminator that ends every record. */
  const NewLine: string := "\n"

  // ---------------------------------------------------------------------------
  // Escaping
  // ---------------------------------------------------------------------------

  /** `value.Replace("\"", "\"\"")`: every quote character is doubled. */
  function Escape(s: string): string
    decreases |s|
  {
    if s == [] then [] else (if s[0] == '"' then "\"\"" else [s[0]]) + Escape(s[1..])
  }

  /** Replaces each pair of quote characters, left to right, by one. */
  function Unescape(s: string): string
    decreases |s|
  {
    if s == [] then []
    else if |s| > 1 && s[0] == '"' && s[1] == '"' then "\"" + Unescape(s[2..])
    else [s[0]] + Unescape(s[1..])
  }

  /** The number of quote characters in a string. */
  function QuoteCount(s: string): nat
    decreases |s|
  {
    if s == [] then 0 else (if s[0] == '"' then 1 else 0) + QuoteCount(s[1..])
  }

  /** Undoubling the escaped text recovers the original. */
  lemma {:induction false} UnescapeEscape(s: string)
    ensures Unescape(Escape(s)) == s
    decreases |s|
  {
    if s != [] {
      UnescapeEscape(s[1..]);
      if s[0] == '"' {
        assert Escape(s) == "\"\"" + Escape(s[1..]);
        assert Escape(s)[2..] == Escape(s[1..]);
      } else {
        assert Escape(s) == [s[0]] + Escape(s[1..]);
        assert Escape(s)[1..] == Escape(s[1..]);
      }
    }
  }

  /** Escaping lengthens a string by exactly its number of quotes. */
  lemma {:induction false} EscapeLength(s: string)
    ensures |Escape(s)| == |s| + QuoteCount(s)
    decreases |s|
  {
    if s != [] {
      EscapeLength(s[1..]);
    }
  }

  /** Escaping leaves a string without quotes unchanged. */
  lemma {:induction false} EscapeNoQuotes(s: string)
    requires '"' !in s
    ensures Escape(s) == s
    decreases |s|
  {
    if s != [] {
      assert s[0] in s;
      assert forall c :: c in s[1..] ==> c in s;
      EscapeNoQuotes(s[1..]);
    }
  }

  // ---------------------------------------------------------------------------
  // Writing
  // ---------------------------------------------------------------------------

  /** A field as written: quoted (and escaped) or bare (written verbatim). */
  datatype Field = Quoted(text: string) | Bare(text: string)

  function RenderField(f: Field): string {
    match f
    case Quoted(t) => "\"" + Escape(t) + "\""
    case Bare(t) => t
  }

  /** The fields of a record separated by commas. */
  function RenderRecord(fs: seq<Field>): string
    decreases |fs|
  {
    if fs == [] then ""
    else if |fs| == 1 then RenderField(fs[0])
    else RenderField(fs[0]) + "," + RenderRecord(fs[1..])
  }

  /** Every record followed by a line terminator. */
  function RenderDocument(rs: seq<seq<Field>>): string
    decreases |rs|
  {
    if rs == [] then "" else RenderRecord(rs[0]) + NewLine + RenderDocument(rs[1..])
  }

  /** A field followed by a non-empty record: the field, a comma, the rest. */
  lemma RenderRecordCons(f: Field, fs: seq<Field>)
    requires fs != []
    ensures RenderRecord([f] + fs) == RenderField(f) + "," + RenderRecord(fs)
  {
    assert ([f] + fs)[1..] == fs;
  }

  /** Appending a field writes a comma and the field after the record. */
  lemma {:induction false} RenderRecordAppend(fs: seq<Field>, f: Field)
    requires fs != []
    ensures RenderRecord(fs + [f]) == RenderRecord(fs) + "," + RenderField(f)
    decreases |fs|
  {
    if |fs| > 1 {
      var rest := fs[1..] + [f];
      assert (fs + [f])[1..] == rest;
      assert |fs + [f]| > 1;
      RenderRecordAppend(fs[1..], f);
      assert RenderRecord(fs + [f]) == RenderField(fs[0]) + "," + RenderRecord(rest);
      CommaAssoc(RenderField(fs[0]), RenderRecord(fs[1..]), RenderField(f));
    } else {
      assert (fs + [f])[1..] == [f];
    }
  }

  lemma CommaAssoc(a: string, b: string, c: string)
    ensures a + "," + (b + "," + c) == a + "," + b + "," + c
  {
  }

  /** Appending a record writes it, with its terminator, after the document. */
  lemma {:induction false} RenderDocumentAppend(rs: seq<seq<Field>>, r: seq<Field>)
    ensures RenderDocument(rs + [r]) == RenderDocument(rs) + RenderRecord(r) + NewLine
    decreases |rs|
  {
    if rs == [] {
      assert RenderDocument([r]) == RenderRecord(r) + NewLine + RenderDocument([]);
    } else {
      assert (rs + [r])[1..] == rs[1..] + [r];
      RenderDocumentAppend(rs[1..], r);
    }
  }

  // ---------------------------------------------------------------------------
  // Reading
  // ---------------------------------------------------------------------------

  /** The rest of a quoted field after its opening quote: text up to the
      closing quote, with doubled quotes read as one, and what follows. */
  function QuotedBody(s: string): (r: Option<(string, string)>)
    ensures r.Some? ==> |r.value.1| < |s|
    decreases |s|
  {
    if s == [] then None
    else if s[0] == '"' then
      if |s| > 1 && s[1] == '"' then
        match QuotedBody(s[2..])
        case None => None
        case Some(p) => Some(("\"" + p.0, p.1))
      else Some(([], s[1..]))
    else
      match QuotedBody(s[1..])
      case None => None
      case Some(p) => Some(([s[0]] + p.0, p.1))
  }

  /** A bare field: everything up to the next comma or line break. */
  function BareSpan(s: string): (r: (string, string))
    ensures |r.1| <= |s|
    decreases |s|
  {
    if s == [] || s[0] == ',' || s[0] == '\n' then ([], s)
    else
      var p := BareSpan(s[1..]);
      ([s[0]] + p.0, p.1)
  }

  function ParseField(s: string): (r: Option<(string, string)>)
    ensures r.Some? ==> |r.value.1| <= |s|
  {
    if |s| > 0 && s[0] == '"' then QuotedBody(s[1..]) else Some(BareSpan(s))
  }

  /** One record: fields separated by commas, ended by a line break. */
  function ParseRecord(s: string): (r: Option<(seq<string>, string)>)
    ensures r.Some? ==> |r.value.1| < |s|
    decreases |s|
  {
    match ParseField(s)
    case None => None
    case Some(p) =>
      var rest := p.1;
      if rest == [] then None
      else if rest[0] == ',' then
        match ParseRecord(rest[1..])
        case None => None
        case Some(q) => Some(([p.0] + q.0, q.1))
      else if rest[0] == '\n' then Some(([p.0], rest[1..]))
      else None
  }

  /** A whole document: records up to the end of the text. */
  function ParseDocument(s: string): Option<seq<seq<string>>>
    decreases |s|
  {
    if s == [] then Some([])
    else
      match ParseRecord(s)
      case None => None
      case Some(p) =>
        match ParseDocument(p.1)
        case None => None
        case Some(rs) => Some([p.0] + rs)
  }

  // ---------------------------------------------------------------------------
  // Reading back what was written
  // ---------------------------------------------------------------------------

  /** A field that reads back as written: bare text must hold no comma, quote
      or line break (quoted text may hold anything). */
  predicate Readable(f: Field) {
    f.Bare? ==> ',' !in f.text && '"' !in f.text && '\n' !in f.text
  }

  /** A record that reads back: at least one field, each readable. */
  predicate ReadableRecord(fs: seq<Field>) {
    |fs| > 0 && forall i :: 0 <= i < |fs| ==> Readable(fs[i])
  }

  function Texts(fs: seq<Field>): (r: seq<string>)
    ensures |r| == |fs|
    ensures forall i :: 0 <= i < |fs| ==> r[i] == fs[i].text
  {
    seq(|fs|, i requires 0 <= i < |fs| => fs[i].text)
  }

  /** What a field is followed by: a separator, or nothing. */
  predicate Delimited(rest: string) {
    rest == [] || rest[0] == ',' || rest[0] == '\n'
  }

  lemma {:induction false} QuotedBodyRoundTrip(t: string, rest: string)
    requires rest == [] || rest[0] != '"'
    ensures QuotedBody(Escape(t) + "\"" + rest) == Some((t, rest))
    decreases |t|
  {
    var s := Escape(t) + "\"" + rest;
    if t == [] {
      assert s == "\"" + rest;
      assert s[1..] == rest;
    } else if t[0] == '"' {
      assert s == "\"\"" + (Escape(t[1..]) + "\"" + rest);
      assert s[2..] == Escape(t[1..]) + "\"" + rest;
      QuotedBodyRoundTrip(t[1..], rest);
      assert "\"" + t[1..] == t;
    } else {
      assert s == [t[0]] + (Escape(t[1..]) + "\"" + rest);
      assert s[1..] == Escape(t[1..]) + "\"" + rest;
      QuotedBodyRoundTrip(t[1..], rest);
      assert [t[0]] + t[1..] == t;
    }
  }

  lemma {:induction false} BareSpanRoundTrip(t: string, rest: string)
    requires ',' !in t && '\n' !in t
    requires Delimited(rest)
    ensures BareSpan(t + rest) == (t, rest)
    decreases |t|
  {
    if t == [] {
      assert t + rest == rest;
    } else {
      assert t[0] in t;
      assert forall c :: c in t[1..] ==> c in t;
      assert (t + rest)[0] == t[0];
      assert (t + rest)[1..] == t[1..] + rest;
      BareSpanRoundTrip(t[1..], rest);
      assert [t[0]] + t[1..] == t;
    }
  }

  lemma FieldRoundTrip(f: Field, rest: string)
    requires Readable(f) && Delimited(rest)
    ensures ParseField(RenderField(f) + rest) == Some((f.text, rest))
  {
    match f
    case Quoted(t) =>
      var s := RenderField(f) + rest;
      assert s == "\"" + (Escape(t) + "\"" + rest);
      assert s[1..] == Escape(t) + "\"" + rest;
      QuotedBodyRoundTrip(t, rest);
    case Bare(t) =>
      BareSpanRoundTrip(t, rest);
      if t != [] {
        assert t[0] in t;
      }
  }

  lemma Regroup(a: string, b: string, c: string)
    ensures a + b + c == a + (b + c)
  {
  }

  lemma RegroupRecord(a: string, b: string, c: string, d: string)
    ensures a + "," + b + c + d == a + ("," + (b + c + d))
  {
  }

  lemma ReadableTail(fs: seq<Field>)
    requires ReadableRecord(fs) && |fs| > 1
    ensures ReadableRecord(fs[1..])
    ensures Texts(fs) == [fs[0].text] + Texts(fs[1..])
  {
    assert forall i :: 0 <= i < |fs[1..]| ==> fs[1..][i] == fs[i + 1];
  }

  /** A readable record followed by its line break reads back as its texts. */
  lemma {:induction false} RecordRoundTrip(fs: seq<Field>, rest: string)
    requires ReadableRecord(fs)
    ensures ParseRecord(RenderRecord(fs) + NewLine + rest) == Some((Texts(fs), rest))
    decreases |fs|
  {
    var s := RenderRecord(fs) + NewLine + rest;
    if |fs| == 1 {
      FieldRoundTrip(fs[0], NewLine + rest);
      Regroup(RenderField(fs[0]), NewLine, rest);
      assert (NewLine + rest)[1..] == rest;
      assert Texts(fs) == [fs[0].text];
    } else {
      var tail := RenderRecord(fs[1..]) + NewLine + rest;
      assert RenderRecord(fs) == RenderField(fs[0]) + "," + RenderRecord(fs[1..]);
      RegroupRecord(RenderField(fs[0]), RenderRecord(fs[1..]), NewLine, rest);
      FieldRoundTrip(fs[0], "," + tail);
      assert ("," + tail)[1..] == tail;
      ReadableTail(fs);
      RecordRoundTrip(fs[1..], rest);
    }
  }

  /** The texts of every record of a document. */
  function DocumentTexts(rs: seq<seq<Field>>): (r: seq<seq<string>>)
    ensures |r| == |rs|
    ensures forall i :: 0 <= i < |rs| ==> r[i] == Texts(rs[i])
    decreases |rs|
  {
    if rs == [] then [] else [Texts(rs[0])] + DocumentTexts(rs[1..])
  }

  /** A document of one record is that record and its line break. */
  lemma SingleRecordDocument(r: seq<Field>)
    ensures RenderDocument([r]) == RenderRecord(r) + NewLine
  {
    assert RenderDocument([r]) == RenderRecord(r) + NewLine + RenderDocument([]);
  }

  /** A document of readable records reads back as the texts of its fields,
      record by record. */
  lemma {:induction false} DocumentRoundTrip(rs: seq<seq<Field>>)
    requires forall i :: 0 <= i < |rs| ==> ReadableRecord(rs[i])
    ensures ParseDocument(RenderDocument(rs)) == Some(DocumentTexts(rs))
    decreases |rs|
  {
    if rs != [] {
      var s := RenderDocument(rs);
      RecordRoundTrip(rs[0], RenderDocument(rs[1..]));
      assert s == RenderRecord(rs[0]) + NewLine + RenderDocument(rs[1..]);
      assert forall i :: 0 <= i < |rs[1..]| ==> rs[1..][i] == rs[i + 1];
      DocumentRoundTrip(rs[1..]);
    }
  }
}
