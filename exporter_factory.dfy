/** `ExporterFactory`: the closed choice of exporter by format name. */
module ExporterFactory {
  import opened Wrappers
  import opened Text
  import opened Options

  /** The three exporters. */
  datatype ExporterKind = HtmlExporter | JsonExporter | CsvExporter

  /** Each exporter's `FileExtension`. */
  function FileExtension(k: ExporterKind): string {
    match k
    case HtmlExporter => "html"
    case JsonExporter => "json"
    case CsvExporter => "csv"
  }

  /** `SupportedFormats`. */
  const SupportedFormats: seq<string> := ["html", "json", "csv"]

  /** `Create`: switches on the lower-cased format; any other format is
      rejected with a message that names it and the allowed formats. */
  function Create(format: string): (r: Result<ExporterKind, string>)
    ensures r.Success? ==> FileExtension(r.value) == Fold(format)
    ensures r.Failure? ==> r.error == "Unsupported format: " + format + ". Use html, json, or csv."
  {
    match Fold(format)
    case "html" => Success(HtmlExporter)
    case "json" => Success(JsonExporter)
    case "csv" => Success(CsvExporter)
    case _ => Failure("Unsupported format: " + format + ". Use html, json, or csv.")
  }

  /** `Create` succeeds exactly for the formats whose lower-cased form is
      listed in `SupportedFormats`. */
  lemma CreateSucceedsIff(format: string)
    ensures Create(format).Success? <==> Fold(format) in SupportedFormats
  {
  }

  /** Letter case never changes which exporter `Create` returns. */
  lemma CreateIgnoresCase(f1: string, f2: string)
    requires EqualsIgnoreCase(f1, f2)
    ensures Create(f1).Success? <==> Create(f2).Success?
    ensures Create(f1).Success? ==> Create(f1).value == Create(f2).value
  {
  }

  /** Every exporter is created from its own extension, and every supported
      format names the exporter whose extension it is. */
  lemma CreateFromExtension(k: ExporterKind)
    ensures Create(FileExtension(k)) == Success(k)
  {
    match k
    case HtmlExporter => assert Fold("html") == "html";
    case JsonExporter => assert Fold("json") == "json";
    case CsvExporter => assert Fold("csv") == "csv";
  }

  /** Without an explicit output file, the default path of an accepted
      format ends in the extension of the exporter created for it. */
  lemma DefaultPathExtension(o: ExportOptions)
    requires o.outputFile.None? && Create(o.format).Success?
    ensures GetOutputPath(o) == DefaultBaseName + FileExtension(Create(o.format).value)
  {
  }
}
