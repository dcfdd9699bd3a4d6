/** `ExportOptions`: the report settings and the output path derived from
    them. */
module Options {
  import opened Wrappers
  import opened Text

  /** The export settings: the format name, an explicit output file (null
      when none was given) and the pool name shown in report titles. */
  datatype ExportOptions = ExportOptions(format: string, outputFile: Option<string>, poolName: string)

  /** The initial property values: format "html", no output file, empty pool
      name. */
  const DefaultOptions: ExportOptions := ExportOptions("html", None, "")

  const DefaultBaseName: string := "agents-report."

  /** `GetOutputPath`: the explicit output file when there is one, otherwise
      "agents-report." followed by the lower-cased format. */
  function GetOutputPath(o: ExportOptions): (path: string)
    ensures o.outputFile.Some? ==> path == o.outputFile.value
    ensures o.outputFile.None? ==> |path| == |DefaultBaseName| + |o.format|
                                   && path[..|DefaultBaseName|] == DefaultBaseName
                                   && EqualsIgnoreCase(path[|DefaultBaseName|..], o.format)
                                   && IsLowerCase(path[|DefaultBaseName|..])
  {
    match o.outputFile
    case Some(file) => file
    case None =>
      var path := DefaultBaseName + Fold(o.format);
      assert path[|DefaultBaseName|..] == Fold(o.format);
      FoldIdempotent(o.format);
      FoldIsLowerCase(o.format);
      path
  }

  /** Without an explicit file, the path is exactly the base name followed by
      the lower-cased format: no other text meets both of `GetOutputPath`'s
      promises. */
  lemma DefaultPathIsLowerCased(o: ExportOptions)
    requires o.outputFile.None?
    ensures GetOutputPath(o) == DefaultBaseName + Fold(o.format)
  {
    var path := GetOutputPath(o);
    LowerCaseUnique(path[|DefaultBaseName|..], o.format);
    assert path == path[..|DefaultBaseName|] + path[|DefaultBaseName|..];
  }

  /** With the default settings the report goes to "agents-report.html". */
  lemma DefaultOutputPath()
    ensures GetOutputPath(DefaultOptions) == "agents-report.html"
  {
    assert Fold("html") == "html";
  }

  /** The pool name never affects the output path. */
  lemma OutputPathIgnoresPoolName(o: ExportOptions, poolName: string)
    ensures GetOutputPath(o.(poolName := poolName)) == GetOutputPath(o)
  {
  }

  /** Without an explicit file, formats equal ignoring case give the same
      path. */
  lemma OutputPathIgnoresFormatCase(o: ExportOptions, format: string)
    requires o.outputFile.None? && EqualsIgnoreCase(format, o.format)
    ensures GetOutputPath(o.(format := format)) == GetOutputPath(o)
  {
  }
}
