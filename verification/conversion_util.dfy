/** ConversionUtil: the file-type registry, the validated conversion options and
    their builder, the per-format reader and writer configuration, and the
    conversion pipeline. The format libraries are parameters (Codecs). */
module ConversionUtil {
  import opened Wrappers
  import opened JavaText
  import opened DocTree
  import opened External
  import opened Deduplicate

  // ---------------------------------------------------------------- registry

  datatype FileType = CSV | TSV | JSON | PROPERTIES | TOML | YAML

  /** The extensions each variant recognises, all in lower case. */
  function Extensions(t: FileType): (r: set<string>)
    ensures r != {}
    ensures |r| == 2 <==> t == YAML
  {
    match t
    case CSV => {"csv"}
    case TSV => {"tsv"}
    case JSON => {"json"}
    case PROPERTIES => {"properties"}
    case TOML => {"toml"}
    case YAML => {"yaml", "yml"}
  }

  /** FileType.values(), in declaration order. */
  const Values: seq<FileType> := [CSV, TSV, JSON, PROPERTIES, TOML, YAML]

  /** values() lists every variant. */
  lemma ValuesComplete(t: FileType)
    ensures t in Values
  {
    match t
    case CSV => assert Values[0] == t;
    case TSV => assert Values[1] == t;
    case JSON => assert Values[2] == t;
    case PROPERTIES => assert Values[3] == t;
    case TOML => assert Values[4] == t;
    case YAML => assert Values[5] == t;
  }

  /** No extension belongs to two variants, so a resolved type is unique. */
  lemma ExtensionsDisjoint(s: FileType, t: FileType)
    requires s != t
    ensures Extensions(s) !! Extensions(t)
  {
  }

  /** The stream filter/findAny over a registry's variants: a variant whose
      extension set holds the lower-cased extension, if there is one. */
  function FindType<T>(types: seq<T>, extensions: T -> set<string>, lowered: string): (r: Option<T>)
    ensures r.Some? ==> r.value in types && lowered in extensions(r.value)
    ensures r.None? ==> forall t :: t in types ==> lowered !in extensions(t)
  {
    if types == [] then None
    else if lowered in extensions(types[0]) then Some(types[0])
    else FindType(types[1..], extensions, lowered)
  }

  /** FileType.fromFileExtension: a null or blank extension cannot be
      determined; a resolved extension is listed, lower-cased, by its variant. */
  function FromFileExtension(ext: Option<string>): (r: Result<FileType, Error>)
    ensures r == Failure(InvalidInput(FileTypeUndetermined)) <==> ext.None? || IsBlank(ext.value)
    ensures r.Success? ==> ToLowerCase(ext.value) in Extensions(r.value)
  {
    if ext.None? || IsBlank(ext.value) then Failure(InvalidInput(FileTypeUndetermined))
    else
      match FindType(Values, Extensions, ToLowerCase(ext.value))
      case Some(t) => Success(t)
      case None => Failure(UnsupportedFormat(UnsupportedFileType(ext.value)))
  }

  /** Resolution of a present, non-blank extension: it resolves to a variant
      exactly when that variant lists the lower-cased extension, and any other
      extension is reported as unsupported with its original spelling. */
  lemma ResolutionExact(ext: string)
    requires !IsBlank(ext)
    ensures forall t :: FromFileExtension(Some(ext)) == Success(t) <==> ToLowerCase(ext) in Extensions(t)
    ensures FromFileExtension(Some(ext)).Failure? ==>
      FromFileExtension(Some(ext)).error == UnsupportedFormat(UnsupportedFileType(ext))
  {
    var lowered := ToLowerCase(ext);
    match FindType(Values, Extensions, lowered)
    case Some(t) =>
      forall s | s != t ensures lowered !in Extensions(s) { ExtensionsDisjoint(s, t); }
    case None =>
      forall t ensures lowered !in Extensions(t) { ValuesComplete(t); }
  }

  /** Resolution ignores case: two spellings that lower-case alike either both
      resolve, to the same variant, or both fail. */
  lemma ResolutionIgnoresCase(a: string, b: string)
    requires ToLowerCase(a) == ToLowerCase(b)
    ensures FromFileExtension(Some(a)).Success? <==> FromFileExtension(Some(b)).Success?
    ensures FromFileExtension(Some(a)).Success? ==>
      FromFileExtension(Some(a)).value == FromFileExtension(Some(b)).value
  {
    LowerCaseKeepsBlankness(a);
    LowerCaseKeepsBlankness(b);
    if !IsBlank(a) {
      ResolutionExact(a);
      ResolutionExact(b);
    }
  }

  /** Every recognised extension is a non-empty word of lower-case ASCII letters:
      no upper case, no dot, nothing outside ASCII. */
  lemma ExtensionsAscii(t: FileType, e: string, j: nat)
    requires e in Extensions(t) && j < |e|
    ensures "" !in Extensions(t)
    ensures e != [] && 'a' <= e[j] <= 'z' && IsAscii(e[j])
  {
  }

  /** An extension holding a non-ASCII character is unsupported, since lower-casing
      keeps that character and no recognised extension has one. */
  lemma NonAsciiUnsupported(ext: string, i: nat)
    requires i < |ext| && !IsAscii(ext[i]) && !IsBlank(ext)
    ensures FromFileExtension(Some(ext)) == Failure(UnsupportedFormat(UnsupportedFileType(ext)))
  {
    var lowered := ToLowerCase(ext);
    ResolutionExact(ext);
    LowerCaseKeepsNonAscii(ext, i);
    forall t ensures lowered !in Extensions(t) {
      if lowered in Extensions(t) {
        ExtensionsAscii(t, lowered, i);
      }
    }
  }

  /** A spelling that does not start with whitespace resolves to the variant
      that lists its lower-cased form. */
  lemma ResolvesTo(ext: string, lowered: string, t: FileType)
    requires ext != [] && !IsWhitespace(ext[0])
    requires ToLowerCase(ext) == lowered && lowered in Extensions(t)
    ensures FromFileExtension(Some(ext)) == Success(t)
  {
    ResolutionExact(ext);
  }

  /** A non-blank spelling whose lower-cased form no variant lists is unsupported. */
  lemma Unsupported(ext: string, lowered: string)
    requires !IsBlank(ext)
    requires ToLowerCase(ext) == lowered && forall t :: lowered !in Extensions(t)
    ensures FromFileExtension(Some(ext)) == Failure(UnsupportedFormat(UnsupportedFileType(ext)))
  {
    ResolutionExact(ext);
  }

  /** A mixed-case spelling resolves. */
  lemma MixedCaseResolves()
    ensures FromFileExtension(Some("JsOn")) == Success(JSON)
  {
    ResolvesTo("JsOn", "json", JSON);
  }

  /** The short YAML spelling resolves, in upper case too. */
  lemma ShortYamlResolves()
    ensures FromFileExtension(Some("YML")) == Success(YAML)
  {
    ResolvesTo("YML", "yml", YAML);
  }

  /** Null, empty and blank extensions cannot be resolved. */
  lemma UndeterminedSpellings()
    ensures FromFileExtension(None) == Failure(InvalidInput(FileTypeUndetermined))
    ensures FromFileExtension(Some("")) == Failure(InvalidInput(FileTypeUndetermined))
    ensures FromFileExtension(Some("   ")) == Failure(InvalidInput(FileTypeUndetermined))
  {
  }

  /** An extension given with its leading dot is unsupported, and the message
      keeps the spelling as given. */
  lemma DottedExtensionUnsupported()
    ensures FromFileExtension(Some(".csv")) == Failure(UnsupportedFormat("Unsupported file type! [.csv]"))
  {
    assert !IsWhitespace(".csv"[0]);
    Unsupported(".csv", ".csv");
    assert UnsupportedFileType(".csv") == "Unsupported file type! [.csv]";
  }

  /** A capital I with a dot above does not lower-case to a plain i. */
  lemma DottedCapitalIUnsupported()
    ensures FromFileExtension(Some("PROPERT\U{0130}ES"))
      == Failure(UnsupportedFormat("Unsupported file type! [PROPERT\U{0130}ES]"))
  {
    DottedCapitalISpelling("PROPERT\U{0130}ES");
    NonAsciiUnsupported("PROPERT\U{0130}ES", 7);
  }

  /** The spelling with a dotted capital I is not blank, holds a non-ASCII
      character at index 7, and is quoted as given in the message. */
  lemma DottedCapitalISpelling(ext: string)
    requires ext == "PROPERT\U{0130}ES"
    ensures !IsBlank(ext) && !IsAscii(ext[7])
    ensures UnsupportedFileType(ext) == "Unsupported file type! [PROPERT\U{0130}ES]"
  {
    assert !IsWhitespace(ext[0]);
  }

  // ----------------------------------------------------------------- options

  datatype OptionsRecord = OptionsRecord(
    csvSeparator: char,
    pretty: bool,
    indentYaml: bool,
    minimizeYamlQuotes: bool,
    deduplicateKeys: bool)

  /** A CSV separator may be neither whitespace nor a space character. */
  predicate ValidSeparator(c: char) {
    !IsWhitespace(c) && !IsSpaceChar(c)
  }

  /** ConversionOptions: options whose separator passed validation. */
  type ConversionOptions = o: OptionsRecord | ValidSeparator(o.csvSeparator)
    witness OptionsRecord(',', false, false, false, false)

  const BlankSeparator: string := "CSV separator can not be blank or whitespace!"

  /** The compact constructor of ConversionOptions: it accepts exactly the valid
      separators and then keeps all five fields as given. */
  function NewOptions(csvSeparator: char, pretty: bool, indentYaml: bool,
                      minimizeYamlQuotes: bool, deduplicateKeys: bool): (r: Result<ConversionOptions, Error>)
    ensures r.Success? <==> !IsWhitespace(csvSeparator) && !IsSpaceChar(csvSeparator)
    ensures r.Success? ==> r.value == OptionsRecord(csvSeparator, pretty, indentYaml, minimizeYamlQuotes, deduplicateKeys)
    ensures r.Failure? ==> r.error == InvalidInput(BlankSeparator)
  {
    if ValidSeparator(csvSeparator) then
      Success(OptionsRecord(csvSeparator, pretty, indentYaml, minimizeYamlQuotes, deduplicateKeys))
    else Failure(InvalidInput(BlankSeparator))
  }

  /** Separators that are rejected and accepted: carriage return (13) and form
      feed (12), space, tab, no-break space and the line separator are rejected;
      the comma, the semicolon and the builder's default NUL are accepted. */
  lemma SeparatorExamples(pretty: bool, indentYaml: bool, minimizeYamlQuotes: bool, deduplicateKeys: bool)
    ensures forall c :: c in ['\r', '\U{000C}', ' ', '\t', '\U{00A0}', '\U{2028}'] ==>
      NewOptions(c, pretty, indentYaml, minimizeYamlQuotes, deduplicateKeys) == Failure(InvalidInput(BlankSeparator))
    ensures forall c :: c in [',', ';', '\0'] ==>
      NewOptions(c, pretty, indentYaml, minimizeYamlQuotes, deduplicateKeys).Success?
  {
  }

  /** Because tab is whitespace, no options value can carry it: the CSV variant
      never uses the separator that the TSV variant is fixed to. */
  lemma CsvSeparatorNeverTab(o: ConversionOptions)
    ensures o.csvSeparator != '\t'
  {
  }

  /** ConversionOptions.Builder: five fields that the setters overwrite one at a
      time; build() hands them to the validating constructor. */
  class Builder {
    var csvSeparator: char
    var pretty: bool
    var indentYaml: bool
    var minimizeYamlQuotes: bool
    var deduplicateKeys: bool

    /** ConversionOptions.builder(): every field at its Java default. */
    constructor ()
      ensures csvSeparator == '\0' && !pretty && !indentYaml && !minimizeYamlQuotes && !deduplicateKeys
    {
      csvSeparator := '\0';
      pretty := false;
      indentYaml := false;
      minimizeYamlQuotes := false;
      deduplicateKeys := false;
    }

    method SetCsvSeparator(c: char) returns (self: Builder)
      modifies this`csvSeparator
      ensures self == this && csvSeparator == c
    {
      csvSeparator := c;
      self := this;
    }

    method SetPretty(b: bool) returns (self: Builder)
      modifies this`pretty
      ensures self == this && pretty == b
    {
      pretty := b;
      self := this;
    }

    method SetIndentYaml(b: bool) returns (self: Builder)
      modifies this`indentYaml
      ensures self == this && indentYaml == b
    {
      indentYaml := b;
      self := this;
    }

    method SetMinimizeYamlQuotes(b: bool) returns (self: Builder)
      modifies this`minimizeYamlQuotes
      ensures self == this && minimizeYamlQuotes == b
    {
      minimizeYamlQuotes := b;
      self := this;
    }

    method SetDeduplicateKeys(b: bool) returns (self: Builder)
      modifies this`deduplicateKeys
      ensures self == this && deduplicateKeys == b
    {
      deduplicateKeys := b;
      self := this;
    }

    /** build(): succeeds exactly when the separator is valid, and then copies the
        five fields unchanged. */
    method Build() returns (r: Result<ConversionOptions, Error>)
      ensures r.Success? <==> ValidSeparator(csvSeparator)
      ensures r.Success? ==>
        r.value == OptionsRecord(csvSeparator, pretty, indentYaml, minimizeYamlQuotes, deduplicateKeys)
      ensures r.Failure? ==> r.error == InvalidInput(BlankSeparator)
    {
      r := NewOptions(csvSeparator, pretty, indentYaml, minimizeYamlQuotes, deduplicateKeys);
    }
  }

  /** builder().setCsvSeparator(c).build(): the separator alone decides success,
      and every field left unset keeps its default. */
  method BuildWithSeparator(c: char) returns (r: Result<ConversionOptions, Error>)
    ensures r.Success? <==> ValidSeparator(c)
    ensures r.Success? ==> r.value == OptionsRecord(c, false, false, false, false)
    ensures r.Failure? ==> r.error == InvalidInput(BlankSeparator)
  {
    var b := new Builder();
    b := b.SetCsvSeparator(c);
    r := b.Build();
  }

  // ------------------------------------------------------------------ codecs

  /** How a variant's reader is configured. */
  datatype ReadPlan =
    | ReadDelimited(separator: char)   // Jackson CSV into LinkedHashMap<String, String> rows
    | ReadJson
    | ReadProperties
    | ReadToml
    | ReadYaml                         // SnakeYAML load, then valueToTree

  /** The CSV schema handed to the CSV writer. */
  datatype CsvSchema = CsvSchema(columns: seq<string>, separator: char, useHeader: bool, alwaysQuoteStrings: bool)

  /** How a variant's writer is configured for one tree. */
  datatype WritePlan =
    | WriteDelimited(schema: CsvSchema)
    | WriteJson(prettyPrinter: bool)
    | WriteProperties(sortAlphabetically: bool)
    | WriteToml
    | WriteYaml(features: YamlFeatures)

  /** A variant's writer before it sees the tree: CSV and TSV still need the tree
      to find their header. */
  datatype Writer = HeaderInferring(separator: char) | Fixed(plan: WritePlan)

  /** The format libraries, which this model does not look inside. */
  datatype Codecs = Codecs(
    readRows: (char, File) -> Result<seq<seq<(string, string)>>, Error>,
    readTree: (ReadPlan, File) -> Result<Node, Error>,
    write: (WritePlan, File, Node) -> Result<(), Error>)

  const Tab: char := '\t'

  /** FileType.reader(options). */
  function ReaderFor(t: FileType, options: ConversionOptions): (r: ReadPlan)
    ensures r.ReadDelimited? <==> t == CSV || t == TSV
    ensures r.ReadDelimited? ==> (r.separator == Tab <==> t == TSV)
    ensures t == CSV ==> r.separator == options.csvSeparator
    ensures r == ReadJson <==> t == JSON
    ensures r == ReadProperties <==> t == PROPERTIES
    ensures r == ReadToml <==> t == TOML
    ensures r == ReadYaml <==> t == YAML
  {
    match t
    case CSV => ReadDelimited(options.csvSeparator)
    case TSV => ReadDelimited(Tab)
    case JSON => ReadJson
    case PROPERTIES => ReadProperties
    case TOML => ReadToml
    case YAML => ReadYaml
  }

  /** FileType.writer(options). */
  function WriterFor(t: FileType, options: ConversionOptions): (r: Writer)
    ensures r.HeaderInferring? <==> t == CSV || t == TSV
    ensures r.HeaderInferring? ==> r.separator == ReaderFor(t, options).separator
    ensures r.Fixed? && r.plan.WriteJson? <==> t == JSON
    ensures r.Fixed? && r.plan.WriteProperties? <==> t == PROPERTIES
    ensures r.Fixed? && r.plan.WriteToml? <==> t == TOML
    ensures r.Fixed? && r.plan.WriteYaml? <==> t == YAML
    ensures r.Fixed? && r.plan.WriteJson? ==> r.plan.prettyPrinter == options.pretty
    ensures r.Fixed? && r.plan.WriteProperties? ==> r.plan.sortAlphabetically
    ensures r.Fixed? && r.plan.WriteYaml? ==>
      r.plan.features.indentArrays == r.plan.features.indentArraysWithIndicator == options.indentYaml
      && r.plan.features.minimizeQuotes == options.minimizeYamlQuotes
  {
    match t
    case CSV => HeaderInferring(options.csvSeparator)
    case TSV => HeaderInferring(Tab)
    case JSON => Fixed(WriteJson(options.pretty))
    case PROPERTIES => Fixed(WriteProperties(true))
    case TOML => Fixed(WriteToml)
    case YAML => Fixed(WriteYaml(YamlFeatures(options.indentYaml, options.indentYaml, options.minimizeYamlQuotes)))
  }

  /** One CSV row as the object node Jackson converts it to: string values keyed
      by the header. */
  function RowObject(row: seq<(string, string)>): (r: Node)
    ensures r.Object? && |r.fields| == |row|
    ensures forall j :: 0 <= j < |row| ==> r.fields[j] == (row[j].0, Str(row[j].1))
  {
    Object(seq(|row|, i requires 0 <= i < |row| => (row[i].0, Str(row[i].1))))
  }

  /** The tree the CSV and TSV readers return: one object per row, in order. */
  function RowsTree(rows: seq<seq<(string, string)>>): (r: Node)
    ensures r.Array? && |r.items| == |rows|
    ensures forall i :: 0 <= i < |rows| ==>
      r.items[i].Object? && FieldNames(r.items[i]) == seq(|rows[i]|, j requires 0 <= j < |rows[i]| => rows[i][j].0)
    ensures forall i :: 0 <= i < |rows| ==>
      r.items[i].Object? && |r.items[i].fields| == |rows[i]|
      && forall j :: 0 <= j < |rows[i]| ==> r.items[i].fields[j] == (rows[i][j].0, Str(rows[i][j].1))
  {
    Array(seq(|rows|, i requires 0 <= i < |rows| => RowObject(rows[i])))
  }

  /** The reader's loop over the rows the CSV library yields, adding each to the
      result array. */
  method CollectRows(rows: seq<seq<(string, string)>>) returns (result: Node)
    ensures result == RowsTree(rows)
  {
    var items: seq<Node> := [];
    var i := 0;
    while i < |rows|
      invariant 0 <= i <= |rows|
      invariant items == seq(i, j requires 0 <= j < i => RowObject(rows[j]))
    {
      items := items + [RowObject(rows[i])];
      i := i + 1;
    }
    result := Array(items);
  }

  /** Reads a file through a configured reader. */
  function Read(plan: ReadPlan, file: File, codecs: Codecs): (r: Result<Node, Error>)
    ensures plan.ReadDelimited? ==>
      var rows := codecs.readRows(plan.separator, file);
      && (r.Success? <==> rows.Success?)
      && (r.Failure? ==> r.error == rows.error)
      && (r.Success? ==> r.value == RowsTree(rows.value))
    ensures plan.ReadDelimited? && r.Success? ==>
      r.value.Array? && forall i :: 0 <= i < |r.value.items| ==> r.value.items[i].Object?
    ensures !plan.ReadDelimited? ==> r == codecs.readTree(plan, file)
  {
    match plan
    case ReadDelimited(separator) =>
      (match codecs.readRows(separator, file)
       case Success(rows) => Success(RowsTree(rows))
       case Failure(e) => Failure(e))
    case _ => codecs.readTree(plan, file)
  }

  /** The CSV and TSV writers' header: the field names of the root's first element
      when the root is an array, else of the root itself; an empty array has no
      first element. */
  function CsvHeader(tree: Node): (r: Result<seq<string>, Error>)
    ensures r.Failure? <==> tree == Array([])
    ensures r.Failure? ==> r.error == MalformedInput
    ensures tree.Array? && tree.items != [] ==> r == Success(FieldNames(tree.items[0]))
    ensures !tree.Array? ==> r == Success(FieldNames(tree))
  {
    if tree.Array? then
      if tree.items == [] then Failure(MalformedInput) else Success(FieldNames(tree.items[0]))
    else Success(FieldNames(tree))
  }

  /** Finishes a writer's configuration for the tree it is about to write. */
  function PlanWrite(writer: Writer, tree: Node): (r: Result<WritePlan, Error>)
    ensures r.Failure? <==> writer.HeaderInferring? && tree == Array([])
    ensures r.Failure? ==> r.error == MalformedInput
    ensures writer.Fixed? ==> r == Success(writer.plan)
    ensures writer.HeaderInferring? && r.Success? ==>
      r.value == WriteDelimited(CsvSchema(CsvHeader(tree).value, writer.separator, true, true))
  {
    match writer
    case Fixed(plan) => Success(plan)
    case HeaderInferring(separator) =>
      match CsvHeader(tree)
      case Success(columns) => Success(WriteDelimited(CsvSchema(columns, separator, true, true)))
      case Failure(e) => Failure(e)
  }

  /** Reading CSV and writing it back: the header the writer infers from the tree
      the reader built is the first row's header. */
  lemma CsvHeaderRoundTrip(rows: seq<seq<(string, string)>>)
    requires rows != []
    ensures CsvHeader(RowsTree(rows)) == Success(seq(|rows[0]|, j requires 0 <= j < |rows[0]| => rows[0][j].0))
  {
  }

  /** Re-writing rows read from a delimited file into the same format: the writer's
      schema has the first row's header as its columns, the separator the reader
      used, a header line and every string quoted. */
  lemma DelimitedRewriteSchema(t: FileType, options: ConversionOptions, rows: seq<seq<(string, string)>>)
    requires t == CSV || t == TSV
    requires rows != []
    ensures PlanWrite(WriterFor(t, options), RowsTree(rows)) == Success(WriteDelimited(CsvSchema(
      seq(|rows[0]|, j requires 0 <= j < |rows[0]| => rows[0][j].0),
      ReaderFor(t, options).separator, true, true)))
  {
    CsvHeaderRoundTrip(rows);
  }

  /** For CSV and TSV the reader and the writer use the same separator: the
      options' separator for CSV, a tab for TSV whatever the options say. */
  lemma DelimitedSeparators(t: FileType, options: ConversionOptions)
    requires t == CSV || t == TSV
    ensures ReaderFor(t, options).separator == WriterFor(t, options).separator
    ensures t == TSV ==> ReaderFor(t, options).separator == Tab
    ensures t == CSV ==> ReaderFor(t, options).separator == options.csvSeparator != Tab
  {
    CsvSeparatorNeverTab(options);
  }

  /** Which options each writer consults: JSON only pretty, YAML only indentYaml and
      minimizeYamlQuotes, TSV, Properties and TOML none. */
  lemma WriterOptionsConsulted(a: ConversionOptions, b: ConversionOptions)
    ensures WriterFor(JSON, a) == WriterFor(JSON, b) <==> a.pretty == b.pretty
    ensures WriterFor(YAML, a) == WriterFor(YAML, b) <==>
      a.indentYaml == b.indentYaml && a.minimizeYamlQuotes == b.minimizeYamlQuotes
    ensures WriterFor(TSV, a) == WriterFor(TSV, b)
    ensures WriterFor(PROPERTIES, a) == WriterFor(PROPERTIES, b)
    ensures WriterFor(TOML, a) == WriterFor(TOML, b)
    ensures WriterFor(CSV, a) == WriterFor(CSV, b) <==> a.csvSeparator == b.csvSeparator
  {
  }

  // ---------------------------------------------------------------- pipeline

  /** ConversionUtil.convert: reject null files, resolve the input's and then the
      output's extension, read, deduplicate when asked, then write. */
  function Convert(input: Option<File>, output: Option<File>, options: ConversionOptions,
                   codecs: Codecs): (r: Run<ReadPlan, WritePlan>)
    ensures |r.steps| <= 2
    ensures r.steps == [] ==> r.outcome.Failure?
    ensures r.steps != [] ==> input.Some? && output.Some? && r.steps[0].ReadFile? && r.steps[0].source == input.value
    ensures |r.steps| == 2 ==> r.steps[1].WriteFile? && r.steps[1].target == output.value
    ensures r.outcome.Success? ==> |r.steps| == 2
  {
    if input.None? || output.None? then Run([], Failure(MissingValue))
    else
      match FromFileExtension(Some(FileExtension(input.value.name)))
      case Failure(e) => Run([], Failure(e))
      case Success(inType) =>
        match FromFileExtension(Some(FileExtension(output.value.name)))
        case Failure(e) => Run([], Failure(e))
        case Success(outType) =>
          var reader := ReaderFor(inType, options);
          var readStep := ReadFile(input.value, reader);
          match Read(reader, input.value, codecs)
          case Failure(e) => Run([readStep], Failure(e))
          case Success(data) =>
            var tree := if options.deduplicateKeys then Deduplicated(data) else data;
            match PlanWrite(WriterFor(outType, options), tree)
            case Failure(e) => Run([readStep], Failure(e))
            case Success(plan) =>
              Run([readStep, WriteFile(output.value, plan, tree)], codecs.write(plan, output.value, tree))
  }

  /** A missing input or output file fails before anything else. */
  lemma ConvertRejectsMissingFiles(input: Option<File>, output: Option<File>,
                                   options: ConversionOptions, codecs: Codecs)
    requires input.None? || output.None?
    ensures Convert(input, output, options, codecs) == Run([], Failure(MissingValue))
  {
  }

  /** Both extensions are resolved before the input is read: a resolution failure,
      the input's first, ends the conversion with no I/O at all. */
  lemma ConvertResolvesBeforeReading(input: File, output: File, options: ConversionOptions, codecs: Codecs)
    ensures var inType := FromFileExtension(Some(FileExtension(input.name)));
      var outType := FromFileExtension(Some(FileExtension(output.name)));
      var run := Convert(Some(input), Some(output), options, codecs);
      && (inType.Failure? ==> run == Run([], Failure(inType.error)))
      && (inType.Success? && outType.Failure? ==> run == Run([], Failure(outType.error)))
  {
  }

  /** A conversion whose types resolve reads the input exactly once, through the
      input type's reader. A failed read is the outcome. After a successful read the
      tree is the deduplicated data when the option is set and the data itself
      otherwise; if the output type's writer cannot be configured for that tree the
      conversion ends with that failure, and otherwise it writes the tree once
      through that writer and ends as the write does. */
  lemma ConvertReadsThenWrites(input: File, output: File, options: ConversionOptions, codecs: Codecs)
    requires FromFileExtension(Some(FileExtension(input.name))).Success?
    requires FromFileExtension(Some(FileExtension(output.name))).Success?
    ensures var inType := FromFileExtension(Some(FileExtension(input.name))).value;
      var outType := FromFileExtension(Some(FileExtension(output.name))).value;
      var run := Convert(Some(input), Some(output), options, codecs);
      var readStep := ReadFile(input, ReaderFor(inType, options));
      var data := Read(ReaderFor(inType, options), input, codecs);
      && run.steps != [] && run.steps[0] == readStep
      && (data.Failure? ==> run == Run([readStep], Failure(data.error)))
      && (data.Success? ==>
            var tree := if options.deduplicateKeys then Deduplicated(data.value) else data.value;
            var plan := PlanWrite(WriterFor(outType, options), tree);
            && (plan.Success? ==>
                  run == Run([readStep, WriteFile(output, plan.value, tree)], codecs.write(plan.value, output, tree)))
            && (plan.Failure? ==> run == Run([readStep], Failure(plan.error))))
  {
  }

  /** Writing an empty array as CSV or TSV fails before the output is touched,
      unless deduplication first turned it into an object. */
  lemma ConvertEmptyArrayToDelimited(input: File, output: File, options: ConversionOptions, codecs: Codecs)
    requires FromFileExtension(Some(FileExtension(input.name))).Success?
    requires FromFileExtension(Some(FileExtension(output.name))) in {Success(CSV), Success(TSV)}
    requires Read(ReaderFor(FromFileExtension(Some(FileExtension(input.name))).value, options), input, codecs)
      == Success(Array([]))
    ensures !options.deduplicateKeys ==>
      Convert(Some(input), Some(output), options, codecs)
        == Run([ReadFile(input, ReaderFor(FromFileExtension(Some(FileExtension(input.name))).value, options))],
               Failure(MalformedInput))
    ensures options.deduplicateKeys ==>
      |Convert(Some(input), Some(output), options, codecs).steps| == 2
  {
  }
}
