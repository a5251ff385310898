/** FileUtil: the older registry, which hands out one configured Jackson mapper per
    file type and has no TSV variant, and the older conversion pipeline, which
    never transforms the tree. */
module FileUtil {
  import opened Wrappers
  import opened JavaText
  import opened DocTree
  import opened External
  import Current = ConversionUtil

  datatype FileType = CSV | JSON | PROPERTIES | TOML | YAML

  /** The extensions each variant recognises, all in lower case. */
  function Extensions(t: FileType): (r: set<string>)
    ensures r != {}
    ensures |r| == 2 <==> t == YAML
  {
    match t
    case CSV => {"csv"}
    case JSON => {"json"}
    case PROPERTIES => {"properties"}
    case TOML => {"toml"}
    case YAML => {"yaml", "yml"}
  }

  /** FileType.values(), in declaration order. */
  const Values: seq<FileType> := [CSV, JSON, PROPERTIES, TOML, YAML]

  lemma ValuesComplete(t: FileType)
    ensures t in Values
  {
    match t
    case CSV => assert Values[0] == t;
    case JSON => assert Values[1] == t;
    case PROPERTIES => assert Values[2] == t;
    case TOML => assert Values[3] == t;
    case YAML => assert Values[4] == t;
  }

  /** The mapper each variant supplies. Only the YAML mapper is configured. */
  datatype Mapper = CsvMapper | JsonMapper | JavaPropsMapper | TomlMapper | YamlMapper(features: YamlFeatures)

  /** FileType.supplyMapper().get(): the YAML features are fixed, not taken from
      any option. */
  function SupplyMapper(t: FileType): (m: Mapper)
    ensures m == CsvMapper <==> t == CSV
    ensures m == JsonMapper <==> t == JSON
    ensures m == JavaPropsMapper <==> t == PROPERTIES
    ensures m == TomlMapper <==> t == TOML
    ensures m.YamlMapper? <==> t == YAML
    ensures m.YamlMapper? ==> m.features.indentArrays && m.features.indentArraysWithIndicator && m.features.minimizeQuotes
  {
    match t
    case CSV => CsvMapper
    case JSON => JsonMapper
    case PROPERTIES => JavaPropsMapper
    case TOML => TomlMapper
    case YAML => YamlMapper(YamlFeatures(true, true, true))
  }

  /** FileType.mapperForFileType: a null or blank extension cannot be determined;
      an extension resolves to the mapper of the variant listing it lower-cased. */
  function MapperForFileType(ext: Option<string>): (r: Result<Mapper, Error>)
    ensures r == Failure(InvalidInput(FileTypeUndetermined)) <==> ext.None? || IsBlank(ext.value)
    ensures r.Success? ==> exists t :: ToLowerCase(ext.value) in Extensions(t) && r.value == SupplyMapper(t)
  {
    if ext.None? || IsBlank(ext.value) then Failure(InvalidInput(FileTypeUndetermined))
    else
      match Current.FindType(Values, Extensions, ToLowerCase(ext.value))
      case Some(t) => Success(SupplyMapper(t))
      case None => Failure(UnsupportedFormat(UnsupportedFileType(ext.value)))
  }

  /** Resolution of a present, non-blank extension: it yields a variant's mapper
      exactly when that variant lists the lower-cased extension, and any other
      extension is reported as unsupported with its original spelling. */
  lemma ResolutionExact(ext: string)
    requires !IsBlank(ext)
    ensures forall t :: MapperForFileType(Some(ext)) == Success(SupplyMapper(t)) <==> ToLowerCase(ext) in Extensions(t)
    ensures MapperForFileType(Some(ext)).Failure? ==>
      MapperForFileType(Some(ext)).error == UnsupportedFormat(UnsupportedFileType(ext))
  {
    var lowered := ToLowerCase(ext);
    match Current.FindType(Values, Extensions, lowered)
    case Some(t) =>
      forall s | s != t ensures lowered !in Extensions(s) && SupplyMapper(s) != SupplyMapper(t) { }
    case None =>
      forall t ensures lowered !in Extensions(t) { ValuesComplete(t); }
  }

  /** The variant of the current registry with the same name. */
  function Counterpart(t: FileType): (c: Current.FileType)
    ensures c != Current.TSV && Current.Extensions(c) == Extensions(t)
  {
    match t
    case CSV => Current.CSV
    case JSON => Current.JSON
    case PROPERTIES => Current.PROPERTIES
    case TOML => Current.TOML
    case YAML => Current.YAML
  }

  /** A non-blank extension that no variant lists is unsupported. */
  lemma UnlistedUnsupported(ext: string)
    requires !IsBlank(ext) && forall t :: ToLowerCase(ext) !in Extensions(t)
    ensures MapperForFileType(Some(ext)) == Failure(UnsupportedFormat(UnsupportedFileType(ext)))
  {
  }

  /** The older registry fails on the same extensions as the current one, with
      the same error, and on TSV extensions too, which it does not know. */
  lemma FailsLikeCurrentRegistry(ext: Option<string>)
    ensures Current.FromFileExtension(ext).Failure? ==>
      MapperForFileType(ext) == Failure(Current.FromFileExtension(ext).error)
    ensures Current.FromFileExtension(ext) == Success(Current.TSV) ==>
      MapperForFileType(ext) == Failure(UnsupportedFormat(UnsupportedFileType(ext.value)))
  {
    if ext.Some? && !IsBlank(ext.value) {
      var current := Current.FromFileExtension(ext);
      if current.Failure? || current == Success(Current.TSV) {
        Current.ResolutionExact(ext.value);
        forall t ensures ToLowerCase(ext.value) !in Extensions(t) {
          if current.Success? {
            Current.ExtensionsDisjoint(Current.TSV, Counterpart(t));
          } else {
            assert current != Success(Counterpart(t));
          }
        }
        UnlistedUnsupported(ext.value);
      }
    }
  }

  /** Every extension the older registry resolves, the current one resolves to
      the variant of the same name, and the other way round. */
  lemma ResolvesLikeCurrentRegistry(ext: Option<string>, t: FileType)
    ensures MapperForFileType(ext) == Success(SupplyMapper(t)) <==>
      Current.FromFileExtension(ext) == Success(Counterpart(t))
  {
    if ext.Some? && !IsBlank(ext.value) {
      ResolutionExact(ext.value);
      Current.ResolutionExact(ext.value);
    }
  }

  /** "tsv" is unsupported here, in contrast to the current registry. */
  lemma TsvUnsupported()
    ensures MapperForFileType(Some("tsv")) == Failure(UnsupportedFormat("Unsupported file type! [tsv]"))
  {
    assert !IsWhitespace("tsv"[0]);
    assert ToLowerCase("tsv") == "tsv";
    assert UnsupportedFileType("tsv") == "Unsupported file type! [tsv]";
    forall t ensures "tsv" !in Extensions(t) { }
  }

  /** The older ConversionOptions record: only the separator's presence is checked. */
  datatype ConversionOptions = ConversionOptions(separator: string, pretty: bool)

  function NewOptions(separator: Option<string>, pretty: bool): (r: Result<ConversionOptions, Error>)
    ensures r.Failure? <==> separator.None?
    ensures r.Failure? ==> r.error == MissingValue
    ensures r.Success? ==> r.value == ConversionOptions(separator.value, pretty)
  {
    match separator
    case None => Failure(MissingValue)
    case Some(s) => Success(ConversionOptions(s, pretty))
  }

  /** The writer a mapper yields: the default pretty printer or the plain writer. */
  datatype ObjectWriter = ObjectWriter(mapper: Mapper, prettyPrinter: bool)

  /** The mappers' reading and writing, which this model does not look inside. */
  datatype Mappers = Mappers(
    readTree: (Mapper, File) -> Result<Node, Error>,
    write: (ObjectWriter, File, Node) -> Result<(), Error>)

  /** FileUtil.convert: reject null files, resolve both mappers, read, write. */
  function Convert(input: Option<File>, output: Option<File>, options: ConversionOptions,
                   mappers: Mappers): (r: Run<Mapper, ObjectWriter>)
    ensures |r.steps| <= 2
    ensures r.steps == [] ==> r.outcome.Failure?
    ensures r.steps != [] ==> input.Some? && output.Some? && r.steps[0].ReadFile? && r.steps[0].source == input.value
    ensures |r.steps| == 2 ==> r.steps[1].WriteFile? && r.steps[1].target == output.value
    ensures r.outcome.Success? ==> |r.steps| == 2
  {
    if input.None? || output.None? then Run([], Failure(MissingValue))
    else
      match MapperForFileType(Some(FileExtension(input.value.name)))
      case Failure(e) => Run([], Failure(e))
      case Success(inputMapper) =>
        match MapperForFileType(Some(FileExtension(output.value.name)))
        case Failure(e) => Run([], Failure(e))
        case Success(outputMapper) =>
          var readStep := ReadFile(input.value, inputMapper);
          match mappers.readTree(inputMapper, input.value)
          case Failure(e) => Run([readStep], Failure(e))
          case Success(data) =>
            var writer := ObjectWriter(outputMapper, options.pretty);
            Run([readStep, WriteFile(output.value, writer, data)], mappers.write(writer, output.value, data))
  }

  /** Null files are rejected, and an unresolvable extension, the input's first,
      ends the conversion before any I/O. */
  lemma ConvertResolvesBeforeReading(input: Option<File>, output: Option<File>,
                                     options: ConversionOptions, mappers: Mappers)
    ensures var run := Convert(input, output, options, mappers);
      && (input.None? || output.None? ==> run == Run([], Failure(MissingValue)))
      && (input.Some? && output.Some? ==>
            var inMapper := MapperForFileType(Some(FileExtension(input.value.name)));
            var outMapper := MapperForFileType(Some(FileExtension(output.value.name)));
            && (inMapper.Failure? ==> run == Run([], Failure(inMapper.error)))
            && (inMapper.Success? && outMapper.Failure? ==> run == Run([], Failure(outMapper.error))))
  {
  }

  /** Once both mappers resolve, the input is read once with the input mapper and
      the data read is written unchanged, with the pretty printer exactly when the
      options ask for it. */
  lemma ConvertWritesDataAsRead(input: File, output: File, options: ConversionOptions, mappers: Mappers)
    requires MapperForFileType(Some(FileExtension(input.name))).Success?
    requires MapperForFileType(Some(FileExtension(output.name))).Success?
    ensures var inMapper := MapperForFileType(Some(FileExtension(input.name))).value;
      var outMapper := MapperForFileType(Some(FileExtension(output.name))).value;
      var run := Convert(Some(input), Some(output), options, mappers);
      var data := mappers.readTree(inMapper, input);
      && run.steps[0] == ReadFile(input, inMapper)
      && (data.Failure? ==> run == Run([run.steps[0]], Failure(data.error)))
      && (data.Success? ==>
            && run.steps == [ReadFile(input, inMapper), WriteFile(output, ObjectWriter(outMapper, options.pretty), data.value)]
            && run.outcome == mappers.write(ObjectWriter(outMapper, options.pretty), output, data.value))
  {
  }
}
