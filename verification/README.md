# convert — a Dafny model of the conversion engine

`convert` turns a data file of one format into another: JSON, YAML, TOML, CSV, TSV and
Java properties. Each file is read into a format-neutral tree and written out again. The
engine lives in two classes:

- `ConversionUtil` is the current engine. It holds:
  - the `FileType` registry, which maps a file extension to a variant, and each variant's
    reader and writer configuration;
  - the validated `ConversionOptions` record and its fluent `Builder`;
  - the `deduplicateKeys` transform, which turns an array of records into
    `{"keys": [...], "values": [[...], ...]}`;
  - `convert`, which resolves both extensions, reads, optionally deduplicates, and writes.
- `FileUtil` is the older engine. Its registry hands out one Jackson mapper per type and
  has no TSV. Its `convert` writes the data exactly as read.

This project models both classes and proves what they promise.

Files and modules:

| file | module | models |
|---|---|---|
| `wrappers.dfy` | `Wrappers` | `Option` and `Result` |
| `java_text.dfy` | `JavaText` | `Character.isWhitespace`, `Character.isSpaceChar`, `String.isBlank`, `String.toLowerCase(Locale.ENGLISH)` |
| `doc_tree.dfy` | `DocTree` | the tree (`JsonNode`), `fieldNames()` and `get(String)` |
| `external.dfy` | `External` | `File.getName()`, Guava's `Files.getFileExtension`, the failures, the I/O trace of a conversion |
| `deduplicate.dfy` | `Deduplicate` | `ConversionUtil.deduplicateKeys` |
| `conversion_util.dfy` | `ConversionUtil` | the rest of `ConversionUtil` |
| `file_util.dfy` | `FileUtil` | `FileUtil` |

How the model is built:

- **Format libraries.** Jackson (CSV, JSON, Properties, TOML, YAML) and SnakeYAML are not
  modelled inside. They are passed in as the function fields of a `Codecs` (or `Mappers`)
  value.
- **Reader and writer configuration.** Each variant's configuration is a value:
  - a `ReadPlan` for the reader;
  - a `Writer`, which becomes a `WritePlan` once a CSV/TSV writer has found its header in
    the tree.
- **Conversion result.** `Convert` returns a `Run`: the list of I/O steps it performed (read
  the input, write the output) and how it ended. "Fails before any I/O" is then simply
  `steps == []`.
- **Exceptions.** Exceptions become `Failure` values:
  - `requireNonNull` gives `MissingValue`;
  - `checkArgument` gives `InvalidInput` with the source's message;
  - an unknown extension gives `UnsupportedFormat` with the source's message;
  - the CSV writer's `elements().next()` on an empty array gives `MalformedInput`;
  - library and file-system errors are whatever `Failure` the codec function returns.
- **The options record.** `ConversionOptions` is a subset type of the record: its separator
  has passed validation. The `Builder` is a class whose setters update its fields in place.
- **The deduplication loop.** `Deduplicate.DeduplicateKeys` and its loops are methods proved
  against the specification function `Deduplicate.Deduplicated`. The lemmas state what
  `Deduplicated` means.

Where the code behaves differently from what a reader might expect, the model follows the code:

- **Non-object elements.** Deduplication does not fail on an array element that is not an
  object. `get` on such an element returns `null`, so every cell of its row is `Null`.
- **Which element gives the keys.** The keys are taken from the first element that has any
  field, not from the first element. Elements before it get an empty row.
- **Null file references.** A null input or output fails with `requireNonNull`'s
  `NullPointerException` (`MissingValue`), not with an invalid-argument error.
- **CSV/TSV writer on a non-array root.** It takes its header from the root's own field
  names. A scalar root gives an empty header, not an error. Only an empty array fails.
- **Properties writer.** It does not infer a header, so an empty array is handed to the
  library like any other tree.

## Model

| member | source | states |
|---|---|---|
| JavaText.IsSpaceChar | src/main/java/dev/gokhun/convert/ConversionUtil.java:212 | the only ASCII space character is the space itself |
| JavaText.IsWhitespace | src/main/java/dev/gokhun/convert/ConversionUtil.java:212 | the three non-breaking spaces are not whitespace; among ASCII characters exactly space, HT to CR and FS to US are; no letter is |
| JavaText.IsBlank | src/main/java/dev/gokhun/convert/ConversionUtil.java:195 | the empty string is blank; a string starting with a non-whitespace character is not; a blank string holds no no-break space |
| JavaText.ToLowerCase | src/main/java/dev/gokhun/convert/ConversionUtil.java:197 | the result has the same length and no capital A-Z; every other character is kept and each capital becomes its lower-case letter |
| JavaText.LowerCaseKeepsBlankness | src/main/java/dev/gokhun/convert/ConversionUtil.java:194-197 | lower-casing a string never changes whether it is blank, so the blankness check and the lookup see the same kind of string |
| JavaText.LowerCaseKeepsNonAscii | src/main/java/dev/gokhun/convert/ConversionUtil.java:197 | lower-casing keeps the length and leaves every non-ASCII character where it was |
| DocTree.FieldNames | src/main/java/dev/gokhun/convert/ConversionUtil.java:276 | an object's field names are its keys in insertion order, distinct when the tree is well formed; a non-object has none |
| DocTree.FindField | src/main/java/dev/gokhun/convert/ConversionUtil.java:281 | a value is found exactly when some field has the key, and the value found is one stored under that key |
| DocTree.Get | src/main/java/dev/gokhun/convert/ConversionUtil.java:281 | `get(key)` yields a value exactly when the key is among the node's field names, and the value is the one stored under that key; non-objects have none |
| DocTree.FindFieldAt | src/main/java/dev/gokhun/convert/ConversionUtil.java:281 | in an object with distinct keys, looking up the i-th key gives the i-th value |
| DocTree.GetWellFormed | src/main/java/dev/gokhun/convert/ConversionUtil.java:281 | a value looked up in a tree with distinct keys has distinct keys too |
| External.LastIndexOf | src/main/java/dev/gokhun/convert/ConversionUtil.java:294-295 | the index returned holds the character and no later position does; no index means the character does not occur |
| External.FileExtension | src/main/java/dev/gokhun/convert/ConversionUtil.java:294-295 | the extension of a file name never contains a dot, and a name without a dot has the empty extension |
| External.FileExtensionOf | src/main/java/dev/gokhun/convert/ConversionUtil.java:294-295 | the extension of `base.ext` is `ext` for every `base`, dots included, when `ext` has no dot |
| ConversionUtil.Extensions | src/main/java/dev/gokhun/convert/ConversionUtil.java:47-187 | every variant recognises at least one extension, and only YAML recognises two |
| ConversionUtil.ValuesComplete | src/main/java/dev/gokhun/convert/ConversionUtil.java:196 | `values()` lists every variant, so the lookup considers all six |
| ConversionUtil.ExtensionsDisjoint | src/main/java/dev/gokhun/convert/ConversionUtil.java:47-181 | no extension belongs to two variants, so `findAny` has at most one candidate |
| ConversionUtil.ExtensionsAscii | src/main/java/dev/gokhun/convert/ConversionUtil.java:47-181 | every recognised extension is a non-empty word of lower-case ASCII letters |
| ConversionUtil.FindType | src/main/java/dev/gokhun/convert/ConversionUtil.java:196-198 | a variant found is in the list and lists the extension; none found means no variant in the list does (shared by both registries) |
| ConversionUtil.FromFileExtension | src/main/java/dev/gokhun/convert/ConversionUtil.java:193-201 | the "could not be determined" failure occurs exactly for a null or blank extension; a resolved variant lists the lower-cased extension |
| ConversionUtil.ResolutionExact | src/main/java/dev/gokhun/convert/ConversionUtil.java:193-201 | a non-blank extension resolves to variant t exactly when t lists it lower-cased; otherwise the failure is "Unsupported file type! [ext]" with the original spelling |
| ConversionUtil.ResolutionIgnoresCase | src/main/java/dev/gokhun/convert/ConversionUtil.java:197 | two spellings that lower-case alike both fail or both resolve to the same variant |
| ConversionUtil.NonAsciiUnsupported | src/main/java/dev/gokhun/convert/ConversionUtil.java:197-200 | a non-blank extension holding a non-ASCII character is always unsupported |
| ConversionUtil.ResolvesTo | src/main/java/dev/gokhun/convert/ConversionUtil.java:196-198 | a spelling whose lower-cased form a variant lists resolves to that variant |
| ConversionUtil.Unsupported | src/main/java/dev/gokhun/convert/ConversionUtil.java:199-200 | a non-blank spelling whose lower-cased form no variant lists fails with the unsupported message quoting the spelling as given |
| ConversionUtil.MixedCaseResolves | src/test/java/dev/gokhun/convert/ConversionUtilTest.java:58 | "JsOn" resolves to JSON |
| ConversionUtil.ShortYamlResolves | src/test/java/dev/gokhun/convert/ConversionUtilTest.java:61 | "YML" resolves to YAML |
| ConversionUtil.UndeterminedSpellings | src/test/java/dev/gokhun/convert/ConversionUtilTest.java:65-69 | null, "" and "   " fail with "File type could not be determined!" |
| ConversionUtil.DottedExtensionUnsupported | src/test/java/dev/gokhun/convert/ConversionUtilTest.java:71 | ".csv" fails with "Unsupported file type! [.csv]" |
| ConversionUtil.DottedCapitalIUnsupported | src/test/java/dev/gokhun/convert/ConversionUtilTest.java:73-74 | "PROPERTİES" (capital I with dot above) fails with the unsupported message quoting it |
| ConversionUtil.DottedCapitalISpelling | src/test/java/dev/gokhun/convert/ConversionUtilTest.java:73-74 | "PROPERTİES" is not blank, holds a non-ASCII character at index 7, and the unsupported message quotes it as given |
| ConversionUtil.NewOptions | src/main/java/dev/gokhun/convert/ConversionUtil.java:204-214 | construction succeeds exactly when the separator is neither whitespace nor a space character, then keeps all five fields; otherwise it fails with "CSV separator can not be blank or whitespace!" |
| ConversionUtil.SeparatorExamples | src/test/java/dev/gokhun/convert/ConversionUtilTest.java:45-53 | CR and FF (the test's two constants), space, tab, no-break space and line separator are rejected; comma, semicolon and NUL are accepted |
| ConversionUtil.CsvSeparatorNeverTab | src/main/java/dev/gokhun/convert/ConversionUtil.java:210-213 | no valid options carry a tab separator |
| ConversionUtil.Builder.constructor | src/main/java/dev/gokhun/convert/ConversionUtil.java:216-227 | a new builder holds the Java defaults: NUL separator, every flag false |
| ConversionUtil.Builder.SetCsvSeparator | src/main/java/dev/gokhun/convert/ConversionUtil.java:229-232 | sets only the separator field and returns the same builder |
| ConversionUtil.Builder.SetPretty | src/main/java/dev/gokhun/convert/ConversionUtil.java:234-237 | sets only the pretty field and returns the same builder |
| ConversionUtil.Builder.SetIndentYaml | src/main/java/dev/gokhun/convert/ConversionUtil.java:239-242 | sets only the indentYaml field and returns the same builder |
| ConversionUtil.Builder.SetMinimizeYamlQuotes | src/main/java/dev/gokhun/convert/ConversionUtil.java:244-247 | sets only the minimizeYamlQuotes field and returns the same builder |
| ConversionUtil.Builder.SetDeduplicateKeys | src/main/java/dev/gokhun/convert/ConversionUtil.java:249-252 | sets only the deduplicateKeys field and returns the same builder |
| ConversionUtil.Builder.Build | src/main/java/dev/gokhun/convert/ConversionUtil.java:254-261 | succeeds exactly when the builder's separator is valid, with the builder's five fields; otherwise the separator message |
| ConversionUtil.BuildWithSeparator | src/test/java/dev/gokhun/convert/ConversionUtilTest.java:49-50 | `builder().setCsvSeparator(c).build()` succeeds exactly for a valid c, with every other field at its default |
| ConversionUtil.ReaderFor | src/main/java/dev/gokhun/convert/ConversionUtil.java:47-170 | CSV and TSV read delimited rows, with the options' separator for CSV and a tab for TSV; JSON, Properties, TOML and YAML each use their own library reader |
| ConversionUtil.WriterFor | src/main/java/dev/gokhun/convert/ConversionUtil.java:68-180 | CSV and TSV writers infer their header and use the same separator as their reader; JSON pretty-prints exactly when asked, Properties sorts alphabetically, YAML sets both array-indent features from `indentYaml` and quote minimising from `minimizeYamlQuotes` |
| ConversionUtil.RowObject | src/main/java/dev/gokhun/convert/ConversionUtil.java:62 | a row becomes an object with one field per column, in order: the header name with the cell as a string value |
| ConversionUtil.RowsTree | src/main/java/dev/gokhun/convert/ConversionUtil.java:59-64 | the CSV reader's tree is an array with one object per row, in order, whose fields are that row's header names with its cells as string values |
| ConversionUtil.CollectRows | src/main/java/dev/gokhun/convert/ConversionUtil.java:54-65 | the reader's loop builds exactly that tree |
| ConversionUtil.Read | src/main/java/dev/gokhun/convert/ConversionUtil.java:53-66 | a delimited read fails exactly when reading the rows fails, with that error, and otherwise yields the array of one object per row; any other reader is the library's result |
| ConversionUtil.CsvHeader | src/main/java/dev/gokhun/convert/ConversionUtil.java:72-73 | the header is the first element's field names for a non-empty array and the root's own otherwise; it fails exactly on the empty array |
| ConversionUtil.PlanWrite | src/main/java/dev/gokhun/convert/ConversionUtil.java:69-81 | a header-inferring writer fails exactly on the empty array, with a malformed-input error, and otherwise writes with the inferred header, its separator, a header line and quoted strings; every other writer plans its fixed configuration |
| ConversionUtil.CsvHeaderRoundTrip | src/main/java/dev/gokhun/convert/ConversionUtil.java:53-82 | on a tree the CSV reader built, the writer's header is the first row's header |
| ConversionUtil.DelimitedRewriteSchema | src/main/java/dev/gokhun/convert/ConversionUtil.java:69-82 | re-writing read rows to CSV/TSV uses the first row's header as columns, the reader's separator, a header line and quoted strings |
| ConversionUtil.DelimitedSeparators | src/main/java/dev/gokhun/convert/ConversionUtil.java:84-119 | CSV and TSV read and write with the same separator: the options' for CSV, which is never a tab, and always a tab for TSV |
| ConversionUtil.WriterOptionsConsulted | src/main/java/dev/gokhun/convert/ConversionUtil.java:129-180 | the JSON writer depends on exactly `pretty`, YAML on exactly `indentYaml` and `minimizeYamlQuotes`, CSV on exactly the separator, and TSV, Properties and TOML on no option |
| ConversionUtil.Convert | src/main/java/dev/gokhun/convert/ConversionUtil.java:290-299 | a conversion does at most two I/O steps: first a read of the input, then a write of the output; no step happens without both files, and success means both happened |
| ConversionUtil.ConvertRejectsMissingFiles | src/main/java/dev/gokhun/convert/ConversionUtil.java:290-292 | a null input or output fails with no I/O |
| ConversionUtil.ConvertResolvesBeforeReading | src/main/java/dev/gokhun/convert/ConversionUtil.java:294-297 | a resolution failure, the input's first and then the output's, ends the conversion with that failure and no I/O |
| ConversionUtil.ConvertReadsThenWrites | src/main/java/dev/gokhun/convert/ConversionUtil.java:294-298 | once both types resolve, the input is read once through its type's reader, and a read failure is the result; otherwise, when the writer can be configured for the data, exactly one write follows, of the deduplicated tree exactly when the option is set, and its result is the outcome; when it cannot, that failure is the outcome and nothing is written |
| ConversionUtil.ConvertEmptyArrayToDelimited | src/main/java/dev/gokhun/convert/ConversionUtil.java:290-299 | an empty array written to CSV or TSV ends the run after the read with a malformed-input failure and no write, unless deduplication first made it an object, which is then written |
| Deduplicate.FirstKeyed | src/main/java/dev/gokhun/convert/ConversionUtil.java:273-279 | every element before the returned index has no field names, and the element at it has some |
| Deduplicate.KeysFor | src/main/java/dev/gokhun/convert/ConversionUtil.java:275-279 | the keys are empty exactly when no element has a field name, and otherwise are the field names of the first element that has some |
| Deduplicate.Cell | src/main/java/dev/gokhun/convert/ConversionUtil.java:281 | a cell holds the element's value under the key when the element has that key, and Null otherwise |
| Deduplicate.Row | src/main/java/dev/gokhun/convert/ConversionUtil.java:281 | a row has one cell per key, in key order |
| Deduplicate.Rows | src/main/java/dev/gokhun/convert/ConversionUtil.java:273-282 | there is one row per element; rows before the first element with fields are empty and every later row is the element's row over the keys |
| Deduplicate.Deduplicated | src/main/java/dev/gokhun/convert/ConversionUtil.java:265-287 | a non-array is returned unchanged; an array becomes an object whose field names are exactly "keys" and "values" |
| Deduplicate.DeduplicateKeys | src/main/java/dev/gokhun/convert/ConversionUtil.java:265-287 | the source's loop computes exactly the transform `Deduplicated` |
| Deduplicate.ScanElements | src/main/java/dev/gokhun/convert/ConversionUtil.java:273-282 | the element loop ends with the keys of the first element with fields and one row per element |
| Deduplicate.KeysStep | src/main/java/dev/gokhun/convert/ConversionUtil.java:275-279 | filling the keys only while they are empty gives, after each element, the keys of the first element with fields seen so far |
| Deduplicate.RowsStep | src/main/java/dev/gokhun/convert/ConversionUtil.java:280-281 | each element appends its row over the keys in use at that point |
| Deduplicate.ScanStep | src/main/java/dev/gokhun/convert/ConversionUtil.java:273-282 | one pass of the element loop, filling the keys if still empty and appending the element's row, keeps both the keys-so-far and the rows-so-far invariants |
| Deduplicate.FillRow | src/main/java/dev/gokhun/convert/ConversionUtil.java:281 | the per-key loop builds the element's row: its value for each key in key order, Null where absent |
| Deduplicate.DeduplicatedIdempotent | src/main/java/dev/gokhun/convert/ConversionUtil.java:265-287 | applying the transform to its own output changes nothing |
| Deduplicate.DeduplicatedEmpty | src/main/java/dev/gokhun/convert/ConversionUtil.java:267-272 | an empty array becomes {"keys": [], "values": []} |
| Deduplicate.DeduplicatedCells | src/main/java/dev/gokhun/convert/ConversionUtil.java:270-282 | the keys are those of the first element with fields; there is one row per element; rows before it are empty; each later row has one cell per key, holding the element's value or Null when absent |
| Deduplicate.KeysFixedByFirstKeyed | src/main/java/dev/gokhun/convert/ConversionUtil.java:275 | once an element with fields is present, appending more elements never changes the keys |
| Deduplicate.DeduplicatedWellFormed | src/main/java/dev/gokhun/convert/ConversionUtil.java:265-287 | a tree whose objects have distinct keys keeps that property under the transform |
| Deduplicate.RowOfOwnKeys | src/main/java/dev/gokhun/convert/ConversionUtil.java:281 | an object's row over its own keys is its values in order |
| Deduplicate.HomogeneousRows | src/main/java/dev/gokhun/convert/ConversionUtil.java:265-287 | for a non-empty array of objects with the same non-empty keys, the result is those keys and each object's values, in order |
| Deduplicate.RecordXY | src/main/java/dev/gokhun/convert/ConversionUtil.java:276 | the record {"x": p, "y": q} has distinct keys x then y and values p then q |
| Deduplicate.TwoRecordsShape | src/main/java/dev/gokhun/convert/ConversionUtil.java:265-287 | the two example records reduce to the keys x, y and each record's values as its row |
| Deduplicate.TwoRecordsValues | src/main/java/dev/gokhun/convert/ConversionUtil.java:280-281 | the rows of the two example records are [1, 2] and [3, 4] |
| Deduplicate.TwoRecordsExample | src/main/java/dev/gokhun/convert/ConversionUtil.java:265-287 | [{"x":1,"y":2},{"x":3,"y":4}] becomes {"keys":["x","y"],"values":[[1,2],[3,4]]} |
| FileUtil.Extensions | src/main/java/dev/gokhun/convert/FileUtil.java:26-67 | every older variant recognises at least one extension, and only YAML recognises two |
| FileUtil.ValuesComplete | src/main/java/dev/gokhun/convert/FileUtil.java:75 | `values()` lists every one of the five variants |
| FileUtil.SupplyMapper | src/main/java/dev/gokhun/convert/FileUtil.java:27-60 | each variant supplies its own kind of mapper and no other variant supplies it; the YAML mapper has array indenting, indicator indenting and quote minimising all switched on |
| FileUtil.MapperForFileType | src/main/java/dev/gokhun/convert/FileUtil.java:71-85 | the "could not be determined" failure occurs exactly for a null or blank extension; a mapper returned is that of a variant listing the lower-cased extension |
| FileUtil.ResolutionExact | src/main/java/dev/gokhun/convert/FileUtil.java:71-85 | a non-blank extension yields variant t's mapper exactly when t lists it lower-cased; otherwise the unsupported message with the original spelling |
| FileUtil.Counterpart | src/main/java/dev/gokhun/convert/FileUtil.java:26-61 | every older variant has a current variant, other than TSV, with the same extensions |
| FileUtil.UnlistedUnsupported | src/main/java/dev/gokhun/convert/FileUtil.java:78-82 | a non-blank extension no variant lists fails with the unsupported message |
| FileUtil.FailsLikeCurrentRegistry | src/main/java/dev/gokhun/convert/FileUtil.java:71-85 | every extension the current registry rejects, the older one rejects with the same error, and it also rejects TSV's |
| FileUtil.ResolvesLikeCurrentRegistry | src/main/java/dev/gokhun/convert/FileUtil.java:71-85 | an extension yields a variant's mapper exactly when the current registry resolves it to the variant of the same name |
| FileUtil.TsvUnsupported | src/main/java/dev/gokhun/convert/FileUtil.java:26-61 | "tsv" fails with "Unsupported file type! [tsv]" |
| FileUtil.NewOptions | src/main/java/dev/gokhun/convert/FileUtil.java:88-92 | construction fails exactly on a null separator, and otherwise keeps both fields |
| FileUtil.Convert | src/main/java/dev/gokhun/convert/FileUtil.java:95-109 | a conversion does at most two I/O steps: first a read of the input, then a write of the output; no step happens without both files, and success means both happened |
| FileUtil.ConvertResolvesBeforeReading | src/main/java/dev/gokhun/convert/FileUtil.java:95-100 | a null file or a resolution failure, the input's first, ends the conversion with no I/O |
| FileUtil.ConvertWritesDataAsRead | src/main/java/dev/gokhun/convert/FileUtil.java:99-108 | once both mappers resolve, the input is read once with its mapper, and the data read is written unchanged through the output mapper, pretty exactly when asked |

## Left out

- Parsing and serialising are not modelled. That covers Jackson for CSV, JSON, Properties,
  TOML and YAML, and SnakeYAML for YAML input. They are parameters: `Codecs` and `Mappers`.
  - So a round trip through two formats (A to B to A) cannot be stated.
  - What the model does fix is each format's configuration:
    - the CSV/TSV schema, with header, separator and quoting of all strings;
    - JSON pretty printing;
    - alphabetical sorting of properties;
    - the three YAML generator features.
  - The model also fixes the order and number of reads and writes.
- The shared static mappers are not modelled as objects.
  - The current YAML writer reconfigures its shared mapper on every write. The model takes
    the three features as part of the write plan. Every write sets all three, so no
    setting carries over between conversions.
  - Concurrent use of the shared mapper is not modelled.
- Files are reduced to their names. File handles and their closing are not modelled, for
  example the YAML reader's unclosed `FileInputStream`. Partial writes are not modelled
  either.
- JavaText.ToLowerCase: only the ASCII letters are lower-cased, whereas `Locale.ENGLISH`
  also lower-cases non-ASCII letters. Resolution is unaffected:
  - every recognised extension is ASCII;
  - every non-ASCII character except the Kelvin sign lower-cases to a non-ASCII string;
  - the Kelvin sign becomes `k`, which no extension contains.
- Java `char` is a UTF-16 code unit. Dafny's `char` is a Unicode scalar value, so a lone
  surrogate as a CSV separator cannot be expressed. In the other direction, a
  supplementary-plane separator such as U+1F600 passes `NewOptions` although no Java
  `char` can hold it.
- Numbers in the tree are integers. Floating-point values and their precision are not
  modelled.
- A null `options` argument to `convert` is not modelled; the options are always present.
- The older `ConversionOptions.separator` is kept as a field but never read, because the
  older `convert` never reads it.
- Exception classes are not modelled; only the failure kind and message are. An
  `IOException` is whatever `Failure` the codec function returns.
- The command-line layer is not part of this model: `App`, `Convert` and their option
  defaults.
