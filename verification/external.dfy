/** The boundary with code the converter calls but does not own: files and their
    names, Guava's extension helper, the failures a conversion can end in, and the
    record of the I/O steps a conversion performs through the format libraries. */
module External {
  import opened Wrappers
  import opened DocTree

  /** A java.io.File, reduced to what the converter asks of it: File.getName(). */
  datatype File = File(name: string)

  /** How a conversion can fail. The converter throws these as exceptions; the
      exception classes themselves are not modelled. */
  datatype Error =
    | MissingValue                     // Objects.requireNonNull on a null reference
    | InvalidInput(message: string)    // Preconditions.checkArgument
    | UnsupportedFormat(message: string)
    | MalformedInput                   // no first element to take a CSV header from
    | IOFailure(detail: string)        // raised by the file system or a format library

  const FileTypeUndetermined: string := "File type could not be determined!"

  function UnsupportedFileType(ext: string): string {
    "Unsupported file type! [" + ext + "]"
  }

  /** String.lastIndexOf(char): the position of the last occurrence of c. */
  function LastIndexOf(s: string, c: char): (r: Option<nat>)
    ensures r.Some? ==> r.value < |s| && s[r.value] == c && c !in s[r.value + 1..]
    ensures r.None? ==> c !in s
  {
    if s == [] then None
    else if s[|s| - 1] == c then Some(|s| - 1)
    else
      var r := LastIndexOf(s[..|s| - 1], c);
      assert s == s[..|s| - 1] + [s[|s| - 1]];
      assert r.Some? ==> s[r.value + 1..] == s[..|s| - 1][r.value + 1..] + [s[|s| - 1]];
      r
  }

  /** Guava Files.getFileExtension applied to a file name: the text after the
      last '.', or "" when the name has no '.'. */
  function FileExtension(name: string): (ext: string)
    ensures '.' !in ext
    ensures '.' !in name ==> ext == ""
  {
    match LastIndexOf(name, '.')
    case None => ""
    case Some(i) => name[i + 1..]
  }

  /** The extension of "base.ext" is ext whenever ext holds no '.'. */
  lemma FileExtensionOf(base: string, ext: string)
    requires '.' !in ext
    ensures FileExtension(base + "." + ext) == ext
  {
    var name := base + "." + ext;
    assert name[|base|] == '.';
    assert name[|base| + 1..] == ext;
    var i := LastIndexOf(name, '.').value;
    assert forall j :: i < j < |name| ==> name[j] == name[i + 1..][j - i - 1];
    assert forall j :: |base| < j < |name| ==> name[j] == ext[j - |base| - 1];
  }

  /** One I/O action of a conversion: a read of the source through a configured
      reader, or a write of a tree to the target through a configured writer. */
  datatype IoStep<R, W> =
    | ReadFile(source: File, reader: R)
    | WriteFile(target: File, writer: W, tree: Node)

  /** A finished conversion: the I/O it performed, in order, and how it ended. */
  datatype Run<R, W> = Run(steps: seq<IoStep<R, W>>, outcome: Result<(), Error>)

  /** The YAMLGenerator features the converter sets: INDENT_ARRAYS,
      INDENT_ARRAYS_WITH_INDICATOR and MINIMIZE_QUOTES. */
  datatype YamlFeatures = YamlFeatures(indentArrays: bool, indentArraysWithIndicator: bool, minimizeQuotes: bool)
}
