/** Homework_9 `XMLFileProcessor`: an XML job file whose root holds `record` elements;
    each record names an input text in an `input_file` child and optionally the two
    report paths. The file is consumed (removed) only when every record went through
    without an exception. The parsed tree is given as a value: `ET.parse` itself is not
    modelled. */
module XmlIngest {
  import opened WinPath
  import opened Engine
  import opened Wrappers

  /** An element: its tag, its text (absent for an empty element) and its children. */
  datatype Element = Element(tag: string, text: Option<string>, children: seq<Element>)

  /** `element.findall('./tag')`: the direct children with that tag, in document order. */
  function FindAll(children: seq<Element>, tag: string): (r: seq<Element>)
    ensures forall e :: e in r <==> e in children && e.tag == tag
    ensures |r| <= |children|
  {
    if children == [] then []
    else (if children[0].tag == tag then [children[0]] else []) + FindAll(children[1..], tag)
  }

  /** `element.find(tag)`: the first direct child with that tag. */
  function Find(children: seq<Element>, tag: string): (r: Option<Element>)
    ensures r.Some? <==> exists e :: e in children && e.tag == tag
    ensures r.Some? ==> r.value in children && r.value.tag == tag
  {
    if children == [] then None
    else if children[0].tag == tag then Some(children[0])
    else Find(children[1..], tag)
  }

  /** The text of an element used as a path: `None` is not a string. */
  function TextPath(text: Option<string>): PathValue {
    if text.Some? then PathText(text.value) else NotText
  }

  const XmlInputFile: Path := InDefaultFolder("input.xml")
  const WordCountCsvPath: Path := InDefaultFolder("word-count.csv")
  const LetterCountCsvPath: Path := InDefaultFolder("letter-count.csv")

  /** A report path: the child's text when the child exists, else the default. */
  function OutputPath(record: Element, tag: string, default: Path): (p: PathValue)
    ensures Find(record.children, tag).None? ==> p == PathText(default)
    ensures Find(record.children, tag).Some? ==> p == TextPath(Find(record.children, tag).value.text)
  {
    var e := Find(record.children, tag);
    if e.Some? then TextPath(e.value.text) else PathText(default)
  }

  datatype RecordResult = Skipped | Ran(outcome: Outcome) | Failed

  predicate Raises(r: RecordResult) {
    r.Failed? || (r.Ran? && r.outcome.Raised?)
  }

  /** The effect of `process_record(record)` on the file system. */
  ghost function RecordEffect(fs: FileSystem, record: Element): (FileSystem, RecordResult) {
    var inputElement := Find(record.children, "input_file");
    if inputElement.None? then (fs, Failed)
    else
      var inputFile := inputElement.value.text;
      if inputFile.None? || inputFile.value == "" then (fs, Skipped)
      else
        var r := Recreated(fs, ResolveInput(inputFile.value),
                           OutputPath(record, "word_count_csv", WordCountCsvPath),
                           OutputPath(record, "letter_count_csv", LetterCountCsvPath));
        (r.0, Ran(r.1))
  }

  /** `process_record(record)`: the optional paths are looked up before the emptiness
      test on `input_file`. */
  method ProcessRecord(fs: FileSystem, record: Element) returns (fs': FileSystem, result: RecordResult)
    ensures (fs', result) == RecordEffect(fs, record)
  {
    var inputElement := Find(record.children, "input_file");
    if inputElement.None? {
      return fs, Failed;
    }
    var inputFile := inputElement.value.text;
    var wordCountCsv := OutputPath(record, "word_count_csv", WordCountCsvPath);
    var letterCountCsv := OutputPath(record, "letter_count_csv", LetterCountCsvPath);
    if inputFile.None? || inputFile.value == "" {
      return fs, Skipped;
    }
    var inputFilePath := if IsAbs(inputFile.value) then inputFile.value else JoinDefault(inputFile.value);
    var outcome;
    fs', outcome := RecreateCsvFiles(fs, inputFilePath, wordCountCsv, letterCountCsv);
    result := Ran(outcome);
  }

  ghost function RunRecords(fs: FileSystem, records: seq<Element>): (FileSystem, bool)
    decreases |records|
  {
    if records == [] then (fs, true)
    else
      var step := RecordEffect(fs, records[0]);
      if Raises(step.1) then (step.0, false) else RunRecords(step.0, records[1..])
  }

  datatype FileOutcome =
    | FolderCrash     // `os.makedirs("")` raised outside the `try`
    | FileMissing
    | ParseError
    | NoRecords       // the root has no `record` child
    | Aborted         // a record raised; the exception was caught and reported
    | Consumed        // every record went through and the file was removed

  /** The effect of `process_file()`; `parsed` is the root `ET.parse` makes of the file,
      `None` when it raises. */
  ghost function FileEffect(fs: FileSystem, filePath: Path, parsed: Option<Element>): (r: (FileSystem, FileOutcome))
    ensures !HasDirectoryPart(filePath) || filePath !in fs || parsed.None? ==> r.0 == fs
    ensures filePath !in fs && HasDirectoryPart(filePath) ==> r.1 == FileMissing
  {
    if !HasDirectoryPart(filePath) then (fs, FolderCrash)
    else if filePath !in fs then (fs, FileMissing)
    else if parsed.None? then (fs, ParseError)
    else
      var records := FindAll(parsed.value.children, "record");
      if records == [] then (fs, NoRecords)
      else
        var run := RunRecords(fs, records);
        if run.1 then (run.0 - {filePath}, Consumed) else (run.0, Aborted)
  }

  /** `XMLFileProcessor(file_path)` */
  class XmlFileProcessor {
    const filePath: Path

    constructor(filePath: Path)
      ensures this.filePath == (if filePath != "" then filePath else XmlInputFile)
    {
      this.filePath := if filePath != "" then filePath else XmlInputFile;
    }

    /** `process_file()` */
    method ProcessFile(fs: FileSystem, parsed: Option<Element>) returns (fs': FileSystem, outcome: FileOutcome)
      ensures (fs', outcome) == FileEffect(fs, filePath, parsed)
    {
      if !HasDirectoryPart(filePath) {
        return fs, FolderCrash;
      }
      if filePath !in fs {
        return fs, FileMissing;
      }
      if parsed.None? {
        return fs, ParseError;
      }
      var records := FindAll(parsed.value.children, "record");
      if records == [] {
        return fs, NoRecords;
      }
      fs' := fs;
      for i := 0 to |records|
        invariant RunRecords(fs, records) == RunRecords(fs', records[i..])
      {
        assert records[i..][1..] == records[i + 1..];
        var result;
        fs', result := ProcessRecord(fs', records[i]);
        if Raises(result) {
          return fs', Aborted;
        }
      }
      fs' := fs' - {filePath};
      outcome := Consumed;
    }
  }

  lemma {:induction false} RunKeepsFiles(fs: FileSystem, records: seq<Element>)
    ensures forall p :: p in fs ==> p in RunRecords(fs, records).0
    decreases |records|
  {
    if records != [] {
      RunKeepsFiles(RecordEffect(fs, records[0]).0, records[1..]);
    }
  }

  /** The job file is removed exactly when every record went through; in every other
      outcome an existing job file is kept. */
  lemma FileRemovedOnlyWhenConsumed(fs: FileSystem, filePath: Path, parsed: Option<Element>)
    ensures var r := FileEffect(fs, filePath, parsed);
      (r.1 == Consumed ==> filePath !in r.0)
      && (r.1 != Consumed && filePath in fs ==> filePath in r.0)
  {
    if HasDirectoryPart(filePath) && filePath in fs && parsed.Some? {
      RunKeepsFiles(fs, FindAll(parsed.value.children, "record"));
    }
  }

  lemma {:induction false} RunInOrder(fs: FileSystem, a: seq<Element>, b: seq<Element>)
    ensures RunRecords(fs, a + b)
         == (var ra := RunRecords(fs, a); if ra.1 then RunRecords(ra.0, b) else ra)
    decreases |a|
  {
    if a == [] {
      assert a + b == b;
    } else {
      assert (a + b)[0] == a[0];
      assert (a + b)[1..] == a[1..] + b;
      RunInOrder(RecordEffect(fs, a[0]).0, a[1..], b);
    }
  }

  /** A record whose `input_file` element has no text is skipped and the loop goes on. */
  lemma EmptyInputSkipped(fs: FileSystem, record: Element, rest: seq<Element>)
    requires Find(record.children, "input_file").Some?
    requires Find(record.children, "input_file").value.text in {None, Some("")}
    ensures RunRecords(fs, [record] + rest) == RunRecords(fs, rest)
  {
    assert ([record] + rest)[1..] == rest;
  }

  /** A record without an `input_file` element raises: the records after it are not
      processed and the job file stays. */
  lemma MissingInputElementAborts(fs: FileSystem, filePath: Path, root: Element,
                                  done: seq<Element>, bad: Element, rest: seq<Element>)
    requires HasDirectoryPart(filePath) && filePath in fs
    requires FindAll(root.children, "record") == done + [bad] + rest
    requires forall e :: e in bad.children ==> e.tag != "input_file"
    requires RunRecords(fs, done).1
    ensures var r := FileEffect(fs, filePath, Some(root));
      r == (RunRecords(fs, done).0, Aborted) && filePath in r.0
  {
    var ra := RunRecords(fs, done);
    RunInOrder(fs, done, [bad] + rest);
    Regroup(done, bad, rest);
    MissingInputRaises(ra.0, bad, rest);
    RunKeepsFiles(fs, done);
  }

  lemma Regroup<T>(a: seq<T>, x: T, b: seq<T>)
    ensures a + [x] + b == a + ([x] + b)
  {
  }

  lemma MissingInputRaises(fs: FileSystem, bad: Element, rest: seq<Element>)
    requires forall e :: e in bad.children ==> e.tag != "input_file"
    ensures RunRecords(fs, [bad] + rest) == (fs, false)
  {
    assert Find(bad.children, "input_file").None?;
    assert ([bad] + rest)[0] == bad;
  }

  /** A root without `record` children reports an error and changes nothing. */
  lemma NoRecordsKeepsFile(fs: FileSystem, filePath: Path, root: Element)
    requires HasDirectoryPart(filePath) && filePath in fs
    requires forall e :: e in root.children ==> e.tag != "record"
    ensures FileEffect(fs, filePath, Some(root)) == (fs, NoRecords)
  {
    var rs := FindAll(root.children, "record");
    assert forall e :: e !in rs;
  }
}
