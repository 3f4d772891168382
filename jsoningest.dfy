/** Homework_8 `JSONFileProcessor`: a JSON job file holding one record or a list of
    records; each record names an input text and optionally the two report paths. The
    file is consumed (removed) only when every record went through without an exception.
    The parsed document is given as a value: `json.load` itself is not modelled. */
module JsonIngest {
  import opened WinPath
  import opened Engine
  import opened Wrappers

  datatype Json =
    | JNull
    | JBool(b: bool)
    | JInt(i: int)
    | JReal(r: real)
    | JStr(s: string)
    | JArray(items: seq<Json>)
    | JObject(fields: map<string, Json>)

  /** Python truthiness of a decoded JSON value. */
  predicate Truthy(j: Json) {
    match j
    case JNull => false
    case JBool(b) => b
    case JInt(i) => i != 0
    case JReal(r) => r != 0.0
    case JStr(s) => s != ""
    case JArray(items) => items != []
    case JObject(fields) => fields != map[]
  }

  /** `d.get(key, default)` */
  function GetOr(fields: map<string, Json>, key: string, default: Json): Json {
    if key in fields then fields[key] else default
  }

  /** A JSON value used as a path. */
  function AsPath(j: Json): PathValue {
    if j.JStr? then PathText(j.s) else NotText
  }

  const JsonInputFile: Path := InDefaultFolder("input.json")
  const WordCountCsvPath: Path := InDefaultFolder("word-count.csv")
  const LetterCountCsvPath: Path := InDefaultFolder("letter-count.csv")

  /** What one record does: skipped, run through the engine, or failed with an
      exception before reaching it. */
  datatype RecordResult = Skipped | Ran(outcome: Outcome) | Failed

  /** Whether the record's processing ends in an exception, which aborts the loop. */
  predicate Raises(r: RecordResult) {
    r.Failed? || (r.Ran? && r.outcome.Raised?)
  }

  /** The report paths of a record: the key's value when present, else the default. */
  function OutputPaths(fields: map<string, Json>): (paths: (PathValue, PathValue))
    ensures "word_count_csv" !in fields ==> paths.0 == PathText(WordCountCsvPath)
    ensures "word_count_csv" in fields ==> paths.0 == AsPath(fields["word_count_csv"])
    ensures "letter_count_csv" !in fields ==> paths.1 == PathText(LetterCountCsvPath)
    ensures "letter_count_csv" in fields ==> paths.1 == AsPath(fields["letter_count_csv"])
  {
    (AsPath(GetOr(fields, "word_count_csv", JStr(WordCountCsvPath))),
     AsPath(GetOr(fields, "letter_count_csv", JStr(LetterCountCsvPath))))
  }

  /** The effect of `process_record(record)` on the file system. */
  ghost function RecordEffect(fs: FileSystem, record: Json): (FileSystem, RecordResult) {
    if !record.JObject? then (fs, Failed)
    else
      var inputFile := GetOr(record.fields, "input_file", JStr(""));
      if !Truthy(inputFile) then (fs, Skipped)
      else if !inputFile.JStr? then (fs, Failed)
      else
        var paths := OutputPaths(record.fields);
        var r := Recreated(fs, ResolveInput(inputFile.s), paths.0, paths.1);
        (r.0, Ran(r.1))
  }

  /** `process_record(record)` */
  method ProcessRecord(fs: FileSystem, record: Json) returns (fs': FileSystem, result: RecordResult)
    ensures (fs', result) == RecordEffect(fs, record)
  {
    if !record.JObject? {
      return fs, Failed;
    }
    var inputFile := GetOr(record.fields, "input_file", JStr(""));
    if !Truthy(inputFile) {
      return fs, Skipped;
    }
    if !inputFile.JStr? {
      return fs, Failed;
    }
    var inputFilePath := if IsAbs(inputFile.s) then inputFile.s else JoinDefault(inputFile.s);
    var wordCountCsv := AsPath(GetOr(record.fields, "word_count_csv", JStr(WordCountCsvPath)));
    var letterCountCsv := AsPath(GetOr(record.fields, "letter_count_csv", JStr(LetterCountCsvPath)));
    var outcome;
    fs', outcome := RecreateCsvFiles(fs, inputFilePath, wordCountCsv, letterCountCsv);
    result := Ran(outcome);
  }

  /** The records processed in order until one raises: the final file system, and
      whether every record went through. */
  ghost function RunRecords(fs: FileSystem, records: seq<Json>): (r: (FileSystem, bool))
    decreases |records|
  {
    if records == [] then (fs, true)
    else
      var step := RecordEffect(fs, records[0]);
      if Raises(step.1) then (step.0, false) else RunRecords(step.0, records[1..])
  }

  /** How `process_file` ends. */
  datatype FileOutcome =
    | FolderCrash     // `os.makedirs("")` raised outside the `try`
    | FileMissing
    | ParseError
    | InvalidFormat   // the root is neither an object nor an array
    | Aborted         // a record raised; the exception was caught and reported
    | Consumed        // every record went through and the file was removed

  /** The records of a decoded document, or none for a root of another type. */
  function RecordsOf(data: Json): Option<seq<Json>> {
    if data.JObject? then Some([data])
    else if data.JArray? then Some(data.items)
    else None
  }

  /** The effect of `process_file()` on the file system; `parsed` is what `json.load`
      makes of the file, `None` when it raises. */
  ghost function FileEffect(fs: FileSystem, filePath: Path, parsed: Option<Json>): (r: (FileSystem, FileOutcome))
    ensures !HasDirectoryPart(filePath) || filePath !in fs || parsed.None? ==> r.0 == fs
    ensures filePath !in fs && HasDirectoryPart(filePath) ==> r.1 == FileMissing
  {
    if !HasDirectoryPart(filePath) then (fs, FolderCrash)
    else if filePath !in fs then (fs, FileMissing)
    else if parsed.None? then (fs, ParseError)
    else
      match RecordsOf(parsed.value)
      case None => (fs, InvalidFormat)
      case Some(records) =>
        var run := RunRecords(fs, records);
        if run.1 then (run.0 - {filePath}, Consumed) else (run.0, Aborted)
  }

  /** `JSONFileProcessor(file_path)`: the file to read, the default one when no path or
      an empty path is given. */
  class JsonFileProcessor {
    const filePath: Path

    constructor(filePath: Path)
      ensures this.filePath == (if filePath != "" then filePath else JsonInputFile)
    {
      this.filePath := if filePath != "" then filePath else JsonInputFile;
    }

    /** `process_file()` */
    method ProcessFile(fs: FileSystem, parsed: Option<Json>) returns (fs': FileSystem, outcome: FileOutcome)
      ensures (fs', outcome) == FileEffect(fs, filePath, parsed)
    {
      if !HasDirectoryPart(filePath) {
        return fs, FolderCrash;
      }
      if filePath !in fs {
        return fs, FileMissing;
      }
      if parsed.None? {
        return fs, ParseError;
      }
      var data := parsed.value;
      var records: seq<Json>;
      if data.JObject? {
        records := [data];
      } else if data.JArray? {
        records := data.items;
      } else {
        return fs, InvalidFormat;
      }
      fs' := fs;
      var i := 0;
      while i < |records|
        invariant 0 <= i <= |records|
        invariant RunRecords(fs, records) == RunRecords(fs', records[i..])
      {
        assert records[i..][1..] == records[i + 1..];
        var result;
        fs', result := ProcessRecord(fs', records[i]);
        if Raises(result) {
          return fs', Aborted;
        }
        i := i + 1;
      }
      fs' := fs' - {filePath};
      outcome := Consumed;
    }
  }

  /** Running the records never deletes a file. */
  lemma {:induction false} RunKeepsFiles(fs: FileSystem, records: seq<Json>)
    ensures forall p :: p in fs ==> p in RunRecords(fs, records).0
    decreases |records|
  {
    if records != [] {
      RunKeepsFiles(RecordEffect(fs, records[0]).0, records[1..]);
    }
  }

  /** The job file is removed exactly when every record went through; in every other
      outcome an existing job file is kept. */
  lemma FileRemovedOnlyWhenConsumed(fs: FileSystem, filePath: Path, parsed: Option<Json>)
    ensures var r := FileEffect(fs, filePath, parsed);
      (r.1 == Consumed ==> filePath !in r.0)
      && (r.1 != Consumed && filePath in fs ==> filePath in r.0)
  {
    if HasDirectoryPart(filePath) && filePath in fs && parsed.Some? && RecordsOf(parsed.value).Some? {
      RunKeepsFiles(fs, RecordsOf(parsed.value).value);
    }
  }

  /** A single object at the root is processed exactly like a one-element list. */
  lemma ObjectRootIsOneRecord(fs: FileSystem, filePath: Path, fields: map<string, Json>)
    ensures FileEffect(fs, filePath, Some(JObject(fields)))
         == FileEffect(fs, filePath, Some(JArray([JObject(fields)])))
  {
  }

  /** Records are processed in list order: running `a + b` runs `a`, then `b` on the
      resulting file system if nothing in `a` raised. */
  lemma {:induction false} RunInOrder(fs: FileSystem, a: seq<Json>, b: seq<Json>)
    ensures RunRecords(fs, a + b)
         == (var ra := RunRecords(fs, a); if ra.1 then RunRecords(ra.0, b) else ra)
    decreases |a|
  {
    if a == [] {
      assert a + b == b;
    } else {
      assert (a + b)[0] == a[0];
      assert (a + b)[1..] == a[1..] + b;
      RunInOrder(RecordEffect(fs, a[0]).0, a[1..], b);
    }
  }

  /** A record without a truthy `input_file` changes nothing and the loop goes on. */
  lemma SkippedRecordContinues(fs: FileSystem, fields: map<string, Json>, rest: seq<Json>)
    requires "input_file" !in fields || !Truthy(fields["input_file"])
    ensures RunRecords(fs, [JObject(fields)] + rest) == RunRecords(fs, rest)
  {
    assert ([JObject(fields)] + rest)[1..] == rest;
  }

  /** A list element that is not an object raises at once: the records after it are not
      processed and the job file stays. */
  lemma NonObjectAborts(fs: FileSystem, filePath: Path, done: seq<Json>, bad: Json, rest: seq<Json>)
    requires !bad.JObject?
    requires HasDirectoryPart(filePath) && filePath in fs
    requires RunRecords(fs, done).1
    ensures var r := FileEffect(fs, filePath, Some(JArray(done + [bad] + rest)));
      r == (RunRecords(fs, done).0, Aborted) && filePath in r.0
  {
    RunInOrder(fs, done, [bad] + rest);
    assert done + [bad] + rest == done + ([bad] + rest);
    RunKeepsFiles(fs, done);
  }

  /** A root of any other type reports an error and changes nothing. */
  lemma ScalarRootProcessesNothing(fs: FileSystem, filePath: Path, data: Json)
    requires !data.JObject? && !data.JArray?
    requires HasDirectoryPart(filePath) && filePath in fs
    ensures FileEffect(fs, filePath, Some(data)) == (fs, InvalidFormat)
  {
  }
}
