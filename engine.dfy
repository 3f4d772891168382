/** Homework_7 `recreate_csv_files`: the frequency engine run over a file system, and the
    file-system model the ingestion programs share. */
module Engine {
  import opened PyStrings
  import opened WordStats
  import opened CsvReport
  import opened WinPath

  /** A file is either text or a CSV report written by the engine. */
  datatype File = Text(content: string) | Table(rows: seq<Row>)

  type FileSystem = map<Path, File>

  /** What reading a file as text yields. A report reads as empty text here. */
  function ReadText(f: File): string {
    if f.Text? then f.content else ""
  }

  /** A value used as a path: a string, or any other configuration value. */
  datatype PathValue = PathText(path: string) | NotText

  /** The exceptions the engine lets escape. */
  datatype Fault =
    | EmptyOutputDirectory  // `os.makedirs("")` after `dirname` found no directory part
    | PathNotString         // a non-string handed to `dirname` or `open`

  datatype Outcome = InputMissing | Raised(fault: Fault) | Written

  /** The word report of a text file. */
  ghost function WordReport(text: string): seq<Row> {
    WordCsv(WordCount(Lines(text)))
  }

  /** The letter report of a text file. */
  ghost function LetterReport(text: string): seq<Row> {
    LetterCsv(LetterStatisticsOf(text))
  }

  /** The file system and outcome after `recreate_csv_files(input, wordCsv, letterCsv)`.
      The input is read a second time, after the word report has been written, for the
      letter statistics. */
  ghost function Recreated(fs: FileSystem, input: Path, wordCsv: PathValue, letterCsv: PathValue)
    : (r: (FileSystem, Outcome))
    ensures input !in fs ==> r == (fs, InputMissing)
    ensures r.1 != Written ==> forall p :: p in r.0 && p in fs && r.0[p] != fs[p] ==> wordCsv == PathText(p)
    ensures forall p :: p in fs ==> p in r.0
    ensures forall p :: p in r.0 && p !in fs ==> wordCsv == PathText(p) || letterCsv == PathText(p)
    ensures forall p :: p in fs && wordCsv != PathText(p) && letterCsv != PathText(p) ==> r.0[p] == fs[p]
    ensures r.1 == Written <==>
      input in fs && wordCsv.PathText? && HasDirectoryPart(wordCsv.path) && letterCsv.PathText?
    ensures r.1 == Written ==> wordCsv.path in r.0 && letterCsv.path in r.0
    ensures r.1 == Written && wordCsv.path != input ==>
      r.0[letterCsv.path] == Table(LetterReport(ReadText(fs[input])))
    ensures r.1 == Written && wordCsv.path == input ==> r.0[letterCsv.path] == Table(LetterReport(""))
  {
    if input !in fs then (fs, InputMissing)
    else if wordCsv.NotText? then (fs, Raised(PathNotString))
    else if !HasDirectoryPart(wordCsv.path) then (fs, Raised(EmptyOutputDirectory))
    else
      var fs1 := fs[wordCsv.path := Table(WordReport(ReadText(fs[input])))];
      if letterCsv.NotText? then (fs1, Raised(PathNotString))
      else (fs1[letterCsv.path := Table(LetterReport(ReadText(fs1[input])))], Written)
  }

  /** `recreate_csv_files(input_file, word_count_csv, letter_count_csv)` */
  method RecreateCsvFiles(fs: FileSystem, input: Path, wordCsv: PathValue, letterCsv: PathValue)
    returns (fs': FileSystem, outcome: Outcome)
    ensures (fs', outcome) == Recreated(fs, input, wordCsv, letterCsv)
  {
    if input !in fs {
      return fs, InputMissing;
    }
    if wordCsv.NotText? {
      return fs, Raised(PathNotString);
    }
    if !HasDirectoryPart(wordCsv.path) {
      return fs, Raised(EmptyOutputDirectory);
    }
    var wordCount := CalculateWordCount(Lines(ReadText(fs[input])));
    var wordRows := WriteWordCountToCsv(wordCount);
    fs' := fs[wordCsv.path := Table(wordRows)];
    var text := ReadText(fs'[input]);
    var letterStatistics := CalculateLetterStatistics(Lines(text));
    LinesRoundTrip(text);
    if letterCsv.NotText? {
      return fs', Raised(PathNotString);
    }
    var letterRows := WriteLetterStatisticsToCsv(letterStatistics);
    fs' := fs'[letterCsv.path := Table(letterRows)];
    outcome := Written;
  }

  /** With distinct paths, a successful run leaves the input as it was and the word
      report reads back as the word count of the input. */
  lemma RecreatedReports(fs: FileSystem, input: Path, wordCsv: Path, letterCsv: Path)
    requires input in fs && HasDirectoryPart(wordCsv)
    requires input != wordCsv && input != letterCsv && wordCsv != letterCsv
    ensures var r := Recreated(fs, input, PathText(wordCsv), PathText(letterCsv));
      && r.1 == Written
      && r.0[input] == fs[input]
      && r.0[wordCsv].Table?
      && ReadCounts(r.0[wordCsv].rows[1..]) == AsInts(WordCount(Lines(ReadText(fs[input]))))
      && r.0[letterCsv] == Table(LetterReport(ReadText(fs[input])))
  {
    WordCsvRoundTrip(WordCount(Lines(ReadText(fs[input]))));
  }

  /** Running twice in a row gives the same file system as running once. */
  lemma RecreatedIdempotent(fs: FileSystem, input: Path, wordCsv: Path, letterCsv: Path)
    requires input != wordCsv && input != letterCsv
    ensures var r := Recreated(fs, input, PathText(wordCsv), PathText(letterCsv));
      Recreated(r.0, input, PathText(wordCsv), PathText(letterCsv)) == r
  {
    var r := Recreated(fs, input, PathText(wordCsv), PathText(letterCsv));
    if input in fs && HasDirectoryPart(wordCsv) {
      var text := ReadText(fs[input]);
      var words := Table(WordReport(text));
      var letters := Table(LetterReport(text));
      assert r == (fs[wordCsv := words][letterCsv := letters], Written);
      assert r.0[input] == fs[input];
      UpdateTwice(fs, wordCsv, words, letterCsv, letters);
    }
  }

  lemma UpdateTwice<K, V>(m: map<K, V>, a: K, x: V, b: K, y: V)
    ensures m[a := x][b := y][a := x][b := y] == m[a := x][b := y]
  {
  }

  const InputFilePath: Path := DefaultFolder + "\\Homework_5.txt"
  const WordCountCsvPath: Path := DefaultFolder + "\\word-count.csv"
  const LetterCountCsvPath: Path := DefaultFolder + "\\letter-count.csv"

  /** The script's own run: with its input present, both reports are written. */
  lemma DefaultRunWrites(fs: FileSystem)
    requires InputFilePath in fs
    ensures Recreated(fs, InputFilePath, PathText(WordCountCsvPath), PathText(LetterCountCsvPath)).1 == Written
  {
    assert WordCountCsvPath[1] == Drive[1] == ':';
  }
}
