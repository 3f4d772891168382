/** Homework_10 `DatabaseHandler`: the word and letter tables, each UNIQUE on its key and
    written with `INSERT OR IGNORE`, and the engine run that persists its tallies there:
    as written, where the first letter insert raises, and with that insert corrected.
    The tables are modelled as maps from the unique key to the rest of the row; the
    connection, the commits and the SQL text are not modelled. */
module StatsStore {
  import opened Wrappers
  import opened PyStrings
  import opened Tallies
  import opened WordStats
  import opened CsvReport
  import opened WinPath
  import opened Engine
  import opened Chars

  /** The non-key columns of a `letter_statistics` row. */
  datatype LetterRecord = LetterRecord(countAll: int, countUppercase: int, percentageUppercase: real)

  /** The errors `sqlite3` raises for the statements used here. */
  datatype SqlError =
    | IntegrityError(key: string)        // a UNIQUE key inserted twice by a plain INSERT
    | OperationalError(column: string)   // a column the table does not have

  /** How a store-aware run ends: as the engine's run does, or with an `sqlite3` error
      that leaves `recreate_csv_files` (only `IntegrityError` is caught inside). */
  datatype StoreOutcome = Finished(outcome: Outcome) | SqlRaised(error: SqlError)

  /** The columns of the `letter_statistics` table. */
  const LetterTableColumns: seq<string> :=
    ["id", "letter", "count_all", "count_uppercase", "percentage_uppercase"]

  /** The column list of the letter insert as the program spells it. */
  const LetterInsertColumnsAsWritten: seq<string> :=
    ["letter", "count_all", "count_uppercase", "percentage"]

  /** The column list the table calls for. */
  const LetterInsertColumns: seq<string> :=
    ["letter", "count_all", "count_uppercase", "percentage_uppercase"]

  /** The first column of `columns` the table lacks, if any. */
  function UnknownColumn(columns: seq<string>, table: seq<string>): (r: Option<string>)
    ensures r.None? <==> forall c :: c in columns ==> c in table
    ensures r.Some? ==> r.value in columns && r.value !in table
  {
    if columns == [] then None
    else if columns[0] !in table then Some(columns[0])
    else UnknownColumn(columns[1..], table)
  }

  /** A row insert into a table UNIQUE on its key: `INSERT` when `orIgnore` is false,
      `INSERT OR IGNORE` when it is true. */
  function Insert<V>(table: map<string, V>, key: string, value: V, orIgnore: bool)
    : (r: Result<map<string, V>, SqlError>)
    ensures r.Failure? <==> key in table && !orIgnore
    ensures r.Success? && key in table ==> r.value == table
    ensures r.Success? && key !in table ==> r.value == table[key := value]
  {
    if key !in table then Success(table[key := value])
    else if orIgnore then Success(table)
    else Failure(IntegrityError(key))
  }

  /** `INSERT OR IGNORE` of one row: the first row stored under a key stays. */
  function InsertOrIgnore<V>(table: map<string, V>, key: string, value: V): (t: map<string, V>)
    ensures key in t
    ensures key in table ==> t[key] == table[key]
    ensures key !in table ==> t[key] == value
    ensures forall k :: k != key ==> (k in t <==> k in table)
    ensures forall k :: k != key && k in table ==> t[k] == table[k]
  {
    var r := Insert(table, key, value, true);
    r.value
  }

  /** Under `OR IGNORE` the IntegrityError branch cannot be taken: the insert never
      fails and a repeated insert changes nothing. */
  lemma OrIgnoreNeverFails<V>(table: map<string, V>, key: string, value: V, again: V)
    ensures Insert(table, key, value, true).Success?
    ensures InsertOrIgnore(InsertOrIgnore(table, key, value), key, again)
         == InsertOrIgnore(table, key, value)
  {
  }

  /** The table after inserting every row of `rows` with `INSERT OR IGNORE`, in any order:
      rows already present keep their values, new keys take the inserted ones. */
  function InsertAll<V>(table: map<string, V>, rows: map<string, V>): (t: map<string, V>)
    ensures forall k :: k in t <==> k in table || k in rows
    ensures forall k :: k in table ==> t[k] == table[k]
    ensures forall k :: k in rows && k !in table ==> t[k] == rows[k]
  {
    map k | k in table.Keys + rows.Keys :: if k in table then table[k] else rows[k]
  }

  lemma InsertAllStep<V>(table: map<string, V>, rows: map<string, V>, done: set<string>, key: string)
    requires key in rows && key !in done
    ensures InsertOrIgnore(InsertAll(table, map k | k in done && k in rows :: rows[k]), key, rows[key])
         == InsertAll(table, map k | k in done + {key} && k in rows :: rows[k])
  {
  }

  /** Inserting in any order gives the same table: the inserted keys are distinct. */
  lemma InsertOrderIrrelevant<V>(table: map<string, V>, k1: string, v1: V, k2: string, v2: V)
    requires k1 != k2
    ensures InsertOrIgnore(InsertOrIgnore(table, k1, v1), k2, v2)
         == InsertOrIgnore(InsertOrIgnore(table, k2, v2), k1, v1)
  {
  }

  /** The rows the program hands to the letter table: every letter with its count, and
      the GLOBAL upper-case total and percentage, not per-letter values. */
  function LetterRecords(stats: LetterStatistics): (rows: map<string, LetterRecord>)
    ensures rows.Keys == stats.letterStats.Keys
    ensures forall l :: l in rows ==>
      rows[l].countAll == stats.letterStats[l]
      && rows[l].countUppercase == stats.totalUppercaseLetters
      && rows[l].percentageUppercase == stats.uppercasePercentage
  {
    map l | l in stats.letterStats ::
      LetterRecord(stats.letterStats[l], stats.totalUppercaseLetters, stats.uppercasePercentage)
  }

  /** The letter insert as written names a column the table does not have, so every call
      raises an OperationalError, which the handler does not catch. */
  lemma LetterInsertAsWrittenFails()
    ensures UnknownColumn(LetterInsertColumnsAsWritten, LetterTableColumns) == Some("percentage")
  {
  }

  /** With the column the table defines, the letter insert resolves. */
  lemma LetterInsertResolves()
    ensures UnknownColumn(LetterInsertColumns, LetterTableColumns).None?
  {
  }

  function AsWords(m: map<string, nat>): map<string, int> {
    map k | k in m :: m[k] as int
  }

  class DatabaseHandler {
    const dbPath: Path
    /** Table `word_count`: word to count. */
    var wordCount: map<string, int>
    /** Table `letter_statistics`: letter to the rest of its row. */
    var letterStatistics: map<string, LetterRecord>

    /** `DatabaseHandler(db_path)`: connects and creates the tables if they do not
        exist, so rows already in the database stay. */
    constructor(dbPath: Path, storedWords: map<string, int>, storedLetters: map<string, LetterRecord>)
      ensures this.dbPath == dbPath
      ensures wordCount == storedWords && letterStatistics == storedLetters
    {
      this.dbPath := dbPath;
      wordCount := storedWords;
      letterStatistics := storedLetters;
    }

    /** `insert_word_count(word, count)` */
    method InsertWordCount(word: string, count: int)
      modifies this
      ensures wordCount == InsertOrIgnore(old(wordCount), word, count)
      ensures letterStatistics == old(letterStatistics)
    {
      var r := Insert(wordCount, word, count, true);
      match r {
        case Success(table) => wordCount := table;
        case Failure(_) => assert false;
      }
    }

    /** `insert_letter_statistics(letter, count_all, count_uppercase, percentage_uppercase)`
        as written: the statement is rejected before any row is touched. */
    method InsertLetterStatisticsAsWritten(letter: string, countAll: int, countUppercase: int,
                                           percentageUppercase: real)
      returns (error: Option<SqlError>)
      ensures error == Some(OperationalError("percentage"))
    {
      LetterInsertAsWrittenFails();
      var unknown := UnknownColumn(LetterInsertColumnsAsWritten, LetterTableColumns);
      error := Some(OperationalError(unknown.value));
    }

    /** `insert_letter_statistics` with the column the table defines. */
    method InsertLetterStatistics(letter: string, countAll: int, countUppercase: int,
                                  percentageUppercase: real)
      modifies this
      ensures letterStatistics
           == InsertOrIgnore(old(letterStatistics), letter,
                             LetterRecord(countAll, countUppercase, percentageUppercase))
      ensures wordCount == old(wordCount)
    {
      LetterInsertResolves();
      var r := Insert(letterStatistics, letter, LetterRecord(countAll, countUppercase, percentageUppercase), true);
      match r {
        case Success(table) => letterStatistics := table;
        case Failure(_) => assert false;
      }
    }

    /** The word inserts of one run: every word with its count, one `INSERT OR IGNORE`
        each, in the word count's own order (any order gives the same table). */
    method InsertWordCounts(words: map<string, int>)
      modifies this
      ensures wordCount == InsertAll(old(wordCount), words)
      ensures letterStatistics == old(letterStatistics)
    {
      var rest := words.Keys;
      while rest != {}
        invariant rest <= words.Keys
        invariant wordCount
               == InsertAll(old(wordCount), map k | k in words.Keys - rest && k in words :: words[k])
        invariant letterStatistics == old(letterStatistics)
        decreases rest
      {
        var word :| word in rest;
        InsertAllStep(old(wordCount), words, words.Keys - rest, word);
        InsertWordCount(word, words[word]);
        assert (words.Keys - rest) + {word} == words.Keys - (rest - {word});
        rest := rest - {word};
      }
      assert (map k | k in words.Keys - {} && k in words :: words[k]) == words;
    }

    /** The letter inserts of one run. */
    method InsertLetterRecords(records: map<string, LetterRecord>)
      modifies this
      ensures letterStatistics == InsertAll(old(letterStatistics), records)
      ensures wordCount == old(wordCount)
    {
      var letters := records.Keys;
      while letters != {}
        invariant letters <= records.Keys
        invariant letterStatistics
               == InsertAll(old(letterStatistics), map k | k in records.Keys - letters && k in records :: records[k])
        invariant wordCount == old(wordCount)
        decreases letters
      {
        var letter :| letter in letters;
        InsertAllStep(old(letterStatistics), records, records.Keys - letters, letter);
        var record := records[letter];
        InsertLetterStatistics(letter, record.countAll, record.countUppercase, record.percentageUppercase);
        assert (records.Keys - letters) + {letter} == records.Keys - (letters - {letter});
        letters := letters - {letter};
      }
      assert (map k | k in records.Keys - {} && k in records :: records[k]) == records;
    }
  }

  /** The text the letter statistics are computed from: the input read again after the
      word report was written, which is empty when the word report overwrote it. */
  function SecondRead(fs: FileSystem, input: Path, wordCsv: Path): string
    requires input in fs
  {
    if wordCsv == input then "" else ReadText(fs[input])
  }

  /** The two tables after a store-aware run with the letter insert corrected: the words are
      inserted once the word report is written, the letters once the letter report is
      written. */
  ghost function Stored(words: map<string, int>, letters: map<string, LetterRecord>,
                        fs: FileSystem, input: Path, wordCsv: PathValue, letterCsv: PathValue)
    : (map<string, int>, map<string, LetterRecord>)
  {
    if input !in fs || wordCsv.NotText? || !HasDirectoryPart(wordCsv.path) then (words, letters)
    else
      var words' := InsertAll(words, AsWords(WordCount(Lines(ReadText(fs[input])))));
      if letterCsv.NotText? then (words', letters)
      else (words', InsertAll(letters, LetterRecords(LetterStatisticsOf(SecondRead(fs, input, wordCsv.path)))))
  }

  /** Homework_10 `recreate_csv_files(input_file, word_count_csv, letter_count_csv,
      db_handler)` with the letter insert corrected: the engine run, plus every word and
      every letter inserted into the store after its report is written. The program as
      written is `RecreateCsvFilesAsWritten`. */
  method RecreateCsvFiles(fs: FileSystem, input: Path, wordCsv: PathValue, letterCsv: PathValue,
                          db: DatabaseHandler)
    returns (fs': FileSystem, outcome: Outcome)
    modifies db
    ensures (fs', outcome) == Recreated(fs, input, wordCsv, letterCsv)
    ensures (db.wordCount, db.letterStatistics)
         == Stored(old(db.wordCount), old(db.letterStatistics), fs, input, wordCsv, letterCsv)
  {
    if input !in fs {
      return fs, InputMissing;
    }
    if wordCsv.NotText? {
      return fs, Raised(PathNotString);
    }
    if !HasDirectoryPart(wordCsv.path) {
      return fs, Raised(EmptyOutputDirectory);
    }
    var wordCount := CalculateWordCount(Lines(ReadText(fs[input])));
    var wordRows := WriteWordCountToCsv(wordCount);
    fs' := fs[wordCsv.path := Table(wordRows)];

    db.InsertWordCounts(AsWords(wordCount));

    var text := ReadText(fs'[input]);
    var letterStatistics := CalculateLetterStatistics(Lines(text));
    LinesRoundTrip(text);
    if letterCsv.NotText? {
      return fs', Raised(PathNotString);
    }
    var letterRows := WriteLetterStatisticsToCsv(letterStatistics);
    fs' := fs'[letterCsv.path := Table(letterRows)];

    db.InsertLetterRecords(LetterRecords(letterStatistics));
    outcome := Written;
  }

  /** How the run of the program as written ends: as the engine's run, except that once both
      reports are written the first letter insert raises the unknown-column error, which
      happens whenever the letter tally is non-empty. */
  ghost function RunAsWritten(fs: FileSystem, input: Path, wordCsv: PathValue, letterCsv: PathValue)
    : StoreOutcome
  {
    var run := Recreated(fs, input, wordCsv, letterCsv);
    if run.1 == Written && LetterStatisticsOf(SecondRead(fs, input, wordCsv.path)).letterStats != map[]
    then SqlRaised(OperationalError("percentage"))
    else Finished(run.1)
  }

  /** The two tables after a run of the program as written: the words are inserted once the
      word report is written; no letter row is ever stored. */
  ghost function StoredAsWritten(words: map<string, int>, letters: map<string, LetterRecord>,
                                 fs: FileSystem, input: Path, wordCsv: PathValue)
    : (map<string, int>, map<string, LetterRecord>)
  {
    if input !in fs || wordCsv.NotText? || !HasDirectoryPart(wordCsv.path) then (words, letters)
    else (InsertAll(words, AsWords(WordCount(Lines(ReadText(fs[input]))))), letters)
  }

  /** Homework_10 `recreate_csv_files(input_file, word_count_csv, letter_count_csv,
      db_handler)` as written: the engine run and the word inserts, then the letter loop,
      whose first `insert_letter_statistics` raises. */
  method RecreateCsvFilesAsWritten(fs: FileSystem, input: Path, wordCsv: PathValue, letterCsv: PathValue,
                                   db: DatabaseHandler)
    returns (fs': FileSystem, outcome: StoreOutcome)
    modifies db
    ensures fs' == Recreated(fs, input, wordCsv, letterCsv).0
    ensures outcome == RunAsWritten(fs, input, wordCsv, letterCsv)
    ensures (db.wordCount, db.letterStatistics)
         == StoredAsWritten(old(db.wordCount), old(db.letterStatistics), fs, input, wordCsv)
  {
    if input !in fs {
      return fs, Finished(InputMissing);
    }
    if wordCsv.NotText? {
      return fs, Finished(Raised(PathNotString));
    }
    if !HasDirectoryPart(wordCsv.path) {
      return fs, Finished(Raised(EmptyOutputDirectory));
    }
    var wordCount := CalculateWordCount(Lines(ReadText(fs[input])));
    var wordRows := WriteWordCountToCsv(wordCount);
    fs' := fs[wordCsv.path := Table(wordRows)];

    db.InsertWordCounts(AsWords(wordCount));

    var text := ReadText(fs'[input]);
    var letterStatistics := CalculateLetterStatistics(Lines(text));
    LinesRoundTrip(text);
    if letterCsv.NotText? {
      return fs', Finished(Raised(PathNotString));
    }
    var letterRows := WriteLetterStatisticsToCsv(letterStatistics);
    fs' := fs'[letterCsv.path := Table(letterRows)];

    var records := LetterRecords(letterStatistics);
    if records != map[] {
      var letter :| letter in records;
      var record := records[letter];
      var error := db.InsertLetterStatisticsAsWritten(letter, record.countAll, record.countUppercase,
                                                      record.percentageUppercase);
      return fs', SqlRaised(error.value);
    }
    outcome := Finished(Written);
  }

  /** The program as written raises exactly when both reports are written and the text the
      letters are counted from has an alphabetic character; otherwise it ends as the
      engine's run does. */
  lemma AsWrittenRaisesOnLetters(fs: FileSystem, input: Path, wordCsv: PathValue, letterCsv: PathValue)
    ensures var run := Recreated(fs, input, wordCsv, letterCsv);
      var r := RunAsWritten(fs, input, wordCsv, letterCsv);
      (run.1 != Written ==> r == Finished(run.1))
      && (run.1 == Written ==> r == SqlRaised(OperationalError("percentage")) || r == Finished(Written))
      && (run.1 == Written ==>
            var text := SecondRead(fs, input, wordCsv.path);
            (r.SqlRaised? <==> exists i :: 0 <= i < |text| && IsAlpha(text[i])))
  {
    var run := Recreated(fs, input, wordCsv, letterCsv);
    if run.1 == Written {
      NoLettersNoStats(SecondRead(fs, input, wordCsv.path));
    }
  }

  /** The program as written stores the words the corrected one does and no letter at all;
      its letter table differs from the corrected one's exactly when the corrected run
      would add a letter new to the store. */
  lemma AsWrittenLosesLetters(words: map<string, int>, letters: map<string, LetterRecord>,
                              fs: FileSystem, input: Path, wordCsv: PathValue, letterCsv: PathValue)
    ensures var a := StoredAsWritten(words, letters, fs, input, wordCsv);
      var c := Stored(words, letters, fs, input, wordCsv, letterCsv);
      a.0 == c.0 && a.1 == letters
      && (a.1 != c.1 <==> exists l :: l in c.1 && l !in letters)
  {
    if input in fs && wordCsv.PathText? && HasDirectoryPart(wordCsv.path) && letterCsv.PathText? {
      InsertAllAddsNothing(letters, LetterRecords(LetterStatisticsOf(SecondRead(fs, input, wordCsv.path))));
    }
  }

  /** Inserting rows leaves the table as it was exactly when every key is already stored. */
  lemma InsertAllAddsNothing<V>(table: map<string, V>, rows: map<string, V>)
    ensures InsertAll(table, rows) == table <==> rows.Keys <= table.Keys
  {
    if rows.Keys <= table.Keys {
      assert InsertAll(table, rows).Keys == table.Keys;
    }
  }

  /** Re-inserting the same rows changes nothing. */
  lemma InsertAllIdempotent<V>(table: map<string, V>, rows: map<string, V>)
    ensures InsertAll(InsertAll(table, rows), rows) == InsertAll(table, rows)
  {
  }

  /** A run never removes or changes a row already in the store, whatever its outcome. */
  lemma StoredKeepsRows(words: map<string, int>, letters: map<string, LetterRecord>,
                        fs: FileSystem, input: Path, wordCsv: PathValue, letterCsv: PathValue)
    ensures var r := Stored(words, letters, fs, input, wordCsv, letterCsv);
      (forall w :: w in words ==> w in r.0 && r.0[w] == words[w])
      && (forall l :: l in letters ==> l in r.1 && r.1[l] == letters[l])
  {
  }

  /** The store changes exactly as the reports do: words are stored iff the word report is
      written, letters iff both reports are. After a run that writes both reports with
      distinct paths, every word of the input and every letter is in the store; a letter
      new to the store carries the run's global upper-case figures. */
  lemma StoredFollowsReports(words: map<string, int>, letters: map<string, LetterRecord>,
                             fs: FileSystem, input: Path, wordCsv: PathValue, letterCsv: PathValue)
    ensures var r := Stored(words, letters, fs, input, wordCsv, letterCsv);
      var run := Recreated(fs, input, wordCsv, letterCsv);
      (run.1 != Written ==> r.1 == letters)
      && (run.1 == InputMissing ==> r.0 == words)
      && (run.1 == Written && wordCsv.path != input ==>
            var text := ReadText(fs[input]);
            var stats := LetterStatisticsOf(text);
            (forall w :: w in WordCount(Lines(text)) ==> w in r.0)
            && (forall l :: l in stats.letterStats ==> l in r.1)
            && (forall l :: l in stats.letterStats && l !in letters ==>
                  r.1[l] == LetterRecord(stats.letterStats[l], stats.totalUppercaseLetters,
                                         stats.uppercasePercentage)))
  {
  }

  /** Running the store-aware program twice with the same paths leaves the store as one
      run does. */
  lemma StoredIdempotent(words: map<string, int>, letters: map<string, LetterRecord>,
                         fs: FileSystem, input: Path, wordCsv: Path, letterCsv: Path)
    requires input != wordCsv && input != letterCsv
    ensures var run := Recreated(fs, input, PathText(wordCsv), PathText(letterCsv));
      var r := Stored(words, letters, fs, input, PathText(wordCsv), PathText(letterCsv));
      Stored(r.0, r.1, run.0, input, PathText(wordCsv), PathText(letterCsv)) == r
  {
    var run := Recreated(fs, input, PathText(wordCsv), PathText(letterCsv));
    if input in fs && HasDirectoryPart(wordCsv) {
      assert run.0[input] == fs[input];
      var text := ReadText(fs[input]);
      InsertAllIdempotent(words, AsWords(WordCount(Lines(text))));
      InsertAllIdempotent(letters, LetterRecords(LetterStatisticsOf(text)));
    }
  }
}
