# Text statistics, record feeds and dictionary merging: a Dafny model

This project models the core of a set of Python homework programs that share a few engines:

- **The frequency engine** (Homework_7, repeated in Homework_8/9/10). It reads a text file and counts
  its words after `preprocess_text`. It counts its letters in total, upper case and per lower-cased
  letter. It writes two CSV reports, each with a header row and one row per key in ascending key
  order (`recreate_csv_files`).
- **Record ingestion.**
  - Homework_8 reads a JSON document (one object or a list of objects). Homework_9 reads the
    `record` children of an XML root.
  - For each record it resolves the input path against the default folder and runs the engine.
  - It deletes the input document only when every record went through ("consume once").
- **The statistics store** (Homework_10). `DatabaseHandler` keeps a `word_count` table and a
  `letter_statistics` table, each keyed by a UNIQUE column and filled with `INSERT OR IGNORE`. As
  written, the run writes both reports and inserts every word it counted. Its first letter insert
  then raises `sqlite3.OperationalError`, because it names a column the table lacks. So no letter
  row is ever stored, and the error leaves `recreate_csv_files`. The model keeps this run and, beside
  it, the run with the insert corrected, which also stores every letter.
- **The dictionary merge** (Homework_4 functions and the Homework_2 script).
  - It merges a list of dicts, keeping each key's maximum and the 1-based index of the first dict
    holding it.
  - It then renames the keys that occur in more than one dict to `key_index`.
- **The text-normalisation pipeline** (Homework_4 functions and the Homework_3 script), in order:
  1. sentence-case normalisation over a regex split;
  2. the `iz` → `is` word fix;
  3. the `Fix“` spacing fix;
  4. the appended sentence of last words;
  5. the explicit fix of the third sentence;
  6. the white-space count.
- **The news feed** (Homework_5/6).
  - Three record kinds (news, private ad, motivational quote) and the base record whose `publish`
    raises.
  - The `NewsFeed` buffer that is appended to the feed file and then cleared.
  - The Homework_6 `FileProcessor`, which turns `type;text;field` lines into records, saves the feed
    and removes the input file.

## How the model is built

- **Dictionaries and files.** Python dictionaries become `map`s. Where insertion order matters (the
  merge), they become an ordered sequence of items whose `d[key] = value` keeps an existing key's
  place. A file system becomes a `map` from path to file.
- **Loops become methods.** Every loop that updates variables is a `method` with a `while`/`for` loop.
  It is proved equal to a specification function, and the properties are lemmas about that function:
  - `calculate_word_count`, `calculate_letter_statistics`;
  - the CSV writers;
  - `sorted`;
  - `merge_dicts_with_index`, `rename_duplicate_keys`;
  - `normalize_cases`, `fix_third_sentence`;
  - `save_to_file`, `process_file`;
  - the database inserts.
- **Classes.** The objects whose fields the source updates are classes with `modifies` clauses:
  - `NewsFeed` (its `records` buffer);
  - `FileProcessor`, `JSONFileProcessor`, `XMLFileProcessor`;
  - `DatabaseHandler` (its two tables).
- **Parameters instead of effects.** The clock (`datetime.now()`) is a parameter: a `Clock` reading
  per record, or a function from line number to reading. The JSON and XML parsers are parameters
  too: the already-parsed tree, or `None` for a parse error.

## Model

| member | source | states |
|---|---|---|
| WordStats.DeletePunctClean | Homework_7.py:13 | after `translate` no ASCII punctuation is left, and a text without ASCII capitals gets none |
| WordStats.PreprocessTextClean | Homework_7.py:11-13 | `preprocess_text` leaves no punctuation and no ASCII capital, and its result neither starts nor ends with white space |
| WordStats.OpeningQuoteKept | Homework_7.py:13 | a typographic opening quote is not in `string.punctuation`, so it survives preprocessing and can become part of a word |
| WordStats.CalculateWordCount | Homework_7.py:16-24 | the loop over the lines and their words builds exactly the tally of all words of the file, line after line |
| WordStats.CountLineWords | Homework_7.py:22-23 | counting one line's words onto a tally of the earlier words gives the tally of all of them |
| WordStats.WordKeysNormalised | Homework_7.py:21 | every counted word is non-empty, has no white space, no ASCII punctuation and no ASCII capital |
| WordStats.WordCountIsOccurrences | Homework_7.py:20-23 | each word's count is its number of occurrences among the words of the file |
| WordStats.WordCountsSumToWords | Homework_7.py:20-23 | the counts add up to the number of words of the file |
| WordStats.Letters | Homework_7.py:36 | the letters taken are alphabetic characters of the text |
| WordStats.LetterKeysOfLetters | Homework_7.py:41-42 | each alphabetic character is counted under its lower-case form, one key per letter, in order |
| WordStats.CalculateLetterStatistics | Homework_7.py:27-50 | the loop over lines and characters gives the statistics of the whole text (the concatenated lines) |
| WordStats.CountLineLetters | Homework_7.py:35-42 | one line's characters update the dictionary and both totals exactly as the per-character step prescribes |
| WordStats.CountStep | Homework_7.py:36-42 | one more character bumps the total and the key for alphabetic characters, and the upper-case total for capitals only |
| WordStats.LetterCountsSumToTotal | Homework_7.py:37-42 | the per-letter counts add up to `total_letters` |
| WordStats.LetterCountIsOccurrences | Homework_7.py:41-42 | each letter's count is the number of alphabetic characters lower-casing to it |
| WordStats.AlphaHasKey | Homework_7.py:36-42 | every alphabetic character is counted under its lower-case form |
| WordStats.NoLettersNoStats | Homework_7.py:36-42 | the letter tally is empty exactly when the text has no alphabetic character |
| WordStats.UpperAreLetters | Homework_7.py:36-39 | there are never more upper-case letters than letters |
| WordStats.UppercaseWithinTotal | Homework_7.py:45-50 | the upper-case total is at most the letter total; the percentage lies in 0..100 and is 0 for a text without letters |
| WordStats.PercentageBounds | Homework_7.py:49 | a part no greater than the whole is between 0 and 100 percent |
| WordStats.PercentageOfWhole | Homework_7.py:69 | a whole is 100 percent of itself |
| WordStats.LetterKeysFromText | Homework_7.py:36-42 | every key is the lower-case form of an alphabetic character that occurs in the text |
| WordStats.AsciiLetterKeys | Homework_7.py:41-42 | for ASCII text every key is one of `a` to `z` |
| Tallies.TallyKeys | Homework_7.py:23 | the counted keys are exactly the words that occur |
| Tallies.TallyCounts | Homework_7.py:23 | `d[w] = d.get(w, 0) + 1` over a stream counts each word as often as it occurs |
| Tallies.TallySum | Homework_7.py:23 | the counts over the distinct keys add up to the length of the stream |
| Sorting.SortKeys | Homework_7.py:58 | `sorted` over the keys gives every key once, in strictly ascending order |
| Sorting.AscendingUnique | Homework_7.py:58 | there is only one strictly ascending listing of a set of keys |
| Sorting.AscendingLength | Homework_7.py:58 | the sorted listing has one entry per key |
| PyStrings.StrLessTotal | Homework_7.py:58 | string order is total on distinct strings, so `sorted` has a unique answer |
| PyStrings.StrLessTransitive | Homework_7.py:58 | string order is transitive |
| PyStrings.LinesRoundTrip | Homework_7.py:20 | iterating over a file's lines loses nothing: the lines concatenate back to the text |
| PyStrings.SplitKeepsCharacters | Homework_7.py:21 | `split()` only drops white space: the words concatenate to the text without its white space |
| PyStrings.SplitJoinRoundTrip | Homework_4.py:29-30 | splitting the space-joined words gives those words back |
| PyStrings.StripSpec | Homework_4.py:9 | `strip()` removes the white space at both ends and nothing else |
| PyStrings.JoinSplitOn | Homework_6.py:87 | joining the `split(';')` fields with `;` gives the line back |
| PyStrings.SplitJoinOn | Homework_6.py:87 | fields without `;` joined with `;` split back into the same fields |
| CsvReport.WriteWordCountToCsv | Homework_7.py:53-59 | the rows written are the header then `[word, count]` for each word in ascending order |
| CsvReport.WordCsvRoundTrip | Homework_7.py:57-59 | reading the data rows back gives exactly the word dictionary that was written |
| CsvReport.WordCsvOrdered | Homework_7.py:58-59 | the report has one row per word, in strictly ascending word order |
| CsvReport.WriteLetterStatisticsToCsv | Homework_7.py:62-70 | the rows written are the header then one four-column row per letter key, in ascending order |
| CsvReport.LetterCsvCounts | Homework_7.py:67-70 | one row per letter in ascending order, and each `Count_All` is that letter's number of occurrences in the text |
| CsvReport.CountUppercaseZeroForAscii | Homework_7.py:68-69 | for ASCII text every `Count_Uppercase` is 0 and every percentage is 0, whatever the text |
| CsvReport.MixedCaseCountsOneUppercase | Homework_7.py:36-42 | for a text such as `Aa` the global upper-case total is 1 and the letter's count is 2 |
| CsvReport.MixedCaseReportsNoUppercase | Homework_7.py:66-70 | the report of `Aa` is the header and the row `a, 2, 0, 0.0` |
| CsvReport.CaselessLetterReportedUppercase | Homework_7.py:68-69 | a caseless letter such as U+00AA is its own upper-case form, so its row reports all of its occurrences as upper case, 100 percent |
| Engine.Recreated | Homework_7.py:73-92 | a missing input changes nothing; only the two report paths are written; reports are written exactly when the input exists, the word path has a directory part and both paths are strings; the letter report is of the text read again |
| Engine.RecreateCsvFiles | Homework_7.py:73-92 | the run's new file system and outcome are those `Recreated` states |
| Engine.RecreatedReports | Homework_7.py:86-90 | with distinct paths the input is unchanged and the two reports are the word and letter reports of the input text |
| Engine.RecreatedIdempotent | Homework_7.py:73-92 | running again on the result gives the same file system |
| Engine.DefaultRunWrites | Homework_7.py:95-97 | the script's own paths always have a directory part, so with the input present both reports are written |
| WinPath.ResolveInput | Homework_8.py:75 | an absolute path is used as it is; a plain relative name is placed in the default folder, and the result is then absolute |
| WinPath.DefaultFolderPaths | Homework_8.py:9-11 | every default path has a directory part and is absolute |
| WinPath.OtherDriveKept | Homework_8.py:75 | a drive-relative path such as `D:notes.txt` is not absolute and is still kept as it is |
| JsonIngest.OutputPaths | Homework_8.py:78-79 | a report path is the record's value for its key when present, else the default path |
| JsonIngest.ProcessRecord | Homework_8.py:64-81 | a record's effect is the one `RecordEffect` states: skipped without a truthy `input_file`, else the engine on the resolved path |
| JsonIngest.FileEffect | Homework_8.py:24-62 | a missing folder part, a missing file or a parse error changes nothing; a missing file is reported as such |
| JsonIngest.JsonFileProcessor.constructor | Homework_8.py:17-22 | an empty path means the default `input.json` |
| JsonIngest.JsonFileProcessor.ProcessFile | Homework_8.py:24-62 | the file system and outcome are the ones `FileEffect` states |
| JsonIngest.RunKeepsFiles | Homework_8.py:54-55 | processing records never deletes a file |
| JsonIngest.FileRemovedOnlyWhenConsumed | Homework_8.py:57-59 | the document is gone after a consumed run and still there after any other outcome |
| JsonIngest.ObjectRootIsOneRecord | Homework_8.py:44-49 | an object at the root is processed exactly like a one-element list |
| JsonIngest.RunInOrder | Homework_8.py:54-55 | records run in list order, and the ones after a raising record do not run |
| JsonIngest.SkippedRecordContinues | Homework_8.py:69-72 | a record without a truthy `input_file` changes nothing and the loop goes on |
| JsonIngest.NonObjectAborts | Homework_8.py:69 | a list element that is not an object raises on `.get`: the run stops there, the earlier records' effects stay and the document is kept |
| JsonIngest.ScalarRootProcessesNothing | Homework_8.py:50-52 | a root that is neither an object nor a list reports an error and changes nothing |
| XmlIngest.FindAll | Homework_9.py:44 | `findall('./record')` gives exactly the direct children with that tag |
| XmlIngest.Find | Homework_9.py:65 | `find` gives a child with that tag exactly when one exists |
| XmlIngest.OutputPath | Homework_9.py:66-67 | a report path is the child's text when the child exists, else the default |
| XmlIngest.ProcessRecord | Homework_9.py:59-76 | a record's effect is the one `RecordEffect` states |
| XmlIngest.FileEffect | Homework_9.py:24-57 | a missing folder part, a missing file or a parse error changes nothing; a missing file is reported as such |
| XmlIngest.XmlFileProcessor.constructor | Homework_9.py:17-22 | an empty path means the default `input.xml` |
| XmlIngest.XmlFileProcessor.ProcessFile | Homework_9.py:24-57 | the file system and outcome are the ones `FileEffect` states |
| XmlIngest.RunKeepsFiles | Homework_9.py:49-50 | processing records never deletes a file |
| XmlIngest.FileRemovedOnlyWhenConsumed | Homework_9.py:52-54 | the document is gone after a consumed run and still there after any other outcome |
| XmlIngest.RunInOrder | Homework_9.py:49-50 | records run in document order, and the ones after a raising record do not run |
| XmlIngest.EmptyInputSkipped | Homework_9.py:69-71 | a record whose `input_file` element is empty is skipped and the loop goes on |
| XmlIngest.MissingInputRaises | Homework_9.py:65 | a record without an `input_file` element raises, ending the run |
| XmlIngest.MissingInputElementAborts | Homework_9.py:56-57 | that exception aborts the file: the earlier records' effects stay and the document is kept |
| XmlIngest.NoRecordsKeepsFile | Homework_9.py:45-47 | a root without `record` children reports an error and changes nothing |
| StatsStore.UnknownColumn | Homework_10.py:95-96 | an insert resolves exactly when every named column is one of the table's |
| StatsStore.Insert | Homework_10.py:77 | a plain insert of an existing key fails; with `OR IGNORE` the existing row stays and a new key is added |
| StatsStore.InsertOrIgnore | Homework_10.py:77 | after `INSERT OR IGNORE` the key is present, the first stored row for it stays and every other row is unchanged |
| StatsStore.OrIgnoreNeverFails | Homework_10.py:81-82 | with `OR IGNORE` the UNIQUE constraint never raises, and a second insert of the same key is ignored |
| StatsStore.InsertAll | Homework_10.py:183-184 | inserting a dictionary keeps every stored row and adds the new keys with their values |
| StatsStore.InsertOrderIrrelevant | Homework_10.py:183-184 | inserts of distinct keys commute, so dictionary order does not matter |
| StatsStore.InsertAllAddsNothing | Homework_10.py:77 | inserting rows leaves the table as it was exactly when every key is already stored |
| StatsStore.InsertAllIdempotent | Homework_10.py:183-184 | inserting the same rows again changes nothing |
| StatsStore.LetterRecords | Homework_10.py:190-196 | one row per letter key, carrying the letter's count and the global upper-case total and percentage |
| StatsStore.LetterInsertAsWrittenFails | Homework_10.py:95-96 | the letter insert names a column `percentage` that the table lacks |
| StatsStore.LetterInsertResolves | Homework_10.py:60 | naming the table's own `percentage_uppercase` column resolves |
| StatsStore.DatabaseHandler.constructor | Homework_10.py:18-26 | the handler starts from the rows the database already holds |
| StatsStore.DatabaseHandler.InsertWordCount | Homework_10.py:68-82 | the word table becomes the insert-or-ignore of the row; the letter table is unchanged |
| StatsStore.DatabaseHandler.InsertLetterStatisticsAsWritten | Homework_10.py:84-101 | as written, the statement fails with an unknown-column error and no table changes |
| StatsStore.DatabaseHandler.InsertLetterStatistics | Homework_10.py:84-101 | with the table's column the letter table becomes the insert-or-ignore of the row |
| StatsStore.DatabaseHandler.InsertWordCounts | Homework_10.py:183-184 | the loop inserts every word of the dictionary |
| StatsStore.DatabaseHandler.InsertLetterRecords | Homework_10.py:190-196 | with the insert corrected, the loop inserts every letter row |
| StatsStore.RecreateCsvFiles | Homework_10.py:166-198 | with the letter insert corrected, the files and outcome are the Homework_7 engine's, and the tables are the stored rows plus this run's |
| StatsStore.RecreateCsvFilesAsWritten | Homework_10.py:166-198 | as written, the files are the Homework_7 engine's; the run ends with the unknown-column error once both reports are written and a letter was counted, and as the engine's run otherwise; the words are stored and the letter table is unchanged |
| StatsStore.AsWrittenRaisesOnLetters | Homework_10.py:188-196 | as written, a run that writes both reports raises `OperationalError('percentage')` exactly when the text read for the letters has an alphabetic character; any other run ends as the engine's |
| StatsStore.AsWrittenLosesLetters | Homework_10.py:183-196 | as written, the word table is the corrected run's and the letter table never changes, so it misses exactly the letters the corrected run would add |
| StatsStore.StoredKeepsRows | Homework_10.py:183-196 | a run never removes or changes a stored row, whatever its outcome |
| StatsStore.StoredFollowsReports | Homework_10.py:168-196 | with the letter insert corrected: nothing is inserted without the input; a run that writes both reports stores every counted word and letter, and new letters with their counts and the global totals |
| StatsStore.StoredIdempotent | Homework_10.py:183-196 | a second run on the result stores nothing new |
| DictMerge.MergeDictsWithIndex | Homework_4.py:98-118 | the nested loop gives the merge of the dicts in list order |
| DictMerge.MergeItemLookup | Homework_4.py:108-117 | merging one item changes that key's entry only as `Combine` prescribes |
| DictMerge.MergeItemsLookup | Homework_4.py:108-117 | merging one dict combines each key's entry with that dict's value under the dict's index |
| DictMerge.MergedUnique | Homework_4.py:106-118 | the merged dict has each key once |
| DictMerge.MergedSpec | Homework_4.py:106-118 | a key is merged exactly when some dict holds it, and its entry is the key's maximum and the 1-based index of the first dict holding it |
| DictMerge.Occurrences | Homework_4.py:133 | the duplicate count is at most the number of dicts |
| DictMerge.OccurrencesMeaning | Homework_4.py:133 | a key counts as a duplicate exactly when two different dicts hold it |
| DictMerge.RenameDuplicateKeys | Homework_4.py:121-140 | the loop assigns each merged entry under its new key, a later item overwriting an equal key |
| DictMerge.RenamedKeys | Homework_4.py:130-139 | the result holds exactly the new keys of the merged entries |
| DictMerge.RenamedExact | Homework_4.py:130-139 | when new keys do not collide, each merged entry gives one item, in order, with its value |
| DictMerge.NoUnderscoreNoCollision | Homework_4.py:136 | for keys without `_`, distinct keys get distinct new keys |
| DictMerge.ProcessDictsList | Homework_4.py:143-158 | the result is the merge followed by the renaming |
| DictMerge.ProcessedSpec | Homework_4.py:143-158 | for keys without `_`: one item per key of any dict with its maximum, under `key_index` of the first dict holding the maximum exactly when two dicts hold it |
| DictMerge.ExampleMerged | Homework_4.py:162-166 | the example list merges to a 10 from dict 3, b 7 from 1, c 35 from 2, g 42 from 2, x 50 from 3 |
| DictMerge.ExampleOccurrences | Homework_4.py:133 | in the example, `a` is in 3 dicts, `b` in 2, the rest in 1 |
| DictMerge.ExampleResult | Homework_4.py:169 | the example gives `{'a_3': 10, 'b_1': 7, 'c': 35, 'g': 42, 'x': 50}` |
| DictMerge.MergeScript | Homework_2.py:33-60 | the script's two loops on its own list give the same dictionary |
| TextFixes.RegexSplit | Homework_4.py:6 | `re.split` with a look-behind and `\s+` gives at least one piece |
| TextFixes.SplitPiecesEnd | Homework_4.py:6 | every piece but the last is non-empty and ends with a break character |
| TextFixes.SplitPiecesStart | Homework_4.py:6 | every piece but the first is empty or starts with a non-space (the whole white-space run is consumed) |
| TextFixes.SplitMaximal | Homework_4.py:6 | no piece contains another split point |
| TextFixes.SplitLastPiece | Homework_4.py:36 | the last piece is a suffix of the text, and it is empty only when the text is empty or ends in white space |
| TextFixes.FoldSplit | Homework_4.py:6 | splitting only removes white space |
| TextFixes.Capitalize | Homework_4.py:29 | `capitalize()` keeps the length, leaves no lower-case first letter and no upper-case later letter |
| TextFixes.NormalizeCases | Homework_4.py:5-13 | the loop gives the sentences in normal case joined by single spaces |
| TextFixes.NormalizedKeepsLetters | Homework_4.py:5-13 | normalisation changes only letter case and white space |
| TextFixes.NormalizedShape | Homework_4.py:11-13 | the result is sentences, each upper-case first and lower-case after, joined by single spaces |
| TextFixes.FixIzSpec | Homework_4.py:17-18 | every `iz` standing as a word becomes `is` and every other character is kept |
| TextFixes.FixIzLeavesNone | Homework_4.py:17-18 | afterwards no `iz` stands as a word |
| TextFixes.FixIzIdempotent | Homework_4.py:17-18 | fixing twice is fixing once |
| TextFixes.FixSpacingNoNewGlue | Homework_4.py:22-23 | the fix never creates a new `Fix“` at the start |
| TextFixes.FixSpacingLeavesNone | Homework_4.py:22-23 | no `Fix“` is left anywhere in the result |
| TextFixes.FixSpacingIdempotent | Homework_4.py:22-23 | fixing twice is fixing once |
| TextFixes.FixSpacingKeepsText | Homework_4.py:22-23 | the fix only inserts white space |
| TextFixes.StripDots | Homework_4.py:29 | `strip(".")` leaves no dot at either end and adds no white space |
| TextFixes.LastWord | Homework_4.py:29 | the last word of a non-blank sentence contains no white space |
| TextFixes.LastWords | Homework_4.py:29 | at most one word per sentence, none containing white space |
| TextFixes.AddLastWordsSpec | Homework_4.py:27-31 | the result is the text, a space, the last words joined by spaces, and a period; the words split back out of the new sentence |
| TextFixes.FixThirdSentence | Homework_4.py:35-41 | the loop gives the pieces stripped, the third one upper-cased first, joined by spaces, or the `IndexError` |
| TextFixes.ThirdFixedFails | Homework_4.py:40 | the fix raises only when there are exactly three pieces and the text ends in white space |
| TextFixes.AddLastWordsThenThirdFixed | Homework_3.py:36-48 | after the sentence of last words is appended the third-sentence fix never raises |
| TextFixes.ThirdFixedKeepsLetters | Homework_4.py:35-41 | the fix changes only letter case and white space |
| TextFixes.CountWhitespace | Homework_4.py:45-46 | the count is at most the length of the text |
| TextFixes.CountWhitespaceSpec | Homework_3.py:51 | the count is the number of characters that removing the white space drops |
| TextFixes.ProcessText | Homework_4.py:50-69 | the pipeline's result is the composition of the five steps and always succeeds; the count is of the original text |
| Dates.DaysInMonth | Homework_5.py:42 | months have 28 to 31 days |
| Dates.ParseDate | Homework_6.py:94 | a parsed date is a valid calendar date |
| Dates.ParseFormatRoundTrip | Homework_5.py:45 | parsing the `%Y-%m-%d` form of a date gives the date back |
| Dates.FormatDateShape | Homework_5.py:45 | the `%Y-%m-%d` form is ten characters: digits, with dashes at the fifth and eighth |
| Dates.FormatTimeShape | Homework_5.py:53 | the `%H:%M:%S` form is eight characters, digits and colons |
| Dates.YearLength | Homework_5.py:42 | a year has 366 days exactly when it is a leap year |
| Dates.OrdinalNextDay | Homework_5.py:42 | consecutive days have consecutive ordinals, so the difference counts calendar days |
| Dates.DaysLeftTomorrow | Homework_5.py:42 | `(expiration - now).days` for an expiration tomorrow is 1 exactly at midnight and 0 at any later time of day |
| Feed.NewsAt | Homework_5.py:29-32 | a news item keeps its text and city and stamps the clock's date |
| Feed.QuoteAt | Homework_5.py:50-53 | a quote keeps its text and author and stamps the time as `HH:MM:SS` |
| Feed.DashesSpec | Homework_5.py:35 | `'-'*50` is fifty dashes |
| Feed.EntryLines | Homework_5.py:34-56 | only the base record has no lines; an entry has four or five lines |
| Feed.Publish | Homework_5.py:24-25 | `publish` raises exactly for the base record |
| Feed.PublishEndsWithRule | Homework_6.py:66 | every entry ends with the 50-dash rule; the Homework_6 quote ends with the rule and a stray apostrophe |
| Feed.NewsReadBack | Homework_5.py:35 | a news entry of single-line fields splits back into its five lines |
| Feed.PrivateAdReadBack | Homework_5.py:45-46 | an ad entry shows the formatted expiration date, which parses back to the date, and the days left |
| Feed.QuoteReadBack | Homework_5.py:56 | a quote entry of single-line fields splits back into its four lines |
| Feed.NewsPublishInjective | Homework_5.py:35 | different single-line news items publish differently |
| Feed.Saved | Homework_5.py:13-17 | a file that cannot be opened changes nothing; otherwise only the feed file changes |
| Feed.NewsFeed.constructor | Homework_5.py:7-8 | a feed starts with an empty buffer |
| Feed.NewsFeed.AddRecord | Homework_5.py:10-11 | the record is appended to the buffer |
| Feed.NewsFeed.SaveToFile | Homework_5.py:13-17 | the disk is the one `Saved` states, and the buffer is emptied only when every record was written |
| Feed.SaveAppendsOnly | Homework_5.py:14-16 | saving only appends to the feed file |
| Feed.PublishedCompletes | Homework_5.py:15-16 | the write loop gets through every record exactly when none is a base record |
| Feed.PublishedStops | Homework_5.py:15-16 | after a `publish` raises, later records change nothing |
| Feed.PublishedStopsAtPlain | Homework_5.py:15-16 | the records before a base record are written, the ones after it are not |
| Feed.SaveInBatches | Homework_5.py:102 | saving two batches in turn is saving them together |
| Feed.SaveEmptyKeepsDisk | Homework_5.py:13-17 | saving an empty buffer leaves an existing feed file as it was |
| Feed.Dispatch | Homework_6.py:87-99 | an unknown tag is skipped; a known tag with fewer than three fields raises `IndexError`; an ad with a bad date raises `ValueError`; a record keeps the second field as its text |
| Feed.ExtraFieldsIgnored | Homework_6.py:92-97 | fields after the third are ignored |
| Feed.BlankLineSkipped | Homework_6.py:87-99 | a blank line has the empty tag and is skipped |
| Feed.PrivateAdLine | Homework_6.py:93-95 | a private-ad line with a formatted date gives an ad for that date |
| Feed.RunLines | Homework_6.py:85-99 | the loop never adds more records than there are lines |
| Feed.SkippedLineContinues | Homework_6.py:98-99 | a skipped line does not end the loop |
| Feed.RunLinesStops | Homework_6.py:108-109 | after a line raises, later lines are not looked at |
| Feed.AllLinesAdded | Homework_6.py:85-97 | when every line gives a record, the buffer gains them all, in line order |
| Feed.FileProcessor.constructor | Homework_6.py:73-74 | no path or the empty path means the default folder |
| Feed.FileProcessor.ProcessFile | Homework_6.py:76-109 | the disk, buffer and outcome are the ones `FileProcessed` states |
| Feed.FileProcessor.ReadRecords | Homework_6.py:84-99 | the buffer gains the records of the lines up to the first exception, which is returned |
| Feed.FileProcessor.AddLineRecord | Homework_6.py:87-99 | one line adds its record, is skipped, or raises |
| Feed.FileRemovedOnlyWhenProcessed | Homework_6.py:102-109 | the input is removed only after a complete run, which empties the buffer; otherwise the file stays and the buffer keeps its earlier records |
| Feed.RaisingLineKeepsFiles | Homework_6.py:108-109 | a raising line keeps the input file, writes nothing and leaves the earlier lines' records buffered |

## Left out

- FinalTask.py is not part of this model.
- File contents, directories and the feed file are values (`map`s from path to file). Opening,
  encodings, `os.makedirs` of a missing folder other than the empty one, and file-system errors other
  than those named are not modelled.
- `json.load` and `ET.parse` are not modelled. Their results (a decoded value, an element tree, or a
  parse failure) are parameters of `process_file`.
- `datetime.now()` is a parameter: a clock reading per record, or a function from line number to
  reading for `FileProcessor`.
- `strptime('%Y-%m-%d')` is modelled for four-digit years and one- or two-digit months and days. Its
  other leniencies (white space, other year widths) are not.
- The random dictionary generator (Homework_2.py:1-22) is not modelled: it only produces input.
- The interactive menus, `get_valid_date` and every `print` are I/O and are left out.
- Characters: ASCII plus the two caseless Latin-1 letters U+00AA and U+00BA.
  - Full Unicode case mapping, `isalpha` and `isupper` beyond that set are not modelled.
  - Python's white-space set is modelled in full.
- The `\b` of `\b[Ii][Zz]\b` is the ASCII word boundary (letters, digits, `_`). Python's Unicode
  word characters beyond the modelled set are not.
- CSV quoting, the `\r\n` line terminator and the text form of numbers in the report files are left
  out. A report is its sequence of rows of typed fields.
- Percentages are exact `real`s, not floating point.
- Reading a report file as input text gives the empty text in this model.
- A Homework_6 input path that names a folder is modelled as an unreadable file.
- `sqlite3` connection handling (`connect`, `commit`, `disconnect`) is not modelled. The two tables
  are maps from their UNIQUE column to the other columns, and the autoincrement `id` is left out.
- The Homework_10 letter insert spreads its SQL string literal over two lines with ordinary quotes,
  which Python rejects as written. The model assumes the statement text is as if on one line.
- StatsStore.RecreateCsvFiles, StatsStore.Stored, StatsStore.StoredFollowsReports,
  StatsStore.StoredIdempotent and StatsStore.DatabaseHandler.InsertLetterRecords: model the program
  with the letter insert corrected to `percentage_uppercase`, not as written. The program as written
  is `StatsStore.RecreateCsvFilesAsWritten`, `StatsStore.RunAsWritten` and `StatsStore.StoredAsWritten`.
- WinPath.IsAbs and WinPath.ResolveInput: follow `ntpath.isabs` of Python 3.12 and earlier, where a
  single leading separator (`\data\in.txt`) makes a path absolute. From Python 3.13 such a path without a drive
  is no longer absolute.
- PyStrings.Lines: splits at `\n` only. File contents are the text after universal-newline
  translation, so a `\r\n` or a lone `\r` in the file is taken to be a `\n` already.
- Feed.PrivateAdAt: has no contract of its own; the days-left arithmetic it uses is stated by
  `Dates.OrdinalNextDay` and `Dates.DaysLeftTomorrow`.

## Findings

| source | as written | input that shows it | evidently intended | confidence | as-written member | corrected member |
|---|---|---|---|---|---|---|
| Homework_10.py:95-96 | the letter insert names the column `percentage` | any letter insert, e.g. `('a', 2, 1, 50.0)` into the table created at Homework_10.py:54-62 | the table's `percentage_uppercase` column (Homework_10.py:60) | not executed | StatsStore.LetterInsertAsWrittenFails | StatsStore.LetterInsertResolves |
