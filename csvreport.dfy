/** The two CSV reports of the frequency engine (Homework_7 `write_word_count_to_csv` and
    `write_letter_statistics_to_csv`): a header row, then one row per dictionary key in
    ascending key order. */
module CsvReport {
  import opened Chars
  import opened PyStrings
  import opened Tallies
  import opened Sorting
  import opened WordStats

  /** One CSV cell, as the value handed to `csv.writer.writerow`. */
  datatype Field = Str(s: string) | Int(n: int) | Real(r: real)

  type Row = seq<Field>

  const WordHeader: Row := [Str("Word"), Str("Count")]

  const LetterHeader: Row :=
    [Str("Letter"), Str("Count_All"), Str("Count_Uppercase"), Str("Percentage_Uppercase")]

  /** The data rows for keys `ks`, one `[word, count]` row per key. */
  function WordRows(wordCount: map<string, nat>, ks: seq<string>): seq<Row>
    requires forall k :: k in ks ==> k in wordCount
  {
    seq(|ks|, i requires 0 <= i < |ks| => [Str(ks[i]), Int(wordCount[ks[i]])])
  }

  /** The word report: header, then the words in ascending order with their counts. */
  ghost function WordCsv(wordCount: map<string, nat>): seq<Row> {
    [WordHeader] + WordRows(wordCount, Ascending(wordCount.Keys))
  }

  /** `write_word_count_to_csv(word_count, csv_path)`: the rows written to the file. */
  method WriteWordCountToCsv(wordCount: map<string, nat>) returns (rows: seq<Row>)
    ensures rows == WordCsv(wordCount)
  {
    var words := SortKeys(wordCount.Keys);
    rows := [WordHeader];
    for i := 0 to |words|
      invariant rows == [WordHeader] + WordRows(wordCount, words[..i])
    {
      var word := words[i];
      rows := rows + [[Str(word), Int(wordCount[word])]];
    }
    assert words[..|words|] == words;
  }

  /** The dictionary a reader rebuilds from `[word, count]` data rows. */
  function ReadCounts(rows: seq<Row>): map<string, int> {
    if rows == [] then map[]
    else
      var m := ReadCounts(rows[..|rows| - 1]);
      var row := rows[|rows| - 1];
      if |row| == 2 && row[0].Str? && row[1].Int? then m[row[0].s := row[1].n] else m
  }

  lemma {:induction false} ReadWordRows(wordCount: map<string, nat>, ks: seq<string>)
    requires forall k :: k in ks ==> k in wordCount
    ensures ReadCounts(WordRows(wordCount, ks)) == map k | k in ks :: wordCount[k] as int
  {
    if ks != [] {
      var init := ks[..|ks| - 1];
      assert WordRows(wordCount, ks)[..|ks| - 1] == WordRows(wordCount, init);
      ReadWordRows(wordCount, init);
    }
  }

  /** The counts of a dictionary as plain integers. */
  function AsInts(m: map<string, nat>): map<string, int> {
    map k | k in m :: m[k] as int
  }

  /** Reading the word report back gives exactly the dictionary that was written: every
      word once, with its count. */
  lemma WordCsvRoundTrip(wordCount: map<string, nat>)
    ensures WordCsv(wordCount)[0] == WordHeader
    ensures ReadCounts(WordCsv(wordCount)[1..]) == AsInts(wordCount)
  {
    var ks := Ascending(wordCount.Keys);
    assert WordCsv(wordCount)[1..] == WordRows(wordCount, ks);
    ReadWordRows(wordCount, ks);
  }

  /** The word report has one row per word, in strictly ascending word order. */
  lemma WordCsvOrdered(wordCount: map<string, nat>)
    ensures |WordCsv(wordCount)| == |wordCount| + 1
    ensures forall i, j :: 1 <= i < j < |WordCsv(wordCount)| ==>
      StrLess(WordCsv(wordCount)[i][0].s, WordCsv(wordCount)[j][0].s)
  {
    AscendingLength(wordCount.Keys);
    assert |wordCount.Keys| == |wordCount|;
  }

  /** `stats['letter_stats'].get(letter.upper(), 0)` */
  function CountUppercase(letterStats: map<string, nat>, letter: string): nat {
    Get(letterStats, UpperStr(letter))
  }

  function LetterRow(letterStats: map<string, nat>, letter: string): Row
    requires letter in letterStats
  {
    var count := letterStats[letter];
    var countUppercase := CountUppercase(letterStats, letter);
    [Str(letter), Int(count), Int(countUppercase), Real(Percentage(countUppercase, count))]
  }

  function LetterRows(letterStats: map<string, nat>, ks: seq<string>): seq<Row>
    requires forall k :: k in ks ==> k in letterStats
  {
    seq(|ks|, i requires 0 <= i < |ks| => LetterRow(letterStats, ks[i]))
  }

  /** The letter report: header, then one row per letter key in ascending order. */
  ghost function LetterCsv(stats: LetterStatistics): seq<Row> {
    [LetterHeader] + LetterRows(stats.letterStats, Ascending(stats.letterStats.Keys))
  }

  /** `write_letter_statistics_to_csv(stats, csv_path)`: the rows written to the file. */
  method WriteLetterStatisticsToCsv(stats: LetterStatistics) returns (rows: seq<Row>)
    ensures rows == LetterCsv(stats)
  {
    var letters := SortKeys(stats.letterStats.Keys);
    rows := [LetterHeader];
    for i := 0 to |letters|
      invariant rows == [LetterHeader] + LetterRows(stats.letterStats, letters[..i])
    {
      var letter := letters[i];
      var count := stats.letterStats[letter];
      var countUppercase := Get(stats.letterStats, UpperStr(letter));
      var percentageUppercase := if count != 0 then countUppercase as real / count as real * 100.0 else 0.0;
      rows := rows + [[Str(letter), Int(count), Int(countUppercase), Real(percentageUppercase)]];
    }
    assert letters[..|letters|] == letters;
  }

  /** The letter report has one row per letter key, in ascending order, and each row's
      count is the number of alphabetic characters lower-casing to that key. */
  lemma LetterCsvCounts(text: string)
    ensures var stats := LetterStatisticsOf(text);
      var rows := LetterCsv(stats);
      && |rows| == |stats.letterStats| + 1
      && (forall i :: 1 <= i < |rows| ==>
            rows[i][0].Str? && rows[i][1] == Int(multiset(LetterKeys(text))[rows[i][0].s]))
      && (forall i, j :: 1 <= i < j < |rows| ==> StrLess(rows[i][0].s, rows[j][0].s))
  {
    var stats := LetterStatisticsOf(text);
    var m := stats.letterStats;
    AscendingLength(m.Keys);
    assert |m.Keys| == |m|;
    var ks := Ascending(m.Keys);
    var rows := LetterCsv(stats);
    forall i | 1 <= i < |rows|
      ensures rows[i][0] == Str(ks[i - 1])
      ensures rows[i][1] == Int(multiset(LetterKeys(text))[ks[i - 1]])
    {
      var k := ks[i - 1];
      assert k in m;
      assert rows[i] == LetterRow(m, k);
      LetterCountIsOccurrences(text, k);
    }
  }

  /** As written, the `Count_Uppercase` column looks up the upper-case form of a key that
      is already lower case. For ASCII text that key never exists, so every row reports
      0 upper-case letters and 0 percent, whatever the text holds. */
  lemma CountUppercaseZeroForAscii(text: string)
    requires IsAscii(text)
    ensures var rows := LetterCsv(LetterStatisticsOf(text));
      forall i :: 1 <= i < |rows| ==> rows[i][2] == Int(0) && rows[i][3] == Real(0.0)
  {
    var stats := LetterStatisticsOf(text);
    var ks := Ascending(stats.letterStats.Keys);
    forall i | 0 <= i < |ks| ensures CountUppercase(stats.letterStats, ks[i]) == 0 {
      var k := ks[i];
      AsciiLetterKeys(text, k);
      var u := UpperStr(k);
      assert IsAsciiUpper(u[0]);
      assert u !in stats.letterStats by {
        if u in stats.letterStats {
          AsciiLetterKeys(text, u);
          assert false;
        }
      }
    }
  }

  /** The global counter does see the capital of a text such as "Aa" ... */
  lemma MixedCaseCountsOneUppercase(l: char)
    requires IsAsciiLower(l)
    ensures var stats := LetterStatisticsOf([Upper(l), l]);
      stats.totalUppercaseLetters == 1 && stats.letterStats == map[[l] := 2]
  {
    var u := Upper(l);
    assert Lower(u) == l && IsUpper(u) && !IsUpper(l);
    var c0: (map<string, nat>, nat, nat) := (map[], 0, 0);
    assert Counts([]) == c0;
    var c1 := Bump(c0, u);
    assert c1 == (map[[l] := 1], 1, 1);
    var c2 := Bump(c1, l);
    assert Get(c1.0, [l]) == 1;
    assert c1.0[[l] := 2] == map[[l] := 2];
    assert c2 == (map[[l] := 2], 2, 1);
    assert [u] == [] + [u];
    CountStep([], u);
    assert [u, l] == [u] + [l];
    CountStep([u], l);
    assert Counts([u, l]) == c2;
  }

  /** ... while the report row for its letter says none of the 2 letters is upper case. */
  lemma MixedCaseReportsNoUppercase(l: char)
    requires IsAsciiLower(l)
    ensures LetterCsv(LetterStatisticsOf([Upper(l), l])) == [LetterHeader, [Str([l]), Int(2), Int(0), Real(0.0)]]
  {
    MixedCaseCountsOneUppercase(l);
    var m := map[[l] := 2];
    assert m.Keys == {[l]};
    var ks := Ascending({[l]});
    AscendingUnique(ks, [[l]]);
    assert UpperStr([l]) == [Upper(l)];
    assert [Upper(l)] != [l];
    assert CountUppercase(m, [l]) == 0;
    assert Percentage(0, 2) == 0.0;
    assert LetterRows(m, ks) == [LetterRow(m, [l])];
  }

  /** A caseless letter such as U+00AA is its own upper-case form, so its row counts every
      occurrence as upper case: 100 percent. */
  lemma CaselessLetterReportedUppercase(text: string)
    requires '\U{AA}' in text
    ensures var stats := LetterStatisticsOf(text);
      var rows := LetterCsv(stats);
      exists i :: 1 <= i < |rows| && rows[i][0] == Str("\U{AA}") && rows[i][1] == rows[i][2]
        && rows[i][3] == Real(100.0)
  {
    var stats := LetterStatisticsOf(text);
    var m := stats.letterStats;
    var k := "\U{AA}";
    var j :| 0 <= j < |text| && text[j] == '\U{AA}';
    AlphaKeyed(text, j);
    TallyHas(LetterKeys(text), k);
    LetterCountIsOccurrences(text, k);
    assert m[k] > 0;
    CaselessRow(m, k);
    var ks := Ascending(m.Keys);
    var i :| 0 <= i < |ks| && ks[i] == k;
    var rows := LetterCsv(stats);
    var data := LetterRows(m, ks);
    assert rows == [LetterHeader] + data;
    assert data[i] == LetterRow(m, k);
    assert rows[i + 1] == data[i];
  }

  /** The row of a key that is its own upper-case form. */
  lemma CaselessRow(m: map<string, nat>, k: string)
    requires k in m && m[k] > 0 && k == "\U{AA}"
    ensures LetterRow(m, k) == [Str(k), Int(m[k]), Int(m[k]), Real(100.0)]
  {
    assert UpperStr(k) == k;
    PercentageOfWhole(m[k]);
  }

  /** Every alphabetic character of the text is counted under its lower-case form. */
  lemma {:induction false} AlphaKeyed(s: string, j: nat)
    requires j < |s| && IsAlpha(s[j])
    ensures [Lower(s[j])] in LetterKeys(s)
  {
    if j < |s| - 1 {
      AlphaKeyed(s[..|s| - 1], j);
    }
  }
}
