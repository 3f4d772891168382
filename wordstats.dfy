/** The frequency engine shared by Homework_7 to Homework_10: text normalisation, the
    word tally and the letter tally with its global upper-case counters. */
module WordStats {
  import opened Chars
  import opened PyStrings
  import opened Tallies
  import opened Sorting

  /** `text.translate(str.maketrans("", "", string.punctuation))` */
  function DeletePunct(s: string): string {
    if s == [] then []
    else (if IsPunct(s[0]) then [] else [s[0]]) + DeletePunct(s[1..])
  }

  /** No ASCII punctuation is left, and a text without ASCII capitals keeps none. */
  lemma {:induction false} DeletePunctClean(s: string)
    ensures forall i :: 0 <= i < |DeletePunct(s)| ==> !IsPunct(DeletePunct(s)[i])
    ensures (forall i :: 0 <= i < |s| ==> !IsAsciiUpper(s[i]))
        ==> forall i :: 0 <= i < |DeletePunct(s)| ==> !IsAsciiUpper(DeletePunct(s)[i])
  {
    if s != [] {
      DeletePunctClean(s[1..]);
    }
  }

  /** `preprocess_text(text)`: lower-cased, ASCII punctuation deleted, stripped. */
  function PreprocessText(text: string): string {
    Strip(DeletePunct(LowerStr(text)))
  }

  /** The normalised text holds no ASCII punctuation, no ASCII capital and no white
      space at either end. */
  lemma PreprocessTextClean(text: string)
    ensures var r := PreprocessText(text);
      && (forall i :: 0 <= i < |r| ==> !IsPunct(r[i]) && !IsAsciiUpper(r[i]))
      && (r == [] || (!IsSpace(r[0]) && !IsSpace(r[|r| - 1])))
  {
    var d := DeletePunct(LowerStr(text));
    var r := Strip(d);
    StripSpec(d);
    DeletePunctClean(LowerStr(text));
    assert forall i :: 0 <= i < |r| ==> r[i] == d[StripStart(d) + i];
  }

  lemma {:induction false} DeletePunctKeeps(s: string, c: char)
    requires c in s && !IsPunct(c)
    ensures c in DeletePunct(s)
  {
    if s[0] != c {
      DeletePunctKeeps(s[1..], c);
    }
  }

  lemma StripKeeps(s: string, c: char)
    requires c in s && !IsSpace(c)
    ensures c in Strip(s)
  {
    var i :| 0 <= i < |s| && s[i] == c;
    var r := Strip(s);
    var a := StripStart(s);
    StripSpec(s);
    assert a <= i < a + |r|;
    assert r[i - a] == c;
  }

  /** Punctuation outside ASCII, such as the opening quotation mark, survives
      normalisation. */
  lemma OpeningQuoteKept(text: string)
    requires '\U{201C}' in text
    ensures '\U{201C}' in PreprocessText(text)
  {
    var i :| 0 <= i < |text| && text[i] == '\U{201C}';
    assert LowerStr(text)[i] == '\U{201C}';
    DeletePunctKeeps(LowerStr(text), '\U{201C}');
    StripKeeps(DeletePunct(LowerStr(text)), '\U{201C}');
  }

  /** The words one line contributes: `preprocess_text(line).split()`. */
  function LineWords(line: string): seq<string> {
    Split(PreprocessText(line))
  }

  /** `f` applied to every element, the results concatenated in order. */
  function FlatMap(f: string -> seq<string>, xs: seq<string>): seq<string> {
    if xs == [] then [] else FlatMap(f, xs[..|xs| - 1]) + f(xs[|xs| - 1])
  }

  /** All words of the file, line after line, in reading order. */
  function AllWords(lines: seq<string>): seq<string> {
    FlatMap(LineWords, lines)
  }

  /** The dictionary `calculate_word_count` returns. */
  function WordCount(lines: seq<string>): map<string, nat> {
    Tally(AllWords(lines))
  }

  /** `calculate_word_count(file_path)` over the lines of the file. */
  method CalculateWordCount(lines: seq<string>) returns (wordCount: map<string, nat>)
    ensures wordCount == WordCount(lines)
  {
    wordCount := map[];
    ghost var seen: seq<string> := [];
    for i := 0 to |lines|
      invariant seen == AllWords(lines[..i])
      invariant wordCount == Tally(seen)
    {
      var words := LineWords(lines[i]);
      wordCount := CountLineWords(wordCount, seen, words);
      AllWordsStep(lines, i);
      seen := seen + words;
    }
    assert lines[..|lines|] == lines;
  }

  /** The inner loop of `calculate_word_count`: the words of one line are counted into
      the dictionary built so far. */
  method CountLineWords(wordCount0: map<string, nat>, ghost seen0: seq<string>, words: seq<string>)
    returns (wordCount: map<string, nat>)
    requires wordCount0 == Tally(seen0)
    ensures wordCount == Tally(seen0 + words)
  {
    wordCount := wordCount0;
    assert seen0 + words[..0] == seen0;
    for j := 0 to |words|
      invariant wordCount == Tally(seen0 + words[..j])
    {
      var word := words[j];
      TallyStep(seen0, words, j);
      wordCount := wordCount[word := Get(wordCount, word) + 1];
    }
    assert words[..|words|] == words;
  }

  lemma FlatMapStep(f: string -> seq<string>, xs: seq<string>, i: nat)
    requires i < |xs|
    ensures FlatMap(f, xs[..i + 1]) == FlatMap(f, xs[..i]) + f(xs[i])
  {
    assert xs[..i + 1][..i] == xs[..i];
  }

  lemma AllWordsStep(lines: seq<string>, i: nat)
    requires i < |lines|
    ensures AllWords(lines[..i + 1]) == AllWords(lines[..i]) + LineWords(lines[i])
  {
    FlatMapStep(LineWords, lines, i);
  }

  lemma SplitCharsFrom(s: string, w: string, c: char)
    requires w in Split(s) && c in w
    ensures c in s
    decreases |s|
  {
    if s != [] {
      if IsSpace(s[0]) {
        SplitCharsFrom(s[1..], w, c);
      } else {
        var n := WordLength(s);
        if w != s[..n] {
          assert w in Split(s[n..]);
          SplitCharsFrom(s[n..], w, c);
        }
      }
    }
  }

  lemma {:induction false} FlatMapFrom(f: string -> seq<string>, xs: seq<string>, w: string)
    requires w in FlatMap(f, xs)
    ensures exists i :: 0 <= i < |xs| && w in f(xs[i])
  {
    var init := xs[..|xs| - 1];
    if w in FlatMap(f, init) {
      FlatMapFrom(f, init, w);
      var i :| 0 <= i < |init| && w in f(init[i]);
      assert xs[i] == init[i];
    }
  }

  /** Every word key is non-empty and holds no white space, no ASCII punctuation and
      no ASCII capital letter. */
  lemma WordKeysNormalised(lines: seq<string>, w: string)
    requires w in WordCount(lines)
    ensures w != [] && NoSpace(w)
    ensures forall j :: 0 <= j < |w| ==> !IsPunct(w[j]) && !IsAsciiUpper(w[j])
  {
    TallyKeys(AllWords(lines));
    FlatMapFrom(LineWords, lines, w);
    var i :| 0 <= i < |lines| && w in LineWords(lines[i]);
    var p := PreprocessText(lines[i]);
    PreprocessTextClean(lines[i]);
    var k :| 0 <= k < |Split(p)| && Split(p)[k] == w;
    forall j | 0 <= j < |w| ensures !IsPunct(w[j]) && !IsAsciiUpper(w[j]) {
      SplitCharsFrom(p, w, w[j]);
    }
  }

  /** Each word's count is its number of occurrences among all the words of the file. */
  lemma WordCountIsOccurrences(lines: seq<string>, w: string)
    ensures Get(WordCount(lines), w) == multiset(AllWords(lines))[w]
  {
    TallyCounts(AllWords(lines), w);
  }

  /** The counts add up to the number of words in the file. */
  lemma WordCountsSumToWords(lines: seq<string>)
    ensures SumOver(Ascending(WordCount(lines).Keys), WordCount(lines)) == |AllWords(lines)|
  {
    var ks := Ascending(WordCount(lines).Keys);
    AscendingDistinct(ks);
    TallyKeys(AllWords(lines));
    TallySum(AllWords(lines), ks);
  }

  /** The result `calculate_letter_statistics` returns. */
  datatype LetterStatistics = LetterStatistics(
    letterStats: map<string, nat>,
    totalLetters: nat,
    totalUppercaseLetters: nat,
    uppercasePercentage: real)

  /** The alphabetic characters of `s`, in order. */
  function Letters(s: string): (r: string)
    ensures forall i :: 0 <= i < |r| ==> IsAlpha(r[i])
    ensures forall c :: c in r ==> c in s
  {
    if s == [] then []
    else Letters(s[..|s| - 1]) + (if IsAlpha(s[|s| - 1]) then [s[|s| - 1]] else [])
  }

  /** The dictionary keys the letters of `s` are counted under: `char.lower()`. */
  function LetterKeys(s: string): seq<string> {
    if s == [] then []
    else LetterKeys(s[..|s| - 1]) + (if IsAlpha(s[|s| - 1]) then [[Lower(s[|s| - 1])]] else [])
  }

  /** The keys are the letters lower-cased, one for one. */
  lemma {:induction false} LetterKeysOfLetters(s: string)
    ensures |LetterKeys(s)| == |Letters(s)|
    ensures forall i :: 0 <= i < |LetterKeys(s)| ==> LetterKeys(s)[i] == [Lower(Letters(s)[i])]
  {
    if s != [] {
      LetterKeysOfLetters(s[..|s| - 1]);
    }
  }

  /** The number of upper-case characters of `s`. */
  function CountUpper(s: string): nat {
    if s == [] then 0 else CountUpper(s[..|s| - 1]) + (if IsUpper(s[|s| - 1]) then 1 else 0)
  }

  /** `part / whole * 100`, and 0 when `whole` is 0. */
  function Percentage(part: nat, whole: nat): real {
    if whole == 0 then 0.0 else part as real / whole as real * 100.0
  }

  /** The statistics of a whole text. */
  function LetterStatisticsOf(text: string): LetterStatistics {
    LetterStatistics(
      Tally(LetterKeys(text)),
      |Letters(text)|,
      CountUpper(text),
      Percentage(CountUpper(text), |Letters(text)|))
  }

  /** `calculate_letter_statistics(file_path)` over the lines of the file. */
  method CalculateLetterStatistics(lines: seq<string>) returns (stats: LetterStatistics)
    ensures stats == LetterStatisticsOf(Concat(lines))
  {
    var letterStats: map<string, nat> := map[];
    var totalLetters := 0;
    var totalUppercaseLetters := 0;
    for i := 0 to |lines|
      invariant (letterStats, totalLetters, totalUppercaseLetters) == Counts(Concat(lines[..i]))
    {
      letterStats, totalLetters, totalUppercaseLetters :=
        CountLineLetters(letterStats, totalLetters, totalUppercaseLetters, Concat(lines[..i]), lines[i]);
      assert lines[..i + 1][..i] == lines[..i];
    }
    assert lines[..|lines|] == lines;
    stats := LetterStatistics(letterStats, totalLetters, totalUppercaseLetters,
                              Percentage(totalUppercaseLetters, totalLetters));
  }

  /** The dictionary and the two totals for the text `s`. */
  function Counts(s: string): (map<string, nat>, nat, nat) {
    (Tally(LetterKeys(s)), |Letters(s)|, CountUpper(s))
  }

  /** What one character does to the dictionary and the two totals. */
  function Bump(counts: (map<string, nat>, nat, nat), c: char): (map<string, nat>, nat, nat) {
    var (m, letters, upper) := counts;
    if IsAlpha(c) then (m[[Lower(c)] := Get(m, [Lower(c)]) + 1], letters + 1, if IsUpper(c) then upper + 1 else upper)
    else counts
  }

  /** The inner loop of `calculate_letter_statistics`: the characters of one line are
      counted into the dictionary and the two totals. */
  method CountLineLetters(letterStats0: map<string, nat>, totalLetters0: nat, totalUppercaseLetters0: nat,
                          ghost before: string, line: string)
    returns (letterStats: map<string, nat>, totalLetters: nat, totalUppercaseLetters: nat)
    requires (letterStats0, totalLetters0, totalUppercaseLetters0) == Counts(before)
    ensures (letterStats, totalLetters, totalUppercaseLetters) == Counts(before + line)
  {
    letterStats, totalLetters, totalUppercaseLetters := letterStats0, totalLetters0, totalUppercaseLetters0;
    ghost var seen := before;
    for j := 0 to |line|
      invariant seen == before + line[..j]
      invariant (letterStats, totalLetters, totalUppercaseLetters) == Counts(seen)
    {
      var c := line[j];
      ghost var counts := (letterStats, totalLetters, totalUppercaseLetters);
      if IsAlpha(c) {
        totalLetters := totalLetters + 1;
        if IsUpper(c) {
          totalUppercaseLetters := totalUppercaseLetters + 1;
        }
        var charLower := [Lower(c)];
        letterStats := letterStats[charLower := Get(letterStats, charLower) + 1];
      }
      assert (letterStats, totalLetters, totalUppercaseLetters) == Bump(counts, c);
      CountStep(seen, c);
      seen := seen + [c];
      assert line[..j + 1] == line[..j] + [c];
    }
    assert line[..|line|] == line;
  }

  /** One character of the inner loop: an alphabetic one bumps its lower-case key and the
      letter total, and an upper-case one (always alphabetic) the upper-case total. */
  lemma CountStep(seen: string, c: char)
    ensures Counts(seen + [c]) == Bump(Counts(seen), c)
  {
    var t := seen + [c];
    assert t[..|seen|] == seen && t[|seen|] == c;
    var keys := LetterKeys(seen);
    if IsAlpha(c) {
      assert LetterKeys(t) == keys + [[Lower(c)]];
      TallyAppend(keys, [Lower(c)]);
    } else {
      assert LetterKeys(t) == keys + [];
      assert keys + [] == keys;
    }
  }

  /** The per-letter counts add up to the number of alphabetic characters. */
  lemma LetterCountsSumToTotal(text: string)
    ensures var stats := LetterStatisticsOf(text);
      SumOver(Ascending(stats.letterStats.Keys), stats.letterStats) == stats.totalLetters
  {
    var stats := LetterStatisticsOf(text);
    var ks := Ascending(stats.letterStats.Keys);
    AscendingDistinct(ks);
    TallyKeys(LetterKeys(text));
    TallySum(LetterKeys(text), ks);
    LetterKeysOfLetters(text);
  }

  /** Each letter's count is the number of alphabetic characters that lower-case to it. */
  lemma LetterCountIsOccurrences(text: string, k: string)
    ensures Get(LetterStatisticsOf(text).letterStats, k) == multiset(LetterKeys(text))[k]
  {
    TallyCounts(LetterKeys(text), k);
  }

  lemma {:induction false} UpperAreLetters(s: string)
    ensures CountUpper(s) <= |Letters(s)|
  {
    if s != [] {
      UpperAreLetters(s[..|s| - 1]);
    }
  }

  /** The upper-case total never exceeds the letter total, so the global percentage lies
      between 0 and 100, and it is 0 for a text without letters. */
  lemma UppercaseWithinTotal(text: string)
    ensures var stats := LetterStatisticsOf(text);
      && stats.totalUppercaseLetters <= stats.totalLetters
      && 0.0 <= stats.uppercasePercentage <= 100.0
      && (stats.totalLetters == 0 ==> stats.uppercasePercentage == 0.0)
  {
    UpperAreLetters(text);
    PercentageBounds(CountUpper(text), |Letters(text)|);
  }

  lemma PercentageBounds(part: nat, whole: nat)
    requires part <= whole
    ensures 0.0 <= Percentage(part, whole) <= 100.0
  {
    if whole != 0 {
      var q := part as real / whole as real;
      assert q * whole as real == part as real;
      assert q <= 1.0;
    }
  }

  lemma PercentageOfWhole(n: nat)
    requires n > 0
    ensures Percentage(n, n) == 100.0
  {
    var r := n as real;
    assert r / r == 1.0;
  }

  /** Every letter key is the lower-case form of an alphabetic character of the text. */
  lemma LetterKeysFromText(text: string, k: string)
    requires k in LetterStatisticsOf(text).letterStats
    ensures exists i :: 0 <= i < |text| && IsAlpha(text[i]) && k == [Lower(text[i])]
  {
    var ks := LetterKeys(text);
    LetterKeysOfLetters(text);
    TallyKeys(ks);
    var j :| 0 <= j < |ks| && ks[j] == k;
    var c := Letters(text)[j];
    assert c in Letters(text);
    var i :| 0 <= i < |text| && text[i] == c;
  }

  /** An alphabetic character is counted under its lower-case form. */
  lemma {:induction false} AlphaHasKey(text: string, i: int)
    requires 0 <= i < |text| && IsAlpha(text[i])
    ensures [Lower(text[i])] in LetterKeys(text)
    decreases |text|
  {
    var n := |text| - 1;
    if i < n {
      AlphaHasKey(text[..n], i);
    }
  }

  /** The letter tally is empty exactly when the text has no alphabetic character. */
  lemma NoLettersNoStats(text: string)
    ensures LetterStatisticsOf(text).letterStats == map[]
        <==> forall i :: 0 <= i < |text| ==> !IsAlpha(text[i])
  {
    var stats := LetterStatisticsOf(text).letterStats;
    if i :| 0 <= i < |text| && IsAlpha(text[i]) {
      AlphaHasKey(text, i);
      TallyHas(LetterKeys(text), [Lower(text[i])]);
      assert [Lower(text[i])] in stats;
    } else if stats != map[] {
      var k :| k in stats;
      LetterKeysFromText(text, k);
    }
  }

  predicate IsAscii(text: string) {
    forall i :: 0 <= i < |text| ==> text[i] < '\U{80}'
  }

  /** For ASCII input every letter key is one of `a` to `z`. */
  lemma AsciiLetterKeys(text: string, k: string)
    requires IsAscii(text)
    requires k in LetterStatisticsOf(text).letterStats
    ensures |k| == 1 && IsAsciiLower(k[0])
  {
    LetterKeysFromText(text, k);
  }
}
