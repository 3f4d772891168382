/** Homework_5 and Homework_6: a news feed that buffers records, publishes each record
    kind in its own text layout and appends the buffer to one feed file; and (Homework_6
    only) a processor that reads records from a semicolon-separated input file, feeds
    them through the buffer and removes the input file once it has been saved. The disk
    is a value, the clock a parameter. */
module Feed {
  import opened Chars
  import opened PyStrings
  import opened Wrappers
  import opened WinPath
  import opened Dates

  /** A date `datetime` can hold. */
  type CalendarDate = d: Date | ValidDate(d) witness Date(1, 1, 1)

  /** A reading of `datetime.now()`. */
  type Clock = t: DateTime | ValidDateTime(t) witness DateTime(Date(1, 1, 1), 0, 0, 0, 0)

  /** The record kinds; the timestamps are the values the constructors computed from the
      clock. `Plain` is the base `Record`. */
  datatype Record =
    | Plain(text: string)
    | News(text: string, city: string, publishDate: string)
    | PrivateAd(text: string, expiration: CalendarDate, daysLeft: int)
    | MotivationalQuote(text: string, author: string, publishTime: string)

  /** `News(text, city)` at clock reading `now`. */
  function NewsAt(text: string, city: string, now: Clock): (r: Record)
    ensures r.News? && r.text == text && r.city == city
    ensures |r.publishDate| == 19 && ParseDate(r.publishDate[..10]) == Some(now.date)
  {
    FormatDateShape(now.date);
    FormatTimeShape(now);
    ParseFormatRoundTrip(now.date);
    assert FormatDateTime(now)[..10] == FormatDate(now.date);
    News(text, city, FormatDateTime(now))
  }

  /** `PrivateAd(text, expiration_date)` at clock reading `now`. */
  function PrivateAdAt(text: string, expiration: CalendarDate, now: Clock): Record {
    PrivateAd(text, expiration, DaysLeft(expiration, now))
  }

  /** `MotivationalQuote(text, author)` at clock reading `now`. */
  function QuoteAt(text: string, author: string, now: Clock): (r: Record)
    ensures r.MotivationalQuote? && r.text == text && r.author == author
    ensures |r.publishTime| == 8 && r.publishTime[2] == ':' && r.publishTime[5] == ':'
  {
    FormatTimeShape(now);
    MotivationalQuote(text, author, FormatTime(now))
  }

  /** The two copies of the program differ in one character: the Homework_6 quote ends
      with an apostrophe after the rule. */
  datatype Edition = Homework5 | Homework6

  datatype PublishError = NotImplemented

  /** `'-'*n` */
  function Dashes(n: nat): string {
    if n == 0 then "" else Dashes(n - 1) + "-"
  }

  lemma {:induction false} DashesSpec(n: nat)
    ensures |Dashes(n)| == n && forall i :: 0 <= i < n ==> Dashes(n)[i] == '-'
  {
    if n > 0 {
      DashesSpec(n - 1);
    }
  }

  /** The rule under every entry. */
  const Rule: string := Dashes(50)

  /** The lines of a record's entry; `None` for the base record. The f-strings of the
      source are these lines separated by newlines. */
  function EntryLines(edition: Edition, record: Record): (ls: Option<seq<string>>)
    ensures ls.Some? <==> !record.Plain?
    ensures ls.Some? ==> 4 <= |ls.value| <= 5
  {
    match record
    case Plain(_) => None
    case News(text, city, date) =>
      Some(["News:", text, "City: " + city, "Published at: " + date, Rule])
    case PrivateAd(text, expiration, daysLeft) =>
      Some(["Private Ad:", text, "Expiration date: " + FormatDate(expiration),
            "Days left: " + IntToString(daysLeft), Rule])
    case MotivationalQuote(text, author, time) =>
      Some(["Motivational Quote:", "\"" + text + "\" - " + author, "Published at: " + time,
            if edition == Homework6 then Rule + "'" else Rule])
  }

  /** `record.publish()`: the base record raises `NotImplementedError`. */
  function Publish(edition: Edition, record: Record): (r: Result<string, PublishError>)
    ensures r.Failure? <==> record.Plain?
  {
    match EntryLines(edition, record)
    case None => Failure(NotImplemented)
    case Some(lines) => Success(JoinOn(lines, '\n'))
  }

  // ---------------------------------------------------------------------------
  // Reading a published entry back

  predicate OneLine(s: string) {
    '\n' !in s
  }

  /** A five-line entry is the f-string `a\nb\nc\nd\ne`. */
  lemma JoinFive(a: string, b: string, c: string, d: string, e: string)
    ensures JoinOn([a, b, c, d, e], '\n') == a + "\n" + (b + "\n" + (c + "\n" + (d + "\n" + e)))
  {
    assert JoinOn([d, e], '\n') == d + "\n" + e by {
      assert [d, e][1..] == [e];
    }
    assert JoinOn([c, d, e], '\n') == c + "\n" + (d + "\n" + e) by {
      assert [c, d, e][1..] == [d, e];
    }
    assert JoinOn([b, c, d, e], '\n') == b + "\n" + (c + "\n" + (d + "\n" + e)) by {
      assert [b, c, d, e][1..] == [c, d, e];
    }
    assert [a, b, c, d, e][1..] == [b, c, d, e];
  }

  /** The joined text ends with the last piece. */
  lemma {:induction false} JoinOnEndsWithLast(ps: seq<string>, sep: char)
    requires ps != []
    ensures var s := JoinOn(ps, sep); var last := ps[|ps| - 1];
      |last| <= |s| && s[|s| - |last|..] == last
    decreases |ps|
  {
    if |ps| > 1 {
      JoinOnEndsWithLast(ps[1..], sep);
      var rest := JoinOn(ps[1..], sep);
      var s := ps[0] + [sep] + rest;
      assert s[|s| - |rest|..] == rest;
    }
  }

  lemma RuleOneLine()
    ensures OneLine(Rule) && OneLine(Rule + "'")
  {
    DashesSpec(50);
    assert forall i :: 0 <= i < |Rule| ==> Rule[i] != '\n';
    assert forall i :: 0 <= i < |Rule + "'"| ==> (Rule + "'")[i] != '\n';
  }

  /** Every entry ends with the rule of fifty dashes, followed in the Homework_6 quote by
      an apostrophe. */
  lemma PublishEndsWithRule(edition: Edition, record: Record)
    requires !record.Plain?
    ensures var s := Publish(edition, record).value;
      var rule := if edition == Homework6 && record.MotivationalQuote? then Rule + "'" else Rule;
      |rule| <= |s| && s[|s| - |rule|..] == rule
  {
    var ls := EntryLines(edition, record).value;
    assert ls[|ls| - 1] == if edition == Homework6 && record.MotivationalQuote? then Rule + "'" else Rule;
    JoinOnEndsWithLast(ls, '\n');
  }

  /** A news entry whose fields are single lines splits into exactly its five lines. */
  lemma NewsReadBack(edition: Edition, text: string, city: string, date: string)
    requires OneLine(text) && OneLine(city) && OneLine(date)
    ensures SplitOn(Publish(edition, News(text, city, date)).value, '\n')
         == ["News:", text, "City: " + city, "Published at: " + date, Rule]
  {
    RuleOneLine();
    NewsLabelsOneLine();
    ConcatOneLine("City: ", city);
    ConcatOneLine("Published at: ", date);
    FiveOneLine("News:", text, "City: " + city, "Published at: " + date, Rule);
    SplitJoinOn(["News:", text, "City: " + city, "Published at: " + date, Rule], '\n');
  }

  lemma NewsLabelsOneLine()
    ensures OneLine("News:") && OneLine("City: ") && OneLine("Published at: ")
  {
  }

  lemma DigitsOneLine(s: string)
    requires forall i :: 0 <= i < |s| ==> IsDigit(s[i]) || s[i] == '-' || s[i] == ':'
    ensures OneLine(s)
  {
    assert forall i :: 0 <= i < |s| ==> s[i] != '\n';
  }

  /** Every piece is a single line. */
  predicate AllOneLine(ps: seq<string>) {
    forall i :: 0 <= i < |ps| ==> OneLine(ps[i])
  }

  lemma ConcatOneLine(a: string, b: string)
    requires OneLine(a) && OneLine(b)
    ensures OneLine(a + b)
  {
    assert forall i :: 0 <= i < |a + b| ==> (a + b)[i] == if i < |a| then a[i] else b[i - |a|];
  }

  lemma FourOneLine(a: string, b: string, c: string, d: string)
    requires OneLine(a) && OneLine(b) && OneLine(c) && OneLine(d)
    ensures AllOneLine([a, b, c, d])
  {
  }

  lemma FiveOneLine(a: string, b: string, c: string, d: string, e: string)
    requires OneLine(a) && OneLine(b) && OneLine(c) && OneLine(d) && OneLine(e)
    ensures AllOneLine([a, b, c, d, e])
  {
  }

  lemma PrivateAdLabelsOneLine()
    ensures OneLine("Private Ad:") && OneLine("Expiration date: ") && OneLine("Days left: ")
  {
  }

  lemma PrivateAdLinesOneLine(edition: Edition, text: string, expiration: CalendarDate, daysLeft: int)
    requires OneLine(text)
    ensures AllOneLine(EntryLines(edition, PrivateAd(text, expiration, daysLeft)).value)
  {
    var date := FormatDate(expiration);
    var days := IntToString(daysLeft);
    FormatDateShape(expiration);
    DigitsOneLine(date);
    assert forall i :: 0 <= i < |days| ==> IsDigit(days[i]) || days[i] == '-';
    DigitsOneLine(days);
    RuleOneLine();
    PrivateAdLabelsOneLine();
    ConcatOneLine("Expiration date: ", date);
    ConcatOneLine("Days left: ", days);
    FiveOneLine("Private Ad:", text, "Expiration date: " + date, "Days left: " + days, Rule);
  }

  /** A private ad splits into its five lines, and the expiration line parses back to
      the expiration date. */
  lemma PrivateAdReadBack(edition: Edition, text: string, expiration: CalendarDate, daysLeft: int)
    requires OneLine(text)
    ensures var lines := SplitOn(Publish(edition, PrivateAd(text, expiration, daysLeft)).value, '\n');
      |lines| == 5 && lines[0] == "Private Ad:" && lines[1] == text && lines[4] == Rule
      && lines[2] == "Expiration date: " + FormatDate(expiration)
      && lines[3] == "Days left: " + IntToString(daysLeft)
      && ParseDate(lines[2][17..]).Some? && ParseDate(lines[2][17..]).value == expiration
  {
    PrivateAdLinesOneLine(edition, text, expiration, daysLeft);
    SplitJoinOn(EntryLines(edition, PrivateAd(text, expiration, daysLeft)).value, '\n');
    var date := FormatDate(expiration);
    assert ("Expiration date: " + date)[17..] == date;
    ParseFormatRoundTrip(expiration);
  }

  lemma QuoteLabelsOneLine()
    ensures OneLine("Motivational Quote:") && OneLine("\"") && OneLine("\" - ")
    ensures OneLine("Published at: ")
  {
  }

  lemma QuoteLinesOneLine(edition: Edition, text: string, author: string, time: string)
    requires OneLine(text) && OneLine(author) && OneLine(time)
    ensures AllOneLine(EntryLines(edition, MotivationalQuote(text, author, time)).value)
  {
    RuleOneLine();
    QuoteLabelsOneLine();
    ConcatOneLine("\"", text);
    ConcatOneLine("\"" + text, "\" - ");
    ConcatOneLine("\"" + text + "\" - ", author);
    ConcatOneLine("Published at: ", time);
    FourOneLine("Motivational Quote:", "\"" + text + "\" - " + author, "Published at: " + time,
                if edition == Homework6 then Rule + "'" else Rule);
  }

  /** A quote splits into its four lines; only the Homework_6 rule carries the
      apostrophe. */
  lemma QuoteReadBack(edition: Edition, text: string, author: string, time: string)
    requires OneLine(text) && OneLine(author) && OneLine(time)
    ensures SplitOn(Publish(edition, MotivationalQuote(text, author, time)).value, '\n')
         == ["Motivational Quote:", "\"" + text + "\" - " + author, "Published at: " + time,
             if edition == Homework6 then Rule + "'" else Rule]
  {
    QuoteLinesOneLine(edition, text, author, time);
    SplitJoinOn(EntryLines(edition, MotivationalQuote(text, author, time)).value, '\n');
  }

  /** Different single-line news items publish differently. */
  lemma NewsPublishInjective(edition: Edition, a: Record, b: Record)
    requires a.News? && b.News?
    requires OneLine(a.text) && OneLine(a.city) && OneLine(a.publishDate)
    requires OneLine(b.text) && OneLine(b.city) && OneLine(b.publishDate)
    requires Publish(edition, a) == Publish(edition, b)
    ensures a == b
  {
    NewsReadBack(edition, a.text, a.city, a.publishDate);
    NewsReadBack(edition, b.text, b.city, b.publishDate);
    var la := SplitOn(Publish(edition, a).value, '\n');
    assert la[2] == "City: " + a.city == "City: " + b.city;
    assert a.city == ("City: " + a.city)[6..];
    assert b.city == ("City: " + b.city)[6..];
    assert la[3] == "Published at: " + a.publishDate == "Published at: " + b.publishDate;
    assert a.publishDate == ("Published at: " + a.publishDate)[14..];
    assert b.publishDate == ("Published at: " + b.publishDate)[14..];
  }

  // ---------------------------------------------------------------------------
  // The disk and the feed file

  datatype Entry = Folder | TextFile(content: string)

  type Disk = map<Path, Entry>

  /** `NewsFeed.FILE_PATH` */
  const FeedPath: Path := InDefaultFolder("Homework_5.txt")

  /** `open(FILE_PATH, 'a')` succeeds: the folder exists and the path is not a folder. */
  predicate CanAppend(disk: Disk) {
    DefaultFolder in disk && disk[DefaultFolder].Folder?
    && (FeedPath !in disk || disk[FeedPath].TextFile?)
  }

  /** The feed file's content; a missing file is created empty by append mode. */
  function FeedText(disk: Disk): string {
    if FeedPath in disk && disk[FeedPath].TextFile? then disk[FeedPath].content else ""
  }

  /** What the write loop of `save_to_file` puts into the file: `publish() + '\n'` for each
      record in order, up to the first record whose `publish` raises; and whether it got
      through them all. */
  function Published(edition: Edition, records: seq<Record>): (string, bool) {
    Written(Entries(edition, records))
  }

  /** What `publish` gives for each record, in order. */
  function Entries(edition: Edition, records: seq<Record>): (es: seq<Result<string, PublishError>>)
    ensures |es| == |records|
  {
    seq(|records|, i requires 0 <= i < |records| => Publish(edition, records[i]))
  }

  /** The write loop over the `publish` results. */
  function Written(entries: seq<Result<string, PublishError>>): (string, bool) {
    if entries == [] then ("", true)
    else WriteEntry(Written(entries[..|entries| - 1]), entries[|entries| - 1])
  }

  /** One turn of the write loop: once a `publish` has raised nothing more is written. */
  function WriteEntry(sofar: (string, bool), entry: Result<string, PublishError>): (string, bool) {
    if !sofar.1 then sofar
    else match entry
      case Failure(_) => (sofar.0, false)
      case Success(s) => (sofar.0 + s + "\n", true)
  }

  lemma WriteEntryAfter(written: string, sofar: (string, bool), entry: Result<string, PublishError>)
    ensures WriteEntry((written + sofar.0, sofar.1), entry)
         == (written + WriteEntry(sofar, entry).0, WriteEntry(sofar, entry).1)
  {
    if sofar.1 && entry.Success? {
      assert written + sofar.0 + entry.value + "\n" == written + (sofar.0 + entry.value + "\n");
    }
  }

  datatype SaveFault = CannotOpen | PublishFailed(error: PublishError)

  /** The effect of `save_to_file()` on the disk, and the exception it raises. Entries
      written before a failing `publish` stay in the file, because leaving the `with` block
      closes it. */
  function Saved(disk: Disk, edition: Edition, records: seq<Record>): (r: (Disk, Option<SaveFault>))
    ensures !CanAppend(disk) ==> r == (disk, Some(CannotOpen))
    ensures CanAppend(disk) ==>
      r.0.Keys == disk.Keys + {FeedPath} && forall p :: p in disk && p != FeedPath ==> r.0[p] == disk[p]
  {
    if !CanAppend(disk) then (disk, Some(CannotOpen))
    else
      var p := Published(edition, records);
      (disk[FeedPath := TextFile(FeedText(disk) + p.0)], if p.1 then None else Some(PublishFailed(NotImplemented)))
  }

  /** `NewsFeed`: the buffer of records not yet saved. */
  class NewsFeed {
    var records: seq<Record>
    const edition: Edition

    constructor(edition: Edition)
      ensures records == [] && this.edition == edition
    {
      records := [];
      this.edition := edition;
    }

    /** `add_record(record)` */
    method AddRecord(record: Record)
      modifies this
      ensures records == old(records) + [record]
    {
      records := records + [record];
    }

    /** `save_to_file()`: the buffer is emptied only when every record was written. */
    method SaveToFile(disk: Disk) returns (disk': Disk, fault: Option<SaveFault>)
      modifies this
      ensures (disk', fault) == Saved(disk, edition, old(records))
      ensures records == if fault.None? then [] else old(records)
    {
      if !CanAppend(disk) {
        return disk, Some(CannotOpen);
      }
      var rs := records;
      var written := "";
      for i := 0 to |rs|
        invariant records == rs
        invariant Published(edition, rs[..i]) == (written, true)
      {
        PublishedSnoc(edition, rs, i);
        var entry := Publish(edition, rs[i]);
        if entry.Failure? {
          PublishedStops(edition, rs[..i + 1], rs[i + 1..]);
          assert rs[..i + 1] + rs[i + 1..] == rs;
          return disk[FeedPath := TextFile(FeedText(disk) + written)], Some(PublishFailed(entry.error));
        }
        written := written + entry.value + "\n";
      }
      assert rs[..|rs|] == rs;
      disk' := disk[FeedPath := TextFile(FeedText(disk) + written)];
      fault := None;
      records := [];
    }
  }

  // ---------------------------------------------------------------------------
  // Properties of saving

  /** Saving only appends: what the file held before is a prefix of what it holds after. */
  lemma SaveAppendsOnly(disk: Disk, edition: Edition, records: seq<Record>)
    requires CanAppend(disk)
    ensures var d := Saved(disk, edition, records).0;
      FeedPath in d && d[FeedPath].TextFile?
      && |FeedText(disk)| <= |d[FeedPath].content|
      && d[FeedPath].content[..|FeedText(disk)|] == FeedText(disk)
  {
  }

  /** The write loop takes one more record. */
  lemma PublishedSnoc(edition: Edition, records: seq<Record>, i: nat)
    requires i < |records|
    ensures Published(edition, records[..i + 1])
         == WriteEntry(Published(edition, records[..i]), Publish(edition, records[i]))
  {
    var es := Entries(edition, records[..i + 1]);
    assert es[..i] == Entries(edition, records[..i]);
    assert es[i] == Publish(edition, records[i]);
  }

  lemma EntriesAppend(edition: Edition, a: seq<Record>, b: seq<Record>)
    ensures Entries(edition, a + b) == Entries(edition, a) + Entries(edition, b)
  {
  }

  lemma {:induction false} WrittenAppend(a: seq<Result<string, PublishError>>, b: seq<Result<string, PublishError>>)
    requires Written(a).1
    ensures Written(a + b) == (Written(a).0 + Written(b).0, Written(b).1)
    decreases |b|
  {
    if b == [] {
      assert a + b == a;
      assert Written(a).0 + "" == Written(a).0;
    } else {
      var b' := b[..|b| - 1];
      WrittenAppend(a, b');
      assert (a + b)[..|a + b| - 1] == a + b';
      assert (a + b)[|a + b| - 1] == b[|b| - 1];
      WriteEntryAfter(Written(a).0, Written(b'), b[|b| - 1]);
    }
  }

  lemma PublishedAppend(edition: Edition, a: seq<Record>, b: seq<Record>)
    requires Published(edition, a).1
    ensures Published(edition, a + b)
         == (Published(edition, a).0 + Published(edition, b).0, Published(edition, b).1)
  {
    EntriesAppend(edition, a, b);
    WrittenAppend(Entries(edition, a), Entries(edition, b));
  }

  /** The loop gets through all the results exactly when none of them is a failure. */
  lemma {:induction false} WrittenCompletes(es: seq<Result<string, PublishError>>)
    ensures Written(es).1 <==> forall i :: 0 <= i < |es| ==> es[i].Success?
    decreases |es|
  {
    if es != [] {
      var init := es[..|es| - 1];
      WrittenCompletes(init);
      assert forall i :: 0 <= i < |init| ==> init[i] == es[i];
    }
  }

  /** The write loop gets through the whole buffer exactly when it holds no base
      record. */
  lemma PublishedCompletes(edition: Edition, records: seq<Record>)
    ensures Published(edition, records).1 <==> forall i :: 0 <= i < |records| ==> !records[i].Plain?
  {
    var es := Entries(edition, records);
    WrittenCompletes(es);
    assert forall i :: 0 <= i < |records| ==> es[i] == Publish(edition, records[i]);
  }

  /** Once a failure has ended the loop, the results after it change nothing. */
  lemma {:induction false} WrittenStops(a: seq<Result<string, PublishError>>, b: seq<Result<string, PublishError>>)
    requires !Written(a).1
    ensures Written(a + b) == Written(a)
    decreases |b|
  {
    if b == [] {
      assert a + b == a;
    } else {
      WrittenStops(a, b[..|b| - 1]);
      assert (a + b)[..|a + b| - 1] == a + b[..|b| - 1];
    }
  }

  /** Once a `publish` has raised, the records after it change nothing. */
  lemma PublishedStops(edition: Edition, a: seq<Record>, b: seq<Record>)
    requires !Published(edition, a).1
    ensures Published(edition, a + b) == Published(edition, a)
  {
    EntriesAppend(edition, a, b);
    WrittenStops(Entries(edition, a), Entries(edition, b));
  }

  /** Records after a base record are not written; the ones before it are. */
  lemma PublishedStopsAtPlain(edition: Edition, done: seq<Record>, text: string, rest: seq<Record>)
    requires Published(edition, done).1
    ensures Published(edition, done + [Plain(text)] + rest) == (Published(edition, done).0, false)
  {
    var d := done + [Plain(text)];
    PublishedSnoc(edition, d, |done|);
    assert d[..|done|] == done && d[..|done| + 1] == d;
    PublishedStops(edition, d, rest);
  }

  lemma FeedPathIsNotTheFolder()
    ensures FeedPath != DefaultFolder
  {
    assert |FeedPath| > |DefaultFolder|;
  }

  /** Saving two buffers one after the other writes the same file as saving them
      together. */
  lemma SaveInBatches(disk: Disk, edition: Edition, a: seq<Record>, b: seq<Record>)
    requires Saved(disk, edition, a).1.None?
    ensures Saved(Saved(disk, edition, a).0, edition, b) == Saved(disk, edition, a + b)
  {
    PublishedAppend(edition, a, b);
    FeedPathIsNotTheFolder();
    var pa := Published(edition, a).0;
    var pb := Published(edition, b).0;
    var d1 := Saved(disk, edition, a).0;
    assert d1 == disk[FeedPath := TextFile(FeedText(disk) + pa)];
    assert CanAppend(d1);
    assert FeedText(d1) == FeedText(disk) + pa;
    Regroup(FeedText(disk), pa, pb);
    var v := TextFile(FeedText(disk) + (pa + pb));
    assert d1[FeedPath := v] == disk[FeedPath := v];
    assert Published(edition, a + b).1 == Published(edition, b).1;
  }

  lemma Regroup(a: string, b: string, c: string)
    ensures a + b + c == a + (b + c)
  {
  }

  /** Saving an empty buffer leaves an existing feed file as it was. */
  lemma SaveEmptyKeepsDisk(disk: Disk, edition: Edition)
    requires CanAppend(disk) && FeedPath in disk
    ensures Saved(disk, edition, []) == (disk, None)
  {
    assert FeedText(disk) + "" == disk[FeedPath].content;
    assert disk[FeedPath] == TextFile(disk[FeedPath].content);
    assert disk[FeedPath := TextFile(FeedText(disk) + "")] == disk;
  }

  // ---------------------------------------------------------------------------
  // The input-file processor (Homework_6)

  /** `FileProcessor.DEFAULT_FOLDER`: a folder, so opening it for reading fails. */
  const InputFolder: Path := InDefaultFolder("InputFiles")

  datatype ProcessFault = NotReadable | LineIndexError | LineDateError | SaveFailed(fault: SaveFault)

  /** What one input line does to the feed. */
  datatype LineResult = Add(record: Record) | Skip | Raise(fault: ProcessFault)

  const Tags: set<string> := {"news", "privatead", "quote"}

  /** The dispatch on a line's `;`-separated fields. The fields are read in the order the
      source reads them, so a known tag with fewer than three fields raises `IndexError`
      before any date is parsed. */
  function RecordOfFields(fields: seq<string>, now: Clock): LineResult
    requires fields != []
  {
    var tag := LowerStr(fields[0]);
    if tag == "news" then
      if |fields| < 3 then Raise(LineIndexError) else Add(NewsAt(fields[1], fields[2], now))
    else if tag == "privatead" then
      if |fields| < 3 then Raise(LineIndexError)
      else match ParseDate(fields[2])
        case None => Raise(LineDateError)
        case Some(expiration) => Add(PrivateAdAt(fields[1], expiration, now))
    else if tag == "quote" then
      if |fields| < 3 then Raise(LineIndexError) else Add(QuoteAt(fields[1], fields[2], now))
    else Skip
  }

  /** The lower-cased first field decides: an unknown tag is skipped, a known one needs
      three fields, a private ad needs a date `strptime` accepts, and the record's text is
      the second field. */
  lemma Dispatch(fields: seq<string>, now: Clock)
    requires fields != []
    ensures var r := RecordOfFields(fields, now);
      && (r.Skip? <==> LowerStr(fields[0]) !in Tags)
      && (r == Raise(LineIndexError) <==> LowerStr(fields[0]) in Tags && |fields| < 3)
      && (r == Raise(LineDateError) <==>
            LowerStr(fields[0]) == "privatead" && |fields| >= 3 && ParseDate(fields[2]).None?)
      && (r.Add? ==> |fields| >= 3 && r.record.text == fields[1])
  {
  }

  /** `line.strip().split(';')` and the dispatch on it. */
  function LineRecord(line: string, now: Clock): LineResult {
    RecordOfFields(SplitOn(Strip(line), ';'), now)
  }

  /** What each line does, in order. `clock(i)` is the clock reading taken while line
      `i` is handled. */
  function LineResults(lines: seq<string>, clock: nat -> Clock): (rs: seq<LineResult>)
    ensures |rs| == |lines|
  {
    seq(|lines|, i requires 0 <= i < |lines| => LineRecord(lines[i], clock(i)))
  }

  /** The loop over the line results: the records it adds and the exception that ends
      it early. */
  function RunResults(results: seq<LineResult>): (r: (seq<Record>, Option<ProcessFault>))
    ensures |r.0| <= |results|
  {
    if results == [] then ([], None)
    else HandleLine(RunResults(results[..|results| - 1]), results[|results| - 1])
  }

  /** The loop over the lines of the input file. */
  function RunLines(lines: seq<string>, clock: nat -> Clock): (r: (seq<Record>, Option<ProcessFault>))
    ensures |r.0| <= |lines|
  {
    RunResults(LineResults(lines, clock))
  }

  /** One turn of the loop: once a line has raised nothing more happens. */
  function HandleLine(sofar: (seq<Record>, Option<ProcessFault>), result: LineResult)
    : (r: (seq<Record>, Option<ProcessFault>))
    ensures |r.0| <= |sofar.0| + 1
  {
    if sofar.1.Some? then sofar
    else match result
      case Add(record) => (sofar.0 + [record], None)
      case Skip => sofar
      case Raise(fault) => (sofar.0, Some(fault))
  }

  lemma RunLinesSnoc(lines: seq<string>, i: nat, clock: nat -> Clock)
    requires i < |lines|
    ensures RunLines(lines[..i + 1], clock) == HandleLine(RunLines(lines[..i], clock), LineRecord(lines[i], clock(i)))
  {
    var rs := LineResults(lines[..i + 1], clock);
    assert rs[..i] == LineResults(lines[..i], clock);
    assert rs[i] == LineRecord(lines[i], clock(i));
  }

  lemma HandleLineAfter(buffered: seq<Record>, sofar: (seq<Record>, Option<ProcessFault>), result: LineResult)
    ensures HandleLine((buffered + sofar.0, sofar.1), result)
         == (buffered + HandleLine(sofar, result).0, HandleLine(sofar, result).1)
  {
    if sofar.1.None? && result.Add? {
      assert buffered + sofar.0 + [result.record] == buffered + (sofar.0 + [result.record]);
    }
  }

  datatype Outcome = FileNotFound | Failed(fault: ProcessFault) | Processed

  /** The effect of `process_file(feed)`: the disk, the feed's buffer and what was
      reported. */
  function FileProcessed(disk: Disk, filePath: Path, buffered: seq<Record>, edition: Edition, clock: nat -> Clock)
    : (Disk, seq<Record>, Outcome)
  {
    if filePath !in disk then (disk, buffered, FileNotFound)
    else if disk[filePath].Folder? then (disk, buffered, Failed(NotReadable))
    else
      var run := RunLines(Lines(disk[filePath].content), clock);
      var all := buffered + run.0;
      if run.1.Some? then (disk, all, Failed(run.1.value))
      else
        var saved := Saved(disk, edition, all);
        if saved.1.Some? then (saved.0, all, Failed(SaveFailed(saved.1.value)))
        else (saved.0 - {filePath}, [], Processed)
  }

  /** `FileProcessor(file_path)` */
  class FileProcessor {
    const filePath: Path

    /** `file_path or DEFAULT_FOLDER`: no path, or the empty path, means the default. */
    constructor(filePath: Option<Path>)
      ensures this.filePath == if filePath.Some? && filePath.value != "" then filePath.value else InputFolder
    {
      this.filePath := if filePath.Some? && filePath.value != "" then filePath.value else InputFolder;
    }

    /** `process_file(feed)` */
    method ProcessFile(disk: Disk, feed: NewsFeed, clock: nat -> Clock) returns (disk': Disk, outcome: Outcome)
      modifies feed
      ensures (disk', feed.records, outcome) == FileProcessed(disk, filePath, old(feed.records), feed.edition, clock)
    {
      if filePath !in disk {
        return disk, FileNotFound;
      }
      if disk[filePath].Folder? {
        return disk, Failed(NotReadable);
      }
      var fault := ReadRecords(feed, Lines(disk[filePath].content), clock);
      if fault.Some? {
        return disk, Failed(fault.value);
      }
      var saveFault;
      disk', saveFault := feed.SaveToFile(disk);
      if saveFault.Some? {
        return disk', Failed(SaveFailed(saveFault.value));
      }
      disk' := disk' - {filePath};
      outcome := Processed;
    }

    /** The loop over the file's lines, up to the first exception. */
    method ReadRecords(feed: NewsFeed, lines: seq<string>, clock: nat -> Clock) returns (fault: Option<ProcessFault>)
      modifies feed
      ensures feed.records == old(feed.records) + RunLines(lines, clock).0
      ensures fault == RunLines(lines, clock).1
    {
      for i := 0 to |lines|
        invariant RunLines(lines[..i], clock).1.None?
        invariant feed.records == old(feed.records) + RunLines(lines[..i], clock).0
      {
        RunLinesSnoc(lines, i, clock);
        var before := feed.records;
        var lineFault := AddLineRecord(feed, lines[i], clock(i));
        HandleLineAfter(old(feed.records), RunLines(lines[..i], clock), LineRecord(lines[i], clock(i)));
        if lineFault.Some? {
          RunLinesStops(lines[..i + 1], lines[i + 1..], clock);
          assert lines[..i + 1] + lines[i + 1..] == lines;
          return lineFault;
        }
      }
      assert lines[..|lines|] == lines;
      fault := None;
    }

    /** The body of the loop: `line.strip().split(';')` and the dispatch on the
        lower-cased first field. */
    method AddLineRecord(feed: NewsFeed, line: string, now: Clock) returns (fault: Option<ProcessFault>)
      modifies feed
      ensures (feed.records, fault) == HandleLine((old(feed.records), None), LineRecord(line, now))
    {
      var recordData := SplitOn(Strip(line), ';');
      var recordType := LowerStr(recordData[0]);
      fault := None;
      if recordType == "news" {
        if |recordData| < 3 {
          return Some(LineIndexError);
        }
        feed.AddRecord(NewsAt(recordData[1], recordData[2], now));
      } else if recordType == "privatead" {
        if |recordData| < 3 {
          return Some(LineIndexError);
        }
        var expiration := ParseDate(recordData[2]);
        if expiration.None? {
          return Some(LineDateError);
        }
        feed.AddRecord(PrivateAdAt(recordData[1], expiration.value, now));
      } else if recordType == "quote" {
        if |recordData| < 3 {
          return Some(LineIndexError);
        }
        feed.AddRecord(QuoteAt(recordData[1], recordData[2], now));
      }
    }
  }

  // ---------------------------------------------------------------------------
  // Properties of processing

  /** The input file is removed exactly when the run got through and the buffer was
      saved, and then the buffer is empty; every failure keeps an existing input file
      and keeps the records buffered before the call. */
  lemma FileRemovedOnlyWhenProcessed(disk: Disk, filePath: Path, buffered: seq<Record>, edition: Edition,
                                     clock: nat -> Clock)
    ensures var r := FileProcessed(disk, filePath, buffered, edition, clock);
      && (r.2 == Processed ==> filePath in disk && filePath !in r.0 && r.1 == [])
      && (r.2 != Processed && filePath in disk ==> filePath in r.0)
      && (r.2 != Processed ==> |buffered| <= |r.1| && r.1[..|buffered|] == buffered)
  {
  }

  /** Fields after the third are ignored. */
  lemma ExtraFieldsIgnored(fields: seq<string>, now: Clock)
    requires |fields| >= 3
    ensures RecordOfFields(fields, now) == RecordOfFields(fields[..3], now)
  {
  }

  /** A blank line has the empty tag and is skipped. */
  lemma BlankLineSkipped(line: string, now: Clock)
    requires Strip(line) == []
    ensures LineRecord(line, now) == Skip
  {
    assert FieldLength([], ';') == 0;
    assert LowerStr([]) == [];
  }

  /** A skipped line does not end the loop. */
  lemma SkippedLineContinues(lines: seq<string>, line: string, clock: nat -> Clock)
    requires LineRecord(line, clock(|lines|)) == Skip
    ensures RunLines(lines + [line], clock) == RunLines(lines, clock)
  {
    var ls := lines + [line];
    RunLinesSnoc(ls, |lines|, clock);
    assert ls[..|lines| + 1] == ls;
    assert ls[..|lines|] == lines;
  }

  /** Once a result raises, the results after it are not looked at. */
  lemma {:induction false} ResultsStop(results: seq<LineResult>, k: nat)
    requires k <= |results| && RunResults(results[..k]).1.Some?
    ensures RunResults(results) == RunResults(results[..k])
    decreases |results|
  {
    if k < |results| {
      var init := results[..|results| - 1];
      assert init[..k] == results[..k];
      ResultsStop(init, k);
    } else {
      assert results[..k] == results;
    }
  }

  /** Once a line raises, the lines after it are not looked at. */
  lemma RunLinesStops(a: seq<string>, b: seq<string>, clock: nat -> Clock)
    requires RunLines(a, clock).1.Some?
    ensures RunLines(a + b, clock) == RunLines(a, clock)
  {
    var rs := LineResults(a + b, clock);
    assert rs[..|a|] == LineResults(a, clock);
    ResultsStop(rs, |a|);
  }

  /** A line that raises leaves the input file and the feed file untouched; the records
      of the lines before it stay in the buffer, unsaved. */
  lemma RaisingLineKeepsFiles(disk: Disk, filePath: Path, buffered: seq<Record>, edition: Edition,
                              clock: nat -> Clock, i: nat)
    requires filePath in disk && disk[filePath].TextFile?
    requires i < |Lines(disk[filePath].content)|
    requires var lines := Lines(disk[filePath].content);
      RunLines(lines[..i], clock).1.None? && LineRecord(lines[i], clock(i)).Raise?
    ensures var lines := Lines(disk[filePath].content);
      FileProcessed(disk, filePath, buffered, edition, clock)
      == (disk, buffered + RunLines(lines[..i], clock).0, Failed(LineRecord(lines[i], clock(i)).fault))
  {
    var lines := Lines(disk[filePath].content);
    var r := LineRecord(lines[i], clock(i));
    RunLinesSnoc(lines, i, clock);
    RunLinesStops(lines[..i + 1], lines[i + 1..], clock);
    assert lines[..i + 1] + lines[i + 1..] == lines;
    assert RunLines(lines, clock) == (RunLines(lines[..i], clock).0, Some(r.fault));
  }

  /** When every line yields a record, the buffer gains them all, in line order. */
  lemma {:induction false} AllResultsAdded(results: seq<LineResult>)
    requires forall i :: 0 <= i < |results| ==> results[i].Add?
    ensures RunResults(results).1.None? && |RunResults(results).0| == |results|
    ensures forall i :: 0 <= i < |results| ==> RunResults(results).0[i] == results[i].record
    decreases |results|
  {
    if results != [] {
      var init := results[..|results| - 1];
      AllResultsAdded(init);
      var prev := RunResults(init).0;
      var last := results[|results| - 1].record;
      assert RunResults(results).0 == prev + [last];
      assert forall i :: 0 <= i < |prev| ==> (prev + [last])[i] == prev[i] == results[i].record;
    }
  }

  /** When every line yields a record, the buffer gains them all, in line order. */
  lemma AllLinesAdded(lines: seq<string>, clock: nat -> Clock)
    requires forall i :: 0 <= i < |lines| ==> LineRecord(lines[i], clock(i)).Add?
    ensures RunLines(lines, clock).1.None? && |RunLines(lines, clock).0| == |lines|
    ensures forall i :: 0 <= i < |lines| ==> RunLines(lines, clock).0[i] == LineRecord(lines[i], clock(i)).record
  {
    AllResultsAdded(LineResults(lines, clock));
  }

  /** A private-ad line written with a formatted date yields an ad for that date. */
  lemma PrivateAdLine(text: string, expiration: CalendarDate, now: Clock)
    requires ';' !in text
    ensures RecordOfFields(["privatead", text, FormatDate(expiration)], now)
         == Add(PrivateAd(text, expiration, DaysLeft(expiration, now)))
  {
    ParseFormatRoundTrip(expiration);
    LowerStrOfLower("privatead");
  }
}
