/** Homework_4's text-normalisation steps (and the Homework_3 script, which runs the
    same steps inline): case normalisation, the `iz` fix, the `Fix“` spacing fix, the
    sentence of last words, the capitalised third sentence and the white-space count. */
module TextFixes {
  import opened Chars
  import opened PyStrings
  import opened Wrappers

  // ---------------------------------------------------------------------------
  // Splitting at white space after a sentence end

  /** The look-behind class of a split: `[.\n]` when normalising cases, `[.!?]` for the
      sentence steps. */
  datatype Breaks = PeriodOrNewline | SentenceEnd

  predicate IsBreak(b: Breaks, c: char) {
    match b
    case PeriodOrNewline => c == '.' || c == '\n'
    case SentenceEnd => c == '.' || c == '!' || c == '?'
  }

  /** A match of `(?<=[...])\s+` can start at `i`: a white-space character right after a
      break character. */
  predicate SplitsAt(s: string, b: Breaks, i: int) {
    0 < i < |s| && IsSpace(s[i]) && IsBreak(b, s[i - 1])
  }

  /** The first position at or after `from` where a match starts, `|s|` when none does. */
  function FirstSplit(s: string, b: Breaks, from: nat): (i: nat)
    requires from <= |s|
    ensures from <= i <= |s|
    ensures i < |s| ==> SplitsAt(s, b, i)
    decreases |s| - from
  {
    if from == |s| then |s|
    else if SplitsAt(s, b, from) then from
    else FirstSplit(s, b, from + 1)
  }

  lemma {:induction false} FirstSplitIsFirst(s: string, b: Breaks, from: nat)
    requires from <= |s|
    ensures forall k :: from <= k < FirstSplit(s, b, from) ==> !SplitsAt(s, b, k)
    decreases |s| - from
  {
    if from < |s| && !SplitsAt(s, b, from) {
      FirstSplitIsFirst(s, b, from + 1);
    }
  }

  /** The end of the run of white space that starts at `i` (what `\s+` takes). */
  function RunEnd(s: string, i: nat): (j: nat)
    requires i <= |s|
    ensures i <= j <= |s| && (j == |s| || !IsSpace(s[j]))
    decreases |s| - i
  {
    if i < |s| && IsSpace(s[i]) then RunEnd(s, i + 1) else i
  }

  lemma {:induction false} RunEndSpaces(s: string, i: nat)
    requires i <= |s|
    ensures forall k :: i <= k < RunEnd(s, i) ==> IsSpace(s[k])
    decreases |s| - i
  {
    if i < |s| && IsSpace(s[i]) {
      RunEndSpaces(s, i + 1);
    }
  }

  /** `re.split(r'(?<=[...])\s+', s)`: the first match takes the whole run of white
      space from its start, and the search goes on after that run. */
  function RegexSplit(s: string, b: Breaks): (pieces: seq<string>)
    ensures |pieces| >= 1
    decreases |s|
  {
    var i := FirstSplit(s, b, 0);
    if i == |s| then [s]
    else [s[..i]] + RegexSplit(s[RunEnd(s, i)..], b)
  }

  /** One step of the split: the piece before the first match, then the split of the
      text after the run of white space. */
  lemma SplitStep(s: string, b: Breaks)
    requires FirstSplit(s, b, 0) < |s|
    ensures var i := FirstSplit(s, b, 0);
      var p := RegexSplit(s, b);
      var q := RegexSplit(s[RunEnd(s, i)..], b);
      |p| == |q| + 1 && p[0] == s[..i] && forall k :: 0 < k < |p| ==> p[k] == q[k - 1]
  {
  }

  /** Every piece but the last is non-empty and ends with a break character. */
  lemma {:induction false} SplitPiecesEnd(s: string, b: Breaks)
    ensures var p := RegexSplit(s, b);
      && |p[0]| <= |s| && p[0] == s[..|p[0]|]
      && PiecesEndInBreak(p, b)
    decreases |s|
  {
    var i := FirstSplit(s, b, 0);
    if i < |s| {
      var rest := s[RunEnd(s, i)..];
      SplitPiecesEnd(rest, b);
      var q := RegexSplit(rest, b);
      assert RegexSplit(s, b) == [s[..i]] + q;
      assert s[..i][i - 1] == s[i - 1];
      PiecesEndCons(s[..i], q, b);
    }
  }

  /** Every piece but the last ends with a break character. */
  predicate PiecesEndInBreak(p: seq<string>, b: Breaks) {
    forall k :: 0 <= k < |p| - 1 ==> p[k] != [] && IsBreak(b, p[k][|p[k]| - 1])
  }

  lemma PiecesEndCons(head: string, q: seq<string>, b: Breaks)
    requires head != [] && IsBreak(b, head[|head| - 1])
    requires PiecesEndInBreak(q, b)
    ensures PiecesEndInBreak([head] + q, b)
  {
    var p := [head] + q;
    forall k | 0 <= k < |p| - 1
      ensures p[k] != [] && IsBreak(b, p[k][|p[k]| - 1])
    {
      if k > 0 {
        assert p[k] == q[k - 1];
      }
    }
  }

  /** Every piece but the first is empty or starts with a non-white-space character. */
  lemma {:induction false} SplitPiecesStart(s: string, b: Breaks)
    ensures var p := RegexSplit(s, b);
      forall k :: 0 < k < |p| ==> p[k] == [] || !IsSpace(p[k][0])
    decreases |s|
  {
    var i := FirstSplit(s, b, 0);
    if i < |s| {
      var rest := s[RunEnd(s, i)..];
      SplitPiecesStart(rest, b);
      SplitPiecesEnd(rest, b);
      var p := RegexSplit(s, b);
      var q := RegexSplit(rest, b);
      SplitStep(s, b);
      forall k | 0 < k < |p|
        ensures p[k] == [] || !IsSpace(p[k][0])
      {
        assert p[k] == q[k - 1];
        if k == 1 && q[0] != [] {
          assert q[0][0] == rest[0];
        }
      }
    }
  }

  /** `t` is a suffix of `s`. */
  predicate EndsWith(s: string, t: string) {
    |t| <= |s| && t == s[|s| - |t|..]
  }

  /** What one split step keeps of the last piece: dropping the text up to the end of
      a run of white space keeps the suffix and the white-space end. */
  lemma LastPieceStep(s: string, i: nat, j: nat, last: string)
    requires i < j <= |s|
    requires forall k :: i <= k < j ==> IsSpace(s[k])
    requires EndsWith(s[j..], last)
    requires last == [] ==> s[j..] == [] || IsSpace(s[j..][|s| - j - 1])
    ensures EndsWith(s, last)
    ensures last == [] ==> IsSpace(s[|s| - 1])
  {
    assert s[j..][|s| - j - |last|..] == s[|s| - |last|..];
    if last == [] && j == |s| {
      assert IsSpace(s[j - 1]);
    }
  }

  /** The last piece of the split. */
  function LastPiece(s: string, b: Breaks): string {
    var p := RegexSplit(s, b);
    p[|p| - 1]
  }

  /** The last piece is the end of the text; it is empty only when the text is empty or
      ends in white space. */
  lemma {:induction false} SplitLastPiece(s: string, b: Breaks)
    ensures EndsWith(s, LastPiece(s, b))
    ensures LastPiece(s, b) == [] ==> s == [] || IsSpace(s[|s| - 1])
    decreases |s|
  {
    var i := FirstSplit(s, b, 0);
    if i < |s| {
      var j := RunEnd(s, i);
      SplitLastPiece(s[j..], b);
      SplitLast(s, b);
      RunEndSpaces(s, i);
      LastPieceStep(s, i, j, LastPiece(s[j..], b));
    } else {
      assert s[|s| - |s|..] == s;
    }
  }

  /** The last piece of a split is the last piece of the split after the first match. */
  lemma SplitLast(s: string, b: Breaks)
    requires FirstSplit(s, b, 0) < |s|
    ensures LastPiece(s, b) == LastPiece(s[RunEnd(s, FirstSplit(s, b, 0))..], b)
  {
    var i := FirstSplit(s, b, 0);
    var q := RegexSplit(s[RunEnd(s, i)..], b);
    var p := RegexSplit(s, b);
    assert p == [s[..i]] + q;
    LastOfCons(s[..i], q);
    assert LastPiece(s, b) == p[|p| - 1];
  }

  lemma LastOfCons<T>(x: T, q: seq<T>)
    requires |q| > 0
    ensures var p := [x] + q; p[|p| - 1] == q[|q| - 1]
  {
  }

  /** No piece holds a further split point: the split is as fine as the pattern allows. */
  lemma {:induction false} SplitMaximal(s: string, b: Breaks)
    ensures var p := RegexSplit(s, b);
      forall k, j :: 0 <= k < |p| && 0 <= j < |p[k]| ==> !SplitsAt(p[k], b, j)
    decreases |s|
  {
    var i := FirstSplit(s, b, 0);
    FirstSplitIsFirst(s, b, 0);
    if i < |s| {
      var rest := s[RunEnd(s, i)..];
      SplitMaximal(rest, b);
      var p := RegexSplit(s, b);
      var q := RegexSplit(rest, b);
      SplitStep(s, b);
      forall k, j | 0 <= k < |p| && 0 <= j < |p[k]|
        ensures !SplitsAt(p[k], b, j)
      {
        if k == 0 {
          assert !SplitsAt(s, b, j);
        } else {
          assert p[k] == q[k - 1];
        }
      }
    }
  }

  // ---------------------------------------------------------------------------
  // Letters up to case and white space

  /** The text with letter case and white space forgotten: what case normalisation and
      re-spacing keep. */
  function Fold(s: string): string {
    RemoveSpaces(LowerStr(s))
  }

  /** The folded texts of a list of strings, one after the other. */
  function Folded(ws: seq<string>): string {
    if ws == [] then [] else Fold(ws[0]) + Folded(ws[1..])
  }

  lemma ConsTail<T>(x: T, q: seq<T>)
    ensures ([x] + q)[0] == x && ([x] + q)[1..] == q
  {
  }

  lemma FoldedSingle(w: string)
    ensures Folded([w]) == Fold(w)
  {
    assert [w][1..] == [];
  }

  lemma LowerAppend(a: string, b: string)
    ensures LowerStr(a + b) == LowerStr(a) + LowerStr(b)
  {
    var l, r := LowerStr(a + b), LowerStr(a) + LowerStr(b);
    forall i | 0 <= i < |l|
      ensures l[i] == r[i]
    {
      if i < |a| {
        assert (a + b)[i] == a[i];
      } else {
        assert (a + b)[i] == b[i - |a|];
      }
    }
  }

  lemma FoldAppend(a: string, b: string)
    ensures Fold(a + b) == Fold(a) + Fold(b)
  {
    LowerAppend(a, b);
    RemoveSpacesAppend(LowerStr(a), LowerStr(b));
  }

  lemma {:induction false} FoldOfSpaces(s: string)
    requires forall i :: 0 <= i < |s| ==> IsSpace(s[i])
    ensures Fold(s) == []
  {
    if s != [] {
      FoldAppend([s[0]], s[1..]);
      assert [s[0]] + s[1..] == s;
      FoldOfSpaces(s[1..]);
      assert LowerStr([s[0]]) == [Lower(s[0])];
    }
  }

  lemma FoldLStrip(s: string)
    ensures Fold(LStrip(s)) == Fold(s)
  {
    var n := |s| - |LStrip(s)|;
    LStripSpec(s);
    SplitAt(s, n);
    FoldAppend(s[..n], LStrip(s));
    FoldOfSpaces(s[..n]);
  }

  lemma FoldStrip(s: string)
    ensures Fold(Strip(s)) == Fold(s)
  {
    var l := LStrip(s);
    var r := RStrip(l);
    RStripSpec(l);
    SplitAt(l, |r|);
    FoldAppend(r, l[|r|..]);
    FoldOfSpaces(l[|r|..]);
    FoldLStrip(s);
  }

  lemma {:induction false} FoldedAppend(a: seq<string>, b: seq<string>)
    ensures Folded(a + b) == Folded(a) + Folded(b)
  {
    if a != [] {
      assert (a + b)[1..] == a[1..] + b;
      FoldedAppend(a[1..], b);
    } else {
      assert a + b == b;
    }
  }

  /** `" ".join` only adds white space. */
  lemma {:induction false} FoldJoin(ws: seq<string>)
    ensures Fold(JoinSpaces(ws)) == Folded(ws)
  {
    if |ws| == 1 {
    } else if |ws| > 1 {
      FoldJoin(ws[1..]);
      FoldAppend(ws[0] + " ", JoinSpaces(ws[1..]));
      FoldAppend(ws[0], " ");
      FoldOfSpaces(" ");
    }
  }

  /** Dropping a run of white space from the middle of a text does not change its fold. */
  lemma FoldWithoutRun(s: string, i: nat, j: nat)
    requires i <= j <= |s|
    requires forall k :: i <= k < j ==> IsSpace(s[k])
    ensures Fold(s) == Fold(s[..i]) + Fold(s[j..])
  {
    assert s == s[..i] + (s[i..j] + s[j..]);
    FoldAppend(s[..i], s[i..j] + s[j..]);
    FoldAppend(s[i..j], s[j..]);
    FoldOfSpaces(s[i..j]);
  }

  lemma FoldedCons(w: string, ws: seq<string>)
    ensures Folded([w] + ws) == Fold(w) + Folded(ws)
  {
    ConsTail(w, ws);
  }

  /** Splitting only removes white space. */
  lemma {:induction false} FoldSplit(s: string, b: Breaks)
    ensures Folded(RegexSplit(s, b)) == Fold(s)
    decreases |s|
  {
    var i := FirstSplit(s, b, 0);
    if i == |s| {
      FoldedSingle(s);
    } else {
      var j := RunEnd(s, i);
      var q := RegexSplit(s[j..], b);
      FoldSplit(s[j..], b);
      assert RegexSplit(s, b) == [s[..i]] + q;
      FoldedCons(s[..i], q);
      RunEndSpaces(s, i);
      FoldWithoutRun(s, i, j);
    }
  }

  // ---------------------------------------------------------------------------
  // Case normalisation

  /** `w.capitalize()` and `w[0].upper() + w[1:].lower()`: the first character upper
      case, the rest lower case. */
  function Capitalize(w: string): (r: string)
    ensures |r| == |w|
    ensures r != [] ==> !IsAsciiLower(r[0])
    ensures forall i :: 1 <= i < |r| ==> !IsAsciiUpper(r[i])
    ensures NoSpace(w) ==> NoSpace(r)
  {
    if w == [] then []
    else
      UpperFold(w[0]);
      [Upper(w[0])] + LowerStr(w[1..])
  }

  lemma UpperFold(c: char)
    ensures Lower(Upper(c)) == Lower(c) && IsSpace(Upper(c)) == IsSpace(c)
  {
  }

  /** Upper-casing the first character changes nothing up to case. */
  lemma FoldUpperFirst(w: string)
    requires w != []
    ensures Fold([Upper(w[0])] + w[1..]) == Fold(w)
  {
    UpperFold(w[0]);
    FoldAppend([Upper(w[0])], w[1..]);
    FoldAppend([w[0]], w[1..]);
    assert [w[0]] + w[1..] == w;
    assert LowerStr([Upper(w[0])]) == LowerStr([w[0]]);
  }

  lemma FoldCapitalize(w: string)
    ensures Fold(Capitalize(w)) == Fold(w)
  {
    if w != [] {
      assert LowerStr(LowerStr(w[1..])) == LowerStr(w[1..]);
      FoldAppend([Upper(w[0])], LowerStr(w[1..]));
      FoldAppend([Upper(w[0])], w[1..]);
      FoldUpperFirst(w);
    }
  }

  /** The sentence one more piece contributes. */
  function NormalizedPiece(piece: string): seq<string> {
    var sentence := Strip(piece);
    if sentence != [] then [Capitalize(sentence)] else []
  }

  /** The sentences `normalize_cases` keeps, normalised, in order: pieces that strip to
      nothing are dropped. */
  function NormalizedSentences(pieces: seq<string>): seq<string> {
    if pieces == [] then []
    else NormalizedSentences(pieces[..|pieces| - 1]) + NormalizedPiece(pieces[|pieces| - 1])
  }

  /** The result of `normalize_cases(text)`. */
  function Normalized(text: string): string {
    JoinSpaces(NormalizedSentences(RegexSplit(Strip(text), PeriodOrNewline)))
  }

  lemma TakeSnoc<T>(s: seq<T>, i: nat)
    requires i < |s|
    ensures s[..i + 1] == s[..i] + [s[i]]
  {
  }

  /** `normalize_cases(text)` */
  method NormalizeCases(text: string) returns (r: string)
    ensures r == Normalized(text)
  {
    var sentences := RegexSplit(Strip(text), PeriodOrNewline);
    var normalizedSentences: seq<string> := [];
    for i := 0 to |sentences|
      invariant normalizedSentences == NormalizedSentences(sentences[..i])
    {
      TakeSnoc(sentences, i);
      NormalizedSentencesSnoc(sentences[..i], sentences[i]);
      var sentence := Strip(sentences[i]);
      if sentence != [] {
        normalizedSentences := normalizedSentences + [Capitalize(sentence)];
      }
    }
    assert sentences[..|sentences|] == sentences;
    r := JoinSpaces(normalizedSentences);
  }

  /** A sentence in normal case: non-empty, not starting with a lower-case letter, with
      no upper-case letter after the first character. */
  predicate CaseNormal(w: string) {
    w != [] && !IsAsciiLower(w[0]) && forall i :: 1 <= i < |w| ==> !IsAsciiUpper(w[i])
  }

  lemma {:induction false} NormalizedSentencesShape(pieces: seq<string>)
    ensures var ns := NormalizedSentences(pieces);
      |ns| <= |pieces| && forall k :: 0 <= k < |ns| ==> CaseNormal(ns[k])
  {
    if pieces != [] {
      NormalizedSentencesShape(pieces[..|pieces| - 1]);
    }
  }

  lemma NormalizedSentencesSnoc(pieces: seq<string>, piece: string)
    ensures NormalizedSentences(pieces + [piece]) == NormalizedSentences(pieces) + NormalizedPiece(piece)
  {
    assert (pieces + [piece])[..|pieces|] == pieces;
  }

  lemma NormalizedPieceFold(piece: string)
    ensures Folded(NormalizedPiece(piece)) == Fold(piece)
  {
    var sentence := Strip(piece);
    FoldStrip(piece);
    if sentence != [] {
      FoldedSingle(Capitalize(sentence));
      FoldCapitalize(sentence);
    } else {
      assert Fold(sentence) == [];
    }
  }

  lemma {:induction false} NormalizedSentencesFold(pieces: seq<string>)
    ensures Folded(NormalizedSentences(pieces)) == Folded(pieces)
  {
    if pieces != [] {
      var init := pieces[..|pieces| - 1];
      var last := pieces[|pieces| - 1];
      assert pieces == init + [last];
      NormalizedSentencesFold(init);
      NormalizedSentencesSnoc(init, last);
      FoldedAppend(NormalizedSentences(init), NormalizedPiece(last));
      FoldedAppend(init, [last]);
      FoldedSingle(last);
      NormalizedPieceFold(last);
    }
  }

  /** Case normalisation changes letter case and white space and nothing else. */
  lemma NormalizedKeepsLetters(text: string)
    ensures Fold(Normalized(text)) == Fold(text)
  {
    var pieces := RegexSplit(Strip(text), PeriodOrNewline);
    FoldJoin(NormalizedSentences(pieces));
    NormalizedSentencesFold(pieces);
    FoldSplit(Strip(text), PeriodOrNewline);
    FoldStrip(text);
  }

  /** The normalised text is its sentences in normal case joined by single spaces. */
  lemma NormalizedShape(text: string)
    ensures exists ns: seq<string> ::
      Normalized(text) == JoinSpaces(ns) && forall k :: 0 <= k < |ns| ==> CaseNormal(ns[k])
  {
    NormalizedSentencesShape(RegexSplit(Strip(text), PeriodOrNewline));
  }

  // ---------------------------------------------------------------------------
  // `iz` as a word becomes `is`

  /** `\b[Ii][Zz]\b` matches at `i`. */
  predicate IzAt(s: string, i: int) {
    0 <= i && i + 2 <= |s| && (s[i] == 'i' || s[i] == 'I') && (s[i + 1] == 'z' || s[i + 1] == 'Z')
    && (i == 0 || !IsWordChar(s[i - 1])) && (i + 2 == |s| || !IsWordChar(s[i + 2]))
  }

  /** `re.sub(r'\b[Ii][Zz]\b', 'is', s)` from position `i` on. */
  function FixIzFrom(s: string, i: nat): string
    requires i <= |s|
    decreases |s| - i
  {
    if i == |s| then []
    else if IzAt(s, i) then "is" + FixIzFrom(s, i + 2)
    else [s[i]] + FixIzFrom(s, i + 1)
  }

  /** `fix_iz_errors(text)` */
  function FixIz(s: string): string {
    FixIzFrom(s, 0)
  }

  /** What `fix_iz_errors` puts at position `k`, stated on the input alone. */
  function IzFixedChar(s: string, k: int): char
    requires 0 <= k < |s|
  {
    if IzAt(s, k) then 'i' else if IzAt(s, k - 1) then 's' else s[k]
  }

  /** The replacement from `i` on agrees with `IzFixedChar` at every position. */
  predicate FixedFrom(s: string, i: nat, r: string)
    requires i <= |s|
  {
    |r| == |s| - i && forall k :: i <= k < |s| ==> r[k - i] == IzFixedChar(s, k)
  }

  lemma {:induction false} FixIzFromSpec(s: string, i: nat)
    requires i <= |s| && !IzAt(s, i - 1)
    ensures FixedFrom(s, i, FixIzFrom(s, i))
    decreases |s| - i
  {
    if i < |s| {
      if IzAt(s, i) {
        FixIzFromSpec(s, i + 2);
        IzReplaced(s, i, FixIzFrom(s, i + 2));
      } else {
        FixIzFromSpec(s, i + 1);
        IzKept(s, i, FixIzFrom(s, i + 1));
      }
    }
  }

  lemma IzReplaced(s: string, i: nat, t: string)
    requires IzAt(s, i) && FixedFrom(s, i + 2, t)
    ensures FixedFrom(s, i, "is" + t)
  {
    var r := "is" + t;
    forall k | i <= k < |s|
      ensures r[k - i] == IzFixedChar(s, k)
    {
      if k >= i + 2 {
        assert r[k - i] == t[k - (i + 2)];
      }
    }
  }

  lemma IzKept(s: string, i: nat, t: string)
    requires i < |s| && !IzAt(s, i) && !IzAt(s, i - 1) && FixedFrom(s, i + 1, t)
    ensures FixedFrom(s, i, [s[i]] + t)
  {
    var r := [s[i]] + t;
    forall k | i <= k < |s|
      ensures r[k - i] == IzFixedChar(s, k)
    {
      if k > i {
        assert r[k - i] == t[k - (i + 1)];
      }
    }
  }

  /** Every `iz` standing as a word becomes `is`; every other character is kept. */
  lemma FixIzSpec(s: string)
    ensures |FixIz(s)| == |s|
    ensures forall k :: 0 <= k < |s| ==> FixIz(s)[k] == IzFixedChar(s, k)
  {
    FixIzFromSpec(s, 0);
  }

  lemma {:induction false} FixIzFromUnchanged(s: string, i: nat)
    requires i <= |s| && forall k :: 0 <= k < |s| ==> !IzAt(s, k)
    ensures FixIzFrom(s, i) == s[i..]
    decreases |s| - i
  {
    if i < |s| {
      FixIzFromUnchanged(s, i + 1);
    }
  }

  /** After the fix no `iz` is left standing as a word. */
  lemma FixIzLeavesNone(s: string)
    ensures forall k :: 0 <= k < |s| ==> !IzAt(FixIz(s), k)
  {
    FixIzSpec(s);
    var r := FixIz(s);
    forall k | 0 <= k < |s|
      ensures !IzAt(r, k)
    {
      if IzAt(r, k) {
        assert r[k + 1] == s[k + 1] && !IzAt(s, k + 1) && !IzAt(s, k);
        assert r[k] == s[k];
        assert k == 0 || IsWordChar(r[k - 1]) == IsWordChar(s[k - 1]);
        assert k + 2 == |s| || IsWordChar(r[k + 2]) == IsWordChar(s[k + 2]);
        assert IzAt(s, k);
      }
    }
  }

  /** Fixing twice is fixing once. */
  lemma FixIzIdempotent(s: string)
    ensures FixIz(FixIz(s)) == FixIz(s)
  {
    FixIzLeavesNone(s);
    FixIzSpec(s);
    FixIzFromUnchanged(FixIz(s), 0);
  }

  // ---------------------------------------------------------------------------
  // A space between `Fix` and `“`

  const Glued: string := "Fix“"
  const Spaced: string := "Fix “"

  /** `fix_spacing(text)`: `re.sub('Fix“', 'Fix “', text)`. */
  function FixSpacing(s: string): string
    decreases |s|
  {
    if |s| >= 4 && s[..4] == Glued then Spaced + FixSpacing(s[4..])
    else if s == [] then []
    else [s[0]] + FixSpacing(s[1..])
  }

  lemma {:induction false} FixSpacingHead(s: string)
    requires s != []
    ensures FixSpacing(s) != [] && FixSpacing(s)[0] == s[0]
  {
  }

  lemma FixSpacingUnglued(s: string)
    requires s != [] && !(|s| >= 4 && s[..4] == Glued)
    ensures FixSpacing(s) == [s[0]] + FixSpacing(s[1..])
  {
  }

  lemma FixSpacingOfSpaced(t: string)
    ensures FixSpacing(Spaced + t) == Spaced + FixSpacing(t)
  {
    var s := Spaced + t;
    assert Glued[0] == 'F' && s[3] != Glued[3];
    FixSpacingUnglued(s);
    assert s[1..][0] != 'F';
    FixSpacingUnglued(s[1..]);
    assert s[2..][0] != 'F' && s[1..][1..] == s[2..];
    FixSpacingUnglued(s[2..]);
    assert s[3..][0] != 'F' && s[2..][1..] == s[3..];
    FixSpacingUnglued(s[3..]);
    assert s[4..][0] != 'F' && s[3..][1..] == s[4..];
    FixSpacingUnglued(s[4..]);
    assert s[4..][1..] == t;
    assert Spaced == [s[0], s[1], s[2], s[3], s[4]];
  }

  /** The fix never produces a new `Fix“`: a result starting with one comes from an input
      starting with one. */
  lemma FixSpacingNoNewGlue(s: string)
    requires !(|s| >= 4 && s[..4] == Glued)
    ensures var r := FixSpacing(s); !(|r| >= 4 && r[..4] == Glued)
  {
    var r := FixSpacing(s);
    if s == [] {
    } else if s[0] != 'F' {
      FixSpacingHead(s);
      assert r[0] != Glued[0];
    } else if |s| == 1 {
      assert r == s;
    } else {
      FixSpacingUnglued(s);
      FixSpacingHead(s[1..]);
      assert r[1] == s[1];
      if s[1] != 'i' {
        assert r[1] != Glued[1];
      } else if |s| == 2 {
        assert r == s;
      } else {
        FixSpacingUnglued(s[1..]);
        assert s[1..][1..] == s[2..];
        FixSpacingHead(s[2..]);
        assert r[2] == s[2];
        if s[2] != 'x' {
          assert r[2] != Glued[2];
        } else if |s| == 3 {
          assert r == s;
        } else {
          assert s[3] != Glued[3];
          FixSpacingUnglued(s[2..]);
          assert s[2..][1..] == s[3..];
          FixSpacingHead(s[3..]);
          assert r[3] == s[3];
        }
      }
    }
  }

  /** `Fix“` starts at position `k` of `r`. */
  predicate GlueAt(r: string, k: int) {
    0 <= k && k + 4 <= |r| && r[k..k + 4] == Glued
  }

  /** Every `Fix“` is replaced: none is left anywhere in the result. */
  lemma {:induction false} FixSpacingLeavesNone(s: string)
    ensures forall k :: !GlueAt(FixSpacing(s), k)
    decreases |s|
  {
    var r := FixSpacing(s);
    if |s| >= 4 && s[..4] == Glued {
      FixSpacingLeavesNone(s[4..]);
      var t := FixSpacing(s[4..]);
      assert r == Spaced + t;
      forall k | 0 <= k && k + 4 <= |r|
        ensures !GlueAt(r, k)
      {
        if k >= 5 {
          assert r[k..k + 4] == t[k - 5..k - 1];
          assert !GlueAt(t, k - 5);
        } else if k == 0 {
          assert r[k..k + 4][3] == ' ' != Glued[3];
        } else {
          assert r[k..k + 4][0] == Spaced[k] != Glued[0];
        }
      }
    } else if s != [] {
      FixSpacingLeavesNone(s[1..]);
      FixSpacingNoNewGlue(s);
      var t := FixSpacing(s[1..]);
      assert r == [s[0]] + t;
      forall k | 1 <= k && k + 4 <= |r|
        ensures !GlueAt(r, k)
      {
        assert r[k..k + 4] == t[k - 1..k + 3];
        assert !GlueAt(t, k - 1);
      }
    }
  }

  /** Fixing twice is fixing once. */
  lemma {:induction false} FixSpacingIdempotent(s: string)
    ensures FixSpacing(FixSpacing(s)) == FixSpacing(s)
    decreases |s|
  {
    if |s| >= 4 && s[..4] == Glued {
      FixSpacingIdempotent(s[4..]);
      FixSpacingOfSpaced(FixSpacing(s[4..]));
    } else if s != [] {
      FixSpacingIdempotent(s[1..]);
      FixSpacingNoNewGlue(s);
      var r := FixSpacing(s);
      assert r == [s[0]] + FixSpacing(s[1..]);
      assert r[1..] == FixSpacing(s[1..]);
    }
  }

  lemma SpacedKeepsText()
    ensures RemoveSpaces(Spaced) == RemoveSpaces(Glued)
  {
    RemoveSpacesOfNoSpace(Glued);
    assert Spaced == Spaced[..3] + (Spaced[3..4] + Spaced[4..]);
    RemoveSpacesAppend(Spaced[..3], Spaced[3..4] + Spaced[4..]);
    RemoveSpacesAppend(Spaced[3..4], Spaced[4..]);
    RemoveSpacesOfNoSpace(Spaced[..3]);
    RemoveSpacesOfNoSpace(Spaced[4..]);
    assert Spaced[..3] + Spaced[4..] == Glued;
  }

  /** The fix only inserts white space. */
  lemma {:induction false} FixSpacingKeepsText(s: string)
    ensures RemoveSpaces(FixSpacing(s)) == RemoveSpaces(s)
    decreases |s|
  {
    if |s| >= 4 && s[..4] == Glued {
      FixSpacingKeepsText(s[4..]);
      RemoveSpacesAppend(Spaced, FixSpacing(s[4..]));
      assert s == Glued + s[4..];
      RemoveSpacesAppend(Glued, s[4..]);
      SpacedKeepsText();
    } else if s != [] {
      FixSpacingKeepsText(s[1..]);
      RemoveSpacesAppend([s[0]], FixSpacing(s[1..]));
      RemoveSpacesAppend([s[0]], s[1..]);
      assert [s[0]] + s[1..] == s;
    }
  }

  // ---------------------------------------------------------------------------
  // The sentence of last words

  /** `w.strip(".")` */
  function StripDots(w: string): (r: string)
    ensures |r| <= |w|
    ensures r == [] || (r[0] != '.' && r[|r| - 1] != '.')
    ensures NoSpace(w) ==> NoSpace(r)
    decreases |w|
  {
    if w != [] && w[0] == '.' then StripDots(w[1..])
    else if w != [] && w[|w| - 1] == '.' then StripDots(w[..|w| - 1])
    else w
  }

  lemma SplitOfNonBlank(s: string)
    requires s != [] && !IsSpace(s[0])
    ensures Split(s) != []
  {
  }

  /** `sentence.strip().split()[-1].strip(".").capitalize()` for a sentence that is not
      blank. */
  function LastWord(sentence: string): (w: string)
    requires Strip(sentence) != []
    ensures NoSpace(w)
  {
    var stripped := Strip(sentence);
    StripSpec(sentence);
    SplitOfNonBlank(stripped);
    var words := Split(stripped);
    Capitalize(StripDots(words[|words| - 1]))
  }

  /** The last words of the sentences that are not blank, in order. */
  function LastWords(pieces: seq<string>): (ws: seq<string>)
    ensures |ws| <= |pieces|
    ensures forall k :: 0 <= k < |ws| ==> NoSpace(ws[k])
  {
    if pieces == [] then []
    else (if Strip(pieces[0]) != [] then [LastWord(pieces[0])] else []) + LastWords(pieces[1..])
  }

  /** The sentence `add_last_words_sentence` appends, without its final period. */
  function LastWordsSentence(text: string): string {
    JoinSpaces(LastWords(RegexSplit(text, SentenceEnd)))
  }

  /** `add_last_words_sentence(text)` */
  function AddLastWords(text: string): string {
    text + " " + LastWordsSentence(text) + "."
  }

  /** The text is kept as it was and one sentence ending in a period is appended after a
      space; when no last word strips down to nothing, the appended sentence splits back
      into the last words. */
  lemma AddLastWordsSpec(text: string)
    ensures var r := AddLastWords(text);
      && |r| > |text| && r[..|text|] == text && r[|text|] == ' ' && r[|r| - 1] == '.'
      && r[|text| + 1..|r| - 1] == LastWordsSentence(text)
    ensures var ws := LastWords(RegexSplit(text, SentenceEnd));
      (forall k :: 0 <= k < |ws| ==> ws[k] != []) ==> Split(LastWordsSentence(text)) == ws
  {
    var ws := LastWords(RegexSplit(text, SentenceEnd));
    if forall k :: 0 <= k < |ws| ==> ws[k] != [] {
      SplitJoinRoundTrip(ws);
    }
  }

  // ---------------------------------------------------------------------------
  // The third sentence

  datatype TextError = IndexError

  /** Piece `k` as `fix_third_sentence` leaves it: stripped, and for the third piece
      with its first character in upper case. */
  function FixedPiece(pieces: seq<string>, k: nat): string
    requires k < |pieces|
  {
    var sentence := Strip(pieces[k]);
    if k == 2 && sentence != [] then [Upper(sentence[0])] + sentence[1..] else sentence
  }

  function FixedPieces(pieces: seq<string>): (r: seq<string>)
    ensures |r| == |pieces| && forall k :: 0 <= k < |r| ==> r[k] == FixedPiece(pieces, k)
  {
    seq(|pieces|, k requires 0 <= k < |pieces| => FixedPiece(pieces, k))
  }

  /** The result of `fix_third_sentence(text)`: an `IndexError` when the third piece
      strips to nothing. */
  function ThirdFixed(text: string): Result<string, TextError> {
    var pieces := RegexSplit(text, SentenceEnd);
    if |pieces| > 2 && Strip(pieces[2]) == [] then Failure(IndexError)
    else Success(JoinSpaces(FixedPieces(pieces)))
  }

  /** `fix_third_sentence(text)`: the list of pieces is rewritten in place. */
  method FixThirdSentence(text: string) returns (r: Result<string, TextError>)
    ensures r == ThirdFixed(text)
  {
    var pieces := RegexSplit(text, SentenceEnd);
    var sentences := pieces;
    for i := 0 to |sentences|
      invariant |sentences| == |pieces|
      invariant forall k :: i <= k < |pieces| ==> sentences[k] == pieces[k]
      invariant forall k :: 0 <= k < i ==> sentences[k] == FixedPiece(pieces, k)
      invariant i > 2 ==> Strip(pieces[2]) != []
    {
      sentences := sentences[i := Strip(sentences[i])];
      if i == 2 {
        if sentences[i] == [] {
          return Failure(IndexError);
        }
        sentences := sentences[i := [Upper(sentences[i][0])] + sentences[i][1..]];
      }
    }
    SameSentences(sentences, FixedPieces(pieces));
    r := Success(JoinSpaces(sentences));
  }

  lemma SameSentences(a: seq<string>, b: seq<string>)
    requires |a| == |b| && forall k :: 0 <= k < |a| ==> a[k] == b[k]
    ensures a == b
  {
  }

  lemma BlankAllSpace(x: string)
    requires Strip(x) == []
    ensures forall i :: 0 <= i < |x| ==> IsSpace(x[i])
  {
    StripSpec(x);
  }

  /** `fix_third_sentence` raises only for a text of exactly three pieces whose last one
      is empty, which needs the text to end in white space. */
  lemma ThirdFixedFails(text: string)
    requires ThirdFixed(text).Failure?
    ensures |RegexSplit(text, SentenceEnd)| == 3
    ensures text != [] && IsSpace(text[|text| - 1])
  {
    var p := RegexSplit(text, SentenceEnd);
    SplitPiecesEnd(text, SentenceEnd);
    SplitPiecesStart(text, SentenceEnd);
    SplitLastPiece(text, SentenceEnd);
    BlankAllSpace(p[2]);
  }

  /** The text `add_last_words_sentence` returns never makes `fix_third_sentence`
      raise. */
  lemma AddLastWordsThenThirdFixed(text: string)
    ensures ThirdFixed(AddLastWords(text)).Success?
  {
    if ThirdFixed(AddLastWords(text)).Failure? {
      ThirdFixedFails(AddLastWords(text));
      AddLastWordsSpec(text);
    }
  }

  lemma {:induction false} FoldedPointwise(a: seq<string>, b: seq<string>)
    requires |a| == |b| && forall k :: 0 <= k < |a| ==> Fold(a[k]) == Fold(b[k])
    ensures Folded(a) == Folded(b)
  {
    if a != [] {
      FoldedPointwise(a[1..], b[1..]);
    }
  }

  /** Fixing the third sentence changes letter case and white space and nothing else. */
  lemma ThirdFixedKeepsLetters(text: string)
    requires ThirdFixed(text).Success?
    ensures Fold(ThirdFixed(text).value) == Fold(text)
  {
    var pieces := RegexSplit(text, SentenceEnd);
    var fixed := FixedPieces(pieces);
    FoldJoin(fixed);
    forall k | 0 <= k < |pieces|
      ensures Fold(fixed[k]) == Fold(pieces[k])
    {
      var sentence := Strip(pieces[k]);
      FoldStrip(pieces[k]);
      if k == 2 && sentence != [] {
        FoldUpperFirst(sentence);
      }
    }
    FoldedPointwise(fixed, pieces);
    FoldSplit(text, SentenceEnd);
  }

  // ---------------------------------------------------------------------------
  // White space and the whole run

  /** `count_whitespace_characters(text)` */
  function CountWhitespace(s: string): (n: nat)
    ensures n <= |s|
  {
    if s == [] then 0 else (if IsSpace(s[0]) then 1 else 0) + CountWhitespace(s[1..])
  }

  /** The count is the number of characters that removing the white space drops. */
  lemma {:induction false} CountWhitespaceSpec(s: string)
    ensures CountWhitespace(s) == |s| - |RemoveSpaces(s)|
  {
    if s != [] {
      CountWhitespaceSpec(s[1..]);
    }
  }

  /** The normalised text `process_text` prints. */
  function Processed(text: string): Result<string, TextError> {
    ThirdFixed(AddLastWords(FixSpacing(FixIz(Normalized(text)))))
  }

  /** `process_text(text)` and the Homework_3 script: the five text steps in order, and
      the white-space count of the original text. */
  method ProcessText(text: string) returns (normalizedText: Result<string, TextError>, whitespaceCount: nat)
    ensures normalizedText == Processed(text) && normalizedText.Success?
    ensures whitespaceCount == |text| - |RemoveSpaces(text)|
  {
    var t := NormalizeCases(text);
    t := FixIz(t);
    t := FixSpacing(t);
    AddLastWordsThenThirdFixed(t);
    t := AddLastWords(t);
    normalizedText := FixThirdSentence(t);
    whitespaceCount := CountWhitespace(text);
    CountWhitespaceSpec(text);
  }
}
