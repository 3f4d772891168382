/** The Python `str` operations the programs rely on: `lower`, `strip`, `split()`,
    `" ".join`, iteration over a text file's lines, ordering of strings and `str(n)`. */
module PyStrings {
  import opened Chars

  /** `s.lower()` */
  function LowerStr(s: string): (r: string)
    ensures |r| == |s|
    ensures forall i :: 0 <= i < |s| ==> r[i] == Lower(s[i])
  {
    if s == [] then [] else [Lower(s[0])] + LowerStr(s[1..])
  }

  /** A text with no ASCII capital is its own lower case. */
  lemma LowerStrOfLower(s: string)
    requires forall i :: 0 <= i < |s| ==> !IsAsciiUpper(s[i])
    ensures LowerStr(s) == s
  {
  }

  /** `s.upper()` */
  function UpperStr(s: string): (r: string)
    ensures |r| == |s|
    ensures forall i :: 0 <= i < |s| ==> r[i] == Upper(s[i])
  {
    if s == [] then [] else [Upper(s[0])] + UpperStr(s[1..])
  }

  predicate NoSpace(s: string) {
    forall i :: 0 <= i < |s| ==> !IsSpace(s[i])
  }

  /** `s.lstrip()` */
  function LStrip(s: string): (r: string)
    ensures |r| <= |s|
  {
    if s != [] && IsSpace(s[0]) then LStrip(s[1..]) else s
  }

  /** `s.lstrip()` removes the leading white space and nothing else. */
  lemma {:induction false} LStripSpec(s: string)
    ensures var r := LStrip(s);
      && r == s[|s| - |r|..]
      && (r == [] || !IsSpace(r[0]))
      && forall i :: 0 <= i < |s| - |r| ==> IsSpace(s[i])
  {
    if s != [] && IsSpace(s[0]) {
      LStripSpec(s[1..]);
    }
  }

  /** `s.rstrip()` */
  function RStrip(s: string): (r: string)
    ensures |r| <= |s|
  {
    if s != [] && IsSpace(s[|s| - 1]) then RStrip(s[..|s| - 1]) else s
  }

  /** `s.rstrip()` removes the trailing white space and nothing else. */
  lemma {:induction false} RStripSpec(s: string)
    ensures var r := RStrip(s);
      && r == s[..|r|]
      && (r == [] || !IsSpace(r[|r| - 1]))
      && forall i :: |r| <= i < |s| ==> IsSpace(s[i])
  {
    if s != [] && IsSpace(s[|s| - 1]) {
      RStripSpec(s[..|s| - 1]);
    }
  }

  /** Number of white-space characters `s.lstrip()` removes. */
  function StripStart(s: string): (a: nat)
    ensures a <= |s|
  {
    |s| - |LStrip(s)|
  }

  /** `s.strip()` */
  function Strip(s: string): string {
    RStrip(LStrip(s))
  }

  /** `s.strip()` removes the white space at both ends and nothing else. */
  lemma StripSpec(s: string)
    ensures var r := Strip(s);
      && (r == [] || (!IsSpace(r[0]) && !IsSpace(r[|r| - 1])))
      && StripStart(s) + |r| <= |s| && r == s[StripStart(s)..StripStart(s) + |r|]
      && (forall i :: 0 <= i < StripStart(s) ==> IsSpace(s[i]))
      && (forall i :: StripStart(s) + |r| <= i < |s| ==> IsSpace(s[i]))
  {
    LStripSpec(s);
    RStripSpec(LStrip(s));
  }

  /** Concatenation of a sequence of strings (`"".join(ws)`). */
  function Concat(ws: seq<string>): string {
    if ws == [] then [] else Concat(ws[..|ws| - 1]) + ws[|ws| - 1]
  }

  lemma ConcatAppend(a: seq<string>, b: seq<string>)
    ensures Concat(a + b) == Concat(a) + Concat(b)
  {
    if b != [] {
      assert (a + b)[..|a + b| - 1] == a + b[..|b| - 1];
      ConcatAppend(a, b[..|b| - 1]);
    } else {
      assert a + b == a;
    }
  }

  /** The characters of `s` that are not white space, in order. */
  function RemoveSpaces(s: string): (r: string)
    ensures NoSpace(r) && |r| <= |s|
  {
    if s == [] then [] else (if IsSpace(s[0]) then [] else [s[0]]) + RemoveSpaces(s[1..])
  }

  lemma RemoveSpacesAppend(a: string, b: string)
    ensures RemoveSpaces(a + b) == RemoveSpaces(a) + RemoveSpaces(b)
  {
    if a != [] {
      assert (a + b)[1..] == a[1..] + b;
      RemoveSpacesAppend(a[1..], b);
    } else {
      assert a + b == b;
    }
  }

  lemma RemoveSpacesOfNoSpace(s: string)
    requires NoSpace(s)
    ensures RemoveSpaces(s) == s
  {
    if s != [] { RemoveSpacesOfNoSpace(s[1..]); }
  }

  /** Length of the longest prefix of `s` without white space. */
  function WordLength(s: string): (n: nat)
    ensures n <= |s| && NoSpace(s[..n]) && (n == |s| || IsSpace(s[n]))
  {
    if s == [] || IsSpace(s[0]) then 0
    else
      var n := 1 + WordLength(s[1..]);
      assert s[..n] == [s[0]] + s[1..][..n - 1];
      n
  }

  /** `s.split()`: the maximal runs of non-white-space characters, in order. */
  function Split(s: string): (ws: seq<string>)
    ensures forall i :: 0 <= i < |ws| ==> ws[i] != [] && NoSpace(ws[i])
    decreases |s|
  {
    if s == [] then []
    else if IsSpace(s[0]) then Split(s[1..])
    else
      var n := WordLength(s);
      [s[..n]] + Split(s[n..])
  }

  /** `" ".join(ws)` */
  function JoinSpaces(ws: seq<string>): string {
    if ws == [] then []
    else if |ws| == 1 then ws[0]
    else ws[0] + " " + JoinSpaces(ws[1..])
  }

  /** The words of `s.split()` put back together are exactly the non-white-space
      characters of `s`. */
  lemma {:induction false} SplitKeepsCharacters(s: string)
    ensures Concat(Split(s)) == RemoveSpaces(s)
    decreases |s|
  {
    if s == [] {
    } else if IsSpace(s[0]) {
      SplitKeepsCharacters(s[1..]);
    } else {
      var n := WordLength(s);
      SplitKeepsCharacters(s[n..]);
      ConcatAppend([s[..n]], Split(s[n..]));
      assert Concat([s[..n]]) == s[..n] by {
        assert [s[..n]][..0] == [];
      }
      assert s == s[..n] + s[n..];
      RemoveSpacesAppend(s[..n], s[n..]);
      RemoveSpacesOfNoSpace(s[..n]);
    }
  }

  lemma SplitLeadingSpaces(a: string, b: string)
    requires forall i :: 0 <= i < |a| ==> IsSpace(a[i])
    ensures Split(a + b) == Split(b)
  {
    if a != [] {
      assert (a + b)[1..] == a[1..] + b;
      SplitLeadingSpaces(a[1..], b);
    } else {
      assert a + b == b;
    }
  }

  lemma WordLengthOfWord(w: string, rest: string)
    requires NoSpace(w) && (rest == [] || IsSpace(rest[0]))
    ensures WordLength(w + rest) == |w|
  {
    if w != [] {
      assert (w + rest)[1..] == w[1..] + rest;
      WordLengthOfWord(w[1..], rest);
    } else {
      assert w + rest == rest;
    }
  }

  lemma SplitWordThen(w: string, rest: string)
    requires w != [] && NoSpace(w) && (rest == [] || IsSpace(rest[0]))
    ensures Split(w + rest) == [w] + Split(rest)
  {
    var s := w + rest;
    WordLengthOfWord(w, rest);
    assert s[..|w|] == w;
    assert s[|w|..] == rest;
  }

  /** `s.split()` undoes `" ".join(ws)` whenever every word is non-empty and free of
      white space. */
  lemma {:induction false} SplitJoinRoundTrip(ws: seq<string>)
    requires forall i :: 0 <= i < |ws| ==> ws[i] != [] && NoSpace(ws[i])
    ensures Split(JoinSpaces(ws)) == ws
  {
    if ws == [] {
    } else if |ws| == 1 {
      SplitWordThen(ws[0], []);
      assert ws[0] + [] == ws[0];
    } else {
      SplitJoinRoundTrip(ws[1..]);
      var rest := JoinSpaces(ws[1..]);
      assert ws[0] + " " + rest == ws[0] + (" " + rest);
      SplitWordThen(ws[0], " " + rest);
      SplitLeadingSpaces(" ", rest);
      assert ws == [ws[0]] + ws[1..];
    }
  }

  /** Length of the longest prefix of `s` without `sep`. */
  function FieldLength(s: string, sep: char): (n: nat)
    ensures n <= |s| && (n == |s| || s[n] == sep)
  {
    if s == [] || s[0] == sep then 0 else 1 + FieldLength(s[1..], sep)
  }

  lemma {:induction false} FieldLengthSpec(s: string, sep: char)
    ensures sep !in s[..FieldLength(s, sep)]
  {
    if s != [] && s[0] != sep {
      var n := FieldLength(s, sep);
      FieldLengthSpec(s[1..], sep);
      assert s[..n] == [s[0]] + s[1..][..n - 1];
    }
  }

  /** `s.split(sep)`: the pieces between the occurrences of `sep`, one more piece than
      there are separators (so `"".split(sep)` is `[""]`). */
  function SplitOn(s: string, sep: char): (ps: seq<string>)
    ensures |ps| >= 1
    decreases |s|
  {
    var n := FieldLength(s, sep);
    if n == |s| then [s] else [s[..n]] + SplitOn(s[n + 1..], sep)
  }

  /** No piece holds the separator. */
  lemma {:induction false} SplitOnPieces(s: string, sep: char)
    ensures var ps := SplitOn(s, sep); forall i :: 0 <= i < |ps| ==> sep !in ps[i]
    decreases |s|
  {
    var n := FieldLength(s, sep);
    FieldLengthSpec(s, sep);
    if n < |s| {
      SplitOnPieces(s[n + 1..], sep);
      var ps := SplitOn(s, sep);
      assert ps == [s[..n]] + SplitOn(s[n + 1..], sep);
      assert forall i :: 1 <= i < |ps| ==> ps[i] == SplitOn(s[n + 1..], sep)[i - 1];
    }
  }

  /** `sep.join(ps)` */
  function JoinOn(ps: seq<string>, sep: char): string {
    if ps == [] then []
    else if |ps| == 1 then ps[0]
    else ps[0] + [sep] + JoinOn(ps[1..], sep)
  }

  /** Splitting loses nothing: joining the pieces gives the string back. */
  lemma {:induction false} JoinSplitOn(s: string, sep: char)
    ensures JoinOn(SplitOn(s, sep), sep) == s
    decreases |s|
  {
    var n := FieldLength(s, sep);
    if n < |s| {
      JoinSplitOn(s[n + 1..], sep);
      var ps := SplitOn(s, sep);
      assert ps == [s[..n]] + SplitOn(s[n + 1..], sep);
      assert ps[1..] == SplitOn(s[n + 1..], sep);
      assert s == s[..n] + [sep] + s[n + 1..];
    }
  }

  lemma FieldLengthOf(w: string, sep: char, rest: string)
    requires sep !in w && (rest == [] || rest[0] == sep)
    ensures FieldLength(w + rest, sep) == |w|
  {
    if w == [] {
      assert w + rest == rest;
    } else {
      assert (w + rest)[1..] == w[1..] + rest;
      FieldLengthOf(w[1..], sep, rest);
    }
  }

  lemma SplitOnFirst(w: string, sep: char, rest: string)
    requires sep !in w
    ensures SplitOn(w + [sep] + rest, sep) == [w] + SplitOn(rest, sep)
  {
    var s := w + [sep] + rest;
    assert s == w + ([sep] + rest);
    FieldLengthOf(w, sep, [sep] + rest);
    assert s[|w| + 1..] == rest;
    assert s[..|w|] == w;
  }

  /** Joining pieces free of `sep` and splitting again gives the same pieces. */
  lemma {:induction false} SplitJoinOn(ps: seq<string>, sep: char)
    requires ps != [] && forall i :: 0 <= i < |ps| ==> sep !in ps[i]
    ensures SplitOn(JoinOn(ps, sep), sep) == ps
    decreases |ps|
  {
    if |ps| == 1 {
      FieldLengthOf(ps[0], sep, []);
      assert ps[0] + [] == ps[0];
    } else {
      SplitJoinOn(ps[1..], sep);
      SplitOnFirst(ps[0], sep, JoinOn(ps[1..], sep));
      assert ps == [ps[0]] + ps[1..];
    }
  }

  /** The lines a text file yields when iterated: each ends with its `\n`, except
      possibly the last. */
  function Lines(s: string): (ls: seq<string>)
    ensures forall i :: 0 <= i < |ls| ==> ls[i] != []
    decreases |s|
  {
    if s == [] then []
    else
      var n := LineLength(s);
      [s[..n]] + Lines(s[n..])
  }

  /** Length of the first line of a non-empty `s`, its terminating `\n` included. */
  function LineLength(s: string): (n: nat)
    requires s != []
    ensures 0 < n <= |s|
    ensures forall i :: 0 <= i < n - 1 ==> s[i] != '\n'
    ensures n < |s| ==> s[n - 1] == '\n'
  {
    if s[0] == '\n' || |s| == 1 then 1 else 1 + LineLength(s[1..])
  }

  /** Reading a file line by line loses nothing: the lines concatenate back to the
      whole content. */
  lemma {:induction false} LinesRoundTrip(s: string)
    ensures Concat(Lines(s)) == s
    decreases |s|
  {
    if s != [] {
      var n := LineLength(s);
      LinesRoundTrip(s[n..]);
      assert Lines(s) == [s[..n]] + Lines(s[n..]);
      ConcatCons(s[..n], Lines(s[n..]));
      SplitAt(s, n);
    }
  }

  lemma SplitAt<T>(s: seq<T>, n: nat)
    requires n <= |s|
    ensures s[..n] + s[n..] == s
  {
  }

  lemma ConcatCons(w: string, ws: seq<string>)
    ensures Concat([w] + ws) == w + Concat(ws)
  {
    ConcatAppend([w], ws);
    assert [w][..0] == [];
  }

  /** Python's ordering of strings: lexicographic by code point, a proper prefix first. */
  predicate StrLess(a: string, b: string) {
    if a == [] then b != []
    else if b == [] then false
    else if a[0] != b[0] then a[0] < b[0]
    else StrLess(a[1..], b[1..])
  }

  lemma StrLessIrreflexive(a: string)
    ensures !StrLess(a, a)
  {
    if a != [] { StrLessIrreflexive(a[1..]); }
  }

  lemma StrLessTransitive(a: string, b: string, c: string)
    requires StrLess(a, b) && StrLess(b, c)
    ensures StrLess(a, c)
  {
    if a != [] && b != [] && c != [] && a[0] == b[0] && b[0] == c[0] {
      StrLessTransitive(a[1..], b[1..], c[1..]);
    }
  }

  lemma StrLessTotal(a: string, b: string)
    requires a != b
    ensures StrLess(a, b) || StrLess(b, a)
  {
    if a != [] && b != [] && a[0] == b[0] {
      assert a == [a[0]] + a[1..] && b == [b[0]] + b[1..];
      StrLessTotal(a[1..], b[1..]);
    }
  }

  function DigitChar(d: nat): (c: char)
    requires d < 10
    ensures IsDigit(c)
  {
    ('0' as int + d) as char
  }

  /** `str(n)` for a non-negative integer: decimal digits, no leading zeros. */
  function NatToString(n: nat): (s: string)
    ensures s != [] && forall i :: 0 <= i < |s| ==> IsDigit(s[i])
    decreases n
  {
    if n < 10 then [DigitChar(n)] else NatToString(n / 10) + [DigitChar(n % 10)]
  }

  /** `str(i)` for any integer. */
  function IntToString(i: int): (s: string)
    ensures s != []
  {
    if i < 0 then "-" + NatToString(-i) else NatToString(i)
  }

  /** `"%0*d" % (width, n)`: the decimal digits of `n`, left-padded with zeros. */
  function ZeroPad(n: nat, width: nat): (s: string)
    ensures |s| >= width
  {
    var d := NatToString(n);
    if |d| >= width then d else seq(width - |d|, _ => '0') + d
  }
}
