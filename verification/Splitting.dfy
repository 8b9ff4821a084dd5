/** The two regular-expression splits of `services/chunking.py`, written out as the
    leftmost, greedy matching that `re.split` performs. */
module Splitting {
  import opened Text

  // ----------------------------------------------------- paragraph breaks

  /** `b` is in the language of `\n\s*\n`. */
  predicate MatchesBreak(b: string) {
    |b| >= 2 && b[0] == '\n' && b[|b| - 1] == '\n' && AllSpace(b)
  }

  /** Length of the longest prefix matching `\s*\n`, 0 when there is none. */
  function ThroughLastNewline(s: string): (n: nat)
    ensures n <= |s|
  {
    if s == "" || !IsSpace(s[0]) then 0
    else if ThroughLastNewline(s[1..]) > 0 then ThroughLastNewline(s[1..]) + 1
    else if s[0] == '\n' then 1
    else 0
  }

  lemma {:induction false} ThroughLastNewlineLaw(s: string)
    ensures var n := ThroughLastNewline(s);
            n > 0 ==> s[n - 1] == '\n' && AllSpace(s[..n])
  {
    if s != "" && IsSpace(s[0]) {
      ThroughLastNewlineLaw(s[1..]);
      var n := ThroughLastNewline(s[1..]);
      assert s[..n + 1] == [s[0]] + s[1..][..n];
    }
  }

  lemma {:induction false} NewlineIsReached(s: string, m: nat)
    requires 0 < m <= |s| && AllSpace(s[..m]) && s[m - 1] == '\n'
    ensures m <= ThroughLastNewline(s)
  {
    assert s[..m][0] == s[0];
    if m > 1 {
      assert s[..m] == [s[0]] + s[1..][..m - 1];
      assert AllSpace(s[..m][1..]);
      assert s[..m][1..] == s[1..][..m - 1];
      NewlineIsReached(s[1..], m - 1);
    }
  }

  /** Length of the paragraph break starting at the front of `s`, 0 when none starts there. */
  function BreakLength(s: string): (n: nat)
    ensures n <= |s|
  {
    if s != "" && s[0] == '\n' && ThroughLastNewline(s[1..]) > 0
    then 1 + ThroughLastNewline(s[1..])
    else 0
  }

  /** The scanner agrees with the expression: it finds a break exactly when one matches, and
      then the longest. */
  lemma BreakIsLongestMatch(s: string)
    ensures BreakLength(s) > 0 ==> MatchesBreak(s[..BreakLength(s)])
    ensures forall m :: 0 <= m <= |s| && MatchesBreak(s[..m]) ==> m <= BreakLength(s)
  {
    var n := BreakLength(s);
    if n > 0 {
      ThroughLastNewlineLaw(s[1..]);
      assert s[..n] == [s[0]] + s[1..][..n - 1];
    }
    forall m | 0 <= m <= |s| && MatchesBreak(s[..m]) ensures m <= n {
      assert s[0] == s[..m][0] && s[m - 1] == s[..m][m - 1];
      assert AllSpace(s[..m][1..]);
      assert s[..m][1..] == s[1..][..m - 1];
      NewlineIsReached(s[1..], m - 1);
    }
  }

  /** `_PARAGRAPH_BREAK.split(piece + rest)`, `piece` having been read without a match. */
  function SplitParagraphs(piece: string, rest: string): seq<string>
    decreases |rest|
  {
    if rest == "" then [piece]
    else
      var n := BreakLength(rest);
      if n > 0 then [piece] + SplitParagraphs("", rest[n..])
      else SplitParagraphs(piece + [rest[0]], rest[1..])
  }

  // -------------------------------------------------------- sentence ends

  predicate EndsSentence(s: string) {
    s != "" && s[|s| - 1] in ".!?"
  }

  /** `_SENTENCE_END.split(piece + rest)`. The look-behind sees the end of `piece`; when `piece`
      is empty the character before is whitespace or absent, so it cannot match. */
  function SplitSentences(piece: string, rest: string): seq<string>
    decreases |rest|
  {
    if rest == "" then [piece]
    else if EndsSentence(piece) && IsSpace(rest[0]) then
      [piece] + SplitSentences("", rest[LeadingSpace(rest)..])
    else SplitSentences(piece + [rest[0]], rest[1..])
  }

  /** Strip every piece and drop the blank ones. */
  function Cleaned(pieces: seq<string>): seq<string> {
    if pieces == [] then []
    else (if Strip(pieces[0]) == "" then [] else [Strip(pieces[0])]) + Cleaned(pieces[1..])
  }

  /** The non-blank paragraphs of `text`, stripped. */
  function Paragraphs(text: string): seq<string> {
    Cleaned(SplitParagraphs("", text))
  }

  /** The non-blank sentences of `text`, stripped. */
  function Sentences(text: string): seq<string> {
    Cleaned(SplitSentences("", text))
  }

  // ----------------------------------------------- no word is lost or cut

  lemma {:induction false} ParagraphWords(piece: string, rest: string)
    ensures FlatWords(SplitParagraphs(piece, rest)) == Words(piece + rest)
    decreases |rest|
  {
    var n := BreakLength(rest);
    if rest == "" {
      assert piece + rest == piece;
      assert FlatWords([piece]) == Words(piece) + FlatWords([]);
    } else if n > 0 {
      BreakIsLongestMatch(rest);
      ParagraphWords("", rest[n..]);
      assert "" + rest[n..] == rest[n..];
      SkipGap(piece, rest, n);
    } else {
      ParagraphWords(piece + [rest[0]], rest[1..]);
      assert piece + [rest[0]] + rest[1..] == piece + rest;
    }
  }

  lemma SkipGap(piece: string, rest: string, n: nat)
    requires 0 < n <= |rest| && AllSpace(rest[..n])
    ensures Words(piece + rest) == Words(piece) + Words(rest[n..])
  {
    assert rest == rest[..n] + rest[n..];
    assert IsSpace(rest[..n][0]) && IsSpace(rest[..n][n - 1]);
    SpaceHasNoWords(rest[..n]);
    WordsAppend(rest[..n], rest[n..]);
    WordsAppend(piece, rest);
  }

  lemma {:induction false} SentenceWords(piece: string, rest: string)
    ensures FlatWords(SplitSentences(piece, rest)) == Words(piece + rest)
    decreases |rest|
  {
    if rest == "" {
      assert piece + rest == piece;
      assert FlatWords([piece]) == Words(piece) + FlatWords([]);
    } else if EndsSentence(piece) && IsSpace(rest[0]) {
      var n := LeadingSpace(rest);
      LeadingSpaceLaw(rest);
      SentenceWords("", rest[n..]);
      assert "" + rest[n..] == rest[n..];
      SkipGap(piece, rest, n);
    } else {
      SentenceWords(piece + [rest[0]], rest[1..]);
      assert piece + [rest[0]] + rest[1..] == piece + rest;
    }
  }

  lemma {:induction false} CleanedWords(pieces: seq<string>)
    ensures FlatWords(Cleaned(pieces)) == FlatWords(pieces)
  {
    if pieces != [] {
      CleanedWords(pieces[1..]);
      StripKeepsWords(pieces[0]);
      BlankIffNoWords(pieces[0]);
      if Strip(pieces[0]) != "" {
        assert ([Strip(pieces[0])] + Cleaned(pieces[1..]))[1..] == Cleaned(pieces[1..]);
        assert Cleaned(pieces) == [Strip(pieces[0])] + Cleaned(pieces[1..]);
      } else {
        assert Cleaned(pieces) == Cleaned(pieces[1..]);
      }
    }
  }

  /** The words of a text are the words of its paragraphs, in order. */
  lemma ParagraphsKeepWords(text: string)
    ensures FlatWords(Paragraphs(text)) == Words(text)
  {
    CleanedWords(SplitParagraphs("", text));
    ParagraphWords("", text);
    assert "" + text == text;
  }

  /** The words of a text are the words of its sentences, in order. */
  lemma SentencesKeepWords(text: string)
    ensures FlatWords(Sentences(text)) == Words(text)
  {
    CleanedWords(SplitSentences("", text));
    SentenceWords("", text);
    assert "" + text == text;
  }

  // ------------------------------------- pieces are verbatim, and trimmed

  lemma {:induction false} CleanedTrimmed(pieces: seq<string>)
    ensures forall p :: p in Cleaned(pieces) ==> Trimmed(p)
  {
    if pieces != [] {
      CleanedTrimmed(pieces[1..]);
      StripIsTrimmed(pieces[0]);
    }
  }

  lemma {:induction false} CleanedSlices(pieces: seq<string>, whole: string)
    requires forall p :: p in pieces ==> IsSlice(p, whole)
    ensures forall p :: p in Cleaned(pieces) ==> IsSlice(p, whole)
  {
    if pieces != [] {
      CleanedSlices(pieces[1..], whole);
      StripIsSlice(pieces[0]);
      SliceOfSlice(Strip(pieces[0]), pieces[0], whole);
    }
  }

  lemma {:induction false} SentenceSlices(piece: string, rest: string, whole: string)
    requires IsSlice(piece + rest, whole)
    ensures forall p :: p in SplitSentences(piece, rest) ==> IsSlice(p, whole)
    decreases |rest|
  {
    FrontIsSlice(piece, rest, whole);
    if rest == "" {
    } else if EndsSentence(piece) && IsSpace(rest[0]) {
      BackIsSlice(piece, rest, LeadingSpace(rest), whole);
      SentenceSlices("", rest[LeadingSpace(rest)..], whole);
    } else {
      assert piece + [rest[0]] + rest[1..] == piece + rest;
      SentenceSlices(piece + [rest[0]], rest[1..], whole);
    }
  }

  lemma FrontIsSlice(piece: string, rest: string, whole: string)
    requires IsSlice(piece + rest, whole)
    ensures IsSlice(piece, whole)
  {
    MiddleIsSlice("", piece, rest);
    assert "" + piece + rest == piece + rest;
    SliceOfSlice(piece, piece + rest, whole);
  }

  lemma BackIsSlice(piece: string, rest: string, n: nat, whole: string)
    requires n <= |rest| && IsSlice(piece + rest, whole)
    ensures IsSlice("" + rest[n..], whole)
  {
    MiddleIsSlice(piece + rest[..n], rest[n..], "");
    assert piece + rest[..n] + rest[n..] + "" == piece + rest;
    assert "" + rest[n..] == rest[n..];
    SliceOfSlice(rest[n..], piece + rest, whole);
  }

  lemma SentencesAreTrimmedSlices(text: string)
    ensures forall p :: p in Sentences(text) ==> Trimmed(p) && IsSlice(p, text)
  {
    assert "" + text == text && text == text[0..|text|];
    SentenceSlices("", text, text);
    CleanedSlices(SplitSentences("", text), text);
    CleanedTrimmed(SplitSentences("", text));
  }

  // -------------------------------------------- where the breaks can fall

  /** Two newlines at `i < j` in one run of whitespace: a place where a break matches. */
  predicate Pair(s: string, i: int, j: int) {
    0 <= i < j < |s| && s[i] == '\n' && s[j] == '\n' && forall k :: i <= k <= j ==> IsSpace(s[k])
  }

  /** No paragraph break matches anywhere. */
  ghost predicate NoBreak(s: string) {
    forall i, j :: !Pair(s, i, j)
  }

  /** Every paragraph break is exactly one blank line, with text on both sides. */
  ghost predicate BlankLinesOnly(s: string) {
    forall i, j :: Pair(s, i, j) ==>
      j == i + 1 && i > 0 && !IsSpace(s[i - 1]) && j + 1 < |s| && !IsSpace(s[j + 1])
  }

  /** The shape of every stored chunk. */
  ghost predicate Tidy(s: string) {
    Trimmed(s) && BlankLinesOnly(s)
  }

  lemma BreakIffPair(s: string, j: int)
    requires BreakLength(s) == 0
    ensures !Pair(s, 0, j)
  {
    BreakIsLongestMatch(s);
    assert Pair(s, 0, j) ==> MatchesBreak(s[..j + 1]);
  }

  /** No pair begins inside the part already read. */
  ghost predicate ReadCleanly(piece: string, whole: string) {
    forall i, j :: Pair(whole, i, j) ==> i >= |piece|
  }

  lemma ReadOne(piece: string, rest: string)
    requires rest != "" && BreakLength(rest) == 0
    requires ReadCleanly(piece, piece + rest)
    ensures piece + [rest[0]] + rest[1..] == piece + rest
    ensures ReadCleanly(piece + [rest[0]], piece + rest)
  {
    var w := piece + rest;
    forall i, j | Pair(w, i, j) ensures i >= |piece| + 1 {
      if i == |piece| {
        forall k | 0 <= k <= j - |piece| ensures IsSpace(rest[k]) {
          assert rest[k] == w[|piece| + k];
        }
        assert Pair(rest, 0, j - |piece|);
        BreakIffPair(rest, j - |piece|);
      }
    }
  }

  lemma PairInSlice(s: string, i: int, j: int, x: int, y: int)
    requires 0 <= i <= j <= |s| && Pair(s[i..j], x, y)
    ensures Pair(s, i + x, i + y)
  {
    forall k | i + x <= k <= i + y ensures IsSpace(s[k]) {
      assert s[k] == s[i..j][k - i];
    }
    assert s[i + x] == s[i..j][x] && s[i + y] == s[i..j][y];
  }

  lemma ReadNoBreak(piece: string, rest: string)
    requires ReadCleanly(piece, piece + rest)
    ensures NoBreak(piece)
  {
    forall i, j ensures !Pair(piece, i, j) {
      if Pair(piece, i, j) {
        assert (piece + rest)[0..|piece|] == piece;
        PairInSlice(piece + rest, 0, |piece|, i, j);
      }
    }
  }

  /** No piece of a paragraph split contains another break. */
  lemma {:induction false} PiecesHaveNoBreak(piece: string, rest: string)
    requires ReadCleanly(piece, piece + rest)
    ensures forall p :: p in SplitParagraphs(piece, rest) ==> NoBreak(p)
    decreases |rest|
  {
    ReadNoBreak(piece, rest);
    var n := BreakLength(rest);
    if rest == "" {
    } else if n > 0 {
      PiecesHaveNoBreak("", rest[n..]);
    } else {
      ReadOne(piece, rest);
      PiecesHaveNoBreak(piece + [rest[0]], rest[1..]);
    }
  }

  lemma SliceHasNoBreak(p: string, s: string)
    requires IsSlice(p, s) && NoBreak(s)
    ensures NoBreak(p)
  {
    var i, j :| 0 <= i <= j <= |s| && p == s[i..j];
    forall x, y ensures !Pair(p, x, y) {
      if Pair(p, x, y) {
        PairInSlice(s, i, j, x, y);
      }
    }
  }

  lemma {:induction false} CleanedNoBreak(pieces: seq<string>)
    requires forall p :: p in pieces ==> NoBreak(p)
    ensures forall p :: p in Cleaned(pieces) ==> NoBreak(p)
  {
    if pieces != [] {
      CleanedNoBreak(pieces[1..]);
      StripIsSlice(pieces[0]);
      SliceHasNoBreak(Strip(pieces[0]), pieces[0]);
    }
  }

  lemma ParagraphsAreUnbroken(text: string)
    ensures forall p :: p in Paragraphs(text) ==> Trimmed(p) && NoBreak(p)
  {
    assert "" + text == text;
    PiecesHaveNoBreak("", text);
    CleanedNoBreak(SplitParagraphs("", text));
    CleanedTrimmed(SplitParagraphs("", text));
  }

  /** A trimmed slice of a tidy text is tidy. */
  lemma SliceIsTidy(p: string, s: string)
    requires Trimmed(p) && IsSlice(p, s) && BlankLinesOnly(s)
    ensures Tidy(p)
  {
    var i, j :| 0 <= i <= j <= |s| && p == s[i..j];
    forall x, y | Pair(p, x, y)
      ensures y == x + 1 && x > 0 && !IsSpace(p[x - 1]) && y + 1 < |p| && !IsSpace(p[y + 1])
    {
      PairInSlice(s, i, j, x, y);
    }
  }

  predicate IsSeparator(sep: string) {
    sep == "\n\n" || sep == " "
  }

  /** Joining tidy texts by a blank line or a space gives a tidy text. */
  lemma JoinedIsTidy(a: string, sep: string, b: string)
    requires Tidy(a) && Tidy(b) && IsSeparator(sep)
    ensures Tidy(a + sep + b)
  {
    var s := a + sep + b;
    var k := |a| + |sep|;
    assert s[..|a|] == a && s[k..] == b;
    assert s[0] == a[0] && s[|a| - 1] == a[|a| - 1] && s[k] == b[0] && s[|s| - 1] == b[|b| - 1];
    forall i, j | Pair(s, i, j)
      ensures j == i + 1 && i > 0 && !IsSpace(s[i - 1]) && j + 1 < |s| && !IsSpace(s[j + 1])
    {
      if i < |a| {
        assert j < |a| - 1;
        assert forall x :: i <= x <= j ==> a[x] == s[x];
        assert Pair(a, i, j);
      } else if j >= k {
        assert i > k;
        assert forall x :: k <= x < |s| ==> b[x - k] == s[x];
        assert Pair(b, i - k, j - k) by {
          forall x | i - k <= x <= j - k ensures IsSpace(b[x]) {
            assert b[x] == s[x + k];
          }
        }
      } else {
        assert s[i] == sep[i - |a|];
        assert sep == "\n\n";
      }
    }
  }

  /** In a tidy text a break is one blank line between two tidy texts. */
  lemma TidyBreak(piece: string, rest: string)
    requires Tidy(piece + rest) && BreakLength(rest) > 0
    ensures BreakLength(rest) == 2 && piece + "\n\n" + rest[2..] == piece + rest
    ensures Trimmed(piece) && Tidy(rest[2..])
  {
    var w, n := piece + rest, BreakLength(rest);
    BreakIsLongestMatch(rest);
    var b := rest[..n];
    forall k | |piece| <= k <= |piece| + n - 1 ensures IsSpace(w[k]) {
      assert w[k] == b[k - |piece|];
    }
    assert w[|piece|] == b[0] && w[|piece| + n - 1] == b[n - 1];
    assert Pair(w, |piece|, |piece| + n - 1);
    assert b == "\n\n";
    assert piece[0] == w[0] && piece[|piece| - 1] == w[|piece| - 1];
    var tail := rest[n..];
    assert tail == w[|piece| + n..|w|];
    assert tail[0] == w[|piece| + n] && tail[|tail| - 1] == w[|w| - 1];
    SliceIsTidy(tail, w);
  }

  /** Splitting a tidy text at its breaks and joining with blank lines gives the text back,
      character for character. */
  lemma {:induction false} TidyRoundTrip(piece: string, rest: string)
    requires Tidy(piece + rest) && ReadCleanly(piece, piece + rest)
    ensures Join(SplitParagraphs(piece, rest), "\n\n") == piece + rest
    ensures forall p :: p in SplitParagraphs(piece, rest) ==> Trimmed(p)
    decreases |rest|
  {
    if rest == "" {
      assert piece + rest == piece;
    } else if BreakLength(rest) > 0 {
      TidyBreak(piece, rest);
      var tail := rest[2..];
      assert "" + tail == tail;
      TidyRoundTrip("", tail);
      var more := SplitParagraphs("", tail);
      ParagraphSplitNotEmpty("", tail);
      assert SplitParagraphs(piece, rest) == [piece] + more && ([piece] + more)[1..] == more;
    } else {
      ReadOne(piece, rest);
      TidyRoundTrip(piece + [rest[0]], rest[1..]);
    }
  }

  lemma {:induction false} ParagraphSplitNotEmpty(piece: string, rest: string)
    ensures SplitParagraphs(piece, rest) != []
    decreases |rest|
  {
    if rest != "" && BreakLength(rest) == 0 {
      ParagraphSplitNotEmpty(piece + [rest[0]], rest[1..]);
    }
  }

  lemma {:induction false} CleanedOfTrimmed(pieces: seq<string>)
    requires forall p :: p in pieces ==> Trimmed(p)
    ensures Cleaned(pieces) == pieces
  {
    if pieces != [] {
      StripTrimmed(pieces[0]);
      CleanedOfTrimmed(pieces[1..]);
    }
  }

  /** The paragraphs of a tidy text, joined by blank lines, are the text. */
  lemma ParagraphsRoundTrip(text: string)
    requires Tidy(text)
    ensures Join(Paragraphs(text), "\n\n") == text
    ensures Paragraphs(text) == SplitParagraphs("", text)
  {
    assert "" + text == text;
    TidyRoundTrip("", text);
    CleanedOfTrimmed(SplitParagraphs("", text));
  }

  // -------------------------------------------- where the sentences are cut

  /** The sentence expression matches here: whitespace right after an end mark. */
  predicate CutHere(s: string, k: nat) {
    0 < k < |s| && s[k - 1] in ".!?" && IsSpace(s[k])
  }

  predicate Uncut(s: string) {
    forall k :: 0 < k < |s| ==> !CutHere(s, k)
  }

  /** The pieces with the gaps put back between them. */
  function Weave(pieces: seq<string>, gaps: seq<string>): string
    requires |pieces| == |gaps| + 1
  {
    if gaps == [] then pieces[0] else pieces[0] + gaps[0] + Weave(pieces[1..], gaps[1..])
  }

  /** What splitting at the sentence expression must be: each gap is a whole run of whitespace right
      after an end mark, and no piece holds another place to cut. */
  predicate CutAtEnds(pieces: seq<string>, gaps: seq<string>)
    requires |pieces| == |gaps| + 1
  {
    && (forall i :: 0 <= i < |pieces| ==> Uncut(pieces[i]))
    && (forall i :: 0 <= i < |gaps| ==> IsGap(pieces[i], gaps[i], pieces[i + 1]))
  }

  predicate IsGap(before: string, gap: string, next: string) {
    EndsSentence(before) && gap != "" && AllSpace(gap) && (next == "" || !IsSpace(next[0]))
  }

  /** Cutting here and going on. */
  lemma CutAndGoOn(piece: string, gap: string, ps: seq<string>, gs: seq<string>)
    requires |ps| == |gs| + 1 && CutAtEnds(ps, gs) && Uncut(piece) && EndsSentence(piece)
    requires gap != "" && AllSpace(gap) && (Weave(ps, gs) == "" || !IsSpace(Weave(ps, gs)[0]))
    ensures CutAtEnds([piece] + ps, [gap] + gs)
    ensures Weave([piece] + ps, [gap] + gs) == piece + gap + Weave(ps, gs)
  {
    assert ([piece] + ps)[1..] == ps && ([gap] + gs)[1..] == gs;
    assert ps[0] != "" ==> ps[0][0] == Weave(ps, gs)[0];
    assert IsGap(piece, gap, ps[0]);
    forall i | 0 <= i < |gs| + 1 ensures IsGap(([piece] + ps)[i], ([gap] + gs)[i], ([piece] + ps)[i + 1]) {
      assert i > 0 ==> IsGap(ps[i - 1], gs[i - 1], ps[i]);
    }
  }

  lemma Reassembled(piece: string, rest: string, n: nat)
    requires n <= |rest|
    ensures piece + rest[..n] + rest[n..] == piece + rest && "" + rest[n..] == rest[n..]
    ensures n == 1 ==> rest[..n] == [rest[0]]
  {
  }

  lemma {:induction false} SentenceCuts(piece: string, rest: string) returns (gaps: seq<string>)
    requires Uncut(piece)
    ensures var pieces := SplitSentences(piece, rest);
      |pieces| == |gaps| + 1 && Weave(pieces, gaps) == piece + rest && CutAtEnds(pieces, gaps)
    decreases |rest|
  {
    if rest == "" {
      gaps := [];
      assert piece + rest == piece;
    } else if EndsSentence(piece) && IsSpace(rest[0]) {
      var n := LeadingSpace(rest);
      LeadingSpaceLaw(rest);
      var gap, tail := rest[..n], rest[n..];
      var more := SentenceCuts("", tail);
      Reassembled(piece, rest, n);
      assert n > 0 && (tail != "" ==> tail[0] == rest[n]);
      var pieces := SplitSentences("", tail);
      CutAndGoOn(piece, gap, pieces, more);
      gaps := [gap] + more;
    } else {
      UncutOneMore(piece, rest[0]);
      Reassembled(piece, rest, 1);
      gaps := SentenceCuts(piece + [rest[0]], rest[1..]);
    }
  }

  lemma UncutOneMore(piece: string, c: char)
    requires Uncut(piece) && !(EndsSentence(piece) && IsSpace(c))
    ensures Uncut(piece + [c])
  {
    forall k | 0 < k < |piece| + 1 ensures !CutHere(piece + [c], k) {
      assert k < |piece| ==> !CutHere(piece, k);
    }
  }

  /** THE SENTENCE SPLIT. Putting the cut whitespace back gives the text; every cut falls right
      after an end mark and takes the whole run; and no piece holds another place to cut. */
  lemma SentencesAreCutAtEnds(text: string) returns (gaps: seq<string>)
    ensures var pieces := SplitSentences("", text);
      |pieces| == |gaps| + 1 && Weave(pieces, gaps) == text && CutAtEnds(pieces, gaps)
  {
    gaps := SentenceCuts("", text);
    assert "" + text == text;
  }

  /** The first place to cut is after `k` characters, and the gap there is `g` long. */
  predicate FirstCut(text: string, k: nat, g: nat) {
    && 0 < g && k + g <= |text| && CutHere(text, k)
    && (forall x :: 0 < x < k ==> !CutHere(text, x))
    && (forall x :: k <= x < k + g ==> IsSpace(text[x]))
    && (k + g < |text| ==> !IsSpace(text[k + g]))
  }

  lemma OneFirstCut(text: string, k: nat, g: nat, l: nat, h: nat)
    requires FirstCut(text, k, g) && FirstCut(text, l, h)
    ensures k == l && g == h
  {
  }

  lemma WovenFirst(ps: seq<string>, gs: seq<string>)
    requires |ps| == |gs| + 1 && gs != [] && CutAtEnds(ps, gs)
    ensures var text, k, g := Weave(ps, gs), |ps[0]|, |gs[0]|;
      && FirstCut(text, k, g) && text[..k] == ps[0] && text[k..k + g] == gs[0]
      && text[k + g..] == Weave(ps[1..], gs[1..])
  {
    var text, rest, k, g := Weave(ps, gs), Weave(ps[1..], gs[1..]), |ps[0]|, |gs[0]|;
    assert IsGap(ps[0], gs[0], ps[1]);
    assert text == ps[0] + gs[0] + rest;
    assert text[..k] == ps[0] && text[k..k + g] == gs[0] && text[k + g..] == rest;
    assert CutHere(text, k);
    forall x | 0 < x < k ensures !CutHere(text, x) {
      assert !CutHere(ps[0], x);
    }
    assert |gs| > 1 ==> IsGap(ps[1], gs[1], ps[2]);
    assert rest != "" ==> rest[0] == ps[1][0] && text[k + g] == rest[0];
  }

  /** That much determines the split: there is no other. */
  lemma {:induction false} OnlyOneSplit(ps: seq<string>, gs: seq<string>, qs: seq<string>, hs: seq<string>)
    requires |ps| == |gs| + 1 && CutAtEnds(ps, gs)
    requires |qs| == |hs| + 1 && CutAtEnds(qs, hs)
    requires Weave(ps, gs) == Weave(qs, hs)
    ensures ps == qs && gs == hs
    decreases |gs|
  {
    var text := Weave(ps, gs);
    if gs != [] {
      WovenFirst(ps, gs);
    }
    if hs != [] {
      WovenFirst(qs, hs);
    }
    if gs != [] && hs != [] {
      OneFirstCut(text, |ps[0]|, |gs[0]|, |qs[0]|, |hs[0]|);
      OnlyOneSplit(ps[1..], gs[1..], qs[1..], hs[1..]);
      assert ps == [ps[0]] + ps[1..] && qs == [qs[0]] + qs[1..];
      assert gs == [gs[0]] + gs[1..] && hs == [hs[0]] + hs[1..];
    }
  }

  lemma SliceIsUncut(p: string, s: string)
    requires IsSlice(p, s) && Uncut(s)
    ensures Uncut(p)
  {
    var i, j :| 0 <= i <= j <= |s| && p == s[i..j];
    forall k | 0 < k < |p| ensures !CutHere(p, k) {
      assert !CutHere(s, i + k);
    }
  }

  lemma {:induction false} CleanedUncut(pieces: seq<string>)
    requires forall p :: p in pieces ==> Uncut(p)
    ensures forall p :: p in Cleaned(pieces) ==> Uncut(p)
  {
    if pieces != [] {
      CleanedUncut(pieces[1..]);
      StripIsSlice(pieces[0]);
      SliceIsUncut(Strip(pieces[0]), pieces[0]);
    }
  }

  /** No sentence holds an end mark followed by whitespace. */
  lemma SentencesAreUncut(text: string)
    ensures forall p :: p in Sentences(text) ==> Uncut(p)
  {
    var gaps := SentencesAreCutAtEnds(text);
    CleanedUncut(SplitSentences("", text));
  }

  // ------------------------------------------- where the paragraphs are cut

  /** The break expression matches nothing that begins at `k`. */
  ghost predicate NoBreakAt(s: string, k: nat) {
    forall m :: k <= m <= |s| ==> !MatchesBreak(s[k..m])
  }

  /** What begins at `k` is a match `g` long, and none there is longer. */
  ghost predicate LongestBreakAt(s: string, k: nat, g: nat) {
    && k + g <= |s| && MatchesBreak(s[k..k + g])
    && forall m :: k + g < m <= |s| ==> !MatchesBreak(s[k..m])
  }

  /** What splitting at the break expression must be: each gap is the longest match at the first
      place where there is one, and after the last gap there is none. */
  ghost predicate CutAtBreaks(pieces: seq<string>, gaps: seq<string>)
    requires |pieces| == |gaps| + 1
    decreases |gaps|
  {
    var text := Weave(pieces, gaps);
    if gaps == [] then forall k :: 0 <= k <= |text| ==> NoBreakAt(text, k)
    else
      && (forall k :: 0 <= k < |pieces[0]| ==> NoBreakAt(text, k))
      && LongestBreakAt(text, |pieces[0]|, |gaps[0]|)
      && CutAtBreaks(pieces[1..], gaps[1..])
  }

  /** The scanner's length is that of the longest match. */
  lemma BreakLengthAt(s: string, k: nat)
    requires k <= |s|
    ensures BreakLength(s[k..]) == 0 ==> NoBreakAt(s, k)
    ensures BreakLength(s[k..]) > 0 ==> LongestBreakAt(s, k, BreakLength(s[k..]))
  {
    var n := BreakLength(s[k..]);
    BreakIsLongestMatch(s[k..]);
    forall m | k <= m <= |s| && MatchesBreak(s[k..m]) ensures m - k <= n {
      assert s[k..][..m - k] == s[k..m];
    }
    assert s[k..][..n] == s[k..k + n];
  }

  /** Nothing matches before the end of what has been read. */
  ghost predicate ReadThrough(piece: string, whole: string) {
    forall k :: 0 <= k < |piece| ==> NoBreakAt(whole, k)
  }

  lemma {:induction false} ParagraphCuts(piece: string, rest: string) returns (gaps: seq<string>)
    requires ReadThrough(piece, piece + rest)
    ensures var pieces := SplitParagraphs(piece, rest);
      |pieces| == |gaps| + 1 && Weave(pieces, gaps) == piece + rest && CutAtBreaks(pieces, gaps)
    decreases |rest|
  {
    var whole := piece + rest;
    assert whole[|piece|..] == rest;
    BreakLengthAt(whole, |piece|);
    var n := BreakLength(rest);
    if rest == "" {
      gaps := [];
      assert whole == piece;
    } else if n > 0 {
      var gap, tail := rest[..n], rest[n..];
      Reassembled(piece, rest, n);
      var more := ParagraphCuts("", tail);
      var pieces := SplitParagraphs("", tail);
      gaps := [gap] + more;
      assert ([piece] + pieces)[1..] == pieces && gaps[1..] == more;
      assert Weave([piece] + pieces, gaps) == whole;
    } else {
      Reassembled(piece, rest, 1);
      gaps := ParagraphCuts(piece + [rest[0]], rest[1..]);
    }
  }

  /** THE PARAGRAPH SPLIT. Putting the gaps back gives the text, and the gaps are the successive
      longest matches of the expression. */
  lemma ParagraphsAreCutAtBreaks(text: string) returns (gaps: seq<string>)
    ensures var pieces := SplitParagraphs("", text);
      |pieces| == |gaps| + 1 && Weave(pieces, gaps) == text && CutAtBreaks(pieces, gaps)
  {
    assert "" + text == text;
    gaps := ParagraphCuts("", text);
  }

  /** The first match after nothing matched before. */
  ghost predicate FirstBreak(s: string, k: nat, g: nat) {
    (forall x :: 0 <= x < k ==> NoBreakAt(s, x)) && LongestBreakAt(s, k, g)
  }

  lemma OneFirstBreak(s: string, k: nat, g: nat, l: nat, h: nat)
    requires FirstBreak(s, k, g) && FirstBreak(s, l, h)
    ensures k == l && g == h
  {
    assert k < l ==> NoBreakAt(s, k);
    assert l < k ==> NoBreakAt(s, l);
  }

  lemma WovenBreak(ps: seq<string>, gs: seq<string>)
    requires |ps| == |gs| + 1 && gs != [] && CutAtBreaks(ps, gs)
    ensures var text, k, g := Weave(ps, gs), |ps[0]|, |gs[0]|;
      && FirstBreak(text, k, g) && text[..k] == ps[0] && text[k..k + g] == gs[0]
      && text[k + g..] == Weave(ps[1..], gs[1..])
  {
    assert Weave(ps, gs) == ps[0] + gs[0] + Weave(ps[1..], gs[1..]);
  }

  lemma UnbrokenHasNoFirst(ps: seq<string>, k: nat, g: nat)
    requires |ps| == 1 && CutAtBreaks(ps, [])
    ensures !FirstBreak(Weave(ps, []), k, g)
  {
    assert k <= |Weave(ps, [])| ==> NoBreakAt(Weave(ps, []), k);
  }

  /** That much determines the split: there is no other. */
  lemma {:induction false} OnlyOneParagraphSplit(ps: seq<string>, gs: seq<string>, qs: seq<string>, hs: seq<string>)
    requires |ps| == |gs| + 1 && CutAtBreaks(ps, gs)
    requires |qs| == |hs| + 1 && CutAtBreaks(qs, hs)
    requires Weave(ps, gs) == Weave(qs, hs)
    ensures ps == qs && gs == hs
    decreases |gs|
  {
    var text := Weave(ps, gs);
    if gs != [] {
      WovenBreak(ps, gs);
    }
    if hs != [] {
      WovenBreak(qs, hs);
    }
    if gs != [] && hs != [] {
      OneFirstBreak(text, |ps[0]|, |gs[0]|, |qs[0]|, |hs[0]|);
      OnlyOneParagraphSplit(ps[1..], gs[1..], qs[1..], hs[1..]);
      assert ps == [ps[0]] + ps[1..] && qs == [qs[0]] + qs[1..];
      assert gs == [gs[0]] + gs[1..] && hs == [hs[0]] + hs[1..];
    } else if gs != [] {
      UnbrokenHasNoFirst(qs, |ps[0]|, |gs[0]|);
    } else if hs != [] {
      UnbrokenHasNoFirst(ps, |qs[0]|, |hs[0]|);
    }
  }

  // ------------------------------------------------- text that is not split

  lemma {:induction false} UncutIsOnePiece(piece: string, rest: string)
    requires Uncut(piece + rest)
    ensures SplitSentences(piece, rest) == [piece + rest]
    decreases |rest|
  {
    if rest == "" {
      assert piece + rest == piece;
    } else {
      assert !CutHere(piece + rest, |piece|);
      assert piece + [rest[0]] + rest[1..] == piece + rest;
      UncutIsOnePiece(piece + [rest[0]], rest[1..]);
    }
  }

  lemma BreakIsPair(piece: string, rest: string)
    requires BreakLength(rest) > 0
    ensures !NoBreak(piece + rest)
  {
    var w, n := piece + rest, BreakLength(rest);
    BreakIsLongestMatch(rest);
    forall k | |piece| <= k <= |piece| + n - 1 ensures IsSpace(w[k]) {
      assert w[k] == rest[..n][k - |piece|];
    }
    assert w[|piece|] == rest[..n][0] && w[|piece| + n - 1] == rest[..n][n - 1];
    assert Pair(w, |piece|, |piece| + n - 1);
  }

  lemma {:induction false} UnbrokenIsOnePiece(piece: string, rest: string)
    requires NoBreak(piece + rest)
    ensures SplitParagraphs(piece, rest) == [piece + rest]
    decreases |rest|
  {
    if rest == "" {
      assert piece + rest == piece;
    } else {
      if BreakLength(rest) > 0 {
        BreakIsPair(piece, rest);
      }
      assert piece + [rest[0]] + rest[1..] == piece + rest;
      UnbrokenIsOnePiece(piece + [rest[0]], rest[1..]);
    }
  }

  /** A trimmed text without a break or a cut is one paragraph and one sentence. */
  lemma WholeText(text: string)
    requires Trimmed(text) && NoBreak(text) && Uncut(text)
    ensures Paragraphs(text) == [text] && Sentences(text) == [text]
  {
    assert "" + text == text;
    UnbrokenIsOnePiece("", text);
    UncutIsOnePiece("", text);
    CleanedOfTrimmed([text]);
  }

  lemma NoSpaceSplits(w: string)
    requires IsWord(w)
    ensures Trimmed(w) && Words(w) == [w] && Paragraphs(w) == [w] && Sentences(w) == [w]
  {
    assert "" + w == w;
    ScanNoSpace("", w);
    WholeText(w);
  }
}
