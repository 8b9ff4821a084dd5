/** Python strings as sequences of characters: whitespace, `split()`, `strip()`, `" ".join()`. */
module Text {

  /** The characters for which `str.isspace` holds; `split`, `strip` and the regular
      expression class `\s` all use this set. */
  predicate IsSpace(c: char) {
    || c == ' '
    || '\t' <= c <= '\r'
    || '\U{1c}' <= c <= '\U{1f}'
    || c == '\U{85}'
    || c == '\U{a0}'
    || c == '\U{1680}'
    || '\U{2000}' <= c <= '\U{200a}'
    || c == '\U{2028}'
    || c == '\U{2029}'
    || c == '\U{202f}'
    || c == '\U{205f}'
    || c == '\U{3000}'
  }

  /** The same set, one character at a time. */
  lemma IsSpaceIff(c: char)
    ensures IsSpace(c) <==>
      c in {'\t', '\n', '\U{b}', '\U{c}', '\r', '\U{1c}', '\U{1d}', '\U{1e}', '\U{1f}', ' ', '\U{85}', '\U{a0}',
            '\U{1680}', '\U{2000}', '\U{2001}', '\U{2002}', '\U{2003}', '\U{2004}', '\U{2005}', '\U{2006}', '\U{2007}',
            '\U{2008}', '\U{2009}', '\U{200a}', '\U{2028}', '\U{2029}', '\U{202f}', '\U{205f}', '\U{3000}'}
  {
  }

  predicate AllSpace(s: string) {
    forall i :: 0 <= i < |s| ==> IsSpace(s[i])
  }

  predicate NoSpace(s: string) {
    forall i :: 0 <= i < |s| ==> !IsSpace(s[i])
  }

  /** Not empty, and neither end is whitespace. */
  predicate Trimmed(s: string) {
    s != "" && !IsSpace(s[0]) && !IsSpace(s[|s| - 1])
  }

  /** `p` occurs verbatim in `s`. */
  ghost predicate IsSlice(p: string, s: string) {
    exists i, j :: 0 <= i <= j <= |s| && p == s[i..j]
  }

  lemma SliceOfSlice(p: string, q: string, s: string)
    requires IsSlice(p, q) && IsSlice(q, s)
    ensures IsSlice(p, s)
  {
    var i, j :| 0 <= i <= j <= |q| && p == q[i..j];
    var k, l :| 0 <= k <= l <= |s| && q == s[k..l];
    var r := s[k + i..k + j];
    forall x | 0 <= x < |p| ensures p[x] == r[x] {
      assert p[x] == q[i + x] && q[i + x] == s[k + (i + x)];
    }
    assert p == r;
  }

  lemma MiddleIsSlice(a: string, p: string, b: string)
    ensures IsSlice(p, a + p + b)
  {
    assert p == (a + p + b)[|a|..|a| + |p|];
  }

  // ---------------------------------------------------------------- words

  function Flush(word: string): seq<string> {
    if word == "" then [] else [word]
  }

  /** The words of `word + s`, where `word` is the unfinished word read so far. */
  function Scan(word: string, s: string): seq<string>
    decreases |s|
  {
    if s == "" then Flush(word)
    else if IsSpace(s[0]) then Flush(word) + Scan("", s[1..])
    else Scan(word + [s[0]], s[1..])
  }

  /** `text.split()`: the maximal runs of non-whitespace, in order. */
  function Words(s: string): seq<string> {
    Scan("", s)
  }

  lemma {:induction false} ScanAppend(word: string, a: string, b: string)
    requires b != "" && IsSpace(b[0])
    ensures Scan(word, a + b) == Scan(word, a) + Scan("", b)
    decreases |a|
  {
    if a == "" {
      assert a + b == b;
    } else {
      assert (a + b)[1..] == a[1..] + b;
      ScanAppend(if IsSpace(a[0]) then "" else word + [a[0]], a[1..], b);
      if IsSpace(a[0]) {
        assert Scan(word, a + b) == Flush(word) + (Scan("", a[1..]) + Scan("", b));
      }
    }
  }

  /** Splitting distributes over concatenation when the cut falls on whitespace. */
  lemma WordsAppend(a: string, b: string)
    requires b == "" || IsSpace(b[0]) || a == "" || IsSpace(a[|a| - 1])
    ensures Words(a + b) == Words(a) + Words(b)
  {
    if b == "" {
      assert a + b == a;
    } else if a == "" {
      assert a + b == b;
    } else if IsSpace(b[0]) {
      ScanAppend("", a, b);
    } else {
      var a', gap := a[..|a| - 1], a[|a| - 1..];
      assert a == a' + gap && a + b == a' + (gap + b);
      ScanAppend("", a', gap + b);
      ScanAppend("", a', gap);
      assert (gap + b)[1..] == b && gap[1..] == "";
    }
  }

  /** `words(a + sep + b) == words(a) + words(b)` for a whitespace separator. */
  lemma WordsJoined(a: string, sep: string, b: string)
    requires sep != "" && AllSpace(sep)
    ensures Words(a + sep + b) == Words(a) + Words(b)
  {
    SpaceHasNoWords(sep);
    WordsAppend(a, sep);
    WordsAppend(a + sep, b);
  }

  lemma {:induction false} SpaceHasNoWords(s: string)
    requires AllSpace(s)
    ensures Words(s) == []
  {
    if s != "" {
      SpaceHasNoWords(s[1..]);
    }
  }

  lemma {:induction false} ScanNoSpace(word: string, s: string)
    requires NoSpace(s)
    ensures Scan(word, s) == Flush(word + s)
    decreases |s|
  {
    if s == "" {
      assert word + s == word;
    } else {
      ScanNoSpace(word + [s[0]], s[1..]);
      assert word + s == word + [s[0]] + s[1..];
    }
  }

  lemma {:induction false} ScanNotEmpty(word: string, s: string)
    requires word != "" || exists i :: 0 <= i < |s| && !IsSpace(s[i])
    ensures Scan(word, s) != []
    decreases |s|
  {
    if s != "" {
      if IsSpace(s[0]) {
        if word == "" {
          var i :| 0 <= i < |s| && !IsSpace(s[i]);
          assert s[1..][i - 1] == s[i];
          ScanNotEmpty("", s[1..]);
        }
      } else {
        ScanNotEmpty(word + [s[0]], s[1..]);
      }
    }
  }

  lemma TrimmedHasWords(s: string)
    requires Trimmed(s)
    ensures Words(s) != []
  {
    ScanNotEmpty("", s);
  }

  predicate IsWord(w: string) {
    w != "" && NoSpace(w)
  }

  predicate AllWords(ws: seq<string>) {
    forall i :: 0 <= i < |ws| ==> IsWord(ws[i])
  }

  lemma {:induction false} ScanGivesWords(word: string, s: string)
    requires NoSpace(word)
    ensures AllWords(Scan(word, s))
    decreases |s|
  {
    if s != "" {
      ScanGivesWords(if IsSpace(s[0]) then "" else word + [s[0]], s[1..]);
    }
  }

  /** The words of several strings, one after the other. */
  function FlatWords(ss: seq<string>): seq<string> {
    if ss == [] then [] else Words(ss[0]) + FlatWords(ss[1..])
  }

  lemma {:induction false} FlatWordsAppend(a: seq<string>, b: seq<string>)
    ensures FlatWords(a + b) == FlatWords(a) + FlatWords(b)
  {
    if a == [] {
      assert a + b == b;
    } else {
      assert (a + b)[1..] == a[1..] + b;
      FlatWordsAppend(a[1..], b);
    }
  }

  // ---------------------------------------------------------------- strip

  /** How many leading characters are whitespace. */
  function LeadingSpace(s: string): (n: nat)
    ensures n <= |s|
  {
    if s == "" || !IsSpace(s[0]) then 0 else 1 + LeadingSpace(s[1..])
  }

  lemma {:induction false} LeadingSpaceLaw(s: string)
    ensures var n := LeadingSpace(s);
            AllSpace(s[..n]) && (n < |s| ==> !IsSpace(s[n]))
  {
    if s != "" && IsSpace(s[0]) {
      LeadingSpaceLaw(s[1..]);
      var n := LeadingSpace(s[1..]);
      assert s[..n + 1] == [s[0]] + s[1..][..n];
    }
  }

  /** Where the trailing whitespace begins. */
  function ContentEnd(s: string): (n: nat)
    ensures n <= |s|
  {
    if s == "" || !IsSpace(s[|s| - 1]) then |s| else ContentEnd(s[..|s| - 1])
  }

  lemma {:induction false} ContentEndLaw(s: string)
    ensures var n := ContentEnd(s);
            AllSpace(s[n..]) && (0 < n ==> !IsSpace(s[n - 1]))
  {
    if s != "" && IsSpace(s[|s| - 1]) {
      var front := s[..|s| - 1];
      ContentEndLaw(front);
      var n := ContentEnd(front);
      assert s[n..] == front[n..] + [s[|s| - 1]];
    }
  }

  /** `text.strip()`. */
  function Strip(s: string): string {
    s[..ContentEnd(s)][LeadingSpace(s[..ContentEnd(s)])..]
  }

  lemma StripIsTrimmed(s: string)
    ensures Strip(s) == "" || Trimmed(Strip(s))
  {
    ContentEndLaw(s);
    LeadingSpaceLaw(s[..ContentEnd(s)]);
  }

  lemma StripIsSlice(s: string)
    ensures IsSlice(Strip(s), s)
  {
  }

  lemma StripTrimmed(s: string)
    requires Trimmed(s)
    ensures Strip(s) == s
  {
  }

  lemma StripKeepsWords(s: string)
    ensures Words(Strip(s)) == Words(s)
  {
    var n := ContentEnd(s);
    var t := s[..n];
    ContentEndLaw(s);
    SpaceHasNoWords(s[n..]);
    CutWords(s, n);
    LeadingSpaceLaw(t);
    SpaceHasNoWords(t[..LeadingSpace(t)]);
    CutWords(t, LeadingSpace(t));
  }

  /** Cutting at whitespace cuts the words. */
  lemma CutWords(s: string, n: nat)
    requires n <= |s| && (AllSpace(s[n..]) || AllSpace(s[..n]))
    ensures Words(s) == Words(s[..n]) + Words(s[n..])
  {
    assert s == s[..n] + s[n..];
    WordsAppend(s[..n], s[n..]);
  }

  /** Blank text is exactly the text without words. */
  lemma BlankIffNoWords(s: string)
    ensures Strip(s) == "" <==> Words(s) == []
  {
    StripKeepsWords(s);
    StripIsTrimmed(s);
    if Strip(s) != "" {
      TrimmedHasWords(Strip(s));
    }
  }

  // ----------------------------------------------------------------- join

  /** `sep.join(ss)`. */
  function Join(ss: seq<string>, sep: string): string {
    if ss == [] then "" else if |ss| == 1 then ss[0] else ss[0] + sep + Join(ss[1..], sep)
  }

  lemma {:induction false} JoinKeepsWords(ss: seq<string>, sep: string)
    requires sep != "" && AllSpace(sep)
    ensures Words(Join(ss, sep)) == FlatWords(ss)
  {
    if |ss| == 1 {
      assert FlatWords(ss[1..]) == [];
    } else if |ss| > 1 {
      WordsJoined(ss[0], sep, Join(ss[1..], sep));
      JoinKeepsWords(ss[1..], sep);
    }
  }

  lemma {:induction false} FlatWordsOfWords(ws: seq<string>)
    requires AllWords(ws)
    ensures FlatWords(ws) == ws
  {
    if ws != [] {
      ScanNoSpace("", ws[0]);
      assert "" + ws[0] == ws[0];
      FlatWordsOfWords(ws[1..]);
    }
  }
}
