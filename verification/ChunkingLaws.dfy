/** The laws of `chunk_text`: the ceiling, the overlap decomposition, the fixed point,
    nothing that fits is cut, and optimal packing. */
module ChunkingLaws {
  import opened Text
  import opened Splitting
  import opened Chunking
  import opened ChunkingParts

  // ------------------------------------------------- the shape of a chunk

  lemma {:induction false} JoinedTidy(ss: seq<string>)
    requires ss != [] && forall s :: s in ss ==> Tidy(s)
    ensures Tidy(Join(ss, " "))
  {
    if |ss| > 1 {
      JoinedTidy(ss[1..]);
      JoinedIsTidy(ss[0], " ", Join(ss[1..], " "));
    }
  }

  lemma TidyHasTidySentences(s: string)
    requires Tidy(s)
    ensures forall p :: p in Sentences(s) ==> Tidy(p)
  {
    SentencesAreTrimmedSlices(s);
    forall p | p in Sentences(s) ensures Tidy(p) {
      SliceIsTidy(p, s);
    }
  }

  /** What is repeated from a tidy chunk: a suffix of its sentences, all tidy. */
  lemma KeptIsSuffix(previous: string, part: Part, maxTokens: int, overlapTokens: int) returns (k: nat)
    requires Tidy(previous)
    ensures k <= |Sentences(previous)|
    ensures Kept(previous, part, maxTokens, overlapTokens) == Sentences(previous)[k..]
    ensures forall s :: s in Sentences(previous)[k..] ==> Tidy(s)
    ensures (Join(Sentences(previous)[k..], " ") == "") == (k == |Sentences(previous)|)
  {
    var ss := Sentences(previous);
    k := if overlapTokens > 0 then TailStart(ss, |ss|, part, maxTokens, overlapTokens) else |ss|;
    TidyHasTidySentences(previous);
    if k < |ss| {
      JoinedTidy(ss[k..]);
    }
  }

  /** A non-empty tail was found admissible. */
  lemma {:induction false} TailIsAdmissible(ss: seq<string>, i: nat, part: Part, maxTokens: int, overlapTokens: int)
    requires i <= |ss|
    ensures var k := TailStart(ss, i, part, maxTokens, overlapTokens);
            k < i ==> Admissible(ss[k..], part, maxTokens, overlapTokens)
    decreases i
  {
    if i > 0 && Admissible(ss[i - 1..], part, maxTokens, overlapTokens) {
      TailIsAdmissible(ss, i - 1, part, maxTokens, overlapTokens);
    }
  }

  lemma NextOpeningLaw(previous: string, part: Part, maxTokens: int, overlapTokens: int)
    requires Tidy(previous) && GoodPart(part, maxTokens)
    ensures var next := NextOpening(previous, part, maxTokens, overlapTokens);
            Tidy(next) && (Fits(next, maxTokens) || next == part.text)
    ensures IsSlice(part.text, NextOpening(previous, part, maxTokens, overlapTokens))
  {
    var ss := Sentences(previous);
    var k := KeptIsSuffix(previous, part, maxTokens, overlapTokens);
    SliceOfSelf(part.text);
    if k < |ss| {
      TailIsAdmissible(ss, |ss|, part, maxTokens, overlapTokens);
      assert TailStart(ss, |ss|, part, maxTokens, overlapTokens) == k by {
        assert |Kept(previous, part, maxTokens, overlapTokens)| == |ss| - k;
      }
      var tail := Join(ss[k..], " ");
      JoinedTidy(ss[k..]);
      JoinedIsTidy(tail, part.sep, part.text);
      ConcatSlices(tail, part.sep, part.text);
    }
  }

  lemma SliceOfSelf(s: string)
    ensures IsSlice(s, s) && IsSlice("", s)
  {
    assert s == s[0..|s|] && "" == s[0..0];
  }

  lemma ConcatSlices(a: string, sep: string, b: string)
    ensures IsSlice(a, a + sep + b) && IsSlice(b, a + sep + b)
  {
    var s := a + sep + b;
    assert a == s[0..|a|] && b == s[|a| + |sep|..|s|];
  }

  lemma ExtendedLaw(current: string, part: Part, maxTokens: int)
    requires current == "" || Tidy(current)
    requires GoodPart(part, maxTokens)
    ensures Tidy(Extended(current, part))
    ensures IsSlice(part.text, Extended(current, part))
    ensures IsSlice(current, Extended(current, part))
  {
    if current == "" {
      SliceOfSelf(part.text);
    } else {
      JoinedIsTidy(current, part.sep, part.text);
      ConcatSlices(current, part.sep, part.text);
    }
  }

  /** One step of the packing. */
  lemma PackStep(current: string, parts: seq<Part>, maxTokens: int, overlapTokens: int)
    requires parts != []
    ensures var all, next := Pack(current, parts, maxTokens, overlapTokens), Extended(current, parts[0]);
            if current != "" && !Fits(next, maxTokens)
            then all == [current] + Pack(NextOpening(current, parts[0], maxTokens, overlapTokens), parts[1..],
                                         maxTokens, overlapTokens)
            else all == Pack(next, parts[1..], maxTokens, overlapTokens)
  {
  }

  lemma {:induction false} PackShape(current: string, parts: seq<Part>, maxTokens: int, overlapTokens: int)
    requires current == "" || GoodPiece(current, maxTokens)
    requires GoodParts(parts, maxTokens)
    ensures GoodPieces(Pack(current, parts, maxTokens, overlapTokens), maxTokens)
    decreases |parts|
  {
    if parts != [] {
      var part := parts[0];
      PackStep(current, parts, maxTokens, overlapTokens);
      ExtendedLaw(current, part, maxTokens);
      if current != "" && !Fits(Extended(current, part), maxTokens) {
        NextOpeningLaw(current, part, maxTokens, overlapTokens);
        PackShape(NextOpening(current, part, maxTokens, overlapTokens), parts[1..], maxTokens, overlapTokens);
      } else {
        PackShape(Extended(current, part), parts[1..], maxTokens, overlapTokens);
      }
    }
  }

  lemma ChunksAreGood(text: string, maxTokens: int, overlapTokens: int)
    ensures GoodPieces(ChunksOf(text, maxTokens, overlapTokens), maxTokens)
  {
    SplitToFitLaw(text, maxTokens);
    PackShape("", PartsOf(Paragraphs(Strip(text)), maxTokens), maxTokens, overlapTokens);
  }

  lemma {:induction false} PackNotEmpty(current: string, parts: seq<Part>, maxTokens: int, overlapTokens: int)
    requires current == "" || GoodPiece(current, maxTokens)
    requires GoodParts(parts, maxTokens)
    ensures Pack(current, parts, maxTokens, overlapTokens) == [] <==> current == "" && parts == []
    decreases |parts|
  {
    if parts != [] {
      PackStep(current, parts, maxTokens, overlapTokens);
      NextChunkKeeps(current, parts[0], maxTokens, overlapTokens);
      ExtendedLaw(current, parts[0], maxTokens);
      if current == "" || Fits(Extended(current, parts[0]), maxTokens) {
        PackNotEmpty(Extended(current, parts[0]), parts[1..], maxTokens, overlapTokens);
      }
    }
  }

  /** Only a blank text gives no chunk. */
  lemma NoChunksIffBlank(text: string, maxTokens: int, overlapTokens: int)
    ensures ChunksOf(text, maxTokens, overlapTokens) == [] <==> Strip(text) == ""
  {
    var parts := PartsOf(Paragraphs(Strip(text)), maxTokens);
    SplitToFitLaw(text, maxTokens);
    PackNotEmpty("", parts, maxTokens, overlapTokens);
    BlankIffNoWords(text);
    if parts != [] {
      TrimmedHasWords(parts[0].text);
      assert PartWords(parts) != [];
    }
  }

  // --------------------------------------------------------- the ceiling

  /** THE CEILING. For every text and every overlap setting, all chunks meet the ceiling exactly
      when the ceiling is at least one token or the text is blank. */
  lemma CeilingHolds(text: string, maxTokens: int, overlapTokens: int)
    ensures (forall i :: 0 <= i < |ChunksOf(text, maxTokens, overlapTokens)| ==>
               Estimate(ChunksOf(text, maxTokens, overlapTokens)[i]) <= maxTokens)
       <==> (maxTokens >= 1 || Strip(text) == "")
  {
    ChunksAreGood(text, maxTokens, overlapTokens);
    var chunks := ChunksOf(text, maxTokens, overlapTokens);
    NoChunksIffBlank(text, maxTokens, overlapTokens);
    if maxTokens < 1 && chunks != [] {
      assert Estimate(chunks[0]) > maxTokens;
    }
  }

  // ------------------------------------------------------- without overlap

  /** With the overlap off nothing is repeated: the chunks' words are the text's words. */
  lemma NoOverlapNoRepeat(text: string, maxTokens: int, overlapTokens: int)
    requires overlapTokens <= 0
    ensures FlatWords(ChunksOf(text, maxTokens, overlapTokens)) == Words(text)
  {
    var parts := PartsOf(Paragraphs(Strip(text)), maxTokens);
    SplitToFitLaw(text, maxTokens);
    PackWords("", parts, maxTokens, overlapTokens);
    assert [] + PartWords(parts) == PartWords(parts);
  }

  lemma Regroup(a: seq<string>, b: seq<string>, c: seq<string>)
    ensures a + b + c == a + (b + c)
  {
  }

  lemma FlatWordsCons(s: string, ss: seq<string>)
    ensures FlatWords([s] + ss) == Words(s) + FlatWords(ss)
  {
  }

  lemma {:induction false} PackWords(current: string, parts: seq<Part>, maxTokens: int, overlapTokens: int)
    requires overlapTokens <= 0
    requires GoodParts(parts, maxTokens)
    ensures FlatWords(Pack(current, parts, maxTokens, overlapTokens)) == Words(current) + PartWords(parts)
    decreases |parts|
  {
    if parts == [] {
      FlatWordsCons(current, []);
      assert [current] + [] == [current] && Words(current) + [] == Words(current);
      assert current == "" ==> Words(current) == [];
    } else {
      var part := parts[0];
      PackStep(current, parts, maxTokens, overlapTokens);
      if current != "" && !Fits(Extended(current, part), maxTokens) {
        assert NextOpening(current, part, maxTokens, overlapTokens) == part.text;
        var rest := Pack(part.text, parts[1..], maxTokens, overlapTokens);
        PackWords(part.text, parts[1..], maxTokens, overlapTokens);
        FlatWordsCons(current, rest);
      } else {
        PackWords(Extended(current, part), parts[1..], maxTokens, overlapTokens);
        GrowWords(current, parts);
      }
    }
  }

  lemma GrowWords(current: string, parts: seq<Part>)
    requires parts != [] && IsSeparator(parts[0].sep)
    ensures Words(Extended(current, parts[0])) + PartWords(parts[1..]) == Words(current) + PartWords(parts)
  {
    var part, words, rest := parts[0], Words(parts[0].text), PartWords(parts[1..]);
    assert PartWords(parts) == words + rest;
    if current == "" {
      assert Words(current) == [];
      assert [] + PartWords(parts) == PartWords(parts);
    } else {
      assert Words(Extended(current, part)) == Words(current) + words by {
        WordsJoined(current, part.sep, part.text);
      }
      Regroup(Words(current), words, rest);
    }
  }

  // ------------------------------------- the longest tail, by stopping early

  lemma {:induction false} SuffixWords(ss: seq<string>, i: nat, j: nat)
    requires i <= j <= |ss|
    ensures |FlatWords(ss[j..])| <= |FlatWords(ss[i..])|
    decreases j - i
  {
    if i < j {
      SuffixWords(ss, i + 1, j);
      assert ss[i..][1..] == ss[i + 1..];
    }
  }

  /** A longer tail costs at least as much on both tests. */
  lemma AdmissibleShrinks(ss: seq<string>, i: nat, j: nat, part: Part, maxTokens: int, overlapTokens: int)
    requires i <= j < |ss| && IsSeparator(part.sep)
    requires Admissible(ss[i..], part, maxTokens, overlapTokens)
    ensures Admissible(ss[j..], part, maxTokens, overlapTokens)
  {
    var more, less := ss[i..], ss[j..];
    SuffixWords(ss, i, j);
    FewerWordsAdmissible(more, less, part, maxTokens, overlapTokens);
  }

  /** Both tests for a tail of `n` words. */
  ghost predicate Affordable(n: nat, part: Part, maxTokens: int, overlapTokens: int) {
    && TokensForWords(n) <= overlapTokens
    && TokensForWords(n + |Words(part.text)|) <= maxTokens
  }

  lemma AffordableShrinks(n: nat, k: nat, part: Part, maxTokens: int, overlapTokens: int)
    requires n <= k && Affordable(k, part, maxTokens, overlapTokens)
    ensures Affordable(n, part, maxTokens, overlapTokens)
  {
  }

  lemma FewerWordsAdmissible(more: seq<string>, less: seq<string>, part: Part, maxTokens: int, overlapTokens: int)
    requires IsSeparator(part.sep) && |FlatWords(less)| <= |FlatWords(more)|
    requires Admissible(more, part, maxTokens, overlapTokens)
    ensures Admissible(less, part, maxTokens, overlapTokens)
  {
    AdmissibleCost(more, part, maxTokens, overlapTokens);
    AffordableShrinks(|FlatWords(less)|, |FlatWords(more)|, part, maxTokens, overlapTokens);
    AdmissibleCost(less, part, maxTokens, overlapTokens);
  }

  lemma TailCost(kept: seq<string>, part: Part)
    requires IsSeparator(part.sep)
    ensures Estimate(Join(kept, " ")) == TokensForWords(|FlatWords(kept)|)
    ensures Estimate(Join(kept, " ") + part.sep + part.text)
         == TokensForWords(|FlatWords(kept)| + |Words(part.text)|)
  {
    JoinKeepsWords(kept, " ");
    WordsJoined(Join(kept, " "), part.sep, part.text);
  }

  /** Both tests depend on the tail only through its number of words. */
  lemma AdmissibleCost(kept: seq<string>, part: Part, maxTokens: int, overlapTokens: int)
    requires IsSeparator(part.sep)
    ensures Admissible(kept, part, maxTokens, overlapTokens)
       <==> Affordable(|FlatWords(kept)|, part, maxTokens, overlapTokens)
  {
    TailCost(kept, part);
  }

  lemma {:induction false} TailStartIsLeast(ss: seq<string>, i: nat, n: nat, part: Part,
                                            maxTokens: int, overlapTokens: int)
    requires n < i <= |ss| && IsSeparator(part.sep)
    requires Admissible(ss[n..], part, maxTokens, overlapTokens)
    ensures TailStart(ss, i, part, maxTokens, overlapTokens) <= n
    decreases i
  {
    AdmissibleShrinks(ss, n, i - 1, part, maxTokens, overlapTokens);
    if n < i - 1 {
      TailStartIsLeast(ss, i - 1, n, part, maxTokens, overlapTokens);
    }
  }

  /** THE LONGEST TAIL. Among all suffixes of the previous chunk's sentences, the one repeated is
      the longest that meets both the overlap budget and the ceiling; with the overlap off it is
      the empty one. */
  lemma KeepsLongestTail(previous: string, part: Part, maxTokens: int, overlapTokens: int, n: nat)
    requires IsSeparator(part.sep) && n < |Sentences(previous)|
    ensures var kept := Kept(previous, part, maxTokens, overlapTokens);
            var other := Sentences(previous)[n..];
            && (kept != [] ==> Admissible(kept, part, maxTokens, overlapTokens))
            && (overlapTokens > 0 && Admissible(other, part, maxTokens, overlapTokens) ==> |other| <= |kept|)
            && (overlapTokens <= 0 ==> kept == [])
            && kept == Sentences(previous)[|Sentences(previous)| - |kept|..]
  {
    var ss := Sentences(previous);
    TailIsAdmissible(ss, |ss|, part, maxTokens, overlapTokens);
    if Admissible(ss[n..], part, maxTokens, overlapTokens) {
      TailStartIsLeast(ss, |ss|, n, part, maxTokens, overlapTokens);
    }
  }

  // --------------------------------------------- nothing that fits is cut

  lemma {:induction false} PackKeepsParts(current: string, parts: seq<Part>, maxTokens: int, overlapTokens: int)
    requires current == "" || GoodPiece(current, maxTokens)
    requires GoodParts(parts, maxTokens)
    ensures current != "" ==> exists c :: c in Pack(current, parts, maxTokens, overlapTokens) && IsSlice(current, c)
    ensures forall p :: p in parts ==>
              exists c :: c in Pack(current, parts, maxTokens, overlapTokens) && IsSlice(p.text, c)
    decreases |parts|
  {
    var all := Pack(current, parts, maxTokens, overlapTokens);
    SliceOfSelf(current);
    if parts != [] {
      var part := parts[0];
      ExtendedLaw(current, part, maxTokens);
      NextChunkKeeps(current, part, maxTokens, overlapTokens);
      var cut := current != "" && !Fits(Extended(current, part), maxTokens);
      var next := if cut then NextOpening(current, part, maxTokens, overlapTokens) else Extended(current, part);
      var rest := Pack(next, parts[1..], maxTokens, overlapTokens);
      PackKeepsParts(next, parts[1..], maxTokens, overlapTokens);
      assert all == (if cut then [current] else []) + rest;
      assert forall c :: c in rest ==> c in all;
      var c :| c in rest && IsSlice(next, c);
      SliceOfSlice(part.text, next, c);
      assert c in all && IsSlice(part.text, c);
      if !cut {
        SliceOfSlice(current, next, c);
        assert c in all && IsSlice(current, c);
      } else {
        assert current in all;
      }
      forall p | p in parts ensures exists d :: d in all && IsSlice(p.text, d) {
        if p != part {
          assert p in parts[1..];
          var d :| d in rest && IsSlice(p.text, d);
          assert d in all;
        }
      }
    }
  }

  lemma NextChunkKeeps(current: string, part: Part, maxTokens: int, overlapTokens: int)
    requires current == "" || GoodPiece(current, maxTokens)
    requires GoodPart(part, maxTokens)
    ensures var cut := current != "" && !Fits(Extended(current, part), maxTokens);
            var next := if cut then NextOpening(current, part, maxTokens, overlapTokens) else Extended(current, part);
            GoodPiece(next, maxTokens) && IsSlice(part.text, next)
  {
    ExtendedLaw(current, part, maxTokens);
    if current != "" {
      NextOpeningLaw(current, part, maxTokens, overlapTokens);
    }
  }

  lemma {:induction false} WholeParagraphIsPart(paragraphs: seq<string>, p: string, maxTokens: int)
    requires p in paragraphs && Fits(p, maxTokens)
    ensures Part("\n\n", p) in PartsOf(paragraphs, maxTokens)
  {
    if p != paragraphs[0] {
      assert p in paragraphs[1..];
      WholeParagraphIsPart(paragraphs[1..], p, maxTokens);
    }
  }

  lemma {:induction false} WholeSentenceIsPiece(sentences: seq<string>, s: string, maxTokens: int)
    requires s in sentences && Fits(s, maxTokens)
    ensures s in SentencePieces(sentences, maxTokens)
  {
    if s != sentences[0] {
      assert s in sentences[1..];
      WholeSentenceIsPiece(sentences[1..], s, maxTokens);
    }
  }

  lemma {:induction false} PieceIsLabelled(pieces: seq<string>, s: string, index: nat)
    requires s in pieces
    ensures exists p :: p in Labelled(pieces, index) && p.text == s
    decreases |pieces|
  {
    var all := Labelled(pieces, index);
    assert all[0] in all && all[0].text == pieces[0];
    if s != pieces[0] {
      assert s in pieces[1..];
      PieceIsLabelled(pieces[1..], s, index + 1);
      var p :| p in Labelled(pieces[1..], index + 1) && p.text == s;
      assert p in all;
    }
  }

  lemma {:induction false} ParagraphPartsIncluded(paragraphs: seq<string>, p: string, part: Part, maxTokens: int)
    requires p in paragraphs && part in ParagraphParts(p, maxTokens)
    ensures part in PartsOf(paragraphs, maxTokens)
  {
    if p != paragraphs[0] {
      assert p in paragraphs[1..];
      ParagraphPartsIncluded(paragraphs[1..], p, part, maxTokens);
    }
  }

  /** NOTHING THAT FITS IS CUT. A paragraph that fits, and a fitting sentence of a paragraph that
      does not, each occur verbatim in some chunk. */
  lemma NeverCutsWhatFits(text: string, maxTokens: int, overlapTokens: int, paragraph: string, unit: string)
    requires paragraph in Paragraphs(Strip(text))
    requires unit == paragraph || (!Fits(paragraph, maxTokens) && unit in Sentences(paragraph))
    requires Fits(unit, maxTokens)
    ensures exists c :: c in ChunksOf(text, maxTokens, overlapTokens) && IsSlice(unit, c)
  {
    var parts := PartsOf(Paragraphs(Strip(text)), maxTokens);
    SplitToFitLaw(text, maxTokens);
    PackKeepsParts("", parts, maxTokens, overlapTokens);
    if unit == paragraph {
      WholeParagraphIsPart(Paragraphs(Strip(text)), unit, maxTokens);
    } else {
      var pieces := SentencePieces(Sentences(paragraph), maxTokens);
      WholeSentenceIsPiece(Sentences(paragraph), unit, maxTokens);
      PieceIsLabelled(pieces, unit, 0);
      var p :| p in Labelled(pieces, 0) && p.text == unit;
      ParagraphPartsIncluded(Paragraphs(Strip(text)), paragraph, p, maxTokens);
    }
  }

  // --------------------------------------------------------- fixed point

  lemma {:induction false} FitsPartwise(paragraphs: seq<string>, maxTokens: int, words: nat)
    requires |FlatWords(paragraphs)| <= words && TokensForWords(words) <= maxTokens
    ensures |PartsOf(paragraphs, maxTokens)| == |paragraphs|
    ensures forall i :: 0 <= i < |paragraphs| ==> PartsOf(paragraphs, maxTokens)[i] == Part("\n\n", paragraphs[i])
  {
    if paragraphs != [] {
      TokensMonotone(|Words(paragraphs[0])|, words);
      FitsPartwise(paragraphs[1..], maxTokens, words);
    }
  }

  /** `current` with the paragraphs `texts` added one at a time. */
  function Grown(current: string, texts: seq<string>): string
    decreases |texts|
  {
    if texts == [] then current else Grown(Extended(current, Part("\n\n", texts[0])), texts[1..])
  }

  lemma {:induction false} GrownWords(current: string, texts: seq<string>)
    ensures |Words(current)| <= |Words(Grown(current, texts))|
    decreases |texts|
  {
    if texts != [] {
      GrownWords(Extended(current, Part("\n\n", texts[0])), texts[1..]);
      WordsJoined(current, "\n\n", texts[0]);
      assert current == "" ==> Words(current) == [];
    }
  }

  lemma {:induction false} GrownIsJoin(current: string, texts: seq<string>)
    requires current != "" && texts != []
    ensures Grown(current, texts) == current + "\n\n" + Join(texts, "\n\n")
    decreases |texts|
  {
    var next := current + "\n\n" + texts[0];
    if |texts| > 1 {
      GrownIsJoin(next, texts[1..]);
      var rest := Join(texts[1..], "\n\n");
      assert current + "\n\n" + (texts[0] + "\n\n" + rest) == next + "\n\n" + rest;
    }
  }

  lemma GrownFromNothing(texts: seq<string>)
    requires texts != [] && texts[0] != ""
    ensures Grown("", texts) == Join(texts, "\n\n")
  {
    if |texts| > 1 {
      GrownIsJoin(texts[0], texts[1..]);
    }
  }

  /** Paragraphs that fit together are packed into one chunk. */
  lemma {:induction false} PacksIntoOne(current: string, parts: seq<Part>, texts: seq<string>,
                                        maxTokens: int, overlapTokens: int)
    requires |parts| == |texts| && forall i :: 0 <= i < |parts| ==> parts[i] == Part("\n\n", texts[i])
    requires forall i :: 0 <= i < |texts| ==> texts[i] != ""
    requires parts != [] || current != ""
    requires Fits(Grown(current, texts), maxTokens)
    ensures Pack(current, parts, maxTokens, overlapTokens) == [Grown(current, texts)]
    decreases |parts|
  {
    if parts != [] {
      var next := Extended(current, parts[0]);
      GrownWords(next, texts[1..]);
      TokensMonotone(|Words(next)|, |Words(Grown(current, texts))|);
      PacksIntoOne(next, parts[1..], texts[1..], maxTokens, overlapTokens);
    }
  }

  lemma TidyParagraphs(c: string)
    requires Tidy(c)
    ensures Paragraphs(c) != [] && Grown("", Paragraphs(c)) == c
    ensures forall i :: 0 <= i < |Paragraphs(c)| ==> Paragraphs(c)[i] != ""
  {
    ParagraphsRoundTrip(c);
    ParagraphsAreUnbroken(c);
    ParagraphSplitNotEmpty("", c);
    forall i | 0 <= i < |Paragraphs(c)| ensures Paragraphs(c)[i] != "" {
      assert Paragraphs(c)[i] in Paragraphs(c);
    }
    GrownFromNothing(Paragraphs(c));
  }

  lemma TidyFitIsFixed(c: string, maxTokens: int, overlapTokens: int)
    requires Tidy(c) && Fits(c, maxTokens)
    ensures ChunksOf(c, maxTokens, overlapTokens) == [c]
  {
    var ps := Paragraphs(c);
    StripTrimmed(c);
    TidyParagraphs(c);
    ParagraphsKeepWords(c);
    FitsPartwise(ps, maxTokens, |Words(c)|);
    PacksIntoOne("", PartsOf(ps, maxTokens), ps, maxTokens, overlapTokens);
  }

  lemma WordIsOnePart(w: string, maxTokens: int)
    requires IsWord(w) && maxTokens < 1
    ensures PartsOf(Paragraphs(w), maxTokens) == [Part("\n\n", w)]
  {
    NoSpaceSplits(w);
    assert WordBlocks([w], PerChunk(maxTokens)) == [w];
    assert SentencePieces([w], maxTokens) == [w] + SentencePieces([], maxTokens);
    assert Labelled([w], 0) == [Part("\n\n", w)] + Labelled([], 1);
    assert PartsOf([w], maxTokens) == ParagraphParts(w, maxTokens) + PartsOf([], maxTokens);
  }

  lemma WordIsFixed(w: string, maxTokens: int, overlapTokens: int)
    requires IsWord(w) && maxTokens < 1
    ensures ChunksOf(w, maxTokens, overlapTokens) == [w]
  {
    NoSpaceSplits(w);
    StripTrimmed(w);
    WordIsOnePart(w, maxTokens);
    var parts := [Part("\n\n", w)];
    PackStep("", parts, maxTokens, overlapTokens);
    assert parts[1..] == [] && Extended("", parts[0]) == w;
    assert Pack(w, [], maxTokens, overlapTokens) == [w];
  }

  /** THE FIXED POINT. Chunking any chunk again, with the same ceiling and any overlap, returns
      exactly that chunk, character for character. */
  lemma ChunksAreFixedPoints(text: string, maxTokens: int, overlapTokens: int, c: string, otherOverlap: int)
    requires c in ChunksOf(text, maxTokens, overlapTokens)
    ensures ChunksOf(c, maxTokens, otherOverlap) == [c]
  {
    ChunksAreGood(text, maxTokens, overlapTokens);
    if Fits(c, maxTokens) {
      TidyFitIsFixed(c, maxTokens, otherOverlap);
    } else {
      WordIsFixed(c, maxTokens, otherOverlap);
    }
  }

  // ----------------------------------------------------- optimal packing

  /** The text of a contiguous group of parts. */
  function GroupText(g: seq<Part>): string {
    if g == [] then ""
    else if |g| == 1 then g[0].text
    else GroupText(g[..|g| - 1]) + g[|g| - 1].sep + g[|g| - 1].text
  }

  function Concat(groups: seq<seq<Part>>): seq<Part> {
    if groups == [] then [] else groups[0] + Concat(groups[1..])
  }

  /** A split of `parts` into contiguous non-empty groups that each fit. */
  ghost predicate FittingSplit(groups: seq<seq<Part>>, parts: seq<Part>, maxTokens: int) {
    && Concat(groups) == parts
    && forall i :: 0 <= i < |groups| ==> groups[i] != [] && Fits(GroupText(groups[i]), maxTokens)
  }

  lemma {:induction false} GroupWords(g: seq<Part>)
    requires forall p :: p in g ==> IsSeparator(p.sep)
    ensures Words(GroupText(g)) == PartWords(g)
  {
    if |g| == 1 {
      assert PartWords(g[1..]) == [];
    } else if |g| > 1 {
      var front, last := g[..|g| - 1], g[|g| - 1];
      GroupWords(front);
      WordsJoined(GroupText(front), last.sep, last.text);
      assert g == front + [last];
      PartWordsAppend(front, [last]);
      assert PartWords([last]) == Words(last.text) + PartWords([]);
    }
  }

  /** Greedy stays ahead: `cur` is the group being filled; any split of some earlier parts
      together with `cur` and the remaining parts needs at least as many groups. */
  lemma {:induction false} GreedyStaysAhead(extra: seq<Part>, cur: seq<Part>, parts: seq<Part>,
                                            groups: seq<seq<Part>>, maxTokens: int, overlapTokens: int)
    requires overlapTokens <= 0 && cur != []
    requires forall p :: p in extra + cur + parts ==> IsSeparator(p.sep) && p.text != ""
    requires FittingSplit(groups, extra + cur + parts, maxTokens)
    ensures |Pack(GroupText(cur), parts, maxTokens, overlapTokens)| <= |groups|
    decreases |parts|
  {
    GroupTextNotEmpty(cur);
    if parts == [] {
      assert extra + cur + parts != [];
    } else {
      var p, rest := parts[0], parts[1..];
      GroupTextGrows(cur, p);
      if Fits(GroupText(cur + [p]), maxTokens) {
        MoveOne(extra + cur, parts);
        assert extra + (cur + [p]) == extra + cur + [p];
        GreedyStaysAhead(extra, cur + [p], rest, groups, maxTokens, overlapTokens);
      } else {
        var left := DropFirstGroup(extra, cur, parts, groups, maxTokens);
        assert GroupText([p]) == p.text;
        GreedyStaysAhead(left, [p], rest, groups[1..], maxTokens, overlapTokens);
      }
    }
  }

  /** When `cur` cannot take the next part, the other split has closed its first group by then. */
  lemma DropFirstGroup(extra: seq<Part>, cur: seq<Part>, parts: seq<Part>, groups: seq<seq<Part>>, maxTokens: int)
    returns (left: seq<Part>)
    requires cur != [] && parts != []
    requires forall p :: p in extra + cur + parts ==> IsSeparator(p.sep) && p.text != ""
    requires FittingSplit(groups, extra + cur + parts, maxTokens)
    requires !Fits(GroupText(cur + [parts[0]]), maxTokens)
    ensures groups != [] && FittingSplit(groups[1..], left + [parts[0]] + parts[1..], maxTokens)
    ensures forall p :: p in left + [parts[0]] + parts[1..] ==> IsSeparator(p.sep) && p.text != ""
  {
    FirstGroupStopsShort(extra, cur, parts, groups, maxTokens);
    var all, n := extra + cur + parts, |groups[0]|;
    left := (extra + cur)[n..];
    assert left + [parts[0]] + parts[1..] == all[n..];
    assert all == groups[0] + Concat(groups[1..]);
    assert Concat(groups[1..]) == all[n..];
    forall p | p in all[n..] ensures IsSeparator(p.sep) && p.text != "" {
      assert p in all;
    }
  }

  lemma GroupTextGrows(g: seq<Part>, p: Part)
    requires g != [] && GroupText(g) != ""
    ensures GroupText(g + [p]) == Extended(GroupText(g), p)
  {
  }

  lemma GroupTextNotEmpty(g: seq<Part>)
    requires g != [] && forall p :: p in g ==> p.text != ""
    ensures GroupText(g) != ""
  {
  }

  lemma FirstGroupStopsShort(extra: seq<Part>, cur: seq<Part>, parts: seq<Part>, groups: seq<seq<Part>>, maxTokens: int)
    requires cur != [] && parts != []
    requires forall p :: p in extra + cur + parts ==> IsSeparator(p.sep)
    requires FittingSplit(groups, extra + cur + parts, maxTokens)
    requires !Fits(GroupText(cur + [parts[0]]), maxTokens)
    ensures groups != [] && |groups[0]| <= |extra + cur|
  {
    var all := extra + cur + parts;
    assert all != [];
    var g := groups[0];
    assert g == all[..|g|];
    var n := |extra + cur| + 1;
    if |g| >= n {
      var more := cur + [parts[0]];
      assert g == extra + more + g[n..];
      PartWordsAppend(extra + more, g[n..]);
      PartWordsAppend(extra, more);
      GroupWords(g);
      GroupWords(more);
      TokensMonotone(|PartWords(more)|, |PartWords(g)|);
    }
  }

  /** `chunks` are the texts of a fitting split of `parts`. */
  ghost predicate SplitInto(groups: seq<seq<Part>>, parts: seq<Part>, chunks: seq<string>, maxTokens: int) {
    && FittingSplit(groups, parts, maxTokens)
    && |chunks| == |groups|
    && forall i :: 0 <= i < |groups| ==> chunks[i] == GroupText(groups[i])
  }

  ghost predicate EachFits(parts: seq<Part>, maxTokens: int) {
    forall i :: 0 <= i < |parts| ==> parts[i].text != "" && Fits(parts[i].text, maxTokens)
  }

  /** With the overlap off, `Pack` itself is a split of the parts into groups that fit. */
  lemma {:induction false} PackIsFittingSplit(cur: seq<Part>, parts: seq<Part>, maxTokens: int, overlapTokens: int)
    returns (groups: seq<seq<Part>>)
    requires overlapTokens <= 0 && cur != [] && EachFits(parts, maxTokens)
    requires GroupText(cur) != "" && Fits(GroupText(cur), maxTokens)
    ensures SplitInto(groups, cur + parts, Pack(GroupText(cur), parts, maxTokens, overlapTokens), maxTokens)
    decreases |parts|
  {
    if parts == [] {
      groups := [cur];
      ConcatOne(cur);
      assert cur + parts == cur;
    } else {
      var p, rest := parts[0], parts[1..];
      GroupTextGrows(cur, p);
      PackStep(GroupText(cur), parts, maxTokens, overlapTokens);
      if Fits(GroupText(cur + [p]), maxTokens) {
        MoveOne(cur, parts);
        groups := PackIsFittingSplit(cur + [p], rest, maxTokens, overlapTokens);
      } else {
        assert GroupText([p]) == p.text;
        MoveOne([], parts);
        var others := PackIsFittingSplit([p], rest, maxTokens, overlapTokens);
        groups := [cur] + others;
        CloseGroup(cur, parts, others, Pack(p.text, rest, maxTokens, overlapTokens), maxTokens);
      }
    }
  }

  lemma MoveOne(a: seq<Part>, b: seq<Part>)
    requires b != []
    ensures a + [b[0]] + b[1..] == a + b && [b[0]] + b[1..] == b
  {
  }

  lemma ConcatOne(g: seq<Part>)
    ensures Concat([g]) == g
  {
  }

  lemma CloseGroup(cur: seq<Part>, parts: seq<Part>, others: seq<seq<Part>>, chunks: seq<string>, maxTokens: int)
    requires cur != [] && Fits(GroupText(cur), maxTokens)
    requires SplitInto(others, parts, chunks, maxTokens)
    ensures SplitInto([cur] + others, cur + parts, [GroupText(cur)] + chunks, maxTokens)
  {
  }

  /** OPTIMAL PACKING. With the overlap off, the chunks are the texts of a split of the parts into
      contiguous groups that each fit, and no such split has fewer groups. */
  lemma PackingIsOptimal(text: string, maxTokens: int, overlapTokens: int, groups: seq<seq<Part>>)
    requires overlapTokens <= 0
    requires FittingSplit(groups, PartsOf(Paragraphs(Strip(text)), maxTokens), maxTokens)
    ensures |ChunksOf(text, maxTokens, overlapTokens)| <= |groups|
    ensures var parts, chunks := PartsOf(Paragraphs(Strip(text)), maxTokens), ChunksOf(text, maxTokens, overlapTokens);
            exists own :: SplitInto(own, parts, chunks, maxTokens)
  {
    var parts := PartsOf(Paragraphs(Strip(text)), maxTokens);
    SplitToFitLaw(text, maxTokens);
    if maxTokens < 1 {
      assert groups == [] && parts == [];
    }
    if parts == [] {
      assert SplitInto([], parts, ChunksOf(text, maxTokens, overlapTokens), maxTokens);
    } else {
      var p, rest := parts[0], parts[1..];
      PackStep("", parts, maxTokens, overlapTokens);
      assert GroupText([p]) == p.text;
      MoveOne([], parts);
      assert [] + parts == parts;
      var own := PackIsFittingSplit([p], rest, maxTokens, overlapTokens);
      GreedyStaysAhead([], [p], rest, groups, maxTokens, overlapTokens);
    }
  }
}
