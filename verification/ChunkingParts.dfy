/** What the splitting half of the chunker guarantees about the parts it hands on. */
module ChunkingParts {
  import opened Text
  import opened Splitting
  import opened Chunking

  // -------------------------------------------------------------- tokens

  /** `RoundTenths` is rounding to the nearest integer, ties to even. */
  lemma RoundTenthsIsNearestEven(t: nat)
    ensures -5 <= 10 * RoundTenths(t) - t <= 5
    ensures t % 10 == 5 ==> RoundTenths(t) % 2 == 0
  {
  }

  /** The estimate is the integer nearest to 1.3 times the number of words, ties to even, and at least 1. */
  lemma EstimateIsNearest(text: string)
    ensures var n, t := |Words(text)|, Estimate(text);
      t >= 1 && (n == 0 ==> t == 1) && (n > 0 ==> -5 <= 10 * t - 13 * n <= 5 && (13 * n % 10 == 5 ==> t % 2 == 0))
  {
    RoundTenthsIsNearestEven(13 * |Words(text)|);
  }

  /** Whether the estimate is rounded up, as documented, depends on the number of words alone, and
      it fails for nine counts in every twenty. */
  lemma RoundedUpIff(words: nat)
    ensures 10 * TokensForWords(words) >= 13 * words <==> words % 20 in {0, 2, 3, 6, 9, 10, 12, 13, 15, 16, 19}
  {
    RoundedUpAt(words / 20, words % 20);
  }

  lemma RoundedUpAt(a: nat, b: nat)
    requires b < 20
    ensures 10 * TokensForWords(20 * a + b) >= 13 * (20 * a + b) <==> b in {0, 2, 3, 6, 9, 10, 12, 13, 15, 16, 19}
  {
    RoundShifts(a, 13 * b);
    RoundedUpBelow20(b);
    assert 13 * (20 * a + b) == 260 * a + 13 * b;
  }

  lemma RoundShifts(a: nat, t: nat)
    ensures RoundTenths(260 * a + t) == 26 * a + RoundTenths(t)
  {
    assert (260 * a + t) / 10 == 26 * a + t / 10 && (260 * a + t) % 10 == t % 10;
  }

  lemma RoundedUpBelow20(b: nat)
    requires b < 20
    ensures 10 * RoundTenths(13 * b) >= 13 * b <==> b in {0, 2, 3, 6, 9, 10, 12, 13, 15, 16, 19}
  {
  }

  /** More words never cost fewer tokens. */
  lemma TokensMonotone(a: nat, b: nat)
    requires a <= b
    ensures TokensForWords(a) <= TokensForWords(b)
  {
  }

  /** The word cut of `_split_words` meets the ceiling whenever one word can. */
  lemma PerChunkFits(maxTokens: int)
    requires maxTokens >= 1
    ensures TokensForWords(PerChunk(maxTokens)) <= maxTokens
  {
  }

  // ---------------------------------------------------------- word blocks

  lemma AllWordsSlice(ws: seq<string>, i: nat, j: nat)
    requires AllWords(ws) && i <= j <= |ws|
    ensures AllWords(ws[i..j])
  {
  }

  lemma WordIsTidy(w: string)
    requires IsWord(w)
    ensures Tidy(w) && NoBreak(w)
  {
  }

  lemma {:induction false} JoinedWordsTidy(ws: seq<string>)
    requires AllWords(ws) && ws != []
    ensures Tidy(Join(ws, " "))
  {
    WordIsTidy(ws[0]);
    if |ws| > 1 {
      AllWordsSlice(ws, 1, |ws|);
      JoinedWordsTidy(ws[1..]);
      JoinedIsTidy(ws[0], " ", Join(ws[1..], " "));
    }
  }

  lemma JoinedWords(ws: seq<string>)
    requires AllWords(ws)
    ensures Words(Join(ws, " ")) == ws
  {
    JoinKeepsWords(ws, " ");
    FlatWordsOfWords(ws);
  }

  /** A piece that the parts may hold: it fits, or it is a single word. */
  ghost predicate GoodPiece(p: string, maxTokens: int) {
    Tidy(p) && (Fits(p, maxTokens) || (maxTokens < 1 && IsWord(p)))
  }

  ghost predicate GoodPieces(ps: seq<string>, maxTokens: int) {
    forall i :: 0 <= i < |ps| ==> GoodPiece(ps[i], maxTokens)
  }

  lemma BlockIsGood(ws: seq<string>, maxTokens: int)
    requires AllWords(ws) && 1 <= |ws| <= PerChunk(maxTokens)
    ensures GoodPiece(Join(ws, " "), maxTokens)
  {
    JoinedWordsTidy(ws);
    JoinedWords(ws);
    if maxTokens >= 1 {
      PerChunkFits(maxTokens);
      TokensMonotone(|ws|, PerChunk(maxTokens));
    }
  }

  lemma {:induction false} BlocksAreGood(ws: seq<string>, maxTokens: int)
    requires AllWords(ws)
    ensures GoodPieces(WordBlocks(ws, PerChunk(maxTokens)), maxTokens)
    ensures FlatWords(WordBlocks(ws, PerChunk(maxTokens))) == ws
    decreases |ws|
  {
    var n := PerChunk(maxTokens);
    if ws == [] {
    } else if |ws| <= n {
      BlockIsGood(ws, maxTokens);
      JoinedWords(ws);
      assert FlatWords([Join(ws, " ")]) == ws + FlatWords([]);
    } else {
      AllWordsSlice(ws, 0, n);
      AllWordsSlice(ws, n, |ws|);
      BlockIsGood(ws[..n], maxTokens);
      JoinedWords(ws[..n]);
      BlocksAreGood(ws[n..], maxTokens);
      var rest := WordBlocks(ws[n..], n);
      assert ([Join(ws[..n], " ")] + rest)[1..] == rest;
      assert ws == ws[..n] + ws[n..];
    }
  }

  // ---------------------------------------------------------------- parts

  ghost predicate GoodPart(p: Part, maxTokens: int) {
    IsSeparator(p.sep) && GoodPiece(p.text, maxTokens)
  }

  ghost predicate GoodParts(parts: seq<Part>, maxTokens: int) {
    forall i :: 0 <= i < |parts| ==> GoodPart(parts[i], maxTokens)
  }

  /** The words of the parts, one after the other. */
  function PartWords(parts: seq<Part>): seq<string> {
    if parts == [] then [] else Words(parts[0].text) + PartWords(parts[1..])
  }

  lemma {:induction false} PartWordsAppend(a: seq<Part>, b: seq<Part>)
    ensures PartWords(a + b) == PartWords(a) + PartWords(b)
  {
    if a == [] {
      assert a + b == b;
    } else {
      assert (a + b)[1..] == a[1..] + b;
      PartWordsAppend(a[1..], b);
    }
  }

  lemma {:induction false} PiecesAreGood(sentences: seq<string>, maxTokens: int)
    requires forall s :: s in sentences ==> Tidy(s)
    ensures GoodPieces(SentencePieces(sentences, maxTokens), maxTokens)
    ensures FlatWords(SentencePieces(sentences, maxTokens)) == FlatWords(sentences)
  {
    if sentences != [] {
      var s, rest := sentences[0], sentences[1..];
      PiecesAreGood(rest, maxTokens);
      if Fits(s, maxTokens) {
        FlatWordsAppend([s], SentencePieces(rest, maxTokens));
        assert FlatWords([s]) == Words(s) + FlatWords([]);
      } else {
        ScanGivesWords("", s);
        BlocksAreGood(Words(s), maxTokens);
        FlatWordsAppend(SplitWords(s, maxTokens), SentencePieces(rest, maxTokens));
      }
    }
  }

  lemma {:induction false} LabelledIsGood(pieces: seq<string>, index: nat, maxTokens: int)
    requires GoodPieces(pieces, maxTokens)
    ensures GoodParts(Labelled(pieces, index), maxTokens)
    ensures PartWords(Labelled(pieces, index)) == FlatWords(pieces)
    decreases |pieces|
  {
    if pieces != [] {
      LabelledIsGood(pieces[1..], index + 1, maxTokens);
      var rest := Labelled(pieces[1..], index + 1);
      assert Labelled(pieces, index)[1..] == rest;
    }
  }

  lemma ParagraphPartsGood(p: string, maxTokens: int)
    requires Trimmed(p) && NoBreak(p)
    ensures GoodParts(ParagraphParts(p, maxTokens), maxTokens)
    ensures PartWords(ParagraphParts(p, maxTokens)) == Words(p)
  {
    assert Tidy(p);
    if Fits(p, maxTokens) {
      assert PartWords([Part("\n\n", p)]) == Words(p) + PartWords([]);
    } else {
      SentencesAreTrimmedSlices(p);
      forall s | s in Sentences(p) ensures Tidy(s) {
        SliceHasNoBreak(s, p);
      }
      SentencesKeepWords(p);
      PiecesAreGood(Sentences(p), maxTokens);
      LabelledIsGood(SentencePieces(Sentences(p), maxTokens), 0, maxTokens);
    }
  }

  lemma {:induction false} PartsAreGood(paragraphs: seq<string>, maxTokens: int)
    requires forall p :: p in paragraphs ==> Trimmed(p) && NoBreak(p)
    ensures GoodParts(PartsOf(paragraphs, maxTokens), maxTokens)
    ensures PartWords(PartsOf(paragraphs, maxTokens)) == FlatWords(paragraphs)
  {
    if paragraphs != [] {
      ParagraphPartsGood(paragraphs[0], maxTokens);
      PartsAreGood(paragraphs[1..], maxTokens);
      PartWordsAppend(ParagraphParts(paragraphs[0], maxTokens), PartsOf(paragraphs[1..], maxTokens));
    }
  }

  /** Every part is tidy and meets the ceiling (or is one word, when no text can meet it), and
      the parts carry exactly the words of the text. */
  lemma SplitToFitLaw(text: string, maxTokens: int)
    ensures var parts := PartsOf(Paragraphs(Strip(text)), maxTokens);
            GoodParts(parts, maxTokens) && PartWords(parts) == Words(text)
  {
    ParagraphsAreUnbroken(Strip(text));
    PartsAreGood(Paragraphs(Strip(text)), maxTokens);
    ParagraphsKeepWords(Strip(text));
    StripKeepsWords(text);
  }
}
