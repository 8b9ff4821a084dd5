/** The parts a text is cut into before they are packed, told apart from the loops that cut it. */
module ChunkingCuts {
  import opened Text
  import opened Splitting
  import opened Chunking
  import opened ChunkingParts
  import opened ChunkingLaws
  import opened ChunkingOverlap

  /** The most words whose cost before rounding meets the ceiling, and at least one. */
  predicate CutSize(n: nat, maxTokens: int) {
    n >= 1 && (n == 1 || 13 * n <= 10 * maxTokens) && 13 * (n + 1) > 10 * maxTokens
  }

  /** Blocks of `n` words, the last one holding what is left. */
  predicate InBlocks(blocks: seq<seq<string>>, words: seq<string>, n: nat) {
    && Flatten(blocks) == words
    && forall k :: 0 <= k < |blocks| ==> 0 < |blocks[k]| <= n && (k + 1 < |blocks| ==> |blocks[k]| == n)
  }

  ghost predicate CutIntoBlocks(run: seq<string>, words: seq<string>, n: nat) {
    exists blocks: seq<seq<string>> :: InBlocks(blocks, words, n) && Spaced(run, blocks)
  }

  predicate Spaced(run: seq<string>, blocks: seq<seq<string>>) {
    |run| == |blocks| && forall k :: 0 <= k < |run| ==> run[k] == Join(blocks[k], " ")
  }

  /** A sentence that meets the ceiling is kept, any other is cut between words. */
  ghost predicate SentenceLaw(run: seq<string>, sentence: string, maxTokens: int) {
    if Estimate(sentence) <= maxTokens then run == [sentence]
    else exists n: nat :: CutSize(n, maxTokens) && CutIntoBlocks(run, Words(sentence), n)
  }

  ghost predicate SentencesLaw(runs: seq<seq<string>>, sentences: seq<string>, maxTokens: int) {
    |runs| == |sentences| && forall i :: 0 <= i < |runs| ==> SentenceLaw(runs[i], sentences[i], maxTokens)
  }

  predicate HaveTexts(parts: seq<Part>, texts: seq<string>) {
    |parts| == |texts| && forall i :: 0 <= i < |parts| ==> parts[i].text == texts[i]
  }

  /** A paragraph opens with a blank line and goes on with spaces; one that meets the ceiling is kept,
      any other is cut into its sentences. */
  ghost predicate ParagraphLaw(parts: seq<Part>, paragraph: string, maxTokens: int) {
    && parts != [] && parts[0].sep == "\n\n" && (forall i :: 0 < i < |parts| ==> parts[i].sep == " ")
    && if Estimate(paragraph) <= maxTokens then HaveTexts(parts, [paragraph])
       else exists runs: seq<seq<string>> ::
              SentencesLaw(runs, Sentences(paragraph), maxTokens) && HaveTexts(parts, Flatten(runs))
  }

  lemma PerChunkIsCutSize(maxTokens: int)
    ensures CutSize(PerChunk(maxTokens), maxTokens)
  {
  }

  lemma {:induction false} BlocksOf(words: seq<string>, n: nat) returns (blocks: seq<seq<string>>)
    requires n >= 1
    ensures InBlocks(blocks, words, n) && Spaced(WordBlocks(words, n), blocks)
    decreases |words|
  {
    if words == [] {
      blocks := [];
    } else if |words| <= n {
      blocks := [words];
      assert Flatten([words]) == words + Flatten([]);
    } else {
      var more := BlocksOf(words[n..], n);
      blocks := [words[..n]] + more;
      assert blocks[1..] == more && words[..n] + words[n..] == words;
    }
  }

  lemma CutObeys(sentence: string, maxTokens: int)
    ensures SentenceLaw(if Fits(sentence, maxTokens) then [sentence] else SplitWords(sentence, maxTokens),
                        sentence, maxTokens)
  {
    PerChunkIsCutSize(maxTokens);
    var blocks := BlocksOf(Words(sentence), PerChunk(maxTokens));
  }

  lemma {:induction false} SentencesObey(sentences: seq<string>, maxTokens: int) returns (runs: seq<seq<string>>)
    ensures SentencesLaw(runs, sentences, maxTokens) && Flatten(runs) == SentencePieces(sentences, maxTokens)
  {
    if sentences == [] {
      runs := [];
    } else {
      CutObeys(sentences[0], maxTokens);
      var more := SentencesObey(sentences[1..], maxTokens);
      var run := if Fits(sentences[0], maxTokens) then [sentences[0]] else SplitWords(sentences[0], maxTokens);
      runs := [run] + more;
      assert runs[1..] == more;
    }
  }

  lemma {:induction false} LabelsObey(pieces: seq<string>, index: nat)
    ensures HaveTexts(Labelled(pieces, index), pieces)
    ensures forall i :: 0 <= i < |pieces| ==>
              Labelled(pieces, index)[i].sep == if index + i == 0 then "\n\n" else " "
    decreases |pieces|
  {
    if pieces != [] {
      LabelsObey(pieces[1..], index + 1);
    }
  }

  lemma ParagraphObeys(paragraph: string, maxTokens: int)
    requires Trimmed(paragraph) && NoBreak(paragraph)
    ensures ParagraphLaw(ParagraphParts(paragraph, maxTokens), paragraph, maxTokens)
  {
    if !Fits(paragraph, maxTokens) {
      var runs := SentencesObey(Sentences(paragraph), maxTokens);
      LabelsObey(Flatten(runs), 0);
      ParagraphPartsGood(paragraph, maxTokens);
      TrimmedHasWords(paragraph);
      assert PartWords([]) == [];
    }
  }

  lemma {:induction false} ParagraphsObey(paragraphs: seq<string>, maxTokens: int) returns (groups: seq<seq<Part>>)
    requires forall p :: p in paragraphs ==> Trimmed(p) && NoBreak(p)
    ensures Concat(groups) == PartsOf(paragraphs, maxTokens) && |groups| == |paragraphs|
    ensures forall i :: 0 <= i < |groups| ==> ParagraphLaw(groups[i], paragraphs[i], maxTokens)
  {
    if paragraphs == [] {
      groups := [];
    } else {
      assert paragraphs[0] in paragraphs;
      ParagraphObeys(paragraphs[0], maxTokens);
      var more := ParagraphsObey(paragraphs[1..], maxTokens);
      groups := [ParagraphParts(paragraphs[0], maxTokens)] + more;
      assert groups[1..] == more;
    }
  }

  /** THE PARTS. The parts of a text are those of its paragraphs in turn. A paragraph that meets the
      ceiling is one part, any other is cut into its sentences, and a sentence that does not meet it into
      blocks of as many words as may. Only the first part of a paragraph has a blank line before it. */
  lemma PartsAreCut(text: string, maxTokens: int) returns (groups: seq<seq<Part>>)
    ensures var paragraphs := Paragraphs(Strip(text));
      && Concat(groups) == PartsOf(paragraphs, maxTokens) && |groups| == |paragraphs|
      && forall i :: 0 <= i < |groups| ==> ParagraphLaw(groups[i], paragraphs[i], maxTokens)
  {
    ParagraphsAreUnbroken(Strip(text));
    groups := ParagraphsObey(Paragraphs(Strip(text)), maxTokens);
  }
}
