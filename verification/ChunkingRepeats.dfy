/** Texts that are cut into equal chunks: under every ceiling there are some. */
module ChunkingRepeats {
  import opened Text
  import opened Splitting
  import opened Chunking
  import opened ChunkingParts
  import opened ChunkingLaws
  import opened ChunkingOverlap

  // --------------------------------------------------- one word, many times

  function Times(word: string, n: nat): seq<string> {
    seq(n, _ => word)
  }

  /** The word `n` times, with single spaces. */
  function Said(word: string, n: nat): string {
    Join(Times(word, n), " ")
  }

  /** A word that does not look like the end of a sentence. */
  predicate Plain(word: string) {
    IsWord(word) && !EndsSentence(word)
  }

  lemma SaidMore(word: string, n: nat)
    requires n >= 1
    ensures Said(word, n + 1) == word + " " + Said(word, n)
  {
    assert Times(word, n + 1)[1..] == Times(word, n);
  }

  lemma SaidWords(word: string, n: nat)
    requires IsWord(word)
    ensures Words(Said(word, n)) == Times(word, n)
    ensures n >= 1 ==> Tidy(Said(word, n))
  {
    assert AllWords(Times(word, n));
    JoinedWords(Times(word, n));
    if n >= 1 {
      JoinedWordsTidy(Times(word, n));
    }
  }

  /** Nothing in it to split at. */
  predicate Solid(s: string) {
    Uncut(s) && !EndsSentence(s) && '\n' !in s
  }

  lemma SpacedIsSolid(a: string, b: string)
    requires Solid(a) && Solid(b) && b != "" && !IsSpace(b[0])
    ensures Solid(a + " " + b)
  {
    var s := a + " " + b;
    forall k | 0 < k < |s| ensures !CutHere(s, k) {
      if k < |a| {
        assert !CutHere(a, k);
      } else if k > |a| + 1 {
        assert !CutHere(b, k - |a| - 1);
      } else if k == |a| {
        assert s[k - 1] == a[|a| - 1];
      }
    }
    assert s[|s| - 1] == b[|b| - 1];
  }

  lemma {:induction false} SaidIsSolid(word: string, n: nat)
    requires Plain(word) && n >= 1
    ensures Solid(Said(word, n))
  {
    if n == 1 {
      assert Said(word, 1) == word;
    } else {
      SaidIsSolid(word, n - 1);
      SaidWords(word, n - 1);
      SaidMore(word, n - 1);
      SaidIsSolid(word, 1);
      SpacedIsSolid(word, Said(word, n - 1));
    }
  }

  lemma SaidIsWhole(word: string, n: nat)
    requires Plain(word) && n >= 1
    ensures Paragraphs(Said(word, n)) == [Said(word, n)] && Sentences(Said(word, n)) == [Said(word, n)]
  {
    SaidWords(word, n);
    SaidIsSolid(word, n);
    assert NoBreak(Said(word, n));
    WholeText(Said(word, n));
  }

  // ------------------------------------------------------- two equal chunks

  /** Twice as many words as the word cut takes at once never fit. */
  lemma TwiceIsTooMuch(maxTokens: int)
    ensures TokensForWords(2 * PerChunk(maxTokens)) > maxTokens
  {
  }

  lemma TwoBlocks(word: string, n: nat)
    requires n >= 1
    ensures WordBlocks(Times(word, 2 * n), n) == [Said(word, n), Said(word, n)]
  {
    var all := Times(word, 2 * n);
    assert all[..n] == Times(word, n) && all[n..] == Times(word, n);
    assert WordBlocks(all[n..], n) == [Said(word, n)];
  }

  /** The second block neither joins the first nor carries any of it over. */
  lemma BlocksStayApart(word: string, maxTokens: int, overlapTokens: int)
    requires Plain(word)
    ensures var block := Said(word, PerChunk(maxTokens)); var part := Part(" ", block);
      && !Fits(Extended(block, part), maxTokens)
      && NextOpening(block, part, maxTokens, overlapTokens) == block
  {
    var n := PerChunk(maxTokens);
    var block := Said(word, n);
    var part := Part(" ", block);
    SaidWords(word, n);
    SaidIsWhole(word, n);
    WordsJoined(block, " ", block);
    TwiceIsTooMuch(maxTokens);
    assert Estimate(block + " " + block) == TokensForWords(2 * n);
    KeepsLongestTail(block, part, maxTokens, overlapTokens, 0);
    var kept := Kept(block, part, maxTokens, overlapTokens);
    assert [block][1..] == [] && [block][0..] == [block];
    assert kept == [] || kept == [block];
    assert Join([block], " ") + part.sep + part.text == block + " " + block;
  }

  lemma TwoParts(word: string, maxTokens: int)
    requires Plain(word)
    ensures var n := PerChunk(maxTokens); var text, block := Said(word, 2 * n), Said(word, n);
      PartsOf(Paragraphs(Strip(text)), maxTokens) == [Part("\n\n", block), Part(" ", block)]
  {
    var n := PerChunk(maxTokens);
    var text, block := Said(word, 2 * n), Said(word, n);
    SaidWords(word, 2 * n);
    StripTrimmed(text);
    SaidIsWhole(word, 2 * n);
    TwiceIsTooMuch(maxTokens);
    TwoBlocks(word, n);
    assert SentencePieces([text], maxTokens) == SplitWords(text, maxTokens) + SentencePieces([], maxTokens);
    var two := [block, block];
    assert SplitWords(text, maxTokens) + [] == two;
    assert two[1..] == [block] && [block][1..] == [];
    assert Labelled(two, 0) == [Part("\n\n", block)] + Labelled([block], 1);
    assert Labelled([block], 1) == [Part(" ", block)] + Labelled([], 2);
    assert PartsOf([text], maxTokens) == ParagraphParts(text, maxTokens) + PartsOf([], maxTokens);
  }

  /** EQUAL CHUNKS. Under every ceiling and every overlap, a plain word said twice as often as the
      word cut takes at once is cut into two equal chunks. */
  lemma EveryCeilingRepeats(word: string, maxTokens: int, overlapTokens: int)
    requires Plain(word)
    ensures var n := PerChunk(maxTokens);
      ChunksOf(Said(word, 2 * n), maxTokens, overlapTokens) == [Said(word, n), Said(word, n)]
  {
    var n := PerChunk(maxTokens);
    var block := Said(word, n);
    var first, second := Part("\n\n", block), Part(" ", block);
    TwoParts(word, maxTokens);
    BlocksStayApart(word, maxTokens, overlapTokens);
    SaidWords(word, n);
    assert [first, second][1..] == [second] && [second][1..] == [];
    assert Pack(block, [], maxTokens, overlapTokens) == [block];
    assert Pack(block, [second], maxTokens, overlapTokens) == [block] + [block];
    assert Pack("", [first, second], maxTokens, overlapTokens) == Pack(block, [second], maxTokens, overlapTokens);
  }

  // ----------------------------------------------- where every word is a chunk

  lemma OneWordHasNoSpace(c: string)
    requires Trimmed(c) && |Words(c)| <= 1
    ensures NoSpace(c)
  {
    if i :| 0 <= i < |c| && IsSpace(c[i]) {
      var a, b := c[..i], c[i + 1..];
      assert c == a + [c[i]] + b;
      WordsJoined(a, [c[i]], b);
      ScanNotEmpty("", a) by { assert !IsSpace(a[0]); }
      ScanNotEmpty("", b) by { assert !IsSpace(b[|b| - 1]); }
      assert false;
    }
  }

  lemma {:induction false} SinglesFlatten(chunks: seq<string>, runs: seq<seq<string>>)
    requires |runs| == |chunks| && forall k :: 0 <= k < |runs| ==> runs[k] == [chunks[k]]
    ensures Flatten(runs) == chunks
  {
    if runs != [] {
      SinglesFlatten(chunks[1..], runs[1..]);
      assert [chunks[0]] + chunks[1..] == chunks;
    }
  }

  lemma SmallChunksAreWords(text: string, maxTokens: int, overlapTokens: int)
    requires maxTokens <= 2
    ensures ChunksOf(text, maxTokens, overlapTokens) == Words(text)
  {
    var chunks := ChunksOf(text, maxTokens, overlapTokens);
    ChunksAreGood(text, maxTokens, overlapTokens);
    var _, _, carried, runs := ChunksDecompose(text, maxTokens, overlapTokens);
    forall k | 0 <= k < |chunks| ensures IsWord(chunks[k]) && Words(chunks[k]) == [chunks[k]] {
      if Fits(chunks[k], maxTokens) {
        OneWordHasNoSpace(chunks[k]);
      }
      NoSpaceSplits(chunks[k]);
    }
    forall k | 0 <= k < |chunks| ensures runs[k] == [chunks[k]] {
      assert k > 0 ==> StrictSuffix(carried[k], Words(chunks[k - 1]));
      assert carried[k] == [];
    }
    SinglesFlatten(chunks, runs);
  }

  /** The chunks of every text are its words exactly when the ceiling is below three tokens. */
  lemma ChunksAreWordsIff(maxTokens: int, overlapTokens: int)
    ensures (forall text :: ChunksOf(text, maxTokens, overlapTokens) == Words(text)) <==> maxTokens <= 2
  {
    if maxTokens <= 2 {
      forall text ensures ChunksOf(text, maxTokens, overlapTokens) == Words(text) {
        SmallChunksAreWords(text, maxTokens, overlapTokens);
      }
    } else {
      var text := Said("a", 2);
      SaidWords("a", 2);
      TidyFitIsFixed(text, maxTokens, overlapTokens);
      assert |ChunksOf(text, maxTokens, overlapTokens)| != |Words(text)|;
    }
  }
}
