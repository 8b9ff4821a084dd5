/** `services/chunking.py`: the functions that define what the chunker returns, and the loops
    that compute it. */
module Chunking {
  import opened Options
  import opened Text
  import opened Splitting

  // -------------------------------------------------------------- tokens

  /** `round(t / 10)`, halves going to the even neighbour. */
  function RoundTenths(t: nat): nat {
    var q, r := t / 10, t % 10;
    if r < 5 || (r == 5 && q % 2 == 0) then q else q + 1
  }

  /** `max(1, round(words * 1.3))`. */
  function TokensForWords(words: nat): nat {
    var rounded := RoundTenths(13 * words);
    if rounded < 1 then 1 else rounded
  }

  function Estimate(text: string): nat {
    TokensForWords(|Words(text)|)
  }

  predicate Fits(text: string, maxTokens: int) {
    Estimate(text) <= maxTokens
  }

  // --------------------------------------------------------------- parts

  /** A piece of text and the separator that goes before it. */
  datatype Part = Part(sep: string, text: string)

  /** `max(1, int(max_tokens / 1.3))`. */
  function PerChunk(maxTokens: int): (n: nat)
    ensures n >= 1
  {
    if maxTokens >= 0 && 10 * maxTokens / 13 >= 1 then 10 * maxTokens / 13 else 1
  }

  /** Runs of `n` words, each joined by spaces; the last may be shorter. */
  function WordBlocks(words: seq<string>, n: nat): seq<string>
    requires n >= 1
  {
    if words == [] then []
    else if |words| <= n then [Join(words, " ")]
    else [Join(words[..n], " ")] + WordBlocks(words[n..], n)
  }

  function SplitWords(sentence: string, maxTokens: int): seq<string> {
    WordBlocks(Words(sentence), PerChunk(maxTokens))
  }

  /** Sentences that fit stay whole; the others are cut between words. */
  function SentencePieces(sentences: seq<string>, maxTokens: int): seq<string> {
    if sentences == [] then []
    else
      (if Fits(sentences[0], maxTokens) then [sentences[0]] else SplitWords(sentences[0], maxTokens))
      + SentencePieces(sentences[1..], maxTokens)
  }

  /** Pieces of one paragraph from the `index`th on: only the first opens a paragraph. */
  function Labelled(pieces: seq<string>, index: nat): seq<Part> {
    if pieces == [] then []
    else [Part(if index == 0 then "\n\n" else " ", pieces[0])] + Labelled(pieces[1..], index + 1)
  }

  function ParagraphParts(paragraph: string, maxTokens: int): seq<Part> {
    if Fits(paragraph, maxTokens) then [Part("\n\n", paragraph)]
    else Labelled(SentencePieces(Sentences(paragraph), maxTokens), 0)
  }

  function PartsOf(paragraphs: seq<string>, maxTokens: int): seq<Part> {
    if paragraphs == [] then []
    else ParagraphParts(paragraphs[0], maxTokens) + PartsOf(paragraphs[1..], maxTokens)
  }

  // ------------------------------------------------------------- packing

  /** May the sentences `kept` be repeated in front of `part`? */
  predicate Admissible(kept: seq<string>, part: Part, maxTokens: int, overlapTokens: int) {
    && Estimate(Join(kept, " ")) <= overlapTokens
    && Fits(Join(kept, " ") + part.sep + part.text, maxTokens)
  }

  /** Walk backwards from `ss[i..]` while one more sentence is admissible. */
  function TailStart(ss: seq<string>, i: nat, part: Part, maxTokens: int, overlapTokens: int): (k: nat)
    requires i <= |ss|
    ensures k <= i
    decreases i
  {
    if i > 0 && Admissible(ss[i - 1..], part, maxTokens, overlapTokens)
    then TailStart(ss, i - 1, part, maxTokens, overlapTokens)
    else i
  }

  /** The sentences of `previous` that the next chunk repeats. */
  function Kept(previous: string, part: Part, maxTokens: int, overlapTokens: int): seq<string> {
    var ss := Sentences(previous);
    if overlapTokens > 0
    then ss[TailStart(ss, |ss|, part, maxTokens, overlapTokens)..]
    else []
  }

  /** How the chunk after `previous` opens. */
  function NextOpening(previous: string, part: Part, maxTokens: int, overlapTokens: int): string {
    var tail := Join(Kept(previous, part, maxTokens, overlapTokens), " ");
    if tail != "" then tail + part.sep + part.text else part.text
  }

  function Extended(current: string, part: Part): string {
    if current != "" then current + part.sep + part.text else part.text
  }

  /** The chunks made from the chunk being filled and the parts still to come. */
  function Pack(current: string, parts: seq<Part>, maxTokens: int, overlapTokens: int): seq<string>
    decreases |parts|
  {
    if parts == [] then (if current == "" then [] else [current])
    else if current != "" && !Fits(Extended(current, parts[0]), maxTokens) then
      [current] + Pack(NextOpening(current, parts[0], maxTokens, overlapTokens), parts[1..],
                       maxTokens, overlapTokens)
    else Pack(Extended(current, parts[0]), parts[1..], maxTokens, overlapTokens)
  }

  /** What `chunk_text` returns for a text. */
  function ChunksOf(text: string, maxTokens: int, overlapTokens: int): seq<string> {
    Pack("", PartsOf(Paragraphs(Strip(text)), maxTokens), maxTokens, overlapTokens)
  }

  /** What `chunk_text` returns for `str | None`. */
  function ChunksOfContent(content: Option<string>, maxTokens: int, overlapTokens: int): seq<string> {
    match content
    case None => []
    case Some(text) => ChunksOf(text, maxTokens, overlapTokens)
  }

  // ----------------------------------------------------------- the loops

  /** The parts of the raw pieces of a paragraph split, blank ones contributing nothing. */
  function RawParts(raw: seq<string>, maxTokens: int): seq<Part> {
    if raw == [] then []
    else (if Strip(raw[0]) == "" then [] else ParagraphParts(Strip(raw[0]), maxTokens)) + RawParts(raw[1..], maxTokens)
  }

  lemma {:induction false} RawPartsAreParts(raw: seq<string>, maxTokens: int)
    ensures RawParts(raw, maxTokens) == PartsOf(Cleaned(raw), maxTokens)
  {
    if raw != [] {
      RawPartsAreParts(raw[1..], maxTokens);
      var p, rest := Strip(raw[0]), Cleaned(raw[1..]);
      assert ([p] + rest)[1..] == rest;
      if p == "" {
        assert Cleaned(raw) == [] + rest == rest;
      } else {
        assert Cleaned(raw) == [p] + rest;
      }
    }
  }

  lemma RawPartsStep(done: seq<Part>, more: seq<Part>, raw: seq<string>, i: nat, maxTokens: int)
    requires i < |raw|
    requires more == if Strip(raw[i]) == "" then [] else ParagraphParts(Strip(raw[i]), maxTokens)
    ensures done + more + RawParts(raw[i + 1..], maxTokens) == done + RawParts(raw[i..], maxTokens)
  {
    var rest := RawParts(raw[i + 1..], maxTokens);
    assert RawParts(raw[i..], maxTokens) == more + rest by {
      assert raw[i..][1..] == raw[i + 1..] && raw[i..][0] == raw[i];
    }
    assert done + more + rest == done + (more + rest);
  }

  method SplitToFit(text: string, maxTokens: int) returns (parts: seq<Part>)
    ensures parts == PartsOf(Paragraphs(text), maxTokens)
  {
    parts := [];
    var raw := SplitParagraphs("", text);
    RawPartsAreParts(raw, maxTokens);
    assert raw[0..] == raw;
    for i := 0 to |raw|
      invariant parts + RawParts(raw[i..], maxTokens) == RawParts(raw, maxTokens)
    {
      var paragraph := Strip(raw[i]);
      if paragraph == "" {
        RawPartsStep(parts, [], raw, i, maxTokens);
        assert parts + [] == parts;
        continue;
      }
      var more := PartsOfParagraph(paragraph, maxTokens);
      RawPartsStep(parts, more, raw, i, maxTokens);
      parts := parts + more;
    }
  }

  method PartsOfParagraph(paragraph: string, maxTokens: int) returns (parts: seq<Part>)
    ensures parts == ParagraphParts(paragraph, maxTokens)
  {
    if Fits(paragraph, maxTokens) {
      parts := [Part("\n\n", paragraph)];
    } else {
      var pieces := PiecesOfParagraph(paragraph, maxTokens);
      parts := LabelPieces(pieces);
    }
  }

  function RawPieces(raw: seq<string>, maxTokens: int): seq<string> {
    if raw == [] then []
    else RawPiece(Strip(raw[0]), maxTokens) + RawPieces(raw[1..], maxTokens)
  }

  function RawPiece(sentence: string, maxTokens: int): seq<string> {
    if sentence == "" then []
    else if Fits(sentence, maxTokens) then [sentence]
    else SplitWords(sentence, maxTokens)
  }

  lemma {:induction false} RawPiecesArePieces(raw: seq<string>, maxTokens: int)
    ensures RawPieces(raw, maxTokens) == SentencePieces(Cleaned(raw), maxTokens)
  {
    if raw != [] {
      RawPiecesArePieces(raw[1..], maxTokens);
      var p, rest := Strip(raw[0]), Cleaned(raw[1..]);
      assert ([p] + rest)[1..] == rest;
      if p == "" {
        assert Cleaned(raw) == [] + rest == rest;
      } else {
        assert Cleaned(raw) == [p] + rest;
      }
    }
  }

  lemma RawPiecesStep(done: seq<string>, raw: seq<string>, i: nat, maxTokens: int)
    requires i < |raw|
    ensures done + RawPiece(Strip(raw[i]), maxTokens) + RawPieces(raw[i + 1..], maxTokens)
         == done + RawPieces(raw[i..], maxTokens)
  {
  }

  method PiecesOfParagraph(paragraph: string, maxTokens: int) returns (pieces: seq<string>)
    ensures pieces == SentencePieces(Sentences(paragraph), maxTokens)
  {
    pieces := [];
    var raw := SplitSentences("", paragraph);
    RawPiecesArePieces(raw, maxTokens);
    assert raw[0..] == raw;
    for i := 0 to |raw|
      invariant pieces + RawPieces(raw[i..], maxTokens) == RawPieces(raw, maxTokens)
    {
      RawPiecesStep(pieces, raw, i, maxTokens);
      var sentence := Strip(raw[i]);
      if sentence == "" {
        assert pieces + [] == pieces;
        continue;
      }
      if Fits(sentence, maxTokens) {
        pieces := pieces + [sentence];
      } else {
        pieces := pieces + SplitWords(sentence, maxTokens);
      }
    }
  }

  method LabelPieces(pieces: seq<string>) returns (parts: seq<Part>)
    ensures parts == Labelled(pieces, 0)
  {
    parts := [];
    for index := 0 to |pieces|
      invariant parts + Labelled(pieces[index..], index) == Labelled(pieces, 0)
    {
      assert pieces[index..][1..] == pieces[index + 1..];
      parts := parts + [Part(if index == 0 then "\n\n" else " ", pieces[index])];
    }
  }

  method StartNext(previous: string, part: Part, maxTokens: int, overlapTokens: int)
    returns (opening: string)
    ensures opening == NextOpening(previous, part, maxTokens, overlapTokens)
  {
    var sentences := Sentences(previous);
    var kept := [];
    if overlapTokens > 0 {
      var i := |sentences|;
      while i > 0
        invariant 0 <= i <= |sentences| && kept == sentences[i..]
        invariant TailStart(sentences, i, part, maxTokens, overlapTokens)
               == TailStart(sentences, |sentences|, part, maxTokens, overlapTokens)
      {
        var candidate := [sentences[i - 1]] + kept;
        assert candidate == sentences[i - 1..];
        var tail := Join(candidate, " ");
        if Estimate(tail) > overlapTokens {
          break;
        }
        if !Fits(tail + part.sep + part.text, maxTokens) {
          break;
        }
        kept := candidate;
        i := i - 1;
      }
    }
    var tail := Join(kept, " ");
    opening := if tail != "" then tail + part.sep + part.text else part.text;
  }

  method Assemble(parts: seq<Part>, maxTokens: int, overlapTokens: int)
    returns (chunks: seq<string>)
    ensures chunks == Pack("", parts, maxTokens, overlapTokens)
  {
    chunks := [];
    var current := "";
    for i := 0 to |parts|
      invariant chunks + Pack(current, parts[i..], maxTokens, overlapTokens)
             == Pack("", parts, maxTokens, overlapTokens)
    {
      assert parts[i..][1..] == parts[i + 1..];
      var candidate := Extended(current, parts[i]);
      if current != "" && Estimate(candidate) > maxTokens {
        chunks := chunks + [current];
        current := StartNext(current, parts[i], maxTokens, overlapTokens);
      } else {
        current := candidate;
      }
    }
    if current != "" {
      chunks := chunks + [current];
    }
  }

  method ChunkText(content: Option<string>, maxTokens: int, overlapTokens: int)
    returns (chunks: seq<string>)
    ensures chunks == ChunksOfContent(content, maxTokens, overlapTokens)
  {
    if content == None || Strip(content.value) == "" {
      return [];
    }
    var parts := SplitToFit(Strip(content.value), maxTokens);
    chunks := Assemble(parts, maxTokens, overlapTokens);
  }
}
