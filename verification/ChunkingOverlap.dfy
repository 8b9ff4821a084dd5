/** The chunks of a text, told apart from the loops that compute them: which parts each holds, what it
    repeats from the chunk before, and that this leaves no choice. */
module ChunkingOverlap {
  import opened Text
  import opened Splitting
  import opened Chunking
  import opened ChunkingParts
  import opened ChunkingLaws

  // ------------------------------------------------------- what the chunks are

  /** `head`, then the parts, each behind its separator if anything stands before it. */
  function Glued(head: string, parts: seq<Part>): string
    decreases |parts|
  {
    if parts == [] then head
    else Glued(if head == "" then parts[0].text else head + parts[0].sep + parts[0].text, parts[1..])
  }

  /** The sentences meet the overlap budget, and the ceiling together with the part after them. */
  predicate MayRepeat(kept: seq<string>, part: Part, maxTokens: int, overlapTokens: int) {
    var tail := Join(kept, " ");
    Estimate(tail) <= overlapTokens && Estimate(tail + part.sep + part.text) <= maxTokens
  }

  /** The sentences of `previous` from the `n`th on are the most that may be repeated before `part`. */
  ghost predicate MostRepeated(previous: string, n: nat, part: Part, maxTokens: int, overlapTokens: int) {
    var ss := Sentences(previous);
    && n <= |ss|
    && (n < |ss| ==> overlapTokens > 0 && MayRepeat(ss[n..], part, maxTokens, overlapTokens))
    && (overlapTokens > 0 ==> forall m :: 0 <= m < n ==> !MayRepeat(ss[m..], part, maxTokens, overlapTokens))
  }

  /** What chunk `k` repeats: `head` for the first, the tail of the chunk before for the others. */
  function HeadAt(head: string, chunks: seq<string>, tails: seq<nat>, k: nat): string
    requires k < |chunks| == |tails| && (k > 0 ==> tails[k] <= |Sentences(chunks[k - 1])|)
  {
    if k == 0 then head
    else Join(Sentences(chunks[k - 1])[tails[k]..], " ")
  }

  /** What chunk `k` repeats is the most it may; the chunk is that and its own parts; it meets the
      ceiling, or is one part that cannot; and the part after it would not have fitted. */
  ghost predicate ChunkLaw(head: string, chunks: seq<string>, groups: seq<seq<Part>>, tails: seq<nat>, k: nat,
                           maxTokens: int, overlapTokens: int)
    requires k < |chunks| == |groups| == |tails|
    requires forall i :: 0 <= i < |groups| ==> groups[i] != []
  {
    && (k > 0 ==> MostRepeated(chunks[k - 1], tails[k], groups[k][0], maxTokens, overlapTokens))
    && chunks[k] == Glued(HeadAt(head, chunks, tails, k), groups[k])
    && (Estimate(chunks[k]) <= maxTokens || (|groups[k]| == 1 && chunks[k] == groups[k][0].text))
    && (k + 1 < |chunks| ==>
          var next := groups[k + 1][0]; Estimate(chunks[k] + next.sep + next.text) > maxTokens)
  }

  /** The parts are dealt out in order, and every chunk obeys its law. */
  ghost predicate Chunked(head: string, chunks: seq<string>, groups: seq<seq<Part>>, tails: seq<nat>,
                          parts: seq<Part>, maxTokens: int, overlapTokens: int)
  {
    && |chunks| == |groups| == |tails|
    && (forall i :: 0 <= i < |groups| ==> groups[i] != [])
    && Concat(groups) == parts
    && forall k :: 0 <= k < |chunks| ==> ChunkLaw(head, chunks, groups, tails, k, maxTokens, overlapTokens)
  }

  // -------------------------------------------------- the chunks are like that

  lemma {:induction false} GluedMore(head: string, parts: seq<Part>, p: Part)
    ensures Glued(head, parts + [p]) == Extended(Glued(head, parts), p)
    decreases |parts|
  {
    if parts == [] {
      assert [p][1..] == [];
    } else {
      assert (parts + [p])[1..] == parts[1..] + [p];
      GluedMore(if head == "" then parts[0].text else head + parts[0].sep + parts[0].text, parts[1..], p);
    }
  }

  /** Where the loop over the sentences stops. */
  lemma StopsAtMost(previous: string, part: Part, maxTokens: int, overlapTokens: int)
    requires IsSeparator(part.sep) && overlapTokens > 0
    ensures var ss := Sentences(previous);
      MostRepeated(previous, TailStart(ss, |ss|, part, maxTokens, overlapTokens), part, maxTokens, overlapTokens)
  {
    var ss := Sentences(previous);
    var n := TailStart(ss, |ss|, part, maxTokens, overlapTokens);
    TailIsAdmissible(ss, |ss|, part, maxTokens, overlapTokens);
    forall m | 0 <= m < n ensures !MayRepeat(ss[m..], part, maxTokens, overlapTokens) {
      if Admissible(ss[m..], part, maxTokens, overlapTokens) {
        TailStartIsLeast(ss, |ss|, m, part, maxTokens, overlapTokens);
      }
    }
  }

  lemma NextOpens(previous: string, part: Part, maxTokens: int, overlapTokens: int) returns (n: nat)
    requires Tidy(previous) && GoodPart(part, maxTokens)
    ensures MostRepeated(previous, n, part, maxTokens, overlapTokens)
    ensures var next := NextOpening(previous, part, maxTokens, overlapTokens);
      next == Glued(Join(Sentences(previous)[n..], " "), [part]) && (Fits(next, maxTokens) || next == part.text)
  {
    var ss := Sentences(previous);
    n := if overlapTokens > 0 then TailStart(ss, |ss|, part, maxTokens, overlapTokens) else |ss|;
    var k := KeptIsSuffix(previous, part, maxTokens, overlapTokens);
    assert ss[k..] == ss[n..] && k == n;
    if overlapTokens > 0 {
      StopsAtMost(previous, part, maxTokens, overlapTokens);
    }
    NextOpeningLaw(previous, part, maxTokens, overlapTokens);
    assert [part][1..] == [];
  }

  lemma LastChunk(head: string, cur: seq<Part>, maxTokens: int, overlapTokens: int)
    requires cur != [] && var chunk := Glued(head, cur);
      Fits(chunk, maxTokens) || (|cur| == 1 && chunk == cur[0].text)
    ensures Chunked(head, [Glued(head, cur)], [cur], [0], cur, maxTokens, overlapTokens)
  {
    ConcatOne(cur);
  }

  /** A chunk closed because the next part does not fit, before the chunks of what is left. */
  lemma CloseChunk(head: string, cur: seq<Part>, n: nat, rest: seq<Part>, chunks: seq<string>,
                   groups: seq<seq<Part>>, tails: seq<nat>, maxTokens: int, overlapTokens: int)
    requires cur != [] && rest != [] && groups != [] && var chunk := Glued(head, cur);
      && (Fits(chunk, maxTokens) || (|cur| == 1 && chunk == cur[0].text))
      && MostRepeated(chunk, n, rest[0], maxTokens, overlapTokens)
      && !Fits(chunk + rest[0].sep + rest[0].text, maxTokens)
      && Chunked(Join(Sentences(chunk)[n..], " "), chunks, groups, tails, rest, maxTokens, overlapTokens)
    ensures Chunked(head, [Glued(head, cur)] + chunks, [cur] + groups, [0, n] + tails[1..], cur + rest,
                    maxTokens, overlapTokens)
  {
    var chunk := Glued(head, cur);
    var cs, gs, ts := [chunk] + chunks, [cur] + groups, [0, n] + tails[1..];
    assert groups[0][0] == rest[0];
    assert gs[1..] == groups;
    forall k | 0 <= k < |cs| ensures ChunkLaw(head, cs, gs, ts, k, maxTokens, overlapTokens) {
      if k > 0 {
        assert ChunkLaw(Join(Sentences(chunk)[n..], " "), chunks, groups, tails, k - 1, maxTokens, overlapTokens);
        LawMovesUp(head, chunk, cur, n, chunks, groups, tails, k, maxTokens, overlapTokens);
      }
    }
  }

  lemma LawMovesUp(head: string, chunk: string, cur: seq<Part>, n: nat, chunks: seq<string>, groups: seq<seq<Part>>,
                   tails: seq<nat>, k: nat, maxTokens: int, overlapTokens: int)
    requires cur != [] && |chunks| == |groups| == |tails| && 0 < k <= |chunks|
    requires forall i :: 0 <= i < |groups| ==> groups[i] != []
    requires MostRepeated(chunk, n, groups[0][0], maxTokens, overlapTokens)
    requires ChunkLaw(Join(Sentences(chunk)[n..], " "), chunks, groups, tails, k - 1, maxTokens, overlapTokens)
    ensures ChunkLaw(head, [chunk] + chunks, [cur] + groups, [0, n] + tails[1..], k, maxTokens, overlapTokens)
  {
  }

  lemma {:induction false} PackIsChunked(head: string, cur: seq<Part>, rest: seq<Part>, maxTokens: int,
                                         overlapTokens: int)
    returns (groups: seq<seq<Part>>, tails: seq<nat>)
    requires cur != [] && GoodParts(rest, maxTokens) && var chunk := Glued(head, cur);
      GoodPiece(chunk, maxTokens) && (Fits(chunk, maxTokens) || (|cur| == 1 && chunk == cur[0].text))
    ensures Chunked(head, Pack(Glued(head, cur), rest, maxTokens, overlapTokens), groups, tails, cur + rest,
                    maxTokens, overlapTokens)
    decreases |rest|
  {
    var chunk := Glued(head, cur);
    if rest == [] {
      groups, tails := [cur], [0];
      LastChunk(head, cur, maxTokens, overlapTokens);
      assert cur + rest == cur;
    } else {
      var p, more := rest[0], rest[1..];
      PackStep(chunk, rest, maxTokens, overlapTokens);
      MoveOne(cur, rest);
      NextChunkKeeps(chunk, p, maxTokens, overlapTokens);
      if Fits(Extended(chunk, p), maxTokens) {
        GluedMore(head, cur, p);
        groups, tails := PackIsChunked(head, cur + [p], more, maxTokens, overlapTokens);
      } else {
        var n := NextOpens(chunk, p, maxTokens, overlapTokens);
        var tail := Join(Sentences(chunk)[n..], " ");
        groups, tails := PackIsChunked(tail, [p], more, maxTokens, overlapTokens);
        var chunks := Pack(Glued(tail, [p]), more, maxTokens, overlapTokens);
        CloseChunk(head, cur, n, rest, chunks, groups, tails, maxTokens, overlapTokens);
        groups, tails := [cur] + groups, [0, n] + tails[1..];
      }
    }
  }

  /** THE CHUNKS. A text's chunks hold its parts in order. Each but the first opens with the most
      closing sentences of the one before that meet the overlap budget and, with the part that follows,
      the ceiling; and no chunk is closed while the next part would still fit. */
  lemma ChunksAreChunked(text: string, maxTokens: int, overlapTokens: int)
    returns (groups: seq<seq<Part>>, tails: seq<nat>)
    ensures Chunked("", ChunksOf(text, maxTokens, overlapTokens), groups, tails,
                    PartsOf(Paragraphs(Strip(text)), maxTokens), maxTokens, overlapTokens)
  {
    var parts := PartsOf(Paragraphs(Strip(text)), maxTokens);
    SplitToFitLaw(text, maxTokens);
    if parts == [] {
      groups, tails := [], [];
    } else {
      var p, rest := parts[0], parts[1..];
      PackStep("", parts, maxTokens, overlapTokens);
      NextChunkKeeps("", p, maxTokens, overlapTokens);
      assert [p][1..] == [];
      assert Glued("", [p]) == p.text == Extended("", p);
      groups, tails := PackIsChunked("", [p], rest, maxTokens, overlapTokens);
      MoveOne([], parts);
    }
  }

  // ------------------------------------------------------- nothing else is

  predicate Separated(parts: seq<Part>) {
    forall i :: 0 <= i < |parts| ==> IsSeparator(parts[i].sep)
  }

  lemma {:induction false} GluedWords(head: string, parts: seq<Part>)
    requires Separated(parts)
    ensures Words(Glued(head, parts)) == Words(head) + PartWords(parts)
    decreases |parts|
  {
    if parts == [] {
      assert Words(head) + [] == Words(head);
    } else {
      var next := if head == "" then parts[0].text else head + parts[0].sep + parts[0].text;
      WordsJoined(head, parts[0].sep, parts[0].text);
      assert Words("") == [];
      GluedWords(next, parts[1..]);
      Regroup(Words(head), Words(parts[0].text), PartWords(parts[1..]));
    }
  }

  lemma PrefixSeparated(parts: seq<Part>, n: nat)
    requires Separated(parts) && n <= |parts|
    ensures Separated(parts[..n])
  {
  }

  lemma PrefixCost(head: string, parts: seq<Part>, n: nat)
    requires Separated(parts) && n <= |parts|
    ensures Estimate(Glued(head, parts[..n])) == TokensForWords(|Words(head)| + |PartWords(parts[..n])|)
  {
    PrefixSeparated(parts, n);
    GluedWords(head, parts[..n]);
  }

  lemma OneMoreCost(head: string, parts: seq<Part>, n: nat)
    requires Separated(parts) && n < |parts|
    ensures Estimate(Glued(head, parts[..n]) + parts[n].sep + parts[n].text)
         == TokensForWords(|Words(head)| + |PartWords(parts[..n])| + |Words(parts[n].text)|)
  {
    PrefixSeparated(parts, n);
    GluedWords(head, parts[..n]);
    WordsJoined(Glued(head, parts[..n]), parts[n].sep, parts[n].text);
  }

  lemma LessToWrite(parts: seq<Part>, n: nat, m: nat)
    requires n < m <= |parts|
    ensures |PartWords(parts[..n])| + |Words(parts[n].text)| <= |PartWords(parts[..m])|
  {
    var less, one, more := parts[..n], [parts[n]], parts[n + 1..m];
    assert parts[..m] == less + one + more;
    PartWordsAppend(less + one, more);
    PartWordsAppend(less, one);
    assert PartWords(one) == Words(parts[n].text) + PartWords([]);
  }

  /** Of two ways to go on, one cannot stop before the other. */
  lemma NoShorter(head: string, parts: seq<Part>, n: nat, m: nat, maxTokens: int)
    requires 0 < n < m <= |parts| && Separated(parts)
    requires Fits(Glued(head, parts[..m]), maxTokens)
    ensures Estimate(Glued(head, parts[..n]) + parts[n].sep + parts[n].text) <= maxTokens
  {
    var all, less := |Words(head)| + |PartWords(parts[..m])|,
                     |Words(head)| + |PartWords(parts[..n])| + |Words(parts[n].text)|;
    OneMoreCost(head, parts, n);
    PrefixCost(head, parts, m);
    assert TokensForWords(all) <= maxTokens;
    assert less <= all by {
      LessToWrite(parts, n, m);
    }
    TokensMonotone(less, all);
  }

  lemma OneMost(previous: string, n: nat, m: nat, part: Part, maxTokens: int, overlapTokens: int)
    requires MostRepeated(previous, n, part, maxTokens, overlapTokens)
    requires MostRepeated(previous, m, part, maxTokens, overlapTokens)
    ensures n == m
  {
    assert n != m ==> overlapTokens > 0;
  }

  /** The first group, as a stretch of the parts, and the part after it. */
  lemma FirstGroup(head: string, chunks: seq<string>, groups: seq<seq<Part>>, tails: seq<nat>, parts: seq<Part>,
                   maxTokens: int, overlapTokens: int)
    requires Chunked(head, chunks, groups, tails, parts, maxTokens, overlapTokens) && parts != []
    ensures groups != [] && var n := |groups[0]|;
      && 0 < n <= |parts| && groups[0] == parts[..n] && Concat(groups[1..]) == parts[n..]
      && chunks[0] == Glued(head, parts[..n])
      && (n == 1 || Fits(chunks[0], maxTokens))
      && (n < |parts| ==> |groups| > 1 && groups[1][0] == parts[n]
                          && !Fits(chunks[0] + parts[n].sep + parts[n].text, maxTokens)
                          && MostRepeated(chunks[0], tails[1], parts[n], maxTokens, overlapTokens))
  {
    assert ChunkLaw(head, chunks, groups, tails, 0, maxTokens, overlapTokens);
    var n := |groups[0]|;
    assert parts == groups[0] + Concat(groups[1..]);
    if n < |parts| {
      assert Concat(groups[1..]) == groups[1] + Concat(groups[2..]) by { assert groups[1..][1..] == groups[2..]; }
      assert ChunkLaw(head, chunks, groups, tails, 1, maxTokens, overlapTokens);
    }
  }

  lemma AfterFirst(head: string, chunks: seq<string>, groups: seq<seq<Part>>, tails: seq<nat>, parts: seq<Part>,
                   maxTokens: int, overlapTokens: int)
    requires Chunked(head, chunks, groups, tails, parts, maxTokens, overlapTokens) && |chunks| > 1
    requires tails[1] <= |Sentences(chunks[0])|
    ensures Chunked(Join(Sentences(chunks[0])[tails[1]..], " "), chunks[1..], groups[1..], tails[1..],
                    Concat(groups[1..]), maxTokens, overlapTokens)
  {
    var tail := Join(Sentences(chunks[0])[tails[1]..], " ");
    forall k | 0 <= k < |chunks| - 1
      ensures ChunkLaw(tail, chunks[1..], groups[1..], tails[1..], k, maxTokens, overlapTokens)
    {
      assert ChunkLaw(head, chunks, groups, tails, k + 1, maxTokens, overlapTokens);
    }
  }

  /** NO CHOICE. Two lists of chunks that obey the law over the same parts are equal, group by group. */
  lemma {:induction false} OnlyOneChunking(head: string, parts: seq<Part>, cs: seq<string>, gs: seq<seq<Part>>,
                                           ts: seq<nat>, ds: seq<string>, hs: seq<seq<Part>>, us: seq<nat>,
                                           maxTokens: int, overlapTokens: int)
    requires GoodParts(parts, maxTokens)
    requires Chunked(head, cs, gs, ts, parts, maxTokens, overlapTokens)
    requires Chunked(head, ds, hs, us, parts, maxTokens, overlapTokens)
    ensures cs == ds && gs == hs
    decreases |parts|
  {
    if parts == [] {
      assert gs == [] && hs == [];
    } else {
      FirstGroup(head, cs, gs, ts, parts, maxTokens, overlapTokens);
      FirstGroup(head, ds, hs, us, parts, maxTokens, overlapTokens);
      var n, m := |gs[0]|, |hs[0]|;
      if n < m {
        NoShorter(head, parts, n, m, maxTokens);
      }
      if m < n {
        NoShorter(head, parts, m, n, maxTokens);
      }
      if n < |parts| {
        OneMost(cs[0], ts[1], us[1], parts[n], maxTokens, overlapTokens);
        AfterFirst(head, cs, gs, ts, parts, maxTokens, overlapTokens);
        AfterFirst(head, ds, hs, us, parts, maxTokens, overlapTokens);
        OnlyOneChunking(Join(Sentences(cs[0])[ts[1]..], " "), parts[n..], cs[1..], gs[1..], ts[1..],
                        ds[1..], hs[1..], us[1..], maxTokens, overlapTokens);
      } else {
        NothingLeft(gs[1..]);
        NothingLeft(hs[1..]);
      }
      assert cs == [cs[0]] + cs[1..] && ds == [ds[0]] + ds[1..];
      assert gs == [gs[0]] + gs[1..] && hs == [hs[0]] + hs[1..];
    }
  }

  lemma NothingLeft(groups: seq<seq<Part>>)
    requires Concat(groups) == [] && forall i :: 0 <= i < |groups| ==> groups[i] != []
    ensures groups == []
  {
  }

  // ------------------------------------------- the overlap decomposition

  ghost predicate StrictSuffix(a: seq<string>, b: seq<string>) {
    |a| < |b| && a == b[|b| - |a|..]
  }

  function Flatten(runs: seq<seq<string>>): seq<string> {
    if runs == [] then [] else runs[0] + Flatten(runs[1..])
  }

  /** Chunk `k` is `carried[k]`, repeated from the end of chunk `k - 1`, then `runs[k]`, new
      words; the new words of all chunks are `words`. */
  ghost predicate Decomposed(chunks: seq<string>, carried: seq<seq<string>>, runs: seq<seq<string>>,
                             words: seq<string>)
  {
    && |carried| == |runs| == |chunks|
    && (forall k :: 0 <= k < |chunks| ==> Words(chunks[k]) == carried[k] + runs[k] && runs[k] != [])
    && (forall k :: 0 < k < |chunks| ==> StrictSuffix(carried[k], Words(chunks[k - 1])))
    && Flatten(runs) == words
  }

  lemma SuffixOfSentences(previous: string, k: nat)
    requires k <= |Sentences(previous)|
    ensures var head, all := FlatWords(Sentences(previous)[k..]), Words(previous);
            |head| <= |all| && head == all[|all| - |head|..]
  {
    var ss := Sentences(previous);
    var front, back := ss[..k], ss[k..];
    assert ss == front + back;
    SentencesKeepWords(previous);
    FlatWordsAppend(front, back);
    TailOfSum(Words(previous), FlatWords(front), FlatWords(back));
  }

  lemma TailOfSum(all: seq<string>, front: seq<string>, back: seq<string>)
    requires all == front + back
    ensures |back| <= |all| && back == all[|all| - |back|..]
  {
  }

  /** The repeated words are a strict suffix: keeping all of them would fail the very ceiling test
      that ended the chunk. */
  lemma RepeatsLess(previous: string, n: nat, part: Part, maxTokens: int, overlapTokens: int)
    requires Tidy(previous) && IsSeparator(part.sep) && MostRepeated(previous, n, part, maxTokens, overlapTokens)
    requires Estimate(previous + part.sep + part.text) > maxTokens
    ensures StrictSuffix(FlatWords(Sentences(previous)[n..]), Words(previous))
  {
    var kept := Sentences(previous)[n..];
    SuffixOfSentences(previous, n);
    TrimmedHasWords(previous);
    if kept != [] {
      TailCost(kept, part);
      WordsJoined(previous, part.sep, part.text);
      assert |FlatWords(kept)| != |Words(previous)|;
    }
  }

  lemma GroupIsGood(groups: seq<seq<Part>>, parts: seq<Part>, k: nat, maxTokens: int)
    requires k < |groups| && Concat(groups) == parts && GoodParts(parts, maxTokens)
    ensures GoodParts(groups[k], maxTokens)
    decreases k
  {
    assert parts == groups[0] + Concat(groups[1..]);
    forall i | 0 <= i < |groups[0]| ensures GoodPart(groups[0][i], maxTokens) {
      assert groups[0][i] == parts[i];
    }
    if k > 0 {
      var rest := Concat(groups[1..]);
      forall i | 0 <= i < |rest| ensures GoodPart(rest[i], maxTokens) {
        assert rest[i] == parts[|groups[0]| + i];
      }
      GroupIsGood(groups[1..], rest, k - 1, maxTokens);
    }
  }

  /** The words repeated in front of chunk `k`. */
  function CarriedWords(chunks: seq<string>, tails: seq<nat>, k: nat): seq<string>
    requires k < |chunks| == |tails| && (k > 0 ==> tails[k] <= |Sentences(chunks[k - 1])|)
  {
    if k == 0 then [] else FlatWords(Sentences(chunks[k - 1])[tails[k]..])
  }

  lemma ChunkWords(chunks: seq<string>, groups: seq<seq<Part>>, tails: seq<nat>, parts: seq<Part>, k: nat,
                   maxTokens: int, overlapTokens: int)
    requires Chunked("", chunks, groups, tails, parts, maxTokens, overlapTokens) && k < |chunks|
    requires GoodParts(parts, maxTokens)
    ensures k > 0 ==> tails[k] <= |Sentences(chunks[k - 1])|
    ensures Words(chunks[k]) == CarriedWords(chunks, tails, k) + PartWords(groups[k]) && PartWords(groups[k]) != []
  {
    assert ChunkLaw("", chunks, groups, tails, k, maxTokens, overlapTokens);
    GroupIsGood(groups, parts, k, maxTokens);
    var head := HeadAt("", chunks, tails, k);
    GluedWords(head, groups[k]);
    assert GoodPart(groups[k][0], maxTokens);
    TrimmedHasWords(groups[k][0].text);
    if k > 0 {
      JoinKeepsWords(Sentences(chunks[k - 1])[tails[k]..], " ");
    }
  }

  lemma CarriesLess(chunks: seq<string>, groups: seq<seq<Part>>, tails: seq<nat>, parts: seq<Part>, k: nat,
                    maxTokens: int, overlapTokens: int)
    requires Chunked("", chunks, groups, tails, parts, maxTokens, overlapTokens) && 0 < k < |chunks|
    requires GoodParts(parts, maxTokens) && Tidy(chunks[k - 1]) && tails[k] <= |Sentences(chunks[k - 1])|
    ensures StrictSuffix(CarriedWords(chunks, tails, k), Words(chunks[k - 1]))
  {
    assert ChunkLaw("", chunks, groups, tails, k - 1, maxTokens, overlapTokens);
    assert ChunkLaw("", chunks, groups, tails, k, maxTokens, overlapTokens);
    GroupIsGood(groups, parts, k, maxTokens);
    assert GoodPart(groups[k][0], maxTokens);
    RepeatsLess(chunks[k - 1], tails[k], groups[k][0], maxTokens, overlapTokens);
  }

  lemma {:induction false} RunsAreWords(groups: seq<seq<Part>>, runs: seq<seq<string>>)
    requires |runs| == |groups| && forall k :: 0 <= k < |groups| ==> runs[k] == PartWords(groups[k])
    ensures Flatten(runs) == PartWords(Concat(groups))
  {
    if groups != [] {
      RunsAreWords(groups[1..], runs[1..]);
      PartWordsAppend(groups[0], Concat(groups[1..]));
    }
  }

  /** THE OVERLAP LAW. The words of each chunk are those of the most closing sentences of the chunk
      before that may be repeated, a strict suffix of its words (nothing, for the first), and then a
      non-empty run of new words; the runs together are the words of the text, so nothing is lost,
      reordered or repeated beyond the overlap. */
  lemma ChunksDecompose(text: string, maxTokens: int, overlapTokens: int)
    returns (groups: seq<seq<Part>>, tails: seq<nat>, carried: seq<seq<string>>, runs: seq<seq<string>>)
    ensures Chunked("", ChunksOf(text, maxTokens, overlapTokens), groups, tails,
                    PartsOf(Paragraphs(Strip(text)), maxTokens), maxTokens, overlapTokens)
    ensures Decomposed(ChunksOf(text, maxTokens, overlapTokens), carried, runs, Words(text))
    ensures carried != [] ==> carried[0] == []
    ensures var chunks := ChunksOf(text, maxTokens, overlapTokens); forall k :: 0 < k < |chunks| ==>
      && tails[k] <= |Sentences(chunks[k - 1])| && carried[k] == FlatWords(Sentences(chunks[k - 1])[tails[k]..])
    ensures Strip(text) == "" <==> ChunksOf(text, maxTokens, overlapTokens) == []
  {
    var chunks, parts := ChunksOf(text, maxTokens, overlapTokens), PartsOf(Paragraphs(Strip(text)), maxTokens);
    SplitToFitLaw(text, maxTokens);
    NoChunksIffBlank(text, maxTokens, overlapTokens);
    ChunksAreGood(text, maxTokens, overlapTokens);
    groups, tails := ChunksAreChunked(text, maxTokens, overlapTokens);
    forall k | 0 <= k < |chunks|
      ensures k > 0 ==> tails[k] <= |Sentences(chunks[k - 1])|
      ensures Words(chunks[k]) == CarriedWords(chunks, tails, k) + PartWords(groups[k]) && PartWords(groups[k]) != []
    {
      ChunkWords(chunks, groups, tails, parts, k, maxTokens, overlapTokens);
    }
    carried := seq(|chunks|, k requires 0 <= k < |chunks| => CarriedWords(chunks, tails, k));
    runs := seq(|chunks|, k requires 0 <= k < |chunks| => PartWords(groups[k]));
    forall k | 0 < k < |chunks| ensures StrictSuffix(carried[k], Words(chunks[k - 1])) {
      assert GoodPiece(chunks[k - 1], maxTokens);
      CarriesLess(chunks, groups, tails, parts, k, maxTokens, overlapTokens);
    }
    RunsAreWords(groups, runs);
  }
}
