/**
 * Chunking strategies and the chunker transforms. `SimpleChunk` is the
 * character sliding window, `SemanticChunk` the sentence accumulator; each is the
 * loop of the Python code, proved equal to a specification function
 * (`SimpleChunks`, `SemanticChunks`) about which the properties are proved.
 */
module Chunkers {
  import opened Wrappers
  import opened Text
  import opened LineageNodes

  function Min(a: int, b: int): int {
    if a <= b then a else b
  }

  // ===========================================================================
  // SimpleChunker: a sliding window of `size` characters, `overlap` shared

  /**
   * The configurations on which the sliding window terminates: short content is
   * returned whole; otherwise the window must advance, `0 < size` and
   * `overlap < size` (with `overlap >= size` the Python loop never ends).
   */
  predicate SimpleTerminates(len: nat, size: int, overlap: int) {
    len <= size || (0 < size && overlap < size)
  }

  /** The windows from `start` on: `content[start:start+size]`, then the next one starts `overlap` before its end. */
  function WindowsFrom(content: string, size: int, overlap: int, start: nat): (r: seq<string>)
    requires 0 < size && overlap < size && start < |content|
    ensures |r| >= 1
    decreases |content| - start
  {
    var end := start + size;
    var piece := content[start..Min(end, |content|)];
    if end - overlap >= |content| then [piece]
    else [piece] + WindowsFrom(content, size, overlap, end - overlap)
  }

  /** What `SimpleChunker(size, overlap).chunk(content)` returns. */
  function SimpleChunks(content: string, size: int, overlap: int): (r: seq<string>)
    requires SimpleTerminates(|content|, size, overlap)
    ensures |r| >= 1
  {
    if |content| <= size then [content] else WindowsFrom(content, size, overlap, 0)
  }

  /** Where window `i` of a run that begins at `start` begins: `i` steps of `size - overlap` later. */
  function WindowStart(start: int, i: int, size: int, overlap: int): int {
    start + i * (size - overlap)
  }

  lemma WindowStartNext(start: int, i: int, size: int, overlap: int)
    ensures WindowStart(start, i + 1, size, overlap) == WindowStart(start + size - overlap, i, size, overlap)
  {
    assert (i + 1) * (size - overlap) == i * (size - overlap) + (size - overlap);
  }

  /** Window `i` of a run that starts at `start` is the content from `WindowStart` on, `size` characters or to the end. */
  lemma {:induction false} WindowsFromAt(content: string, size: int, overlap: int, start: nat, i: nat)
    requires 0 < size && overlap < size && start < |content|
    requires i < |WindowsFrom(content, size, overlap, start)|
    ensures 0 <= WindowStart(start, i, size, overlap) < |content|
    ensures WindowsFrom(content, size, overlap, start)[i]
            == content[WindowStart(start, i, size, overlap)..Min(WindowStart(start, i, size, overlap) + size, |content|)]
    decreases |content| - start
  {
    var w := WindowsFrom(content, size, overlap, start);
    if i == 0 {
      assert WindowStart(start, 0, size, overlap) == start;
    } else {
      var next := start + size - overlap;
      WindowsFromAt(content, size, overlap, next, i - 1);
      WindowStartNext(start, i - 1, size, overlap);
      assert w[i] == WindowsFrom(content, size, overlap, next)[i - 1];
    }
  }

  /**
   * For long content, chunk `i` is `content[i*(size-overlap) : i*(size-overlap)+size]`:
   * it starts inside the content, so it is non-empty, and is at most `size` long.
   */
  lemma SimpleChunkAt(content: string, size: int, overlap: int, i: nat)
    requires SimpleTerminates(|content|, size, overlap) && |content| > size
    requires i < |SimpleChunks(content, size, overlap)|
    ensures 0 <= WindowStart(0, i, size, overlap) < |content|
    ensures SimpleChunks(content, size, overlap)[i]
            == content[WindowStart(0, i, size, overlap)..Min(WindowStart(0, i, size, overlap) + size, |content|)]
    ensures 1 <= |SimpleChunks(content, size, overlap)[i]| <= size
  {
    WindowsFromAt(content, size, overlap, 0, i);
  }

  /** Short content (including the empty string) comes back as the single chunk [content]. */
  lemma SimpleChunkShort(content: string, size: int, overlap: int)
    requires |content| <= size
    ensures SimpleChunks(content, size, overlap) == [content]
  {
  }

  /** Index `j` lies inside one of the windows `w` of a run that begins at `start`. */
  ghost predicate WindowCovers(w: seq<string>, start: int, size: int, overlap: int, j: int) {
    exists i :: 0 <= i < |w| && WindowStart(start, i, size, overlap) <= j < WindowStart(start, i, size, overlap) + |w[i]|
  }

  /** The first window of a run covers the indices it spans. */
  lemma WindowCoversFirst(w: seq<string>, start: int, size: int, overlap: int, j: int)
    requires |w| >= 1 && start <= j < start + |w[0]|
    ensures WindowCovers(w, start, size, overlap, j)
  {
    assert WindowStart(start, 0, size, overlap) == start;
  }

  /** An index covered by the windows after the first stays covered when the first is put in front. */
  lemma WindowCoversCons(p: string, w: seq<string>, start: int, size: int, overlap: int, j: int)
    requires WindowCovers(w, start + size - overlap, size, overlap, j)
    ensures WindowCovers([p] + w, start, size, overlap, j)
  {
    var i :| 0 <= i < |w| && WindowStart(start + size - overlap, i, size, overlap) <= j
             < WindowStart(start + size - overlap, i, size, overlap) + |w[i]|;
    WindowStartNext(start, i, size, overlap);
    assert ([p] + w)[i + 1] == w[i];
  }

  /** With a non-negative overlap, every character index lies in some window, and the last window ends at the end. */
  lemma {:induction false} WindowsFromCover(content: string, size: int, overlap: int, start: nat)
    requires 0 <= overlap < size && start < |content|
    ensures forall j :: start <= j < |content| ==>
              WindowCovers(WindowsFrom(content, size, overlap, start), start, size, overlap, j)
    ensures var w := WindowsFrom(content, size, overlap, start);
            WindowStart(start, |w| - 1, size, overlap) + |w[|w| - 1]| == |content|
    decreases |content| - start
  {
    var w := WindowsFrom(content, size, overlap, start);
    var next := start + size - overlap;
    WindowsFromAt(content, size, overlap, start, 0);
    if next >= |content| {
      assert WindowStart(start, 0, size, overlap) == start;
      forall j | start <= j < |content| ensures WindowCovers(w, start, size, overlap, j) {
        WindowCoversFirst(w, start, size, overlap, j);
      }
    } else {
      WindowsFromCover(content, size, overlap, next);
      var w' := WindowsFrom(content, size, overlap, next);
      assert w == [w[0]] + w';
      WindowStartNext(start, |w'| - 1, size, overlap);
      forall j | start <= j < |content| ensures WindowCovers(w, start, size, overlap, j) {
        if j < start + size {
          WindowCoversFirst(w, start, size, overlap, j);
        } else {
          WindowCoversCons(w[0], w', start, size, overlap, j);
        }
      }
    }
  }

  /**
   * With `0 <= overlap < size`, the chunks cover the content: every character
   * index lies in some chunk, and the last chunk ends at `len(content)`.
   */
  lemma SimpleChunksCover(content: string, size: int, overlap: int)
    requires 0 <= overlap < size
    ensures var r := SimpleChunks(content, size, overlap);
            forall j :: 0 <= j < |content| ==> WindowCovers(r, 0, size, overlap, j)
    ensures var r := SimpleChunks(content, size, overlap);
            WindowStart(0, |r| - 1, size, overlap) + |r[|r| - 1]| == |content|
  {
    var r := SimpleChunks(content, size, overlap);
    if |content| <= size {
      assert WindowStart(0, 0, size, overlap) == 0;
      forall j | 0 <= j < |content| ensures WindowCovers(r, 0, size, overlap, j) {
        assert WindowStart(0, 0, size, overlap) <= j < WindowStart(0, 0, size, overlap) + |r[0]|;
      }
    } else {
      WindowsFromCover(content, size, overlap, 0);
    }
  }

  /** Length 10, size 6, overlap 2 gives three chunks; the third lies wholly inside the second. */
  lemma SimpleChunksTrailingContained()
    ensures SimpleChunks("abcdefghij", 6, 2) == ["abcdef", "efghij", "ij"]
  {
    var c := "abcdefghij";
    assert c[8..10] == "ij";
    assert c[4..10] == "efghij";
    assert c[0..6] == "abcdef";
    assert WindowsFrom(c, 6, 2, 8) == ["ij"];
    assert WindowsFrom(c, 6, 2, 4) == ["efghij", "ij"];
    assert WindowsFrom(c, 6, 2, 0) == ["abcdef", "efghij", "ij"];
  }

  lemma ConcatAssoc<T>(a: seq<T>, b: seq<T>, c: seq<T>)
    ensures (a + b) + c == a + (b + c)
  {
  }

  /** `SimpleChunker.chunk`: the Python loop, with its `break` once the next start passes the end. */
  method SimpleChunk(content: string, size: int, overlap: int) returns (chunks: seq<string>)
    requires SimpleTerminates(|content|, size, overlap)
    ensures chunks == SimpleChunks(content, size, overlap)
  {
    if |content| <= size {
      return [content];
    }
    chunks := [];
    var start: int := 0;
    while start < |content|
      invariant 0 <= start < |content|
      invariant chunks + WindowsFrom(content, size, overlap, start) == WindowsFrom(content, size, overlap, 0)
      decreases |content| - start
    {
      ghost var before := chunks;
      ghost var rest := WindowsFrom(content, size, overlap, start);
      var end := start + size;
      var chunk := content[start..Min(end, |content|)];
      chunks := chunks + [chunk];
      start := end - overlap;
      if start >= |content| {
        assert rest == [chunk];
        break;
      }
      assert rest == [chunk] + WindowsFrom(content, size, overlap, start);
      ConcatAssoc(before, [chunk], WindowsFrom(content, size, overlap, start));
    }
  }

  // ===========================================================================
  // SemanticChunker: sentences accumulated up to a character budget

  /**
   * The sentences of `content`: ".\n" becomes ". ", any other newline a space;
   * the text is split on ". "; each piece is stripped, blank pieces are dropped
   * and a "." is put back.
   */
  function Sentences(content: string): seq<string> {
    NonBlankSentences(StripAll(Split(Replace(Replace(content, ".\n", ". "), "\n", " "), ". ")))
  }

  /** Each piece stripped. */
  function StripAll(pieces: seq<string>): (r: seq<string>)
    ensures |r| == |pieces| && forall k :: 0 <= k < |r| ==> r[k] == Strip(pieces[k])
  {
    seq(|pieces|, k requires 0 <= k < |pieces| => Strip(pieces[k]))
  }

  /** The stripped pieces that are not blank, each with its "." put back. */
  function NonBlankSentences(stripped: seq<string>): (r: seq<string>)
    ensures |r| <= |stripped|
  {
    if stripped == [] then []
    else if stripped[0] == [] then NonBlankSentences(stripped[1..])
    else [stripped[0] + "."] + NonBlankSentences(stripped[1..])
  }

  /** A sentence as the splitter yields it: non-blank text starting with a non-space, then a final ".". */
  predicate WellFormedSentence(s: string) {
    |s| >= 2 && s[|s| - 1] == '.' && !IsSpace(s[0])
  }

  /** The characters of `s.strip()` are characters of `s`. */
  lemma StripChars(s: string, c: char)
    requires c !in s
    ensures c !in Strip(s)
  {
    var l := TrimLeft(s);
    var t := TrimRight(l);
    forall k | 0 <= k < |t| ensures t[k] != c {
      assert t[k] == l[k];
      assert l[k] == s[|s| - |l| + k];
    }
  }

  lemma {:induction false} NonBlankShape(stripped: seq<string>)
    requires forall k :: 0 <= k < |stripped| ==> stripped[k] == [] || !IsSpace(stripped[k][0])
    ensures forall k :: 0 <= k < |NonBlankSentences(stripped)| ==> WellFormedSentence(NonBlankSentences(stripped)[k])
  {
    if stripped != [] {
      var rest := NonBlankSentences(stripped[1..]);
      NonBlankShape(stripped[1..]);
      var r := NonBlankSentences(stripped);
      var t := stripped[0];
      if t != [] {
        assert r == [t + "."] + rest;
        assert r[0][0] == t[0];
        forall k | 1 <= k < |r| ensures WellFormedSentence(r[k]) {
          assert r[k] == rest[k - 1];
        }
      }
    }
  }

  lemma {:induction false} NonBlankNoNewline(stripped: seq<string>)
    requires forall k :: 0 <= k < |stripped| ==> '\n' !in stripped[k]
    ensures forall k :: 0 <= k < |NonBlankSentences(stripped)| ==> '\n' !in NonBlankSentences(stripped)[k]
  {
    if stripped != [] {
      var rest := NonBlankSentences(stripped[1..]);
      NonBlankNoNewline(stripped[1..]);
      var r := NonBlankSentences(stripped);
      var t := stripped[0];
      if t != [] {
        assert r == [t + "."] + rest;
        forall k | 0 <= k < |r| ensures '\n' !in r[k] {
          if k > 0 {
            assert r[k] == rest[k - 1];
          }
        }
      }
    }
  }

  /**
   * Every sentence is at least one non-blank character followed by ".", starts
   * with a non-whitespace character and contains no newline.
   */
  lemma SentencesShape(content: string)
    ensures forall k :: 0 <= k < |Sentences(content)| ==>
              WellFormedSentence(Sentences(content)[k]) && '\n' !in Sentences(content)[k]
  {
    var once := Replace(content, ".\n", ". ");
    var text := Replace(once, "\n", " ");
    ReplaceRemovesChar(once, '\n', " ");
    var pieces := Split(text, ". ");
    SplitFromChars(text, ". ", [], '\n');
    var stripped := StripAll(pieces);
    forall k | 0 <= k < |stripped| ensures '\n' !in stripped[k] {
      StripChars(pieces[k], '\n');
    }
    NonBlankShape(stripped);
    NonBlankNoNewline(stripped);
  }

  /** The summed length of some sentences; the joining spaces are not counted. */
  function SumLengths(ss: seq<string>): nat {
    if ss == [] then 0 else SumLengths(ss[..|ss| - 1]) + |ss[|ss| - 1]|
  }

  lemma SumLengthsSingle(s: string)
    ensures SumLengths([s]) == |s|
  {
    assert [s][..0] == [];
  }

  lemma {:induction false} SumLengthsAppend(a: seq<string>, b: seq<string>)
    ensures SumLengths(a + b) == SumLengths(a) + SumLengths(b)
    decreases |b|
  {
    if b == [] {
      assert a + b == a;
    } else {
      assert (a + b)[..|a + b| - 1] == a + b[..|b| - 1];
      assert (a + b)[|a + b| - 1] == b[|b| - 1];
      SumLengthsAppend(a, b[..|b| - 1]);
    }
  }

  /** The summed length of the last `k` sentences of `ss`. */
  function SuffixSum(ss: seq<string>, k: nat): nat
    requires k <= |ss|
  {
    SumLengths(ss[|ss| - k..])
  }

  lemma SuffixSumStep(ss: seq<string>, k: nat)
    requires 1 <= k <= |ss|
    ensures SuffixSum(ss, k) == SuffixSum(ss[..|ss| - 1], k - 1) + |ss[|ss| - 1]|
  {
    var suf := ss[|ss| - k..];
    assert suf[..|suf| - 1] == ss[..|ss| - 1][|ss| - k..];
    assert suf[|suf| - 1] == ss[|ss| - 1];
  }

  /**
   * The sentences carried over when a chunk closes: walking the closed chunk
   * from its end, sentences are kept while their summed length stays within the
   * budget, and the walk stops at the first one that does not fit.
   */
  function OverlapSeed(current: seq<string>, budget: int): seq<string>
  {
    if current == [] then []
    else
      var last := current[|current| - 1];
      if |last| <= budget then OverlapSeed(current[..|current| - 1], budget - |last|) + [last]
      else []
  }

  /** The seed is a suffix of the closed chunk. */
  lemma {:induction false} OverlapSeedSuffix(current: seq<string>, budget: int)
    ensures var r := OverlapSeed(current, budget);
            |r| <= |current| && r == current[|current| - |r|..]
  {
    if current != [] {
      var n := |current|;
      var last := current[n - 1];
      if |last| <= budget {
        var init := current[..n - 1];
        OverlapSeedSuffix(init, budget - |last|);
        var r' := OverlapSeed(init, budget - |last|);
        var m := |r'|;
        assert r' == init[n - 1 - m..];
        assert forall t :: 0 <= t < m ==> r'[t] == current[n - 1 - m + t];
        assert OverlapSeed(current, budget) == r' + [last];
      }
    }
  }

  /** The seed fits in the budget (an empty seed trivially). */
  lemma {:induction false} OverlapSeedFits(current: seq<string>, budget: int)
    ensures OverlapSeed(current, budget) == [] || SumLengths(OverlapSeed(current, budget)) <= budget
  {
    if current != [] {
      var last := current[|current| - 1];
      if |last| <= budget {
        var init := current[..|current| - 1];
        OverlapSeedFits(init, budget - |last|);
        SumLengthsAppend(OverlapSeed(init, budget - |last|), [last]);
        SumLengthsSingle(last);
      }
    }
  }

  /** The seed is the longest fitting suffix: every longer suffix of the closed chunk exceeds the budget. */
  lemma {:induction false} OverlapSeedMaximal(current: seq<string>, budget: int)
    ensures forall k :: |OverlapSeed(current, budget)| < k <= |current| ==> SuffixSum(current, k) > budget
  {
    if current != [] {
      var n := |current|;
      var last := current[n - 1];
      var init := current[..n - 1];
      if |last| <= budget {
        OverlapSeedMaximal(init, budget - |last|);
      }
      forall k | |OverlapSeed(current, budget)| < k <= n ensures SuffixSum(current, k) > budget {
        SuffixSumStep(current, k);
      }
    }
  }

  /** The loop state of `SemanticChunker.chunk`: closed chunks, open sentences and their summed length. */
  datatype Accumulator = Accumulator(chunks: seq<string>, current: seq<string>, currentSize: int)

  /**
   * One sentence: the open chunk is closed exactly when it is non-empty and the
   * sentence would push the summed sentence lengths over `chunkSize`; the next
   * chunk is then seeded with the overlap suffix.
   */
  function Step(acc: Accumulator, sentence: string, chunkSize: int, overlap: int): (r: Accumulator)
    ensures r.chunks == acc.chunks || r.chunks == acc.chunks + [Join(acc.current, " ")]
    ensures |r.chunks| == |acc.chunks| + 1 <==> acc.current != [] && acc.currentSize + |sentence| > chunkSize
    ensures r.current != [] && r.current[|r.current| - 1] == sentence
  {
    if acc.currentSize + |sentence| > chunkSize && acc.current != [] then
      var seed := OverlapSeed(acc.current, overlap);
      Accumulator(acc.chunks + [Join(acc.current, " ")], seed + [sentence], SumLengths(seed) + |sentence|)
    else
      Accumulator(acc.chunks, acc.current + [sentence], acc.currentSize + |sentence|)
  }

  /** The loop state after the sentences `ss`. */
  function Run(ss: seq<string>, chunkSize: int, overlap: int): Accumulator {
    if ss == [] then Accumulator([], [], 0)
    else Step(Run(ss[..|ss| - 1], chunkSize, overlap), ss[|ss| - 1], chunkSize, overlap)
  }

  /** What `SemanticChunker(chunkSize, overlap).chunk(content)` returns: never an empty list. */
  function SemanticChunks(content: string, chunkSize: int, overlap: int): (r: seq<string>)
    ensures |r| >= 1
  {
    Finish(Run(Sentences(content), chunkSize, overlap), content)
  }

  /** The end of the loop: the open chunk is closed if non-empty; no chunk at all falls back to [content]. */
  function Finish(acc: Accumulator, content: string): (r: seq<string>)
    ensures |r| >= 1
  {
    var chunks := if acc.current != [] then acc.chunks + [Join(acc.current, " ")] else acc.chunks;
    if chunks != [] then chunks else [content]
  }

  /**
   * The running size is the summed length of the open sentences, so a chunk is
   * closed only when its sentences plus the next one exceed `chunkSize`.
   */
  lemma {:induction false} RunSize(ss: seq<string>, chunkSize: int, overlap: int)
    ensures Run(ss, chunkSize, overlap).currentSize == SumLengths(Run(ss, chunkSize, overlap).current)
  {
    if ss != [] {
      var prev := Run(ss[..|ss| - 1], chunkSize, overlap);
      RunSize(ss[..|ss| - 1], chunkSize, overlap);
      var s := ss[|ss| - 1];
      SumLengthsSingle(s);
      if prev.currentSize + |s| > chunkSize && prev.current != [] {
        SumLengthsAppend(OverlapSeed(prev.current, overlap), [s]);
      } else {
        SumLengthsAppend(prev.current, [s]);
      }
    }
  }

  /** `chunk` is a run of consecutive sentences of `ss` joined by single spaces. */
  ghost predicate IsSentenceRun(ss: seq<string>, chunk: string) {
    exists a, b :: 0 <= a < b <= |ss| && chunk == Join(ss[a..b], " ")
  }

  ghost predicate AllRuns(ss: seq<string>, chunks: seq<string>) {
    forall c :: 0 <= c < |chunks| ==> IsSentenceRun(ss, chunks[c])
  }

  /** Sentence `j` of `ss` is inside a chunk that is a run of sentences around it. */
  ghost predicate SentenceCovered(ss: seq<string>, chunks: seq<string>, j: int) {
    exists c, a, b :: 0 <= c < |chunks| && 0 <= a <= j < b <= |ss| && chunks[c] == Join(ss[a..b], " ")
  }

  ghost predicate CoveredBelow(ss: seq<string>, chunks: seq<string>, n: int) {
    forall j :: 0 <= j < n ==> SentenceCovered(ss, chunks, j)
  }

  /** Closing the run `ss[lo..hi]` as a new chunk extends the covered prefix from `lo` to `hi`. */
  lemma CloseRun(ss: seq<string>, chunks: seq<string>, lo: int, hi: int)
    requires 0 <= lo < hi <= |ss|
    requires AllRuns(ss, chunks) && CoveredBelow(ss, chunks, lo)
    ensures AllRuns(ss, chunks + [Join(ss[lo..hi], " ")])
    ensures CoveredBelow(ss, chunks + [Join(ss[lo..hi], " ")], hi)
  {
    var chunks' := chunks + [Join(ss[lo..hi], " ")];
    forall c | 0 <= c < |chunks'| ensures IsSentenceRun(ss, chunks'[c]) {
      if c < |chunks| {
        assert chunks'[c] == chunks[c];
      } else {
        assert chunks'[c] == Join(ss[lo..hi], " ");
      }
    }
    forall j | 0 <= j < hi ensures SentenceCovered(ss, chunks', j) {
      if j < lo {
        assert SentenceCovered(ss, chunks, j);
        var c, a, b :| 0 <= c < |chunks| && 0 <= a <= j < b <= |ss| && chunks[c] == Join(ss[a..b], " ");
        assert chunks'[c] == chunks[c];
      } else {
        assert chunks'[|chunks|] == Join(ss[lo..hi], " ");
      }
    }
  }

  /** `Run` over a prefix: the state after `i` sentences is one `Step` from the state after `i - 1`. */
  lemma RunPrefix(ss: seq<string>, i: nat, chunkSize: int, overlap: int)
    requires 0 < i <= |ss|
    ensures Run(ss[..i], chunkSize, overlap) == Step(Run(ss[..i - 1], chunkSize, overlap), ss[i - 1], chunkSize, overlap)
  {
    assert ss[..i][..i - 1] == ss[..i - 1];
  }

  lemma SliceSuffix(ss: seq<string>, a: int, b: int, k: int)
    requires 0 <= a <= b <= |ss| && 0 <= k <= b - a
    ensures ss[a..b][k..] == ss[a + k..b]
  {
    assert forall t :: 0 <= t < b - a - k ==> ss[a..b][k..][t] == ss[a + k + t];
  }

  lemma SliceExtend(ss: seq<string>, a: int, b: int)
    requires 0 <= a <= b < |ss|
    ensures ss[a..b] + [ss[b]] == ss[a..b + 1]
  {
    assert forall t :: 0 <= t < b - a ==> (ss[a..b] + [ss[b]])[t] == ss[a + t];
  }

  /** Closing a chunk keeps the open chunk (the seed plus the new sentence) a suffix of the sentences read. */
  lemma CloseCurrentSuffix(pc: seq<string>, ss: seq<string>, i: nat, overlap: int)
    requires 0 < i <= |ss|
    requires |pc| <= i - 1 && pc == ss[i - 1 - |pc|..i - 1]
    ensures var next := OverlapSeed(pc, overlap) + [ss[i - 1]];
            |next| <= i && next == ss[i - |next|..i]
  {
    var seed := OverlapSeed(pc, overlap);
    OverlapSeedSuffix(pc, overlap);
    SliceSuffix(ss, i - 1 - |pc|, i - 1, |pc| - |seed|);
    SliceExtend(ss, i - 1 - |seed|, i - 1);
  }

  /** One step keeps the open chunk a suffix of the sentences read so far. */
  lemma StepCurrentSuffix(prev: Accumulator, ss: seq<string>, i: nat, chunkSize: int, overlap: int)
    requires 0 < i <= |ss|
    requires |prev.current| <= i - 1 && prev.current == ss[i - 1 - |prev.current|..i - 1]
    ensures var acc := Step(prev, ss[i - 1], chunkSize, overlap);
            |acc.current| <= i && acc.current == ss[i - |acc.current|..i]
  {
    var acc := Step(prev, ss[i - 1], chunkSize, overlap);
    if prev.currentSize + |ss[i - 1]| > chunkSize && prev.current != [] {
      assert acc.current == OverlapSeed(prev.current, overlap) + [ss[i - 1]];
      CloseCurrentSuffix(prev.current, ss, i, overlap);
    } else {
      assert acc.current == prev.current + [ss[i - 1]];
      SliceExtend(ss, i - 1 - |prev.current|, i - 1);
    }
  }

  /** After the first `i` sentences the open chunk is the last sentences read, and is empty only before the first. */
  lemma {:induction false} RunCurrentSuffix(ss: seq<string>, i: nat, chunkSize: int, overlap: int)
    requires i <= |ss|
    ensures var acc := Run(ss[..i], chunkSize, overlap);
            |acc.current| <= i && acc.current == ss[i - |acc.current|..i]
    ensures i > 0 ==> Run(ss[..i], chunkSize, overlap).current != []
  {
    if i > 0 {
      RunCurrentSuffix(ss, i - 1, chunkSize, overlap);
      RunPrefix(ss, i, chunkSize, overlap);
      StepCurrentSuffix(Run(ss[..i - 1], chunkSize, overlap), ss, i, chunkSize, overlap);
    }
  }

  /**
   * The loop state after the first `i` sentences of `ss`: the open chunk is the
   * last sentences read, every closed chunk is a run of sentences, and every
   * sentence before the open chunk is inside some closed chunk.
   */
  ghost predicate WindowsInvariant(ss: seq<string>, i: int, acc: Accumulator) {
    && 0 <= i <= |ss|
    && |acc.current| <= i && acc.current == ss[i - |acc.current|..i]
    && AllRuns(ss, acc.chunks)
    && CoveredBelow(ss, acc.chunks, i - |acc.current|)
  }

  /** One step keeps the invariant. */
  lemma StepWindows(prev: Accumulator, ss: seq<string>, i: nat, chunkSize: int, overlap: int)
    requires 0 < i <= |ss| && WindowsInvariant(ss, i - 1, prev)
    ensures WindowsInvariant(ss, i, Step(prev, ss[i - 1], chunkSize, overlap))
  {
    var acc := Step(prev, ss[i - 1], chunkSize, overlap);
    StepCurrentSuffix(prev, ss, i, chunkSize, overlap);
    var lo := i - 1 - |prev.current|;
    if prev.currentSize + |ss[i - 1]| > chunkSize && prev.current != [] {
      CloseRun(ss, prev.chunks, lo, i - 1);
      assert acc.chunks == prev.chunks + [Join(ss[lo..i - 1], " ")];
    }
  }

  lemma {:induction false} RunWindows(ss: seq<string>, i: nat, chunkSize: int, overlap: int)
    requires i <= |ss|
    ensures WindowsInvariant(ss, i, Run(ss[..i], chunkSize, overlap))
  {
    if i > 0 {
      var prev := Run(ss[..i - 1], chunkSize, overlap);
      RunWindows(ss, i - 1, chunkSize, overlap);
      StepWindows(prev, ss, i, chunkSize, overlap);
      RunPrefix(ss, i, chunkSize, overlap);
    }
  }

  /**
   * The semantic chunks cover the sentences: with no sentence the result is
   * [content]; otherwise every chunk is a run of consecutive sentences joined by
   * spaces, and every sentence lies inside some chunk.
   */
  lemma SemanticChunksCover(content: string, chunkSize: int, overlap: int)
    ensures Sentences(content) == [] ==> SemanticChunks(content, chunkSize, overlap) == [content]
    ensures Sentences(content) != [] ==> AllRuns(Sentences(content), SemanticChunks(content, chunkSize, overlap))
    ensures CoveredBelow(Sentences(content), SemanticChunks(content, chunkSize, overlap), |Sentences(content)|)
  {
    FinishCover(Sentences(content), content, chunkSize, overlap);
  }

  /** `SemanticChunksCover` for any list of sentences. */
  lemma FinishCover(ss: seq<string>, content: string, chunkSize: int, overlap: int)
    ensures ss == [] ==> Finish(Run(ss, chunkSize, overlap), content) == [content]
    ensures ss != [] ==> AllRuns(ss, Finish(Run(ss, chunkSize, overlap), content))
    ensures CoveredBelow(ss, Finish(Run(ss, chunkSize, overlap), content), |ss|)
  {
    if ss != [] {
      RunWindows(ss, |ss|, chunkSize, overlap);
      RunCurrentSuffix(ss, |ss|, chunkSize, overlap);
      assert ss[..|ss|] == ss;
      var acc := Run(ss, chunkSize, overlap);
      CloseRun(ss, acc.chunks, |ss| - |acc.current|, |ss|);
    } else {
      assert Run(ss, chunkSize, overlap) == Accumulator([], [], 0);
    }
  }

  /**
   * The inner loop of `SemanticChunker.chunk`: walks the closed chunk backwards,
   * keeping sentences while they fit in `overlap`, and stops at the first that does not.
   */
  method CarryOver(currentChunk: seq<string>, overlap: int) returns (overlapSentences: seq<string>, overlapSize: int)
    ensures overlapSentences == OverlapSeed(currentChunk, overlap)
    ensures overlapSize == SumLengths(overlapSentences)
  {
    overlapSentences := [];
    overlapSize := 0;
    var k := |currentChunk|;
    assert currentChunk[..k] == currentChunk && currentChunk[k..] == [];
    while k > 0
      invariant 0 <= k <= |currentChunk|
      invariant overlapSentences == currentChunk[k..]
      invariant overlapSize == SumLengths(currentChunk[k..])
      invariant OverlapSeed(currentChunk, overlap)
                == OverlapSeed(currentChunk[..k], overlap - overlapSize) + overlapSentences
    {
      var s := currentChunk[k - 1];
      if overlapSize + |s| <= overlap {
        assert currentChunk[..k][..k - 1] == currentChunk[..k - 1];
        assert currentChunk[k - 1..] == [s] + currentChunk[k..];
        SumLengthsAppend([s], currentChunk[k..]);
        SumLengthsSingle(s);
        overlapSentences := [s] + overlapSentences;
        overlapSize := overlapSize + |s|;
        k := k - 1;
      } else {
        break;
      }
    }
  }

  /** The sentence loop of `SemanticChunker.chunk`: a chunk closes when the next sentence would overflow it. */
  method Accumulate(sentences: seq<string>, chunkSize: int, overlap: int) returns (acc: Accumulator)
    ensures acc == Run(sentences, chunkSize, overlap)
  {
    var chunks: seq<string> := [];
    var currentChunk: seq<string> := [];
    var currentSize := 0;
    for i := 0 to |sentences|
      invariant Run(sentences[..i], chunkSize, overlap) == Accumulator(chunks, currentChunk, currentSize)
    {
      RunPrefix(sentences, i + 1, chunkSize, overlap);
      var sentence := sentences[i];
      var sentenceSize := |sentence|;
      if currentSize + sentenceSize > chunkSize && currentChunk != [] {
        chunks := chunks + [Join(currentChunk, " ")];
        currentChunk, currentSize := CarryOver(currentChunk, overlap);
      }
      currentChunk := currentChunk + [sentence];
      currentSize := currentSize + sentenceSize;
    }
    assert sentences[..|sentences|] == sentences;
    acc := Accumulator(chunks, currentChunk, currentSize);
  }

  /** `SemanticChunker.chunk`: split into sentences, accumulate, close the last chunk. */
  method SemanticChunk(content: string, chunkSize: int, overlap: int) returns (result: seq<string>)
    ensures result == SemanticChunks(content, chunkSize, overlap)
  {
    var sentences := Sentences(content);
    var acc := Accumulate(sentences, chunkSize, overlap);
    var chunks := acc.chunks;
    if acc.current != [] {
      chunks := chunks + [Join(acc.current, " ")];
    }
    result := if chunks != [] then chunks else [content];
  }

  // ===========================================================================
  // Chunker transforms: one new record per chunk

  /** The id of chunk `idx` of the record `parentId`: `f"{parent}_chunk_{idx}"`. */
  function ChunkId(parentId: string, idx: nat): string {
    parentId + "_chunk_" + NatToString(idx)
  }

  /** Different chunk indices give different ids, so the chunks of one record never collide. */
  lemma ChunkIdInjective(parentId: string, i: nat, j: nat)
    requires ChunkId(parentId, i) == ChunkId(parentId, j)
    ensures i == j
  {
    var p := parentId + "_chunk_";
    assert ChunkId(parentId, i)[|p|..] == NatToString(i);
    assert ChunkId(parentId, j)[|p|..] == NatToString(j);
    NatToStringInjective(i, j);
  }

  /** The two chunker transforms; each carries its chunk size and overlap. */
  datatype ChunkerTransform =
    | SimpleChunkerTransform(chunkSize: int, overlap: int)
    | SemanticChunkerTransform(chunkSize: int, overlap: int)
  {
    /** The stage name appended to `transform_chain`. */
    function Name(): (n: string)
      ensures n == "simple_chunk" || n == "semantic_chunk"
      ensures n == "semantic_chunk" <==> SemanticChunkerTransform?
    {
      if SimpleChunkerTransform? then "simple_chunk" else "semantic_chunk"
    }

    /** This transform's chunker terminates on `content`. */
    predicate Accepts(content: string) {
      SemanticChunkerTransform? || SimpleTerminates(|content|, chunkSize, overlap)
    }

    function Chunks(content: string): (r: seq<string>)
      requires Accepts(content)
      ensures |r| >= 1
    {
      if SimpleChunkerTransform? then SimpleChunks(content, chunkSize, overlap)
      else SemanticChunks(content, chunkSize, overlap)
    }
  }

  /** The record a chunker transform yields for chunk `idx` of `ln`. */
  function ChunkNode(ln: LineageNode, chunks: seq<string>, idx: nat, stage: string,
                     hash: string -> string, now: Timestamp): LineageNode
    requires idx < |chunks|
  {
    LineageNode(
      lnId := ChunkId(ln.lnId, idx),
      content := chunks[idx],
      source := ln.source,
      datasetVersion := ln.datasetVersion,
      transformChain := ln.transformChain + [stage],
      contentHash := hash(chunks[idx]),
      createdAt := now,
      updatedAt := None,
      metadata := ln.metadata["chunk_index" := MInt(idx)]["total_chunks" := MInt(|chunks|)])
  }

  /** One record per chunk, in order. */
  function ChunkNodes(ln: LineageNode, chunks: seq<string>, stage: string, hash: string -> string, now: Timestamp)
    : (r: seq<LineageNode>)
    ensures |r| == |chunks|
    ensures forall i :: 0 <= i < |r| ==> r[i] == ChunkNode(ln, chunks, i, stage, hash, now)
  {
    seq(|chunks|, i requires 0 <= i < |chunks| => ChunkNode(ln, chunks, i, stage, hash, now))
  }

  /** The records a chunker transform yields for `ln`: one per chunk, in order. */
  function ChunkTransformOutput(t: ChunkerTransform, ln: LineageNode, hash: string -> string, now: Timestamp)
    : (r: seq<LineageNode>)
    requires t.Accepts(ln.content)
    ensures |r| == |t.Chunks(ln.content)| >= 1
  {
    ChunkNodes(ln, t.Chunks(ln.content), t.Name(), hash, now)
  }

  /**
   * Output `i` of a chunker transform has id "<parent>_chunk_<i>", the chunk as
   * content and its hash, the parent's source and dataset version, the parent's
   * chain plus the stage name, and the parent's metadata plus `chunk_index` and
   * `total_chunks`.
   */
  lemma ChunkTransformRecords(t: ChunkerTransform, ln: LineageNode, hash: string -> string, now: Timestamp)
    requires t.Accepts(ln.content)
    ensures var r := ChunkTransformOutput(t, ln, hash, now);
            forall i :: 0 <= i < |r| ==>
              && r[i].lnId == ChunkId(ln.lnId, i)
              && r[i].content == t.Chunks(ln.content)[i]
              && r[i].contentHash == hash(r[i].content)
              && r[i].source == ln.source && r[i].datasetVersion == ln.datasetVersion
              && r[i].transformChain == ln.transformChain + [t.Name()]
              && r[i].metadata == ln.metadata["chunk_index" := MInt(i)]["total_chunks" := MInt(|r|)]
  {
  }

  /** No two outputs of a chunker transform share an id. */
  lemma ChunkTransformIdsDistinct(t: ChunkerTransform, ln: LineageNode, hash: string -> string, now: Timestamp)
    requires t.Accepts(ln.content)
    ensures var r := ChunkTransformOutput(t, ln, hash, now);
            forall i, j :: 0 <= i < j < |r| ==> r[i].lnId != r[j].lnId
  {
    var r := ChunkTransformOutput(t, ln, hash, now);
    forall i, j | 0 <= i < j < |r| ensures r[i].lnId != r[j].lnId {
      assert r[i].lnId == ChunkId(ln.lnId, i) && r[j].lnId == ChunkId(ln.lnId, j);
      if r[i].lnId == r[j].lnId {
        ChunkIdInjective(ln.lnId, i, j);
      }
    }
  }

  /** The loop of `transform`: one record per chunk, enumerated in order. */
  method ChunkRecords(ln: LineageNode, chunks: seq<string>, stage: string, hash: string -> string, now: Timestamp)
    returns (out: seq<LineageNode>)
    ensures out == ChunkNodes(ln, chunks, stage, hash, now)
  {
    out := [];
    for idx := 0 to |chunks|
      invariant |out| == idx
      invariant forall i :: 0 <= i < idx ==> out[i] == ChunkNode(ln, chunks, i, stage, hash, now)
    {
      out := out + [ChunkNode(ln, chunks, idx, stage, hash, now)];
    }
  }

  /** `transform` of a chunker transform: chunk the content with the chunker's loop, then map each chunk to a record. */
  method ApplyChunker(t: ChunkerTransform, ln: LineageNode, hash: string -> string, now: Timestamp)
    returns (out: seq<LineageNode>)
    requires t.Accepts(ln.content)
    ensures out == ChunkTransformOutput(t, ln, hash, now)
  {
    var chunks;
    if t.SimpleChunkerTransform? {
      chunks := SimpleChunk(ln.content, t.chunkSize, t.overlap);
    } else {
      chunks := SemanticChunk(ln.content, t.chunkSize, t.overlap);
    }
    out := ChunkRecords(ln, chunks, t.Name(), hash, now);
  }
}
