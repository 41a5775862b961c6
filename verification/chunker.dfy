/** The greedy line chunker shared by document ingestion and the document phase of the
    sync pass (cli/python/memory_store.py `ingest_file`, cli/python/memory_sync.py
    `sync_memory_files`).

    The source keeps a string accumulator: each line, followed by a line feed, is added
    to it unless the accumulator's length plus the line's length would exceed the chunk
    size, in which case the accumulator is flushed (stripped, and kept only when
    something remains) and restarted with that line. The model keeps the accumulator as
    the GROUP of lines it was built from, so a run of the chunker is a segmentation of
    the input lines into groups, and a chunk is the stripped text of a group. */
module Chunker {
  import opened Strings

  /** `content.split("\n")`. */
  function Lines(content: string): seq<string> {
    Split(content, '\n')
  }

  /** The accumulator text built from a group of lines: each line followed by a line feed. */
  function Accumulation(g: seq<string>): (r: string)
  {
    if |g| == 0 then [] else Accumulation(g[..|g| - 1]) + (g[|g| - 1] + "\n")
  }

  /** The lines of a sequence of groups, in order. */
  function Flatten(gs: seq<seq<string>>): seq<string> {
    if |gs| == 0 then [] else Flatten(gs[..|gs| - 1]) + gs[|gs| - 1]
  }

  /** The accumulator texts of a sequence of groups, concatenated. */
  function ConcatAccumulations(gs: seq<seq<string>>): string {
    if |gs| == 0 then [] else ConcatAccumulations(gs[..|gs| - 1]) + Accumulation(gs[|gs| - 1])
  }

  /** The chunker's state: the groups flushed so far and the group being accumulated. */
  datatype Accumulator = Accumulator(flushed: seq<seq<string>>, current: seq<string>)

  /** One loop iteration of the chunker. */
  function Step(a: Accumulator, line: string, chunkSize: int): Accumulator {
    if |Accumulation(a.current)| + |line| > chunkSize then
      Accumulator(a.flushed + [a.current], [line])
    else
      Accumulator(a.flushed, a.current + [line])
  }

  /** The chunker's state after the whole of `lines`. */
  function Run(lines: seq<string>, chunkSize: int): Accumulator {
    if |lines| == 0 then Accumulator([], [])
    else Step(Run(lines[..|lines| - 1], chunkSize), lines[|lines| - 1], chunkSize)
  }

  /** Every accumulator the chunker flushes, the final one included. */
  function Groups(lines: seq<string>, chunkSize: int): seq<seq<string>> {
    var a := Run(lines, chunkSize);
    a.flushed + [a.current]
  }

  /** The flush step applied to each group: strip it and keep it when something is left. */
  function Emit(gs: seq<seq<string>>): (r: seq<string>)
    ensures |r| <= |gs|
  {
    if |gs| == 0 then []
    else
      var c := Strip(Accumulation(gs[|gs| - 1]));
      if c == [] then Emit(gs[..|gs| - 1]) else Emit(gs[..|gs| - 1]) + [c]
  }

  /** Every emitted chunk is non-empty and stripped. */
  lemma {:induction false} EmitShape(gs: seq<seq<string>>)
    ensures forall i :: 0 <= i < |Emit(gs)| ==> Emit(gs)[i] != [] && IsStripped(Emit(gs)[i])
  {
    if |gs| > 0 {
      EmitShape(gs[..|gs| - 1]);
    }
  }

  /** Each emitted chunk is the stripped accumulator of one of the groups. */
  lemma {:induction false} EmitOrigin(gs: seq<seq<string>>, c: string)
    requires c in Emit(gs)
    ensures exists i :: 0 <= i < |gs| && c == Strip(Accumulation(gs[i]))
  {
    var front := gs[..|gs| - 1];
    if c in Emit(front) {
      EmitOrigin(front, c);
      var i :| 0 <= i < |front| && c == Strip(Accumulation(front[i]));
      assert front[i] == gs[i];
    }
  }

  /** The chunks the source produces for `lines`, short ones included. */
  function Chunks(lines: seq<string>, chunkSize: int): seq<string> {
    Emit(Groups(lines, chunkSize))
  }

  /** Line `k` of group `g` was added without a flush: it fit beside the lines before it. */
  ghost predicate FitsAt(g: seq<string>, k: int, chunkSize: int)
    requires 0 <= k < |g|
  {
    |Accumulation(g[..k])| + |g[k]| <= chunkSize
  }

  /** Group `g` was accumulated without a flush: each line after the first fit. */
  ghost predicate Fits(g: seq<string>, chunkSize: int) {
    forall k :: 1 <= k < |g| ==> FitsAt(g, k, chunkSize)
  }

  ghost predicate GroupFits(gs: seq<seq<string>>, i: int, chunkSize: int)
    requires 0 <= i < |gs|
  {
    Fits(gs[i], chunkSize)
  }

  ghost predicate AllFit(gs: seq<seq<string>>, chunkSize: int) {
    forall i :: 0 <= i < |gs| ==> GroupFits(gs, i, chunkSize)
  }

  /** Group `i - 1` was flushed because the first line of group `i` did not fit. */
  ghost predicate OverflowAt(gs: seq<seq<string>>, i: int, chunkSize: int)
    requires 1 <= i < |gs|
  {
    gs[i] != [] && |Accumulation(gs[i - 1])| + |gs[i][0]| > chunkSize
  }

  /** Every flush was forced by a line that did not fit, so only the first group may be empty. */
  ghost predicate FlushedOnOverflow(gs: seq<seq<string>>, chunkSize: int) {
    forall i :: 1 <= i < |gs| ==> OverflowAt(gs, i, chunkSize)
  }

  /** An independent description of what the chunker computes: a segmentation of the
      lines into groups, where only the first group may be empty (when the very first
      line alone is over the limit), each group grew while lines fit, and each group was
      flushed exactly because the next line did not fit. */
  ghost predicate IsGreedySegmentation(lines: seq<string>, gs: seq<seq<string>>, chunkSize: int) {
    && |gs| >= 1
    && Flatten(gs) == lines
    && (gs[0] != [] ==> |gs[0][0]| <= chunkSize)
    && FlushedOnOverflow(gs, chunkSize)
    && AllFit(gs, chunkSize)
  }

  lemma FlattenSnoc(gs: seq<seq<string>>, g: seq<string>)
    ensures Flatten(gs + [g]) == Flatten(gs) + g
  {
    assert (gs + [g])[..|gs|] == gs;
  }

  /** Starting a new group with a line that does not fit keeps the segmentation greedy. */
  lemma GreedyNewGroup(lines: seq<string>, gs: seq<seq<string>>, line: string, chunkSize: int)
    requires IsGreedySegmentation(lines, gs, chunkSize)
    requires |Accumulation(gs[|gs| - 1])| + |line| > chunkSize
    ensures IsGreedySegmentation(lines + [line], gs + [[line]], chunkSize)
  {
    var gs' := gs + [[line]];
    FlattenSnoc(gs, [line]);
    forall i | 1 <= i < |gs'| ensures OverflowAt(gs', i, chunkSize) {
      assert gs'[i - 1] == gs[i - 1];
      if i < |gs| {
        assert gs'[i] == gs[i];
        assert OverflowAt(gs, i, chunkSize);
      }
    }
    forall i | 0 <= i < |gs'| ensures GroupFits(gs', i, chunkSize) {
      if i < |gs| {
        assert gs'[i] == gs[i];
        assert GroupFits(gs, i, chunkSize);
      }
    }
  }

  /** Adding a line that fits to the last group keeps the segmentation greedy. */
  lemma GreedyExtendLast(lines: seq<string>, gs: seq<seq<string>>, line: string, chunkSize: int)
    requires IsGreedySegmentation(lines, gs, chunkSize)
    requires |Accumulation(gs[|gs| - 1])| + |line| <= chunkSize
    ensures IsGreedySegmentation(lines + [line], gs[..|gs| - 1] + [gs[|gs| - 1] + [line]], chunkSize)
  {
    var front := gs[..|gs| - 1];
    var last := gs[|gs| - 1];
    var g := last + [line];
    var gs' := front + [g];
    assert gs == front + [last];
    FlattenSnoc(front, last);
    FlattenSnoc(front, g);
    forall i | 1 <= i < |gs'| ensures OverflowAt(gs', i, chunkSize) {
      assert OverflowAt(gs, i, chunkSize);
      assert gs'[i - 1] == gs[i - 1];
      if i < |front| {
        assert gs'[i] == gs[i];
      } else {
        assert gs'[i][0] == last[0];
      }
    }
    assert GroupFits(gs, |gs| - 1, chunkSize);
    forall k | 1 <= k < |g| ensures FitsAt(g, k, chunkSize) {
      if k < |last| {
        assert FitsAt(last, k, chunkSize);
        assert g[..k] == last[..k];
      } else {
        assert g[..k] == last;
      }
    }
    forall i | 0 <= i < |gs'| ensures GroupFits(gs', i, chunkSize) {
      if i < |front| {
        assert gs'[i] == gs[i];
        assert GroupFits(gs, i, chunkSize);
      }
    }
    if |gs'| == 1 && last == [] {
      assert gs'[0] == [line];
    }
  }

  /** One more line keeps the chunker's groups greedy. */
  lemma GreedyStep(pre: seq<string>, line: string, chunkSize: int)
    requires IsGreedySegmentation(pre, Groups(pre, chunkSize), chunkSize)
    ensures IsGreedySegmentation(pre + [line], Groups(pre + [line], chunkSize), chunkSize)
  {
    GroupsSnoc(pre, line, chunkSize);
    var gs := Groups(pre, chunkSize);
    if |Accumulation(gs[|gs| - 1])| + |line| > chunkSize {
      GreedyNewGroup(pre, gs, line, chunkSize);
    } else {
      GreedyExtendLast(pre, gs, line, chunkSize);
    }
  }

  /** The chunker's groups are a greedy segmentation of its input. */
  lemma {:induction false} GroupsAreGreedy(lines: seq<string>, chunkSize: int)
    ensures IsGreedySegmentation(lines, Groups(lines, chunkSize), chunkSize)
  {
    if |lines| == 0 {
      assert Flatten([[]]) == Flatten([]) + [];
    } else {
      var pre := lines[..|lines| - 1];
      assert lines == pre + [lines[|lines| - 1]];
      GroupsAreGreedy(pre, chunkSize);
      GreedyStep(pre, lines[|lines| - 1], chunkSize);
    }
  }

  /** Removing a last group of one line from a greedy segmentation leaves a greedy one. */
  lemma GreedyDropLast(lines: seq<string>, gs: seq<seq<string>>, chunkSize: int)
    requires IsGreedySegmentation(lines, gs, chunkSize)
    requires |gs| >= 2 && |gs[|gs| - 1]| == 1
    ensures |lines| >= 1 && lines[|lines| - 1] == gs[|gs| - 1][0]
    ensures |Accumulation(gs[|gs| - 2])| + |gs[|gs| - 1][0]| > chunkSize
    ensures IsGreedySegmentation(lines[..|lines| - 1], gs[..|gs| - 1], chunkSize)
  {
    var front := gs[..|gs| - 1];
    var last := gs[|gs| - 1];
    assert gs == front + [last];
    FlattenSnoc(front, last);
    assert lines[..|lines| - 1] == Flatten(front);
    assert OverflowAt(gs, |gs| - 1, chunkSize);
    forall i | 1 <= i < |front| ensures OverflowAt(front, i, chunkSize) {
      assert OverflowAt(gs, i, chunkSize);
      assert front[i - 1] == gs[i - 1];
      assert front[i] == gs[i];
    }
    forall i | 0 <= i < |front| ensures GroupFits(front, i, chunkSize) {
      assert GroupFits(gs, i, chunkSize);
      assert front[i] == gs[i];
    }
  }

  /** Removing the last line of a last group of two or more lines leaves a greedy one. */
  lemma GreedyShortenLast(lines: seq<string>, gs: seq<seq<string>>, chunkSize: int)
    requires IsGreedySegmentation(lines, gs, chunkSize)
    requires |gs[|gs| - 1]| >= 2
    ensures |lines| >= 1 && lines[|lines| - 1] == gs[|gs| - 1][|gs[|gs| - 1]| - 1]
    ensures var last := gs[|gs| - 1];
      |Accumulation(last[..|last| - 1])| + |last[|last| - 1]| <= chunkSize
    ensures IsGreedySegmentation(lines[..|lines| - 1],
      gs[..|gs| - 1] + [gs[|gs| - 1][..|gs[|gs| - 1]| - 1]], chunkSize)
  {
    var front := gs[..|gs| - 1];
    var last := gs[|gs| - 1];
    var shorter := last[..|last| - 1];
    var gs' := front + [shorter];
    assert gs == front + [last];
    assert last == shorter + [last[|last| - 1]];
    FlattenSnoc(front, last);
    FlattenSnoc(front, shorter);
    assert lines[..|lines| - 1] == Flatten(gs');
    forall i | 1 <= i < |gs'| ensures OverflowAt(gs', i, chunkSize) {
      assert OverflowAt(gs, i, chunkSize);
      assert gs'[i - 1] == gs[i - 1];
      if i < |front| {
        assert gs'[i] == gs[i];
      } else {
        assert gs'[i][0] == gs[i][0];
      }
    }
    assert GroupFits(gs, |gs| - 1, chunkSize);
    assert FitsAt(last, |last| - 1, chunkSize);
    forall k | 1 <= k < |shorter| ensures FitsAt(shorter, k, chunkSize) {
      assert FitsAt(last, k, chunkSize);
      assert shorter[..k] == last[..k];
    }
    forall i | 0 <= i < |gs'| ensures GroupFits(gs', i, chunkSize) {
      if i < |front| {
        assert gs'[i] == gs[i];
        assert GroupFits(gs, i, chunkSize);
      }
    }
  }

  /** How one more line changes the groups: a new group when it does not fit, else it
      joins the last group. */
  lemma GroupsSnoc(pre: seq<string>, line: string, chunkSize: int)
    ensures var gs := Groups(pre, chunkSize);
      Groups(pre + [line], chunkSize) ==
        if |Accumulation(gs[|gs| - 1])| + |line| > chunkSize then gs + [[line]]
        else gs[..|gs| - 1] + [gs[|gs| - 1] + [line]]
  {
    assert (pre + [line])[..|pre|] == pre;
    var a := Run(pre, chunkSize);
    var gs := a.flushed + [a.current];
    assert gs[..|gs| - 1] == a.flushed;
  }

  lemma GroupsSnocNew(pre: seq<string>, front: seq<seq<string>>, line: string, chunkSize: int)
    requires Groups(pre, chunkSize) == front && |front| >= 1
    requires |Accumulation(front[|front| - 1])| + |line| > chunkSize
    ensures Groups(pre + [line], chunkSize) == front + [[line]]
  {
    GroupsSnoc(pre, line, chunkSize);
  }

  lemma GroupsSnocExtend(pre: seq<string>, front: seq<seq<string>>, shorter: seq<string>, line: string, chunkSize: int)
    requires Groups(pre, chunkSize) == front + [shorter]
    requires |Accumulation(shorter)| + |line| <= chunkSize
    ensures Groups(pre + [line], chunkSize) == front + [shorter + [line]]
  {
    GroupsSnoc(pre, line, chunkSize);
    assert (front + [shorter])[..|front|] == front;
  }

  /** A segmentation into one group of at most one line is the chunker's. */
  lemma GreedyOneShortGroup(lines: seq<string>, gs: seq<seq<string>>, chunkSize: int)
    requires IsGreedySegmentation(lines, gs, chunkSize)
    requires |gs| == 1 && |gs[0]| <= 1
    ensures gs == Groups(lines, chunkSize)
  {
    FlattenSnoc([], gs[0]);
    assert gs == [] + [gs[0]];
    if gs[0] != [] {
      assert lines == [] + [gs[0][0]];
      GroupsSnoc([], gs[0][0], chunkSize);
      assert gs[0] == [gs[0][0]];
    }
  }

  /** Only the first group of a greedy segmentation may be empty. */
  lemma LaterGroupNonEmpty(lines: seq<string>, gs: seq<seq<string>>, chunkSize: int)
    requires IsGreedySegmentation(lines, gs, chunkSize)
    requires |gs| >= 2
    ensures gs[|gs| - 1] != []
  {
    assert OverflowAt(gs, |gs| - 1, chunkSize);
  }

  /** The chunker's groups after one more line that joined the last group. */
  lemma UniqueExtendStep(lines: seq<string>, gs: seq<seq<string>>, chunkSize: int)
    requires |gs| >= 1 && |gs[|gs| - 1]| >= 2 && |lines| >= 1
    requires lines[|lines| - 1] == gs[|gs| - 1][|gs[|gs| - 1]| - 1]
    requires var last := gs[|gs| - 1];
      |Accumulation(last[..|last| - 1])| + |last[|last| - 1]| <= chunkSize
    requires Groups(lines[..|lines| - 1], chunkSize) == gs[..|gs| - 1] + [gs[|gs| - 1][..|gs[|gs| - 1]| - 1]]
    ensures gs == Groups(lines, chunkSize)
  {
    var front := gs[..|gs| - 1];
    var last := gs[|gs| - 1];
    var pre := lines[..|lines| - 1];
    var shorter := last[..|last| - 1];
    var line := last[|last| - 1];
    assert lines == pre + [line];
    GroupsSnocExtend(pre, front, shorter, line, chunkSize);
    assert last == shorter + [line];
    assert gs == front + [last];
  }

  /** The chunker's groups after one more line that started a new group. */
  lemma UniqueNewStep(lines: seq<string>, gs: seq<seq<string>>, chunkSize: int)
    requires |gs| >= 2 && |gs[|gs| - 1]| == 1 && |lines| >= 1
    requires lines[|lines| - 1] == gs[|gs| - 1][0]
    requires |Accumulation(gs[|gs| - 2])| + |gs[|gs| - 1][0]| > chunkSize
    requires Groups(lines[..|lines| - 1], chunkSize) == gs[..|gs| - 1]
    ensures gs == Groups(lines, chunkSize)
  {
    var front := gs[..|gs| - 1];
    var last := gs[|gs| - 1];
    var pre := lines[..|lines| - 1];
    assert lines == pre + [last[0]];
    GroupsSnocNew(pre, front, last[0], chunkSize);
    assert last == [last[0]];
    assert gs == front + [last];
  }

  /** No other segmentation is greedy: the chunker's groups are the only one. */
  lemma {:induction false} GreedySegmentationIsUnique(lines: seq<string>, gs: seq<seq<string>>, chunkSize: int)
    requires IsGreedySegmentation(lines, gs, chunkSize)
    ensures gs == Groups(lines, chunkSize)
    decreases |lines|
  {
    var last := gs[|gs| - 1];
    if |last| >= 2 {
      GreedyShortenLast(lines, gs, chunkSize);
      GreedySegmentationIsUnique(lines[..|lines| - 1], gs[..|gs| - 1] + [last[..|last| - 1]], chunkSize);
      UniqueExtendStep(lines, gs, chunkSize);
    } else if |gs| == 1 {
      GreedyOneShortGroup(lines, gs, chunkSize);
    } else {
      LaterGroupNonEmpty(lines, gs, chunkSize);
      GreedyDropLast(lines, gs, chunkSize);
      GreedySegmentationIsUnique(lines[..|lines| - 1], gs[..|gs| - 1], chunkSize);
      UniqueNewStep(lines, gs, chunkSize);
    }
  }

  lemma {:induction false} AccumulationAppend(a: seq<string>, b: seq<string>)
    ensures Accumulation(a + b) == Accumulation(a) + Accumulation(b)
    decreases |b|
  {
    if |b| == 0 {
      assert a + b == a;
    } else {
      var b' := b[..|b| - 1];
      var x := b[|b| - 1] + "\n";
      AccumulationAppend(a, b');
      assert (a + b)[..|a + b| - 1] == a + b';
      calc {
        Accumulation(a + b);
        Accumulation(a + b') + x;
        (Accumulation(a) + Accumulation(b')) + x;
        Accumulation(a) + (Accumulation(b') + x);
      }
    }
  }

  lemma {:induction false} ConcatAccumulationsFlatten(gs: seq<seq<string>>)
    ensures ConcatAccumulations(gs) == Accumulation(Flatten(gs))
  {
    if |gs| > 0 {
      ConcatAccumulationsFlatten(gs[..|gs| - 1]);
      AccumulationAppend(Flatten(gs[..|gs| - 1]), gs[|gs| - 1]);
    }
  }

  /** No line is dropped or reordered before stripping: the groups, in order, are the
      input lines, and the unstripped accumulators, concatenated, are every input line
      followed by a line feed. */
  lemma GroupsCoverLines(lines: seq<string>, chunkSize: int)
    ensures Flatten(Groups(lines, chunkSize)) == lines
    ensures ConcatAccumulations(Groups(lines, chunkSize)) == Accumulation(lines)
  {
    GroupsAreGreedy(lines, chunkSize);
    ConcatAccumulationsFlatten(Groups(lines, chunkSize));
  }

  lemma {:induction false} MemberOfFlatten(gs: seq<seq<string>>, i: nat, l: string)
    requires i < |gs| && l in gs[i]
    ensures l in Flatten(gs)
  {
    if i < |gs| - 1 {
      assert gs[..|gs| - 1][i] == gs[i];
      MemberOfFlatten(gs[..|gs| - 1], i, l);
    }
  }

  lemma AccumulationEndsWithNewline(g: seq<string>)
    requires |g| > 0
    ensures var a := Accumulation(g); |a| > 0 && a[|a| - 1] == '\n'
  {
  }

  /** A group of two or more lines has a stripped text of at most `chunkSize` characters:
      its last line fit, and the line feed after it is stripped. */
  lemma GroupBound(lines: seq<string>, chunkSize: int, i: nat)
    requires i < |Groups(lines, chunkSize)|
    ensures var g := Groups(lines, chunkSize)[i];
      |g| >= 2 ==> |Strip(Accumulation(g))| <= chunkSize
  {
    var gs := Groups(lines, chunkSize);
    var g := gs[i];
    if |g| >= 2 {
      GroupsAreGreedy(lines, chunkSize);
      assert GroupFits(gs, i, chunkSize);
      assert FitsAt(g, |g| - 1, chunkSize);
      AccumulationEndsWithNewline(g);
      StripShortensTrailingSpace(Accumulation(g));
    }
  }

  /** Only a group of one line can exceed the limit: the stripped text of any group of
      two or more lines is at most `chunkSize` long. */
  lemma MultiLineGroupsFit(lines: seq<string>, chunkSize: int)
    ensures forall g :: g in Groups(lines, chunkSize) && |g| >= 2 ==>
      |Strip(Accumulation(g))| <= chunkSize
  {
    var gs := Groups(lines, chunkSize);
    forall g | g in gs && |g| >= 2 ensures |Strip(Accumulation(g))| <= chunkSize {
      var i :| 0 <= i < |gs| && gs[i] == g;
      GroupBound(lines, chunkSize, i);
    }
  }

  /** Every chunk is stripped and non-empty, and one longer than `chunkSize` is the
      strip of a single input line. */
  lemma ChunksShape(lines: seq<string>, chunkSize: int)
    ensures forall c :: c in Chunks(lines, chunkSize) ==> c != [] && IsStripped(c)
    ensures forall c :: c in Chunks(lines, chunkSize) && |c| > chunkSize ==>
      exists l :: l in lines && c == Strip(l)
  {
    var gs := Groups(lines, chunkSize);
    EmitShape(gs);
    forall c | c in Chunks(lines, chunkSize) && |c| > chunkSize
      ensures exists l :: l in lines && c == Strip(l)
    {
      EmitOrigin(gs, c);
      var i :| 0 <= i < |gs| && c == Strip(Accumulation(gs[i]));
      LongChunkIsOneLine(lines, chunkSize, i);
    }
  }

  lemma LongChunkIsOneLine(lines: seq<string>, chunkSize: int, i: nat)
    requires i < |Groups(lines, chunkSize)|
    requires Strip(Accumulation(Groups(lines, chunkSize)[i])) != []
    requires |Strip(Accumulation(Groups(lines, chunkSize)[i]))| > chunkSize
    ensures exists l :: l in lines && Strip(Accumulation(Groups(lines, chunkSize)[i])) == Strip(l)
  {
    var gs := Groups(lines, chunkSize);
    var g := gs[i];
    GroupBound(lines, chunkSize, i);
    assert g != [];
    assert |g| == 1;
    assert Accumulation(g) == g[0] + "\n" by {
      assert g[..0] == [];
    }
    StripDropsTrailingSpace(g[0], '\n');
    GroupsCoverLines(lines, chunkSize);
    MemberOfFlatten(gs, i, g[0]);
  }

  lemma AccumulationSnoc(g: seq<string>, line: string)
    ensures Accumulation(g + [line]) == Accumulation(g) + line + "\n"
  {
    assert (g + [line])[..|g|] == g;
  }

  lemma RunSnoc(lines: seq<string>, i: nat, chunkSize: int)
    requires i < |lines|
    ensures Run(lines[..i + 1], chunkSize) == Step(Run(lines[..i], chunkSize), lines[i], chunkSize)
  {
    assert lines[..i + 1][..i] == lines[..i];
  }

  lemma EmitSnoc(gs: seq<seq<string>>, g: seq<string>)
    ensures Emit(gs + [g]) ==
      (if Strip(Accumulation(g)) == [] then Emit(gs) else Emit(gs) + [Strip(Accumulation(g))])
  {
    assert (gs + [g])[..|gs|] == gs;
  }

  /** What one step does to the emitted chunks and to the accumulator text. */
  lemma StepEffect(a: Accumulator, line: string, chunkSize: int)
    ensures var b := Step(a, line, chunkSize);
      var text := Accumulation(a.current);
      if |text| + |line| > chunkSize then
        && Emit(b.flushed) == (if Strip(text) == [] then Emit(a.flushed) else Emit(a.flushed) + [Strip(text)])
        && Accumulation(b.current) == line + "\n"
      else
        && b.flushed == a.flushed
        && Accumulation(b.current) == text + line + "\n"
  {
    EmitSnoc(a.flushed, a.current);
    AccumulationSnoc([], line);
    AccumulationSnoc(a.current, line);
  }

  /** The chunker loop as the source writes it, over the accumulator string. */
  method ChunkText(content: string, chunkSize: int) returns (chunks: seq<string>)
    ensures chunks == Chunks(Lines(content), chunkSize)
  {
    var lines := Lines(content);
    chunks := [];
    var current := "";
    ghost var acc := Accumulator([], []);
    var i := 0;
    assert lines[..0] == [];
    while i < |lines|
      invariant 0 <= i <= |lines|
      invariant acc == Run(lines[..i], chunkSize)
      invariant chunks == Emit(acc.flushed)
      invariant current == Accumulation(acc.current)
    {
      var line := lines[i];
      RunSnoc(lines, i, chunkSize);
      StepEffect(acc, line, chunkSize);
      ghost var next := Step(acc, line, chunkSize);
      if |current| + |line| > chunkSize {
        if Strip(current) != "" {
          chunks := chunks + [Strip(current)];
        }
        current := line + "\n";
      } else {
        current := current + line + "\n";
      }
      acc := next;
      i := i + 1;
    }
    assert lines[..i] == lines;
    EmitSnoc(acc.flushed, acc.current);
    if Strip(current) != "" {
      chunks := chunks + [Strip(current)];
    }
  }
}
