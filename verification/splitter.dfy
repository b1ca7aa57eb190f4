/**
 `_split_large_chunk`: a section over the size limit is cut at blank lines and
 the paragraphs are packed greedily into sub-chunks, each new sub-chunk
 starting with the overlap of the one before it.

 The loop over paragraphs is a left fold over a `Buffer`. Next to the text and
 the running token count the source keeps, the buffer records the overlap it
 was seeded with and the paragraphs added since (the model's bookkeeping; the
 source does not keep them). That record is what lets the contracts say what
 each sub-chunk is made of.
 */
module Splitter {
  import opened Text
  import opened Chunks
  import Paragraphs
  import Overlap

  /** `current_chunk_text` and `current_token_count`, with the seed and the paragraphs behind them. */
  datatype Buffer = Buffer(seed: string, added: seq<string>, text: string, tokens: int)

  /** A closed buffer: the content and token count of one sub-chunk. */
  datatype Draft = Draft(seed: string, added: seq<string>, content: string, tokenCount: int)

  const Empty := Buffer([], [], [], 0)

  /** Adding a paragraph: a blank line before it, unless the buffer is empty. */
  function Append(text: string, para: string): string {
    if text == [] then para else text + "\n\n" + para
  }

  /**
   The text a seed and its paragraphs stand for: the seed runs straight into
   the first paragraph, the later ones are appended.
   */
  function Assemble(seed: string, added: seq<string>): string
    decreases |added|
  {
    if |added| == 0 then seed
    else if |added| == 1 then seed + added[0]
    else Append(Assemble(seed, added[..|added| - 1]), added[|added| - 1])
  }

  /** The token count the loop keeps for that text: estimated once for the seeded start, then per paragraph. */
  function AssembleTokens(seed: string, added: seq<string>): int
    decreases |added|
  {
    if |added| == 0 then 0
    else if |added| == 1 then EstimateTokens(seed + added[0])
    else AssembleTokens(seed, added[..|added| - 1]) + EstimateTokens(added[|added| - 1])
  }

  /** Every paragraph after the first was added because it fit, or because the text was still empty. */
  predicate Fits(seed: string, added: seq<string>, max: int) {
    forall j :: 1 <= j < |added| ==>
      AssembleTokens(seed, added[..j]) + EstimateTokens(added[j]) <= max || Assemble(seed, added[..j]) == []
  }

  /**
   Within the limit, or else a lone paragraph: every earlier paragraph is
   empty and the text is the seed followed by the last paragraph.
   */
  predicate Bounded(seed: string, added: seq<string>, text: string, tokens: int, max: int) {
    || tokens <= max
    || |added| == 0
    || (text == seed + added[|added| - 1] && forall j :: 0 <= j < |added| - 1 ==> added[j] == [])
  }

  predicate BufferOk(b: Buffer, max: int) {
    && (|b.added| == 0 ==> b.seed == [])
    && b.text == Assemble(b.seed, b.added)
    && b.tokens == AssembleTokens(b.seed, b.added)
    && Fits(b.seed, b.added, max)
    && Bounded(b.seed, b.added, b.text, b.tokens, max)
  }

  /** A sub-chunk as the loop leaves it: non-empty text, assembled from its seed and paragraphs. */
  predicate DraftOk(d: Draft, max: int) {
    && |d.added| >= 1
    && d.content != []
    && d.content == Assemble(d.seed, d.added)
    && d.tokenCount == AssembleTokens(d.seed, d.added)
    && Fits(d.seed, d.added, max)
    && Bounded(d.seed, d.added, d.content, d.tokenCount, max)
  }

  /** The paragraphs of all drafts, in order. */
  function FlattenAdded(ds: seq<Draft>): seq<string>
    decreases |ds|
  {
    if |ds| == 0 then [] else FlattenAdded(ds[..|ds| - 1]) + ds[|ds| - 1].added
  }

  /**
   The two settings the loop consults: the token limit, and how the overlap
   is taken from a closed sub-chunk.
   */
  datatype Rules = Rules(max: int, overlap: string -> string)

  /**
   Consecutive sub-chunks under the chunker's settings: the later one starts
   with `_get_overlap_text` of the earlier one's content, and it was started
   because its first paragraph did not fit into the earlier one.
   */
  predicate Follows(a: Draft, b: Draft, cfg: Config) {
    && |b.added| >= 1
    && b.seed == Overlap.GetOverlapText(a.content, cfg.overlapSize)
    && a.tokenCount + EstimateTokens(b.added[0]) > cfg.maxChunkSize
  }

  function RulesOf(cfg: Config): Rules {
    Rules(cfg.maxChunkSize, t => Overlap.GetOverlapText(t, cfg.overlapSize))
  }

  /**
   Consecutive sub-chunks: the later one is seeded with the overlap of the
   earlier, and it was started only because its first paragraph did not fit.
   */
  predicate Linked(a: Draft, b: Draft, rules: Rules) {
    && |b.added| >= 1
    && b.seed == rules.overlap(a.content)
    && a.tokenCount + EstimateTokens(b.added[0]) > rules.max
  }

  function Close(b: Buffer): Draft {
    Draft(b.seed, b.added, b.text, b.tokens)
  }

  /** The state of the loop between paragraphs: closed sub-chunks and the open buffer. */
  predicate Trace(done: seq<Draft>, buf: Buffer, rules: Rules) {
    && (forall k :: 0 <= k < |done| ==> DraftOk(done[k], rules.max))
    && (forall k :: 0 <= k < |done| - 1 ==> Linked(done[k], done[k + 1], rules))
    && (|done| > 0 ==> done[0].seed == [] && Linked(done[|done| - 1], Close(buf), rules))
    && (|done| == 0 ==> buf.seed == [])
    && BufferOk(buf, rules.max)
  }

  /** One iteration of the loop. */
  function Step(rules: Rules, done: seq<Draft>, buf: Buffer, para: string): (seq<Draft>, Buffer)
  {
    var paraTokens := EstimateTokens(para);
    if buf.tokens + paraTokens > rules.max && buf.text != [] then
      var overlap := rules.overlap(buf.text);
      var next := overlap + para;
      (done + [Close(buf)], Buffer(overlap, [para], next, EstimateTokens(next)))
    else
      (done, Buffer(buf.seed, buf.added + [para], Append(buf.text, para), buf.tokens + paraTokens))
  }

  /** The loop over the paragraphs. */
  function Fold(rules: Rules, done: seq<Draft>, buf: Buffer, paras: seq<string>): (seq<Draft>, Buffer)
    decreases |paras|
  {
    if |paras| == 0 then (done, buf)
    else
      var next := Step(rules, done, buf, paras[0]);
      Fold(rules, next.0, next.1, paras[1..])
  }

  /** After the loop: the open buffer becomes the last sub-chunk unless its text is empty. */
  function Finish(done: seq<Draft>, buf: Buffer): seq<Draft> {
    if buf.text != [] then done + [Close(buf)] else done
  }

  // ---------------------------------------------------------------------------
  // Facts about the assembled text
  // ---------------------------------------------------------------------------

  lemma AssembleSnoc(seed: string, added: seq<string>, para: string)
    requires |added| >= 1 || seed == []
    ensures Assemble(seed, added + [para]) == Append(Assemble(seed, added), para)
    ensures AssembleTokens(seed, added + [para]) == AssembleTokens(seed, added) + EstimateTokens(para)
  {
    var all := added + [para];
    assert all[..|all| - 1] == added;
    if |added| == 0 {
      assert seed + para == para;
    }
  }

  /** The assembled text is empty exactly when the seed and every paragraph are empty. */
  lemma {:induction false} AssembleEmpty(seed: string, added: seq<string>)
    requires |added| >= 1 || seed == []
    ensures Assemble(seed, added) == [] <==>
      seed == [] && forall j :: 0 <= j < |added| ==> added[j] == []
    decreases |added|
  {
    if |added| > 1 {
      var init := added[..|added| - 1];
      AssembleEmpty(seed, init);
      assert forall j :: 0 <= j < |init| ==> init[j] == added[j];
    }
  }

  /** The loop's token count never exceeds the estimate of the text it stands for. */
  lemma {:induction false} AssembleTokensBound(seed: string, added: seq<string>)
    ensures AssembleTokens(seed, added) <= EstimateTokens(Assemble(seed, added))
    decreases |added|
  {
    if |added| > 1 {
      var init := added[..|added| - 1];
      var last := added[|added| - 1];
      AssembleTokensBound(seed, init);
      var t := Assemble(seed, init);
      if t == [] {
        EstimateSuperadditive(t, last);
      } else {
        EstimateSuperadditive(t + "\n\n", last);
        EstimateSuperadditive(t, "\n\n");
      }
    }
  }

  // ---------------------------------------------------------------------------
  // The loop keeps its trace
  // ---------------------------------------------------------------------------

  lemma FlattenSnoc(ds: seq<Draft>, d: Draft)
    ensures FlattenAdded(ds + [d]) == FlattenAdded(ds) + d.added
  {
    assert (ds + [d])[..|ds|] == ds;
  }

  /** One iteration records the paragraph it read, whichever branch it takes. */
  lemma StepConsumes(rules: Rules, done: seq<Draft>, buf: Buffer, para: string)
    ensures var n := Step(rules, done, buf, para);
      FlattenAdded(n.0) + n.1.added == FlattenAdded(done) + buf.added + [para]
  {
    if buf.tokens + EstimateTokens(para) > rules.max && buf.text != [] {
      FlattenSnoc(done, Close(buf));
    }
  }

  /** The paragraphs the loop records are exactly the ones it read, in order. */
  lemma {:induction false} FoldConsumes(rules: Rules, done: seq<Draft>, buf: Buffer, paras: seq<string>)
    ensures var r := Fold(rules, done, buf, paras);
      FlattenAdded(r.0) + r.1.added == FlattenAdded(done) + buf.added + paras
    decreases |paras|
  {
    if |paras| > 0 {
      var next := Step(rules, done, buf, paras[0]);
      var rest := paras[1..];
      StepConsumes(rules, done, buf, paras[0]);
      FoldConsumes(rules, next.0, next.1, rest);
      var r := Fold(rules, next.0, next.1, rest);
      assert Fold(rules, done, buf, paras) == r;
      var before := FlattenAdded(done) + buf.added;
      assert FlattenAdded(next.0) + next.1.added == before + [paras[0]];
      assert FlattenAdded(r.0) + r.1.added == (before + [paras[0]]) + rest;
      assert [paras[0]] + rest == paras;
    }
  }

  /** A paragraph added because it fits, or to an empty text, keeps `Fits`. */
  lemma AppendKeepsFits(seed: string, added: seq<string>, para: string, max: int)
    requires Fits(seed, added, max)
    requires AssembleTokens(seed, added) + EstimateTokens(para) <= max || Assemble(seed, added) == []
    ensures Fits(seed, added + [para], max)
  {
    var all := added + [para];
    forall j | 1 <= j < |all|
      ensures AssembleTokens(seed, all[..j]) + EstimateTokens(all[j]) <= max
              || Assemble(seed, all[..j]) == []
    {
      if j < |added| {
        assert all[..j] == added[..j] && all[j] == added[j];
      } else {
        assert all[..j] == added;
      }
    }
  }

  /** A paragraph added to an empty text becomes the text after the seed, all before it being empty. */
  lemma AppendToEmptyBounded(seed: string, added: seq<string>, para: string, max: int)
    requires |added| >= 1 || seed == []
    requires Assemble(seed, added) == []
    ensures Bounded(seed, added + [para], Append([], para), AssembleTokens(seed, added + [para]), max)
  {
    AssembleEmpty(seed, added);
    var all := added + [para];
    assert all[|all| - 1] == para;
    assert forall j :: 0 <= j < |all| - 1 ==> all[j] == added[j];
  }

  /** Appending a paragraph that fits, or to an empty text, keeps the buffer well formed. */
  lemma AppendKeepsBuffer(buf: Buffer, para: string, max: int)
    requires BufferOk(buf, max)
    requires buf.tokens + EstimateTokens(para) <= max || buf.text == []
    ensures BufferOk(Buffer(buf.seed, buf.added + [para], Append(buf.text, para),
                            buf.tokens + EstimateTokens(para)), max)
  {
    AssembleSnoc(buf.seed, buf.added, para);
    AppendKeepsFits(buf.seed, buf.added, para, max);
    if buf.text == [] {
      AppendToEmptyBounded(buf.seed, buf.added, para, max);
    }
  }

  /** Closing the buffer and seeding a new one with its overlap keeps the trace. */
  lemma FlushKeepsTrace(rules: Rules, done: seq<Draft>, buf: Buffer, para: string)
    requires Trace(done, buf, rules)
    requires buf.tokens + EstimateTokens(para) > rules.max && buf.text != []
    ensures var ov := rules.overlap(buf.text);
      Trace(done + [Close(buf)], Buffer(ov, [para], ov + para, EstimateTokens(ov + para)), rules)
  {
    var ov := rules.overlap(buf.text);
    var d := Close(buf);
    var done' := done + [d];
    var nb := Buffer(ov, [para], ov + para, EstimateTokens(ov + para));
    assert |buf.added| >= 1;
    assert DraftOk(d, rules.max);
    assert BufferOk(nb, rules.max) by {
      assert Assemble(ov, [para]) == ov + para;
      assert nb.text == nb.seed + nb.added[0];
    }
    assert Linked(d, Close(nb), rules);
    forall k | 0 <= k < |done'| - 1
      ensures Linked(done'[k], done'[k + 1], rules)
    {
      if k < |done| - 1 {
        assert done'[k] == done[k] && done'[k + 1] == done[k + 1];
      } else {
        assert done'[k] == done[|done| - 1] && done'[k + 1] == d;
      }
    }
    assert forall k :: 0 <= k < |done'| ==> DraftOk(done'[k], rules.max);
  }

  /** Appending to the open buffer keeps the trace. */
  lemma AppendKeepsTrace(rules: Rules, done: seq<Draft>, buf: Buffer, para: string)
    requires Trace(done, buf, rules)
    requires buf.tokens + EstimateTokens(para) <= rules.max || buf.text == []
    ensures Trace(done, Buffer(buf.seed, buf.added + [para], Append(buf.text, para),
                               buf.tokens + EstimateTokens(para)), rules)
  {
    AppendKeepsBuffer(buf, para, rules.max);
    if |done| > 0 {
      assert (buf.added + [para])[0] == buf.added[0];
    }
  }

  lemma StepKeepsTrace(rules: Rules, done: seq<Draft>, buf: Buffer, para: string)
    requires Trace(done, buf, rules)
    ensures var n := Step(rules, done, buf, para); Trace(n.0, n.1, rules)
  {
    if buf.tokens + EstimateTokens(para) > rules.max && buf.text != [] {
      FlushKeepsTrace(rules, done, buf, para);
    } else {
      AppendKeepsTrace(rules, done, buf, para);
    }
  }

  /** The whole loop keeps the trace. */
  lemma {:induction false} FoldKeepsTrace(rules: Rules, done: seq<Draft>, buf: Buffer, paras: seq<string>)
    requires Trace(done, buf, rules)
    ensures var r := Fold(rules, done, buf, paras); Trace(r.0, r.1, rules)
    decreases |paras|
  {
    if |paras| > 0 {
      var next := Step(rules, done, buf, paras[0]);
      StepKeepsTrace(rules, done, buf, paras[0]);
      FoldKeepsTrace(rules, next.0, next.1, paras[1..]);
    }
  }

  lemma FinishFacts(rules: Rules, done: seq<Draft>, buf: Buffer, paras: seq<string>)
    requires Trace(done, buf, rules)
    requires FlattenAdded(done) + buf.added == paras
    ensures var ds := Finish(done, buf);
      && (forall k :: 0 <= k < |ds| ==> DraftOk(ds[k], rules.max))
      && (|ds| > 0 ==> ds[0].seed == [])
      && (forall k :: 0 <= k < |ds| - 1 ==> Linked(ds[k], ds[k + 1], rules))
      && FlattenAdded(ds) <= paras
      && (forall j :: |FlattenAdded(ds)| <= j < |paras| ==> paras[j] == [])
      && (forall k :: 0 <= k < |ds| ==> ds[k].tokenCount <= EstimateTokens(ds[k].content))
  {
    var ds := Finish(done, buf);
    if buf.text != [] {
      FlattenSnoc(done, Close(buf));
      assert forall k :: 0 <= k < |ds| - 1 ==> Linked(ds[k], ds[k + 1], rules) by {
        forall k | 0 <= k < |ds| - 1
          ensures Linked(ds[k], ds[k + 1], rules)
        {
          if k < |done| - 1 {
            assert ds[k] == done[k] && ds[k + 1] == done[k + 1];
          }
        }
      }
    } else {
      AssembleEmpty(buf.seed, buf.added);
      forall j | |FlattenAdded(ds)| <= j < |paras|
        ensures paras[j] == []
      {
        assert paras[j] == buf.added[j - |FlattenAdded(ds)|];
      }
    }
    forall k | 0 <= k < |ds|
      ensures ds[k].tokenCount <= EstimateTokens(ds[k].content)
    {
      AssembleTokensBound(ds[k].seed, ds[k].added);
    }
  }

  /**
   The sub-chunk texts and token counts `_split_large_chunk` produces from a
   list of paragraphs, with what each is made of:
   - each is non-empty and is its seed followed by its paragraphs, joined as
     the loop joins them, with the token count the loop keeps;
   - each paragraph after a sub-chunk's first was added because it fit;
   - a sub-chunk over the limit holds a single non-empty paragraph after its
     seed, which happens when one paragraph alone is too large;
   - the first sub-chunk has no seed; each later one is seeded with the
     overlap of the one before, and was started because its first paragraph
     did not fit there;
   - the recorded paragraphs are the input in order. With a non-negative
     overlap size, every paragraph is recorded whenever any sub-chunk is
     produced: trailing empty paragraphs still join the last sub-chunk.
     Paragraphs go unrecorded only when no sub-chunk is produced (every
     paragraph is empty), or when a negative overlap size leaves an empty
     seed;
   - the recorded token count never exceeds the estimate of the content.
   */
  function Pack(paras: seq<string>, cfg: Config): (ds: seq<Draft>)
    ensures forall k :: 0 <= k < |ds| ==> DraftOk(ds[k], cfg.maxChunkSize)
    ensures |ds| > 0 ==> ds[0].seed == []
    ensures forall k :: 0 <= k < |ds| - 1 ==> Follows(ds[k], ds[k + 1], cfg)
    ensures FlattenAdded(ds) <= paras
    ensures forall j :: |FlattenAdded(ds)| <= j < |paras| ==> paras[j] == []
    ensures forall k :: 0 <= k < |ds| ==> ds[k].tokenCount <= EstimateTokens(ds[k].content)
    ensures cfg.overlapSize >= 0 && |ds| > 0 ==> FlattenAdded(ds) == paras
  {
    var r := Fold(RulesOf(cfg), [], Empty, paras);
    PackFacts(paras, cfg);
    PackKeepsAll(paras, cfg);
    Finish(r.0, r.1)
  }

  /**
   With a non-negative overlap size every seed after the first is non-empty,
   so the last buffer is never empty once a sub-chunk has been closed: when
   anything is produced, every paragraph is recorded, trailing empty ones included.
   */
  lemma PackKeepsAll(paras: seq<string>, cfg: Config)
    ensures var r := Fold(RulesOf(cfg), [], Empty, paras);
      var ds := Finish(r.0, r.1);
      cfg.overlapSize >= 0 && |ds| > 0 ==> FlattenAdded(ds) == paras
  {
    var rules := RulesOf(cfg);
    var r := Fold(rules, [], Empty, paras);
    FoldKeepsTrace(rules, [], Empty, paras);
    FoldConsumes(rules, [], Empty, paras);
    if cfg.overlapSize >= 0 && |Finish(r.0, r.1)| > 0 {
      FinishKeepsAll(rules, r.0, r.1, paras);
    }
  }

  /** Closing a trace whose overlaps of non-empty texts are non-empty records every paragraph read. */
  lemma FinishKeepsAll(rules: Rules, done: seq<Draft>, buf: Buffer, paras: seq<string>)
    requires Trace(done, buf, rules)
    requires FlattenAdded(done) + buf.added == paras
    requires forall t :: t != [] ==> rules.overlap(t) != []
    requires |Finish(done, buf)| > 0
    ensures FlattenAdded(Finish(done, buf)) == paras
  {
    if |done| > 0 {
      var last := done[|done| - 1];
      assert last.content != [];
      assert buf.seed == rules.overlap(last.content);
      AssembleEmpty(buf.seed, buf.added);
    }
    FlattenSnoc(done, Close(buf));
  }

  lemma PackFacts(paras: seq<string>, cfg: Config)
    ensures var r := Fold(RulesOf(cfg), [], Empty, paras);
      var ds := Finish(r.0, r.1);
      && (forall k :: 0 <= k < |ds| ==> DraftOk(ds[k], cfg.maxChunkSize))
      && (|ds| > 0 ==> ds[0].seed == [])
      && (forall k :: 0 <= k < |ds| - 1 ==> Follows(ds[k], ds[k + 1], cfg))
      && FlattenAdded(ds) <= paras
      && (forall j :: |FlattenAdded(ds)| <= j < |paras| ==> paras[j] == [])
      && (forall k :: 0 <= k < |ds| ==> ds[k].tokenCount <= EstimateTokens(ds[k].content))
  {
    var rules := RulesOf(cfg);
    var r := Fold(rules, [], Empty, paras);
    FoldKeepsTrace(rules, [], Empty, paras);
    FoldConsumes(rules, [], Empty, paras);
    FinishFacts(rules, r.0, r.1, paras);
    LinkedFollows(Finish(r.0, r.1), cfg);
  }

  /** Under the chunker's settings, linked sub-chunks are consecutive sub-chunks. */
  lemma LinkedFollows(ds: seq<Draft>, cfg: Config)
    requires forall k :: 0 <= k < |ds| - 1 ==> Linked(ds[k], ds[k + 1], RulesOf(cfg))
    ensures forall k :: 0 <= k < |ds| - 1 ==> Follows(ds[k], ds[k + 1], cfg)
  {
  }

  /** A sub-chunk whose first recorded paragraph is non-empty is produced: nothing is silently lost. */
  lemma PackKeepsFirst(paras: seq<string>, cfg: Config)
    requires |paras| > 0 && paras[0] != []
    ensures |Pack(paras, cfg)| >= 1
    ensures Pack(paras, cfg)[0].added[0] == paras[0]
  {
    var ds := Pack(paras, cfg);
    assert FlattenAdded(ds)[0] == paras[0];
    FlattenFirst(ds);
  }

  lemma {:induction false} FlattenFirst(ds: seq<Draft>)
    requires |ds| >= 1 && |ds[0].added| >= 1
    ensures |FlattenAdded(ds)| >= 1 && FlattenAdded(ds)[0] == ds[0].added[0]
    decreases |ds|
  {
    if |ds| > 1 {
      FlattenFirst(ds[..|ds| - 1]);
    }
  }

  /**
   `_split_large_chunk`: the section's paragraphs packed into sub-chunks that
   keep the section's heading, level and path, each with its content
   fingerprint and the `sub_chunk` type.
   */
  function SplitLargeChunk(section: Section, cfg: Config, idOf: string -> string): (r: seq<Chunk>)
    ensures var ds := Pack(Paragraphs.Split(section.content), cfg);
      && |r| == |ds|
      && forall k :: 0 <= k < |r| ==>
        && r[k].content == ds[k].content
        && r[k].tokenCount == ds[k].tokenCount
    ensures forall k :: 0 <= k < |r| ==>
      && r[k].content != []
      && r[k].heading == section.heading
      && r[k].level == section.level
      && r[k].path == section.path
      && r[k].id == idOf(r[k].content)
      && r[k].kind == SubChunk
      && r[k].tokenCount <= EstimateTokens(r[k].content)
  {
    var ds := Pack(Paragraphs.Split(section.content), cfg);
    seq(|ds|, k requires 0 <= k < |ds| =>
      Chunk(ds[k].content, section.heading, section.level, section.path, ds[k].tokenCount,
            idOf(ds[k].content), SubChunk))
  }

  /** A section that does not start with a newline always yields at least one sub-chunk. */
  lemma SplitNeverEmpty(section: Section, cfg: Config, idOf: string -> string)
    requires |section.content| > 0 && section.content[0] != '\n'
    ensures |SplitLargeChunk(section, cfg, idOf)| >= 1
  {
    var paras := Paragraphs.Split(section.content);
    Paragraphs.FirstPieceKeepsStart(section.content);
    PackKeepsFirst(paras, cfg);
  }
}
