/**
 `create_semantic_chunks`: the document is cut at its headings into sections,
 each section that fits becomes one chunk, and each that does not is handed
 to the splitter.

 Text before the first heading belongs to no section and is dropped; a
 document without headings yields no chunks. The content fingerprint
 (`_generate_chunk_id`, an MD5 prefix) is the parameter `idOf`.
 */
module Chunker {
  import opened Text
  import opened Chunks
  import Headings
  import Splitter

  /** The titles of the markers with a positive level, in order: the breadcrumb parts. */
  function PathTitles(ms: seq<Headings.Marker>): seq<string>
    decreases |ms|
  {
    if |ms| == 0 then []
    else PathTitles(ms[..|ms| - 1]) + (if ms[|ms| - 1].level > 0 then [ms[|ms| - 1].title] else [])
  }

  /** The breadcrumb of the `i`-th heading: the titles of headings `0..i`, joined by `" > "`. */
  function PathAt(hs: seq<Headings.Marker>, i: nat): string
    requires i < |hs|
  {
    Join(PathTitles(hs[..i + 1]), " > ")
  }

  /** The heading label: the title, or `"Document Start"` for a level-0 marker. */
  function HeadingOf(m: Headings.Marker): string {
    if m.level > 0 then m.title else "Document Start"
  }

  /**
   What the heading list guarantees: real headings first, each at a `#`
   inside the document, positions strictly increasing, and the `END` marker
   at the length of the document.
   */
  predicate Ordered(s: string, hs: seq<Headings.Marker>) {
    && |hs| >= 1
    && hs[|hs| - 1].position == |s|
    && (forall k :: 0 <= k < |hs| ==> 0 <= hs[0].position <= hs[k].position <= |s|)
    && (forall k :: 0 <= k < |hs| - 1 ==>
         && hs[k].position < hs[k + 1].position
         && s[hs[k].position] == '#' && 1 <= hs[k].level <= 6)
  }

  /**
   The section of the `i`-th heading: from its position to the next marker's
   position, so it starts with the heading's marks. It is labelled with the
   heading's title (never `"Document Start"`: `END` is never the current
   marker), level and breadcrumb.
   */
  function SectionAt(s: string, hs: seq<Headings.Marker>, i: nat): (sec: Section)
    requires Ordered(s, hs) && i + 1 < |hs|
    ensures sec.content == s[hs[i].position..hs[i + 1].position]
    ensures |sec.content| > 0 && sec.content[0] == '#'
    ensures sec.heading == hs[i].title && sec.level == hs[i].level && 1 <= sec.level <= 6
    ensures sec.path == PathAt(hs, i)
    ensures sec.tokenCount == EstimateTokens(sec.content)
  {
    var content := s[hs[i].position..hs[i + 1].position];
    Section(content, HeadingOf(hs[i]), hs[i].level, PathAt(hs, i), EstimateTokens(content))
  }

  /** One section per heading of an ordered list. */
  function SectionsOf(s: string, hs: seq<Headings.Marker>): (secs: seq<Section>)
    requires Ordered(s, hs)
    ensures |secs| == |hs| - 1
    ensures forall i :: 0 <= i < |secs| ==> secs[i] == SectionAt(s, hs, i)
  {
    seq(|hs| - 1, i requires 0 <= i < |hs| - 1 => SectionAt(s, hs, i))
  }

  /**
   The initial chunks, one per heading. Each runs from its heading to the
   next heading or the end, starts with the heading's marks, carries the
   heading's title and level, and has its token estimate.
   */
  function Sections(s: string): (secs: seq<Section>)
    ensures Ordered(s, Headings.ExtractHeadingStructure(s))
    ensures secs == SectionsOf(s, Headings.ExtractHeadingStructure(s))
    ensures |secs| == Headings.HeadingCount(s)
  {
    SectionsOf(s, Headings.ExtractHeadingStructure(s))
  }

  /** Every marker before `END` is a heading, so the breadcrumb keeps all their titles. */
  lemma {:induction false} PathTitlesAll(ms: seq<Headings.Marker>)
    requires forall k :: 0 <= k < |ms| ==> ms[k].level > 0
    ensures |PathTitles(ms)| == |ms|
    ensures forall k :: 0 <= k < |ms| ==> PathTitles(ms)[k] == ms[k].title
    decreases |ms|
  {
    if |ms| > 0 {
      PathTitlesAll(ms[..|ms| - 1]);
    }
  }

  /**
   The breadcrumbs grow by one title per heading: the first is its own title,
   and each later one is the previous breadcrumb, `" > "`, and its title.
   */
  lemma PathChain(s: string, hs: seq<Headings.Marker>, i: nat)
    requires Ordered(s, hs) && i < |hs| - 1
    ensures i == 0 ==> PathAt(hs, 0) == hs[0].title
    ensures i > 0 ==> PathAt(hs, i) == PathAt(hs, i - 1) + " > " + hs[i].title
  {
    PathTitlesAll(hs[..i + 1]);
    var ts := PathTitles(hs[..i + 1]);
    if i > 0 {
      PathTitlesAll(hs[..i]);
      assert ts[..i] == PathTitles(hs[..i]);
    } else {
      assert ts == [hs[0].title];
    }
  }

  /** The section contents, concatenated. */
  function SectionText(secs: seq<Section>): string
    decreases |secs|
  {
    if |secs| == 0 then [] else SectionText(secs[..|secs| - 1]) + secs[|secs| - 1].content
  }

  /** The first `n` sections run without gap or overlap from the first heading to heading `n`. */
  lemma {:induction false} SectionsTilePrefix(s: string, hs: seq<Headings.Marker>, n: nat)
    requires Ordered(s, hs) && 0 < n < |hs|
    ensures SectionText(SectionsOf(s, hs)[..n]) == s[hs[0].position..hs[n].position]
    decreases n
  {
    var secs := SectionsOf(s, hs);
    if n > 1 {
      SectionsTilePrefix(s, hs, n - 1);
      assert secs[..n][..n - 1] == secs[..n - 1];
      assert s[hs[0].position..hs[n].position]
          == s[hs[0].position..hs[n - 1].position] + s[hs[n - 1].position..hs[n].position];
    } else {
      assert SectionText(secs[..1]) == SectionText([]) + secs[0].content;
    }
  }

  /**
   The sections tile the document from its first heading to the end, and a
   document without headings has no sections.
   */
  lemma SectionsTile(s: string, hs: seq<Headings.Marker>)
    requires Ordered(s, hs)
    ensures |hs| == 1 ==> SectionsOf(s, hs) == []
    ensures |hs| > 1 ==> SectionText(SectionsOf(s, hs)) == s[hs[0].position..]
  {
    if |hs| > 1 {
      var secs := SectionsOf(s, hs);
      var n := |hs| - 1;
      SectionsTilePrefix(s, hs, n);
      TakeAll(secs, n);
      DropToEnd(s, hs[0].position, hs[n].position);
    }
  }

  /** One initial chunk, kept whole with its id when it fits, split otherwise. */
  function Expand(sec: Section, cfg: Config, idOf: string -> string): (r: seq<Chunk>)
    requires sec.tokenCount == EstimateTokens(sec.content)
    ensures forall k :: 0 <= k < |r| ==>
      && r[k].heading == sec.heading && r[k].level == sec.level && r[k].path == sec.path
      && r[k].id == idOf(r[k].content)
      && r[k].tokenCount <= EstimateTokens(r[k].content)
    ensures sec.tokenCount <= cfg.maxChunkSize ==>
      r == [Chunk(sec.content, sec.heading, sec.level, sec.path, sec.tokenCount, idOf(sec.content), HeadingSection)]
    ensures sec.tokenCount > cfg.maxChunkSize ==>
      forall k :: 0 <= k < |r| ==> r[k].kind == SubChunk && r[k].content != []
  {
    if sec.tokenCount <= cfg.maxChunkSize then
      [Chunk(sec.content, sec.heading, sec.level, sec.path, sec.tokenCount, idOf(sec.content), HeadingSection)]
    else Splitter.SplitLargeChunk(sec, cfg, idOf)
  }

  /** The section contents' chunks, in section order. */
  function ExpandAll(secs: seq<Section>, cfg: Config, idOf: string -> string): (r: seq<Chunk>)
    requires Estimated(secs)
    ensures forall k :: 0 <= k < |r| ==>
      && r[k].id == idOf(r[k].content)
      && r[k].tokenCount <= EstimateTokens(r[k].content)
      && (r[k].kind == HeadingSection ==> r[k].tokenCount <= cfg.maxChunkSize)
      && exists i :: 0 <= i < |secs| && r[k].heading == secs[i].heading && r[k].level == secs[i].level
                                     && r[k].path == secs[i].path
    decreases |secs|
  {
    if |secs| == 0 then []
    else
      var init := ExpandAll(secs[..|secs| - 1], cfg, idOf);
      var last := Expand(secs[|secs| - 1], cfg, idOf);
      assert forall i :: 0 <= i < |secs| - 1 ==> secs[..|secs| - 1][i] == secs[i];
      init + last
  }

  /** Sections are expanded in place: the chunks of two runs of sections are the chunks of each, in order. */
  lemma {:induction false} ExpandAllConcat(a: seq<Section>, b: seq<Section>, cfg: Config, idOf: string -> string)
    requires Estimated(a + b)
    ensures Estimated(a) && Estimated(b)
    ensures ExpandAll(a + b, cfg, idOf) == ExpandAll(a, cfg, idOf) + ExpandAll(b, cfg, idOf)
    decreases |b|
  {
    EstimatedParts(a, b);
    if |b| == 0 {
      assert a + b == a;
    } else {
      var init := b[..|b| - 1];
      var last := b[|b| - 1];
      var whole := a + b;
      assert whole[..|whole| - 1] == a + init;
      assert whole[|whole| - 1] == last;
      ExpandAllSnoc(whole, cfg, idOf);
      ExpandAllSnoc(b, cfg, idOf);
      ExpandAllConcat(a, init, cfg, idOf);
      var x, y, z := ExpandAll(a, cfg, idOf), ExpandAll(init, cfg, idOf), Expand(last, cfg, idOf);
      assert ExpandAll(whole, cfg, idOf) == x + y + z;
      assert ExpandAll(b, cfg, idOf) == y + z;
    }
  }

  /** Each section of a run carries its own token estimate. */
  predicate Estimated(secs: seq<Section>) {
    forall i :: 0 <= i < |secs| ==> secs[i].tokenCount == EstimateTokens(secs[i].content)
  }

  lemma EstimatedParts(a: seq<Section>, b: seq<Section>)
    requires Estimated(a + b)
    ensures Estimated(a) && Estimated(b)
  {
    assert forall i :: 0 <= i < |a| ==> a[i] == (a + b)[i];
    assert forall i :: 0 <= i < |b| ==> b[i] == (a + b)[|a| + i];
  }

  /** The expansion, unrolled once at the end. */
  lemma ExpandAllSnoc(secs: seq<Section>, cfg: Config, idOf: string -> string)
    requires |secs| > 0 && Estimated(secs)
    ensures Estimated(secs[..|secs| - 1])
    ensures ExpandAll(secs, cfg, idOf)
         == ExpandAll(secs[..|secs| - 1], cfg, idOf) + Expand(secs[|secs| - 1], cfg, idOf)
  {
    var init := secs[..|secs| - 1];
    assert forall i :: 0 <= i < |init| ==> init[i] == secs[i];
  }

  /**
   `create_semantic_chunks` on a loaded document: every chunk has its
   content fingerprint as id, a heading level of 1 to 6, non-empty content,
   and a token count no larger than the estimate of its content; a chunk
   kept whole is within the limit. The heading, level and breadcrumb of a
   chunk are those of one heading of the document.
   */
  function CreateSemanticChunks(s: string, cfg: Config, idOf: string -> string): (r: seq<Chunk>)
    ensures forall k :: 0 <= k < |r| ==>
      && r[k].id == idOf(r[k].content)
      && 1 <= r[k].level <= 6
      && r[k].content != []
      && r[k].tokenCount <= EstimateTokens(r[k].content)
      && (r[k].kind == HeadingSection ==> r[k].tokenCount <= cfg.maxChunkSize)
    ensures Headings.HeadingCount(s) == 0 ==> r == []
  {
    var secs := Sections(s);
    SectionsWellFormed(s);
    var r := ExpandAll(secs, cfg, idOf);
    ChunksNonEmpty(secs, cfg, idOf);
    r
  }

  /** Every section is non-empty, starts with a heading's marks and has a heading's level. */
  predicate HeadingSections(secs: seq<Section>) {
    forall i :: 0 <= i < |secs| ==>
      && secs[i].content != [] && secs[i].content[0] == '#' && 1 <= secs[i].level <= 6
  }

  /** Each section of a document is non-empty, at a heading level, with its own token estimate. */
  lemma SectionsWellFormed(s: string)
    ensures Estimated(Sections(s)) && HeadingSections(Sections(s))
  {
    var hs := Headings.ExtractHeadingStructure(s);
    var secs := Sections(s);
    forall i | 0 <= i < |secs|
      ensures secs[i].tokenCount == EstimateTokens(secs[i].content)
      ensures secs[i].content != [] && 1 <= secs[i].level <= 6
      ensures secs[i].content[0] == '#'
    {
      assert secs[i] == SectionAt(s, hs, i);
    }
  }

  /** Chunk contents are never empty and levels stay those of headings. */
  lemma {:induction false} ChunksNonEmpty(secs: seq<Section>, cfg: Config, idOf: string -> string)
    requires Estimated(secs) && HeadingSections(secs)
    ensures forall k :: 0 <= k < |ExpandAll(secs, cfg, idOf)| ==>
      ExpandAll(secs, cfg, idOf)[k].content != [] && 1 <= ExpandAll(secs, cfg, idOf)[k].level <= 6
    decreases |secs|
  {
    if |secs| > 0 {
      ChunksNonEmpty(secs[..|secs| - 1], cfg, idOf);
    }
  }

  /** The chunk contents, concatenated. */
  function ChunkText(cs: seq<Chunk>): string
    decreases |cs|
  {
    if |cs| == 0 then [] else ChunkText(cs[..|cs| - 1]) + cs[|cs| - 1].content
  }

  /**
   When no section is over the limit nothing is split: there is one chunk per
   heading, and the chunks tile the document from its first heading to the end.
   */
  lemma NoSplitTiles(s: string, cfg: Config, idOf: string -> string)
    requires forall i :: 0 <= i < |Sections(s)| ==> Sections(s)[i].tokenCount <= cfg.maxChunkSize
    ensures |CreateSemanticChunks(s, cfg, idOf)| == Headings.HeadingCount(s)
    ensures Headings.HeadingCount(s) > 0 ==>
      ChunkText(CreateSemanticChunks(s, cfg, idOf)) == s[Headings.ExtractHeadingStructure(s)[0].position..]
  {
    var hs := Headings.ExtractHeadingStructure(s);
    var secs := Sections(s);
    WholeSections(secs, cfg, idOf);
    SectionsTile(s, hs);
  }

  lemma {:induction false} WholeSections(secs: seq<Section>, cfg: Config, idOf: string -> string)
    requires forall i :: 0 <= i < |secs| ==>
      secs[i].tokenCount == EstimateTokens(secs[i].content) && secs[i].tokenCount <= cfg.maxChunkSize
    ensures |ExpandAll(secs, cfg, idOf)| == |secs|
    ensures ChunkText(ExpandAll(secs, cfg, idOf)) == SectionText(secs)
    decreases |secs|
  {
    if |secs| > 0 {
      var init := secs[..|secs| - 1];
      WholeSections(init, cfg, idOf);
      var cs := ExpandAll(secs, cfg, idOf);
      assert cs[..|cs| - 1] == ExpandAll(init, cfg, idOf);
    }
  }

  /**
   Every heading yields at least one chunk: a section starts with the
   heading's marks, so it is never cut down to nothing.
   */
  lemma EveryHeadingChunked(s: string, cfg: Config, idOf: string -> string)
    ensures |CreateSemanticChunks(s, cfg, idOf)| >= Headings.HeadingCount(s)
  {
    var secs := Sections(s);
    SectionsWellFormed(s);
    AtLeastOnePerSection(secs, cfg, idOf);
  }

  lemma {:induction false} AtLeastOnePerSection(secs: seq<Section>, cfg: Config, idOf: string -> string)
    requires Estimated(secs) && HeadingSections(secs)
    ensures |ExpandAll(secs, cfg, idOf)| >= |secs|
    decreases |secs|
  {
    if |secs| > 0 {
      AtLeastOnePerSection(secs[..|secs| - 1], cfg, idOf);
      var last := secs[|secs| - 1];
      if last.tokenCount > cfg.maxChunkSize {
        Splitter.SplitNeverEmpty(last, cfg, idOf);
      }
    }
  }
}
