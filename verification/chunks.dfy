/**
 The records and settings the markdown chunker passes between its stages.
 */
module Chunks {

  /** The chunker's size settings, both in estimated tokens (defaults 1024 and 200). */
  datatype Config = Config(maxChunkSize: int, overlapSize: int)

  const DefaultConfig := Config(1024, 200)

  /** `estimate_tokens`: one token per four characters, rounded down. */
  function EstimateTokens(text: string): (n: nat)
    ensures 4 * n <= |text| < 4 * n + 4
  {
    |text| / 4
  }

  /** Rounding down each part never gives more tokens than estimating the joined text. */
  lemma EstimateSuperadditive(a: string, b: string)
    ensures EstimateTokens(a) + EstimateTokens(b) <= EstimateTokens(a + b)
  {
    assert |a + b| == |a| + |b|;
  }

  /**
   Chunks cut at a heading carry no `chunk_type` key in the source; the
   splitter's chunks carry `'sub_chunk'`.
   */
  datatype ChunkKind = HeadingSection | SubChunk

  /**
   A section cut from the document at its headings, before any id is given:
   the dictionary `create_semantic_chunks` builds for each heading.
   */
  datatype Section = Section(content: string, heading: string, level: int, path: string, tokenCount: int)

  /** An emitted chunk. `id` is the content fingerprint. */
  datatype Chunk = Chunk(
    content: string,
    heading: string,
    level: int,
    path: string,
    tokenCount: int,
    id: string,
    kind: ChunkKind
  )
}
