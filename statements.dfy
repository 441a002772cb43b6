/** The slice of the statement object model that the evidence filter
    touches: a statement is its hash plus its ordered evidence, and each
    evidence item is known only by the name of the reader that produced it. */
module Statements {

  /** Name of a knowledge source ("reach", "sparser", "medscan", ...). */
  type Source = string

  /** Gene symbol of an ion channel. */
  type Channel = string

  /** The statement hash, treated as an opaque key (it is not recomputed
      from the statement's content). */
  type Hash = int

  /** The low-precision source whose evidence the filter discounts. */
  const Medscan: Source := "medscan"

  datatype Evidence = Evidence(sourceApi: Source)

  datatype Statement = Statement(hash: Hash, evidence: seq<Evidence>)

  /** Per statement hash, the number of evidence items from each source. */
  type SourceCounts = map<Hash, map<Source, int>>

  /** Why filtering a batch stops: its table has no entry for a statement,
      so the lookup yields nothing and summing over it raises. */
  datatype FilterError = MissingSourceCounts(hash: Hash)
}
