/** The configuration constants of the pipeline (rag/config.py) and the
    literals written inline in the ingestion and query code. */
module Config {

  /** Characters per chunk window. */
  const ChunkSize: nat := 1000

  /** Characters shared by consecutive windows. */
  const ChunkOverlap: nat := 200

  /** Results requested per question in interactive mode and by default. */
  const DefaultTopK: nat := 5

  /** Name of the one collection the pipeline writes and reads. */
  const CollectionName: string := "scheme_compliance"

  /** Records per `add` call during ingestion. */
  const BatchSize: nat := 100

  /** Characters of a result shown before it is cut off. */
  const DisplayLimit: nat := 500
}
