/**
 * The provenance record: a retrievable chunk together with where it came from,
 * the dataset version it belongs to and the transforms that produced it.
 */
module LineageNodes {
  import opened Wrappers

  /** A point in time; clocks are outside the model, so timestamps are opaque values. */
  type Timestamp = int

  /** A value of the open metadata bag (transforms store ints, booleans and strings there). */
  datatype MetaValue = MInt(i: int) | MBool(b: bool) | MStr(s: string)

  type Metadata = map<string, MetaValue>

  /**
   * The source reference: a closed union of exactly four variants. Every variant
   * has a `uri`; a PDF page and a table row are required, the rest is optional.
   */
  datatype SourceRef =
    | FileSource(uri: string, lineStart: Option<int>, lineEnd: Option<int>)
    | PdfSource(uri: string, page: int, section: Option<string>)
    | TabularSource(uri: string, row: int, column: Option<string>)
    | ApiSource(uri: string, requestId: Option<string>, timestamp: Option<string>)
  {
    /** The fixed `type` literal of the variant. */
    function TypeTag(): (t: string)
      ensures t == "file" <==> FileSource?
      ensures t == "pdf" <==> PdfSource?
      ensures t == "tabular" <==> TabularSource?
      ensures t == "api" <==> ApiSource?
    {
      match this
      case FileSource(_, _, _) => "file"
      case PdfSource(_, _, _) => "pdf"
      case TabularSource(_, _, _) => "tabular"
      case ApiSource(_, _, _) => "api"
    }
  }

  /** Two references with the same type tag are of the same variant. */
  lemma TypeTagDeterminesVariant(a: SourceRef, b: SourceRef)
    requires a.TypeTag() == b.TypeTag()
    ensures (a.FileSource? && b.FileSource?) || (a.PdfSource? && b.PdfSource?)
         || (a.TabularSource? && b.TabularSource?) || (a.ApiSource? && b.ApiSource?)
  {
  }

  /** The Lineage Node record. */
  datatype LineageNode = LineageNode(
    lnId: string,
    content: string,
    source: SourceRef,
    datasetVersion: string,
    transformChain: seq<string>,
    contentHash: string,
    createdAt: Timestamp,
    updatedAt: Option<Timestamp>,
    metadata: Metadata)

  /**
   * Constructing a node from its required fields: the given values are stored
   * unchanged, `transform_chain` defaults to [], `metadata` to {} and
   * `updated_at` to None; `created_at` is the clock reading passed in.
   */
  function NewLineageNode(lnId: string, content: string, source: SourceRef, datasetVersion: string,
                          contentHash: string, now: Timestamp): (n: LineageNode)
    ensures n.lnId == lnId && n.content == content && n.source == source
    ensures n.datasetVersion == datasetVersion && n.contentHash == contentHash
    ensures n.transformChain == [] && n.metadata == map[] && n.updatedAt == None
    ensures n.createdAt == now
  {
    LineageNode(lnId, content, source, datasetVersion, [], contentHash, now, None, map[])
  }
}
