/** Metadata dictionaries, the chunks the splitters emit and the documents
    stored in the vector store. */
module Documents {
  import opened Wrappers
  import opened Text

  /** The values metadata dictionaries hold. */
  datatype Value = Str(s: string) | Int(i: int) | Bool(b: bool)

  type Metadata = map<string, Value>

  /** `md.get(key)`. */
  function Get(md: Metadata, key: string): (r: Option<Value>)
    ensures r.Some? <==> key in md
    ensures r.Some? ==> r.value == md[key]
  {
    if key in md then Some(md[key]) else None
  }

  /** `{**md, key: v}`, or `md[key] = v` on a copy: only `key` changes. */
  function With(md: Metadata, key: string, v: Value): (r: Metadata)
    ensures r.Keys == md.Keys + {key} && r[key] == v
    ensures forall k :: k in md && k != key ==> r[k] == md[k]
  {
    md[key := v]
  }

  /** An f-string's rendering of a metadata value; a missing one prints `None`. */
  function Format(v: Option<Value>): string {
    match v
    case None => "None"
    case Some(Str(s)) => s
    case Some(Int(i)) => IntToString(i)
    case Some(Bool(b)) => if b then "True" else "False"
  }

  /** The dictionaries the splitters return: the article splitters add
      `article_number`, the month splitter adds `month`, the others neither. */
  datatype Chunk =
    | ArticleChunk(content: string, articleNumber: Option<nat>, metadata: Metadata)
    | MonthChunk(content: string, month: Option<string>, metadata: Metadata)
    | PlainChunk(content: string, metadata: Metadata)

  /** A stored document: `page_content` and `metadata`. */
  datatype Doc = Doc(content: string, metadata: Metadata)
}
