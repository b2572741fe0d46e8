/**
 * The long-term memory's document bookkeeping: documents and their dictionary
 * form, appending, loading the persisted list, and mapping search hits back
 * to documents. Embeddings and the vector index are outside the model: the
 * index is a flag, and its search result is a parameter.
 */
module DocumentStore {
  import opened Wrappers
  import opened Json

  datatype Document = Document(pageContent: Value, metadata: Value)

  const PageContentKey := "page_content"
  const MetadataKey := "metadata"

  /** `Document.to_dict`. */
  function ToDict(d: Document): (v: Value)
    ensures v.Obj? && v.fields.Keys == {PageContentKey, MetadataKey}
  {
    Obj(map[PageContentKey := d.pageContent, MetadataKey := d.metadata])
  }

  /**
   * `Document.from_dict`: subscripting a non-object raises a TypeError, and a
   * missing key raises a KeyError, `page_content` being looked up first.
   */
  function FromDict(v: Value): (r: Result<Document, string>)
    ensures r.Success? <==> v.Obj? && PageContentKey in v.fields && MetadataKey in v.fields
    ensures r.Success? ==> r.value.pageContent == v.fields[PageContentKey] && r.value.metadata == v.fields[MetadataKey]
  {
    if !v.Obj? then Failure("TypeError")
    else if PageContentKey !in v.fields then Failure("KeyError: 'page_content'")
    else if MetadataKey !in v.fields then Failure("KeyError: 'metadata'")
    else Success(Document(v.fields[PageContentKey], v.fields[MetadataKey]))
  }

  /** A document survives the trip through its dictionary form. */
  lemma FromDictToDict(d: Document)
    ensures FromDict(ToDict(d)) == Success(d)
  {
  }

  /** A dictionary with exactly the two keys survives the trip through a document. */
  lemma ToDictFromDict(v: Value)
    requires v.Obj? && v.fields.Keys == {PageContentKey, MetadataKey}
    ensures FromDict(v).Success? && ToDict(FromDict(v).value) == v
  {
    assert ToDict(FromDict(v).value).fields == v.fields;
  }

  /** Documents lose nothing but extra keys: a dictionary with more keys decodes to the same document as its two-key restriction. */
  lemma ExtraKeysIgnored(v: Value, key: string, extra: Value)
    requires v.Obj? && key != PageContentKey && key != MetadataKey
    ensures FromDict(Obj(v.fields[key := extra])) == FromDict(v)
  {
  }

  /** The persisted list: one dictionary per document, in order. */
  function Dicts(docs: seq<Document>): (vs: seq<Value>)
    ensures |vs| == |docs| && forall i :: 0 <= i < |docs| ==> vs[i] == ToDict(docs[i])
  {
    if docs == [] then [] else [ToDict(docs[0])] + Dicts(docs[1..])
  }

  /** `[Document.from_dict(d) for d in data]`: the first failing entry aborts the load. */
  function FromDicts(items: seq<Value>): (r: Result<seq<Document>, string>)
    ensures r.Success? <==> forall i :: 0 <= i < |items| ==> FromDict(items[i]).Success?
    ensures r.Success? ==> |r.value| == |items| && forall i :: 0 <= i < |items| ==> r.value[i] == FromDict(items[i]).value
  {
    if items == [] then Success([])
    else match FromDict(items[0])
      case Failure(e) => Failure(e)
      case Success(d) =>
        match FromDicts(items[1..])
        case Failure(e) => Failure(e)
        case Success(ds) =>
          assert forall i :: 1 <= i < |items| ==> items[i] == items[1..][i - 1];
          Success([d] + ds)
  }

  /**
   * Iterating the decoded file: a list yields its entries; an empty object or
   * string yields nothing; a non-empty object or string yields strings, which
   * cannot be subscripted by key; anything else is not iterable.
   */
  function LoadDocuments(data: Value): (r: Result<seq<Document>, string>)
    ensures data.Arr? ==> r == FromDicts(data.items)
    ensures data.Null? || data.Num? || data.Bool? ==> r.Failure?
  {
    match data
    case Arr(items) => FromDicts(items)
    case Obj(fields) => if fields == map[] then Success([]) else Failure("TypeError")
    case Str(s) => if s == "" then Success([]) else Failure("TypeError")
    case _ => Failure("TypeError: not iterable")
  }

  /** Loading what was persisted restores the documents in the same order. */
  lemma LoadPersistedDocuments(docs: seq<Document>)
    ensures LoadDocuments(Arr(Dicts(docs))) == Success(docs)
  {
    var r := FromDicts(Dicts(docs));
    forall i | 0 <= i < |docs|
      ensures FromDict(Dicts(docs)[i]) == Success(docs[i])
    {
      FromDictToDict(docs[i]);
    }
    assert r.value == docs;
  }

  datatype VTuberMemory = VTuberMemory(documents: seq<Document>, hasIndex: bool, documentsFile: Option<Value>)

  /**
   * `_load_persisted_data`: documents come from the documents file when it
   * exists; an index exists when an index file or an embeddings file does.
   */
  function LoadPersisted(documentsFile: Option<Value>, embeddingsFile: bool, indexFile: bool): (r: Result<VTuberMemory, string>)
    ensures documentsFile.None? ==> r == Success(VTuberMemory([], embeddingsFile || indexFile, None))
    ensures documentsFile.Some? ==> (r.Success? <==> LoadDocuments(documentsFile.value).Success?)
    ensures r.Success? && documentsFile.Some? ==> r.value.documents == LoadDocuments(documentsFile.value).value
  {
    match documentsFile
    case None => Success(VTuberMemory([], embeddingsFile || indexFile, None))
    case Some(data) =>
      match LoadDocuments(data)
      case Failure(e) => Failure(e)
      case Success(docs) => Success(VTuberMemory(docs, embeddingsFile || indexFile, documentsFile))
  }

  /** `_update_index`: without documents nothing happens; otherwise the index is rebuilt and the list persisted. */
  function UpdateIndex(m: VTuberMemory): (r: VTuberMemory)
    ensures m.documents == [] ==> r == m
    ensures m.documents != [] ==> r.hasIndex && r.documentsFile == Some(Arr(Dicts(m.documents)))
    ensures r.documents == m.documents
  {
    if m.documents == [] then m
    else m.(hasIndex := true, documentsFile := Some(Arr(Dicts(m.documents))))
  }

  /** `meta or {}`. */
  function MetaOrEmpty(meta: Value): (r: Value)
    ensures Falsy(meta) ==> r == EmptyObject
    ensures !Falsy(meta) ==> r == meta
  {
    if Falsy(meta) then EmptyObject else meta
  }

  /** `add`: appends exactly one document at the end and re-indexes. */
  function Add(m: VTuberMemory, text: string, meta: Value): (r: VTuberMemory)
    ensures r.documents == m.documents + [Document(Str(text), MetaOrEmpty(meta))]
    ensures r.hasIndex
    ensures r.documentsFile == Some(Arr(Dicts(r.documents)))
  {
    UpdateIndex(m.(documents := m.documents + [Document(Str(text), MetaOrEmpty(meta))]))
  }

  /** What `add` leaves when re-indexing may raise: the store, and whether the call raised. */
  datatype AddOutcome = AddOutcome(memory: VTuberMemory, raised: bool)

  /**
   * `add` with the outcome of `_update_index` as a parameter. The document is
   * appended before re-indexing, so it stays in memory even when encoding the
   * documents raises; the index and the documents file are then left as they
   * were, and the error propagates to the caller.
   */
  function TryAdd(m: VTuberMemory, text: string, meta: Value, indexed: bool): (r: AddOutcome)
    ensures r.memory.documents == m.documents + [Document(Str(text), MetaOrEmpty(meta))]
    ensures r.raised <==> !indexed
    ensures indexed ==> r.memory == Add(m, text, meta)
    ensures !indexed ==> r.memory.hasIndex == m.hasIndex && r.memory.documentsFile == m.documentsFile
  {
    if indexed then AddOutcome(Add(m, text, meta), false)
    else AddOutcome(m.(documents := m.documents + [Document(Str(text), MetaOrEmpty(meta))]), true)
  }

  /**
   * An add whose re-indexing raised is held in memory only: reloading the
   * store from its documents file gives the documents from before the add.
   */
  lemma FailedAddNotPersisted(m: VTuberMemory, text: string, meta: Value, embeddingsFile: bool, indexFile: bool)
    requires m.documentsFile == Some(Arr(Dicts(m.documents)))
    ensures var r := TryAdd(m, text, meta, false).memory;
            && LoadPersisted(r.documentsFile, embeddingsFile, indexFile).Success?
            && LoadPersisted(r.documentsFile, embeddingsFile, indexFile).value.documents == m.documents
            && |r.documents| == |m.documents| + 1
  {
    LoadPersistedDocuments(m.documents);
  }

  /** After an add, a reload from the persisted file sees the same documents. */
  lemma AddThenReload(m: VTuberMemory, text: string, meta: Value, embeddingsFile: bool, indexFile: bool)
    ensures var r := Add(m, text, meta);
            LoadPersisted(r.documentsFile, embeddingsFile, indexFile).Success?
            && LoadPersisted(r.documentsFile, embeddingsFile, indexFile).value.documents == r.documents
  {
    LoadPersistedDocuments(Add(m, text, meta).documents);
  }

  /** Python indexing `documents[i]`: negative indices count from the end. */
  function PyIndex(i: int, n: nat): (r: Option<nat>)
    ensures r.Some? <==> -(n as int) <= i < n
    ensures r.Some? ==> r.value < n && (i >= 0 ==> r.value == i) && (i < 0 ==> r.value == n + i)
  {
    if 0 <= i < n then Some(i)
    else if -(n as int) <= i < 0 then Some(n + i)
    else None
  }

  function PageContents(docs: seq<Document>, hits: seq<int>): (r: Result<seq<Value>, string>)
    ensures r.Success? <==> forall k :: 0 <= k < |hits| ==> PyIndex(hits[k], |docs|).Some?
    ensures r.Success? ==>
              && |r.value| == |hits|
              && forall k :: 0 <= k < |hits| ==> r.value[k] == docs[PyIndex(hits[k], |docs|).value].pageContent
  {
    if hits == [] then Success([])
    else match PyIndex(hits[0], |docs|)
      case None => Failure("IndexError: list index out of range")
      case Some(i) =>
        match PageContents(docs, hits[1..])
        case Failure(e) => Failure(e)
        case Success(rest) =>
          assert forall k :: 1 <= k < |hits| ==> hits[k] == hits[1..][k - 1];
          Success([docs[i].pageContent] + rest)
  }

  /**
   * `retrieve` as written: no documents or no index gives []; otherwise the
   * page content of the document at each index the vector search returned,
   * in that order.
   */
  function Retrieve(m: VTuberMemory, hits: seq<int>): (r: Result<seq<Value>, string>)
    ensures m.documents == [] || !m.hasIndex ==> r == Success([])
    ensures m.documents != [] && m.hasIndex ==> r == PageContents(m.documents, hits)
  {
    if m.documents == [] || !m.hasIndex then Success([])
    else PageContents(m.documents, hits)
  }

  /**
   * The vector search fills the slots it has no neighbour for with -1, and
   * `documents[-1]` is the last document: with one document and two slots,
   * the last document comes back twice.
   */
  lemma PaddingRepeatsLastDocument(d: Document)
    ensures Retrieve(VTuberMemory([d], true, None), [0, -1]) == Success([d.pageContent, d.pageContent])
  {
    var hits := [0, -1];
    assert PyIndex(hits[0], 1) == Some(0) && PyIndex(hits[1], 1) == Some(0);
    var r := PageContents([d], hits);
    assert r.Success?;
    assert r.value == [d.pageContent, d.pageContent];
  }

  /** The hits that name a neighbour: the search result without its -1 padding. */
  function Neighbours(hits: seq<int>): (r: seq<nat>)
    ensures |r| <= |hits|
  {
    if hits == [] then []
    else (if hits[0] >= 0 then [hits[0] as nat] else []) + Neighbours(hits[1..])
  }

  predicate AllBelow(ns: seq<nat>, n: nat) {
    forall k :: 0 <= k < |ns| ==> ns[k] < n
  }

  /**
   * `retrieve` with padding slots skipped: the page contents of exactly the
   * neighbours found, in rank order, never a document the search did not name.
   */
  function RetrieveNeighbours(m: VTuberMemory, hits: seq<int>): (r: Result<seq<Value>, string>)
    ensures m.documents == [] || !m.hasIndex ==> r == Success([])
    ensures m.documents != [] && m.hasIndex ==> (r.Success? <==> AllBelow(Neighbours(hits), |m.documents|))
    ensures r.Success? && m.documents != [] && m.hasIndex ==>
              && |r.value| == |Neighbours(hits)|
              && forall k :: 0 <= k < |r.value| ==> r.value[k] == m.documents[Neighbours(hits)[k]].pageContent
  {
    if m.documents == [] || !m.hasIndex then Success([])
    else
      var ns := Neighbours(hits);
      var r := PageContents(m.documents, ns);
      forall k | 0 <= k < |ns|
        ensures PyIndex(ns[k], |m.documents|).Some? <==> ns[k] < |m.documents|
        ensures PyIndex(ns[k], |m.documents|).Some? ==> PyIndex(ns[k], |m.documents|).value == ns[k]
      {
      }
      assert r.Success? <==> AllBelow(ns, |m.documents|);
      r
  }

  /** On the padded result above, the corrected retrieval returns the one document once. */
  lemma PaddingSkipped(d: Document)
    ensures RetrieveNeighbours(VTuberMemory([d], true, None), [0, -1]) == Success([d.pageContent])
  {
    var hits := [0, -1];
    assert Neighbours(hits) == [0] by {
      assert hits[1..] == [-1];
      assert hits[1..][1..] == [];
    }
    var r := PageContents([d], [0]);
    assert r.Success?;
    assert r.value == [d.pageContent];
  }

  /** When every slot holds a neighbour, the corrected retrieval agrees with the original. */
  lemma {:induction false} NoPaddingAgrees(m: VTuberMemory, hits: seq<int>)
    requires forall k :: 0 <= k < |hits| ==> hits[k] >= 0
    ensures RetrieveNeighbours(m, hits) == Retrieve(m, hits)
  {
    NeighboursOfNonNegative(hits);
  }

  lemma {:induction false} NeighboursOfNonNegative(hits: seq<int>)
    requires forall k :: 0 <= k < |hits| ==> hits[k] >= 0
    ensures Neighbours(hits) == hits
  {
    if hits != [] {
      NeighboursOfNonNegative(hits[1..]);
      assert [hits[0]] + hits[1..] == hits;
    }
  }
}
