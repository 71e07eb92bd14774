/**
 src/analysis/rag.js, the corpus: documents, their embeddings and the inverted index, and why scoring a
 query through the index is the same as scanning every document.
 */
module Corpora {
  import opened JsCollections
  import opened JsValues

  type Id = string

  type Vector = seq<real>

  /** A document's metadata, whose values are scalars. */
  type Metadata = map<string, Value>

  datatype Document = Document(id: Id, content: string, embedding: Vector, metadata: Metadata, version: nat)

  /** The values of the inverted index are Sets: each lists its ids in the order they were added. */
  type Index = map<string, seq<Id>>

  datatype Corpus = Corpus(documents: JsMap<Id, Document>, index: Index, embeddings: JsMap<Id, Vector>)

  const EMPTY: Corpus := Corpus(EmptyMap(), map[], EmptyMap())

  /** `terms` stands for _extractTerms, `embed` for the vector of a deterministic embedder. */
  datatype Text = Text(terms: string -> seq<string>, embed: string -> Vector)

  function Listed(index: Index, term: string): seq<Id> { if term in index then index[term] else [] }

  // ---------- The inverted index ----------

  function AddTerms(index: Index, terms: seq<string>, id: Id): Index {
    if terms == [] then index
    else
      var before, t := AddTerms(index, terms[..|terms| - 1], id), terms[|terms| - 1];
      before[t := if id in Listed(before, t) then Listed(before, t) else Listed(before, t) + [id]]
  }

  function RemoveTerms(index: Index, terms: seq<string>, id: Id): Index {
    if terms == [] then index
    else
      var before, t := RemoveTerms(index, terms[..|terms| - 1], id), terms[|terms| - 1];
      if t in before then before[t := Without(before[t], id)] else before
  }

  lemma {:induction false} AddTermsLists(index: Index, terms: seq<string>, id: Id, t: string)
    requires NoDup(Listed(index, t))
    ensures var list := Listed(AddTerms(index, terms, id), t);
      NoDup(list) && forall x :: x in list <==> x in Listed(index, t) || (x == id && t in terms)
  {
    if terms != [] {
      var init, last := terms[..|terms| - 1], terms[|terms| - 1];
      assert terms == init + [last];
      AddTermsLists(index, init, id, t);
    }
  }

  lemma {:induction false} RemoveTermsUnlists(index: Index, terms: seq<string>, id: Id, t: string)
    requires NoDup(Listed(index, t))
    ensures var list := Listed(RemoveTerms(index, terms, id), t);
      NoDup(list) && forall x :: x in list <==> x in Listed(index, t) && !(x == id && t in terms)
  {
    if terms != [] {
      var init, last := terms[..|terms| - 1], terms[|terms| - 1];
      assert terms == init + [last];
      RemoveTermsUnlists(index, init, id, t);
      if t == last {
        WithoutNoDup(Listed(RemoveTerms(index, init, id), t), id);
        WithoutMembers(Listed(RemoveTerms(index, init, id), t), id);
      }
    }
  }

  // ---------- Indexing and deleting ----------

  /** What indexDocument does after its await. */
  function IndexStep(text: Text, c: Corpus, id: Id, content: string, metadata: Metadata): Corpus {
    var version := if c.documents.Has(id) then c.documents.vals[id].version + 1 else 1;
    var index := if c.documents.Has(id) then RemoveTerms(c.index, text.terms(c.documents.vals[id].content), id)
      else c.index;
    Corpus(c.documents.Set(id, Document(id, content, text.embed(content), metadata, version)),
           AddTerms(index, text.terms(content), id), c.embeddings.Set(id, text.embed(content)))
  }

  function RemoveStep(text: Text, c: Corpus, id: Id): Corpus {
    if !c.documents.Has(id) then c
    else Corpus(c.documents.Delete(id), RemoveTerms(c.index, text.terms(c.documents.vals[id].content), id),
      c.embeddings.Delete(id))
  }

  // ---------- Exactness ----------

  type Documents = JsMap<Id, Document>

  predicate Contains(text: Text, documents: Documents, id: Id, t: string) {
    documents.Has(id) && t in text.terms(documents.vals[id].content)
  }

  /** The index lists an id under a term, once, exactly when that live document's content has the term. */
  ghost predicate IndexExact(text: Text, documents: Documents, index: Index) {
    forall t :: NoDup(Listed(index, t)) && forall id :: id in Listed(index, t) <==> Contains(text, documents, id, t)
  }

  /** Every document has the embedding of its content, and nothing else has one. */
  ghost predicate Embedded(text: Text, documents: Documents, embeddings: JsMap<Id, Vector>) {
    forall id ::
      && (id in documents.vals <==> id in embeddings.vals)
      && (id in documents.vals
        ==> embeddings.vals[id] == text.embed(documents.vals[id].content) && documents.vals[id].id == id)
  }

  ghost predicate CorpusOk(text: Text, c: Corpus) {
    IndexExact(text, c.documents, c.index) && Embedded(text, c.documents, c.embeddings)
  }

  lemma RemoveKeepsExact(text: Text, documents: Documents, index: Index, id: Id)
    requires IndexExact(text, documents, index) && documents.Has(id)
    ensures IndexExact(text, documents.Delete(id), RemoveTerms(index, text.terms(documents.vals[id].content), id))
  {
    var terms := text.terms(documents.vals[id].content);
    var index', documents' := RemoveTerms(index, terms, id), documents.Delete(id);
    forall t
      ensures NoDup(Listed(index', t)) && forall x :: x in Listed(index', t) <==> Contains(text, documents', x, t)
    {
      assert NoDup(Listed(index, t));
      RemoveTermsUnlists(index, terms, id, t);
      forall x ensures x in Listed(index', t) <==> Contains(text, documents', x, t) {
        assert x in Listed(index, t) <==> Contains(text, documents, x, t);
      }
    }
  }

  lemma AddKeepsExact(text: Text, documents: Documents, index: Index, id: Id, d: Document)
    requires IndexExact(text, documents, index) && !documents.Has(id)
    ensures IndexExact(text, documents.Set(id, d), AddTerms(index, text.terms(d.content), id))
  {
    var terms := text.terms(d.content);
    var index', documents' := AddTerms(index, terms, id), documents.Set(id, d);
    forall t
      ensures NoDup(Listed(index', t)) && forall x :: x in Listed(index', t) <==> Contains(text, documents', x, t)
    {
      assert NoDup(Listed(index, t));
      AddTermsLists(index, terms, id, t);
      forall x ensures x in Listed(index', t) <==> Contains(text, documents', x, t) {
        assert x in Listed(index, t) <==> Contains(text, documents, x, t);
      }
    }
  }

  /** Setting a document over an old one gives the same Contains as deleting the old one first. */
  lemma SetKeepsExact(text: Text, documents: Documents, index: Index, id: Id, d: Document)
    requires IndexExact(text, documents.Delete(id).Set(id, d), index)
    ensures IndexExact(text, documents.Set(id, d), index)
  {
    forall t, x
      ensures Contains(text, documents.Set(id, d), x, t) <==> Contains(text, documents.Delete(id).Set(id, d), x, t)
    {
    }
  }

  lemma IndexKeepsCorpus(text: Text, c: Corpus, id: Id, content: string, metadata: Metadata)
    requires CorpusOk(text, c)
    ensures CorpusOk(text, IndexStep(text, c, id, content, metadata))
  {
    var c' := IndexStep(text, c, id, content, metadata);
    var d := c'.documents.vals[id];
    if c.documents.Has(id) {
      var index := RemoveTerms(c.index, text.terms(c.documents.vals[id].content), id);
      RemoveKeepsExact(text, c.documents, c.index, id);
      AddKeepsExact(text, c.documents.Delete(id), index, id, d);
      SetKeepsExact(text, c.documents, c'.index, id, d);
    } else {
      AddKeepsExact(text, c.documents, c.index, id, d);
    }
  }

  lemma DeleteKeepsCorpus(text: Text, c: Corpus, id: Id)
    requires CorpusOk(text, c)
    ensures CorpusOk(text, RemoveStep(text, c, id))
  {
    if c.documents.Has(id) {
      RemoveKeepsExact(text, c.documents, c.index, id);
    }
  }

  // ---------- Scoring ----------

  /** Every id of one term gains its weight. */
  function AddTo(scores: JsMap<Id, real>, ids: seq<Id>, weight: real): JsMap<Id, real> {
    if ids == [] then scores
    else
      var before, id := AddTo(scores, ids[..|ids| - 1], weight), ids[|ids| - 1];
      before.Set(id, (if before.Has(id) then before.vals[id] else 0.0) + weight)
  }

  /** The weight of a term that `listed` of `size` documents contain. */
  function Idf(log: real -> real, size: nat, listed: nat): real { log(size as real / (listed + 1) as real) + 1.0 }

  /** The loop of _keywordSearch over the query's terms. */
  function IndexScores(log: real -> real, c: Corpus, terms: seq<string>): JsMap<Id, real> {
    if terms == [] then EmptyMap()
    else
      var before, t := IndexScores(log, c, terms[..|terms| - 1]), terms[|terms| - 1];
      if t in c.index then AddTo(before, c.index[t], Idf(log, c.documents.Size(), |c.index[t]|)) else before
  }

  /** The documents that contain a term, found by looking at all of them. */
  function Containing(text: Text, documents: Documents, t: string): set<Id> {
    set id | id in documents.vals && t in text.terms(documents.vals[id].content)
  }

  /** The score of a document without an index: each of the query's terms it contains counts its weight. */
  function ScanScore(text: Text, log: real -> real, documents: Documents, terms: seq<string>, id: Id): real {
    if terms == [] then 0.0
    else
      var t := terms[|terms| - 1];
      ScanScore(text, log, documents, terms[..|terms| - 1], id)
        + if Contains(text, documents, id, t) then Idf(log, documents.Size(), |Containing(text, documents, t)|) else 0.0
  }

  lemma {:induction false} AddToAdds(scores: JsMap<Id, real>, ids: seq<Id>, weight: real, id: Id)
    requires NoDup(ids)
    ensures var after := AddTo(scores, ids, weight);
      && (id in after.vals <==> id in scores.vals || id in ids)
      && (id in after.vals
        ==> after.vals[id] == (if id in scores.vals then scores.vals[id] else 0.0) + if id in ids then weight else 0.0)
  {
    if ids != [] {
      var init, last := ids[..|ids| - 1], ids[|ids| - 1];
      assert ids == init + [last];
      AddToAdds(scores, init, weight, id);
      assert last !in init;
    }
  }

  lemma ListedIsContaining(text: Text, c: Corpus, t: string)
    requires IndexExact(text, c.documents, c.index)
    ensures |Listed(c.index, t)| == |Containing(text, c.documents, t)|
  {
    SizeIsCardinality(Listed(c.index, t));
    assert (set x | x in Listed(c.index, t)) == Containing(text, c.documents, t) by {
      forall x ensures x in Listed(c.index, t) <==> x in Containing(text, c.documents, t) {
        assert x in Listed(c.index, t) <==> Contains(text, c.documents, x, t);
      }
    }
  }

  /** The query has a term that the document contains. */
  ghost predicate Shares(text: Text, documents: Documents, terms: seq<string>, id: Id) {
    exists i :: 0 <= i < |terms| && Contains(text, documents, id, terms[i])
  }

  /** Scoring through the index is scanning: the same documents are found, with the same scores. */
  lemma {:induction false} IndexScoresAreScans(text: Text, log: real -> real, c: Corpus, terms: seq<string>, id: Id)
    requires IndexExact(text, c.documents, c.index)
    ensures var scores := IndexScores(log, c, terms);
      && (id in scores.vals <==> Shares(text, c.documents, terms, id))
      && (id in scores.vals ==> scores.vals[id] == ScanScore(text, log, c.documents, terms, id))
      && (id !in scores.vals ==> ScanScore(text, log, c.documents, terms, id) == 0.0)
  {
    if terms != [] {
      var init, t := terms[..|terms| - 1], terms[|terms| - 1];
      IndexScoresAreScans(text, log, c, init, id);
      SharesNext(text, c.documents, terms, id);
      assert NoDup(Listed(c.index, t));
      assert id in Listed(c.index, t) <==> Contains(text, c.documents, id, t);
      ListedIsContaining(text, c, t);
      if t in c.index {
        AddToAdds(IndexScores(log, c, init), c.index[t], Idf(log, c.documents.Size(), |c.index[t]|), id);
      }
    }
  }

  lemma SharesNext(text: Text, documents: Documents, terms: seq<string>, id: Id)
    requires terms != []
    ensures Shares(text, documents, terms, id)
      <==> Shares(text, documents, terms[..|terms| - 1], id) || Contains(text, documents, id, terms[|terms| - 1])
  {
    var init := terms[..|terms| - 1];
    if Shares(text, documents, terms, id) {
      var i :| 0 <= i < |terms| && Contains(text, documents, id, terms[i]);
      if i < |init| {
        assert Contains(text, documents, id, init[i]);
      }
    }
    if Shares(text, documents, init, id) {
      var i :| 0 <= i < |init| && Contains(text, documents, id, init[i]);
      assert Contains(text, documents, id, terms[i]);
    }
  }
}
