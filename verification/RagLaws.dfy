/**
 src/analysis/rag.js over whole runs: a document holds what was last indexed; which terms weigh more; what a keyword
 score adds up, and how it is normalised.
 */
module RagLaws {
  import opened JsCollections
  import opened Corpora
  import opened Rag
  import opened RagCache
  import opened RagResults

  // ---------- Documents ----------

  /** What is said of a document after one more step. An id or a content that is empty is refused. */
  function Told(text: Text, before: Option<Document>, l: Label, id: Id): Option<Document> {
    match l
    case IndexDone(x, content, metadata) =>
      if x == id && id != "" && content != "" then
        Some(Document(id, content, text.embed(content), metadata,
          if before.Some? then before.value.version + 1 else 1))
      else before
    case Delete(x) => if x == id then None else before
    case Clear => None
    case _ => before
  }

  /** What was last indexed under an id and not deleted since; its version counts how often it was indexed. */
  function Indexed(text: Text, labels: seq<Label>, id: Id): Option<Document> {
    if labels == [] then None else Told(text, Indexed(text, labels[..|labels| - 1], id), labels[|labels| - 1], id)
  }

  function DocumentOf(c: Corpus, id: Id): Option<Document> {
    if c.documents.Has(id) then Some(c.documents.vals[id]) else None
  }

  /** In every run, under every interleaving, a document is there exactly when it was indexed and not deleted since. */
  lemma {:induction false} DocumentsAreAsIndexed(env: Env, limits: Limits, labels: seq<Label>, id: Id)
    ensures DocumentOf(After(env, limits, labels).corpus, id) == Indexed(env.text, labels, id)
  {
    if labels != [] {
      var init, l := labels[..|labels| - 1], labels[|labels| - 1];
      DocumentsAreAsIndexed(env, limits, init, id);
      StepTells(env, limits, After(env, limits, init), l, id);
    }
  }

  lemma StepTells(env: Env, limits: Limits, s: System, l: Label, id: Id)
    ensures DocumentOf(Step(env, limits, s, l).0.corpus, id) == Told(env.text, DocumentOf(s.corpus, id), l, id)
  {
  }

  // ---------- The weight of a term ----------

  /** What the logarithm is needed for: it grows, and is 0 at 1. */
  ghost predicate IsLog(log: real -> real) {
    log(1.0) == 0.0 && forall x, y :: 0.0 < x < y ==> log(x) < log(y)
  }

  lemma FewerIsMore(size: nat, listed: nat, listed': nat)
    requires size > 0 && listed < listed'
    ensures 0.0 < size as real / (listed' + 1) as real < size as real / (listed + 1) as real
  {
    var n, a, b := size as real, (listed + 1) as real, (listed' + 1) as real;
    var x, y := n / b, n / a;
    assert x * b == n && y * a == n;
    if x <= 0.0 {
      NotPositive(x, b);
    }
    if y <= x {
      Larger(y, x, a, b);
    }
  }

  lemma NotPositive(x: real, b: real)
    requires x <= 0.0 && b > 0.0
    ensures x * b <= 0.0
  {
  }

  lemma Larger(y: real, x: real, a: real, b: real)
    requires y <= x && x > 0.0 && 0.0 < a < b
    ensures y * a < x * b
  {
    assert y * a <= x * a by {
      NotPositive(y - x, a);
      assert (y - x) * a == y * a - x * a;
    }
    assert x * b - x * a == x * (b - a) > 0.0;
  }

  lemma SelfQuotient(x: real)
    requires x > 0.0
    ensures x / x == 1.0
  {
  }

  /** The fewer documents have a term the more it weighs; one that all but one document have weighs 1. */
  lemma RarerWeighsMore(log: real -> real, size: nat, listed: nat, listed': nat)
    requires IsLog(log) && size > 0
    ensures listed < listed' ==> Idf(log, size, listed) > Idf(log, size, listed')
    ensures listed + 1 == size ==> Idf(log, size, listed) == 1.0
    ensures listed + 1 < size ==> Idf(log, size, listed) > 1.0
  {
    if listed < listed' {
      FewerIsMore(size, listed, listed');
    }
    if listed + 1 <= size {
      SelfQuotient(size as real);
      if listed + 1 < size {
        FewerIsMore(size, listed, size - 1);
      }
    }
  }

  // ---------- Scores ----------

  /** Scores add up, term by term. */
  lemma {:induction false} ScoresAdd(text: Text, log: real -> real, documents: Documents, a: seq<string>,
      b: seq<string>, id: Id)
    ensures ScanScore(text, log, documents, a + b, id)
      == ScanScore(text, log, documents, a, id) + ScanScore(text, log, documents, b, id)
  {
    if b == [] {
      assert a + b == a;
    } else {
      assert (a + b)[..|a + b| - 1] == a + b[..|b| - 1];
      ScoresAdd(text, log, documents, a, b[..|b| - 1], id);
    }
  }

  /** A single term scores its weight where it occurs, and nothing elsewhere. */
  lemma OneTermScores(text: Text, log: real -> real, documents: Documents, t: string, id: Id)
    ensures ScanScore(text, log, documents, [t], id)
      == if documents.Has(id) && t in text.terms(documents.vals[id].content) then
           Idf(log, documents.Size(), |Containing(text, documents, t)|)
         else 0.0
  {
    assert [t][..0] == [] && ScanScore(text, log, documents, [], id) == 0.0;
  }

  /** Of two documents with one of the query's terms each, the one with the rarer term scores more. */
  lemma RarerTermWins(text: Text, log: real -> real, documents: Documents, t: string, u: string, x: Id, y: Id)
    requires IsLog(log) && documents.Has(x) && documents.Has(y)
    requires Contains(text, documents, x, t) && !Contains(text, documents, x, u)
    requires Contains(text, documents, y, u) && !Contains(text, documents, y, t)
    requires |Containing(text, documents, t)| < |Containing(text, documents, u)|
    ensures ScanScore(text, log, documents, [t, u], x) > ScanScore(text, log, documents, [t, u], y)
  {
    assert [t, u] == [t] + [u];
    ScoresAdd(text, log, documents, [t], [u], x);
    ScoresAdd(text, log, documents, [t], [u], y);
    OneTermScores(text, log, documents, t, x);
    OneTermScores(text, log, documents, u, x);
    OneTermScores(text, log, documents, t, y);
    OneTermScores(text, log, documents, u, y);
    assert x in documents.keys;
    RarerWeighsMore(log, documents.Size(), |Containing(text, documents, t)|, |Containing(text, documents, u)|);
  }

  // ---------- Normalising ----------

  lemma {:induction false} MaxIsReached(scores: JsMap<Id, real>, n: nat)
    requires n <= scores.Size()
    ensures MaxScore(scores, n) == 1.0
      || exists i :: 0 <= i < n && scores.keys[i] in scores.vals && scores.vals[scores.keys[i]] == MaxScore(scores, n)
  {
    if n > 0 {
      MaxIsReached(scores, n - 1);
      assert scores.keys[n - 1] in scores.keys;
    }
  }

  lemma AtMostOne(x: real, m: real)
    requires x <= m && m >= 1.0
    ensures x / m <= 1.0 && (x == m ==> x / m == 1.0)
  {
    var q := x / m;
    assert q * m == x;
    if q > 1.0 {
      assert (q - 1.0) * m > 0.0;
      assert (q - 1.0) * m == q * m - m;
    }
    if x == m {
      assert q == 1.0;
    }
  }

  /**
   Keyword scores are divided by the greatest, but at least by 1: none exceeds 1, and if any raw score exceeds 1
   some document scores exactly 1.
   */
  lemma KeywordsAreNormalised(env: Env, c: Corpus, query: string, r: Scored)
    requires CorpusOk(env.text, c) && IsKeyword(env, c, query, r)
    ensures r.score <= 1.0
    ensures ScanScore(env.text, env.log, c.documents, env.text.terms(query), r.id) > 1.0 ==>
      exists best :: IsKeyword(env, c, query, best) && best.score == 1.0
  {
    var terms := env.text.terms(query);
    var scores := IndexScores(env.log, c, terms);
    var max := BestScore(env, c, query);
    IndexScoresAreScans(env.text, env.log, c, terms, r.id);
    BelowMax(scores, r.id);
    AtMostOne(scores.vals[r.id], max);
    if scores.vals[r.id] > 1.0 {
      MaxIsReached(scores, scores.Size());
      var i :| 0 <= i < scores.Size() && scores.keys[i] in scores.vals && scores.vals[scores.keys[i]] == max;
      IndexScoresAreScans(env.text, env.log, c, terms, scores.keys[i]);
      AtMostOne(max, max);
      assert IsKeyword(env, c, query, Scored(scores.keys[i], 1.0));
    }
  }

  lemma BelowMax(scores: JsMap<Id, real>, id: Id)
    requires id in scores.vals
    ensures scores.vals[id] <= MaxScore(scores, scores.Size())
  {
    assert id in scores.keys;
    var i :| 0 <= i < |scores.keys| && scores.keys[i] == id;
  }
}
