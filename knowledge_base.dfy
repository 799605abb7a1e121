/**
 * The question bank: how `ingest` turns the question file into one text
 * and one metadata record per question, and how `search` chooses its
 * category filter before asking the vector store.
 */
module KnowledgeBase {
  import opened Wrappers
  import opened Text

  /** One question of the bank as the question file gives it. */
  datatype QuestionData = QuestionData(
    id: string,
    question: string,
    difficulty: string,
    expertApproach: string,
    keyPoints: seq<string>,
    commonMistakes: seq<string>,
    followUps: seq<string>)

  /** The metadata stored beside each document. */
  datatype Metadata = Metadata(id: string, category: string, difficulty: string, question: string)

  /** A search hit: the stored text and its metadata. */
  datatype Document = Document(pageContent: string, metadata: Metadata)

  /** The vector store's `similarity_search(query, k, filter)`, an oracle of the model. */
  type Store = (string, int, Option<map<string, string>>) -> seq<Document>

  /** Python truthiness of an optional string: present and non-empty. */
  predicate Truthy(s: Option<string>) {
    s.Some? && s.value != ""
  }

  /** `{"category": category} if category else None`. */
  function FilterFor(category: Option<string>): (f: Option<map<string, string>>)
    ensures f.Some? <==> Truthy(category)
    ensures f.Some? ==> f.value.Keys == {"category"} && f.value["category"] == category.value
  {
    if Truthy(category) then Some(map["category" := category.value]) else None
  }

  /** `search(query, category, k)`; `k` defaults to 3. */
  function Search(store: Store, query: string, category: Option<string>, k: int := 3): seq<Document> {
    store(query, k, FilterFor(category))
  }

  /** Without a category argument, or with an empty one, the store is asked without a filter and for three hits. */
  lemma SearchDefaults(store: Store, query: string)
    ensures Search(store, query, None) == store(query, 3, None)
    ensures Search(store, query, Some("")) == store(query, 3, None)
  {
  }

  /** The f-string of one document, before `strip()`. */
  function DocTemplate(category: string, q: QuestionData): string {
    "\n" + DocHead(category, q) + DocBody(q)
  }

  /** The opening lines of a document, up to the colon of its expert-approach heading. */
  function DocHead(category: string, q: QuestionData): string {
    "Question: " + q.question + "\nCategory: " + category + "\nDifficulty: " + q.difficulty
    + "\n\nExpert Approach:"
  }

  /** The rest of the document after `DocHead`. */
  function DocBody(q: QuestionData): string {
    "\n" + q.expertApproach
    + "\n\nKey Points:\n" + Join("\n", Prefixed("- ", q.keyPoints))
    + "\n\nCommon Mistakes:\n" + Join("\n", Prefixed("- ", q.commonMistakes))
    + "\n\nFollow-ups:\n" + Join("\n", Prefixed("- ", q.followUps))
    + "\n"
  }

  /** The text stored for one question. */
  function DocText(category: string, q: QuestionData): string {
    PyStrip(DocTemplate(category, q))
  }

  function MetadataOf(category: string, q: QuestionData): Metadata {
    Metadata(q.id, category, q.difficulty, q.question)
  }

  /** The question file: its categories in file order, each with its questions. */
  type Bank = seq<(string, seq<QuestionData>)>

  /** The questions of one category, each paired with the category key. */
  function Tagged(category: string, qs: seq<QuestionData>): (r: seq<(string, QuestionData)>)
    ensures |r| == |qs|
    ensures forall j :: 0 <= j < |qs| ==> r[j] == (category, qs[j])
  {
    seq(|qs|, j requires 0 <= j < |qs| => (category, qs[j]))
  }

  /** Every question of the bank with its category: categories in order, then questions in order. */
  function Entries(data: Bank): seq<(string, QuestionData)> {
    if data == [] then []
    else Entries(data[..|data| - 1]) + Tagged(data[|data| - 1].0, data[|data| - 1].1)
  }

  /** The number of questions in the first `c` categories. */
  function Offset(data: Bank, c: nat): nat
    requires c <= |data|
  {
    if c == 0 then 0 else Offset(data, c - 1) + |data[c - 1].1|
  }

  /** Question `j` of category `c` is entry `Offset(c) + j`: the order of iteration. */
  lemma {:induction false} EntriesOrder(data: Bank, c: nat, j: nat)
    requires c < |data| && j < |data[c].1|
    ensures |Entries(data)| == Offset(data, |data|)
    ensures Offset(data, c) + j < |Entries(data)|
    ensures Entries(data)[Offset(data, c) + j] == (data[c].0, data[c].1[j])
    decreases |data|
  {
    var init := data[..|data| - 1];
    assert forall i :: 0 <= i <= |init| ==> Offset(init, i) == Offset(data, i) by {
      forall i | 0 <= i <= |init| ensures Offset(init, i) == Offset(data, i) {
        OffsetPrefix(data, init, i);
      }
    }
    EntriesLength(init);
    if c < |data| - 1 {
      EntriesOrder(init, c, j);
      OffsetMonotone(data, c + 1, |data| - 1);
    }
  }

  lemma {:induction false} EntriesLength(data: Bank)
    ensures |Entries(data)| == Offset(data, |data|)
    decreases |data|
  {
    if data != [] {
      var init := data[..|data| - 1];
      EntriesLength(init);
      OffsetPrefix(data, init, |init|);
    }
  }

  lemma {:induction false} OffsetPrefix(data: Bank, init: Bank, i: nat)
    requires |init| <= |data| && init == data[..|init|] && i <= |init|
    ensures Offset(init, i) == Offset(data, i)
  {
    if i > 0 {
      OffsetPrefix(data, init, i - 1);
      assert init[i - 1] == data[i - 1];
    }
  }

  lemma {:induction false} OffsetMonotone(data: Bank, a: nat, b: nat)
    requires a <= b <= |data|
    ensures Offset(data, a) <= Offset(data, b)
    decreases b - a
  {
    if a < b {
      OffsetMonotone(data, a, b - 1);
    }
  }

  lemma EntriesSnoc(data: Bank, c: nat)
    requires c < |data|
    ensures Entries(data[..c + 1]) == Entries(data[..c]) + Tagged(data[c].0, data[c].1)
  {
    assert data[..c + 1][..c] == data[..c];
  }

  /** `texts` and `metadatas` hold, index by index, the document and the metadata of each entry of `es`. */
  ghost predicate Built(texts: seq<string>, metadatas: seq<Metadata>, es: seq<(string, QuestionData)>) {
    |texts| == |metadatas| == |es|
    && forall i :: 0 <= i < |es| ==>
      texts[i] == DocText(es[i].0, es[i].1) && metadatas[i] == MetadataOf(es[i].0, es[i].1)
  }

  lemma BuiltSnoc(texts: seq<string>, metadatas: seq<Metadata>, es: seq<(string, QuestionData)>,
                  category: string, q: QuestionData)
    requires Built(texts, metadatas, es)
    ensures Built(texts + [DocText(category, q)], metadatas + [MetadataOf(category, q)], es + [(category, q)])
  {
    var texts', metadatas', es' := texts + [DocText(category, q)], metadatas + [MetadataOf(category, q)], es + [(category, q)];
    forall i | 0 <= i < |es'|
      ensures texts'[i] == DocText(es'[i].0, es'[i].1) && metadatas'[i] == MetadataOf(es'[i].0, es'[i].1)
    {
      if i < |es| {
        assert texts'[i] == texts[i] && metadatas'[i] == metadatas[i] && es'[i] == es[i];
      } else {
        assert texts'[i] == DocText(category, q) && es'[i] == (category, q);
      }
    }
  }

  lemma TaggedSnoc(category: string, qs: seq<QuestionData>, j: nat)
    requires j < |qs|
    ensures Tagged(category, qs[..j + 1]) == Tagged(category, qs[..j]) + [(category, qs[j])]
  {
  }

  /** One pass of the inner loop of `ingest` extends what was built by the next question. */
  lemma BuiltStep(texts: seq<string>, metadatas: seq<Metadata>, done: seq<(string, QuestionData)>,
                  category: string, questions: seq<QuestionData>, j: nat)
    requires j < |questions|
    requires Built(texts, metadatas, done + Tagged(category, questions[..j]))
    ensures Built(texts + [DocText(category, questions[j])], metadatas + [MetadataOf(category, questions[j])],
                  done + Tagged(category, questions[..j + 1]))
  {
    BuiltSnoc(texts, metadatas, done + Tagged(category, questions[..j]), category, questions[j]);
    TaggedSnoc(category, questions, j);
    assert done + Tagged(category, questions[..j + 1])
        == done + Tagged(category, questions[..j]) + [(category, questions[j])];
  }

  /** `ingest`: builds the texts and the metadata list in step, and returns how many it built. */
  method Ingest(data: Bank) returns (texts: seq<string>, metadatas: seq<Metadata>, count: nat)
    ensures count == |texts| == |metadatas| == |Entries(data)|
    ensures Built(texts, metadatas, Entries(data))
  {
    texts, metadatas := [], [];
    var c := 0;
    while c < |data|
      invariant 0 <= c <= |data|
      invariant Built(texts, metadatas, Entries(data[..c]))
    {
      var category, questions := data[c].0, data[c].1;
      ghost var done := Entries(data[..c]);
      var j := 0;
      while j < |questions|
        invariant 0 <= j <= |questions|
        invariant Built(texts, metadatas, done + Tagged(category, questions[..j]))
      {
        var q := questions[j];
        BuiltStep(texts, metadatas, done, category, questions, j);
        texts := texts + [DocText(category, q)];
        metadatas := metadatas + [MetadataOf(category, q)];
        j := j + 1;
      }
      assert questions[..j] == questions;
      EntriesSnoc(data, c);
      c := c + 1;
    }
    assert data[..|data|] == data;
    count := |texts|;
  }

  /**
   * After stripping, a text starts with its question, its enclosing
   * category and its difficulty, each on its own line, followed by the
   * blank line and the expert approach's heading.
   */
  lemma DocTextStart(category: string, q: QuestionData)
    ensures IsPrefix("Question: " + q.question + "\nCategory: " + category + "\nDifficulty: " + q.difficulty
                     + "\n\nExpert Approach:", DocText(category, q))
  {
    var p := DocHead(category, q);
    assert p[0] == 'Q' && p[|p| - 1] == ':';
    StripKeepsPrefix("\n", p, DocBody(q), PyIsSpace);
  }
}
