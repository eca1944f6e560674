/**
 * `ask_question`: the retrieved documents become a numbered, truncated context
 * block, the block and the question go into a fixed prompt, and the language
 * model's reply is returned with surrounding whitespace stripped. The
 * retriever and the model are foreign calls, taken here as functions.
 */
module LangchainUtils {
  import opened Text

  /** `docs[:3]`: only this many retrieved documents reach the context. */
  const TopDocuments: nat := 3

  /** `[:300]`: each document contributes at most this many characters. */
  const ExcerptLength: nat := 300

  /** What every entry ends with, truncated or not. */
  const EntryEnd: string := "...\n"

  function Min(a: nat, b: nat): nat {
    if a <= b then a else b
  }

  /** `doc.page_content.strip()[:300]`. */
  function Excerpt(text: string): string {
    Truncate(PyStrip(text), ExcerptLength)
  }

  /** `f"[{i}] {excerpt}...\n"`: the context entry of the `n`-th document. */
  function Entry(n: nat, text: string): string {
    "[" + Decimal(n) + "] " + Excerpt(text) + EntryEnd
  }

  /** The entries of `docs`, numbered from 1 in order and concatenated. */
  function Entries(docs: seq<string>): string {
    if docs == [] then "" else Entries(docs[..|docs| - 1]) + Entry(|docs|, docs[|docs| - 1])
  }

  /** The context block built from a retrieval result: the entries of its first three documents. */
  function Context(docs: seq<string>): string {
    Entries(docs[..Min(|docs|, TopDocuments)])
  }

  /** The loop of `ask_question` that appends one entry per document of `docs[:3]`. */
  method BuildContext(docs: seq<string>) returns (context: string)
    ensures context == Context(docs)
  {
    var top := docs[..Min(|docs|, TopDocuments)];
    context := "";
    var i := 0;
    while i < |top|
      invariant 0 <= i <= |top|
      invariant context == Entries(top[..i])
    {
      context := context + Entry(i + 1, top[i]);
      i := i + 1;
      assert top[..i][..i - 1] == top[..i - 1];
    }
    assert top[..|top|] == top;
  }

  /** Documents past the third never reach the context, however many there are. */
  lemma ContextIgnoresLaterDocuments(docs: seq<string>, more: seq<string>)
    requires |docs| >= TopDocuments
    ensures Context(docs + more) == Context(docs)
  {
    assert (docs + more)[..TopDocuments] == docs[..TopDocuments];
  }

  /** The context is empty exactly when the retriever returned nothing. */
  lemma ContextEmptyIff(docs: seq<string>)
    ensures Context(docs) == "" <==> docs == []
  {
    var top := docs[..Min(|docs|, TopDocuments)];
    if top != [] {
      assert |Entry(|top|, top[|top| - 1])| > 0;
    }
  }

  /**
   * Entries are numbered consecutively from 1 in retrieval order: the entries of
   * the first `i` documents followed by the entry `[i+1]` of document `i` are a
   * prefix of the entries of all of them.
   */
  lemma {:induction false} EntriesPrefix(docs: seq<string>, i: nat)
    requires i < |docs|
    ensures Entries(docs[..i]) + Entry(i + 1, docs[i]) <= Entries(docs)
  {
    var upto := docs[..i + 1];
    assert upto[..i] == docs[..i];
    assert Entries(upto) == Entries(docs[..i]) + Entry(i + 1, docs[i]);
    EntriesOfPrefix(docs, i + 1);
  }

  /** The entries of the first `j` documents are a prefix of the entries of all of them. */
  lemma {:induction false} EntriesOfPrefix(docs: seq<string>, j: nat)
    requires j <= |docs|
    ensures Entries(docs[..j]) <= Entries(docs)
    decreases |docs|
  {
    if j < |docs| {
      var front := docs[..|docs| - 1];
      assert front[..j] == docs[..j];
      EntriesOfPrefix(front, j);
      var a := Entries(docs[..j]);
      var b := Entries(front);
      var c := Entry(|docs|, docs[|docs| - 1]);
      assert Entries(docs) == b + c;
      assert (b + c)[..|a|] == b[..|a|];
    } else {
      assert docs[..j] == docs;
    }
  }

  /** Each of the first three documents has its numbered entry at its place in the context. */
  lemma ContextEntry(docs: seq<string>, i: nat)
    requires i < Min(|docs|, TopDocuments)
    ensures Entries(docs[..i]) + Entry(i + 1, docs[i]) <= Context(docs)
  {
    var top := docs[..Min(|docs|, TopDocuments)];
    EntriesPrefix(top, i);
    assert top[..i] == docs[..i];
  }

  /** With three or more documents the context is exactly the entries `[1]`, `[2]` and `[3]`. */
  lemma ContextOfThree(docs: seq<string>)
    requires |docs| >= TopDocuments
    ensures Context(docs) == Entry(1, docs[0]) + Entry(2, docs[1]) + Entry(3, docs[2])
  {
    var top := docs[..3];
    assert Context(docs) == Entries(top);
    assert top[..2] == docs[..2];
    assert docs[..2][..1] == docs[..1];
    assert Entries(docs[..1]) == Entry(1, docs[0]) by {
      assert docs[..1][..0] == [];
    }
    assert Entries(docs[..2]) == Entry(1, docs[0]) + Entry(2, docs[1]);
    assert Entries(top) == Entries(docs[..2]) + Entry(3, docs[2]);
  }

  /**
   * The layout of one entry: `[`, the number, `] `, then the document's text
   * with surrounding whitespace stripped and cut to at most 300 characters, then
   * `...\n` whether or not anything was cut.
   */
  lemma EntryLayout(n: nat, text: string)
    ensures var e := Entry(n, text); var k := |Decimal(n)| + 3; var x := PyStrip(text);
      |e| >= k + |EntryEnd|
      && e[..k] == "[" + Decimal(n) + "] "
      && e[|e| - |EntryEnd|..] == EntryEnd
      && e[k..|e| - |EntryEnd|] <= x
      && |e[k..|e| - |EntryEnd|]| == (if |x| <= ExcerptLength then |x| else ExcerptLength)
  {
    var e := Entry(n, text);
    var k := |Decimal(n)| + 3;
    assert e == ("[" + Decimal(n) + "] ") + Excerpt(text) + EntryEnd;
    assert e[k..|e| - |EntryEnd|] == Excerpt(text);
  }

  /** The sentence the model is told to answer with when the context has no answer. */
  const NotFoundReply: string := "I could not find the answer in the provided documents."

  const Instructions: string :=
    "\nYou are a helpful AI assistant. Use ONLY the context below to answer the question.\n"
    + "If the answer is not in the context, respond with \""

  const Formatting: string :=
    "\"\n\nFormat your response clearly in Markdown. Add bullet points if applicable.\n\nContext:\n"

  /** Everything before the context in the prompt. */
  const PromptHead: string := Instructions + NotFoundReply + Formatting

  const QuestionLabel: string := "\n\nQuestion: "

  const PromptTail: string := "\n\nAnswer:\n"

  /** The f-string prompt of `ask_question`. */
  function Prompt(context: string, query: string): string {
    PromptHead + context + QuestionLabel + query + PromptTail
  }

  /**
   * The prompt holds the not-found instruction, then the context verbatim,
   * then `Question: ` followed by the query verbatim, then the answer cue.
   */
  lemma PromptLayout(context: string, query: string)
    ensures var p := Prompt(context, query);
      var a := |PromptHead|;
      var b := a + |context| + |QuestionLabel|;
      |p| == b + |query| + |PromptTail|
      && p[|Instructions|..|Instructions| + |NotFoundReply|] == NotFoundReply
      && p[a..a + |context|] == context
      && p[a + |context|..b] == QuestionLabel
      && p[b..b + |query|] == query
      && p[b + |query|..] == PromptTail
  {
    var p := Prompt(context, query);
    var a := |PromptHead|;
    var b := a + |context| + |QuestionLabel|;
    assert p == PromptHead + context + QuestionLabel + query + PromptTail;
    assert p[..a] == PromptHead;
    assert PromptHead[|Instructions|..|Instructions| + |NotFoundReply|] == NotFoundReply;
    assert p[|Instructions|..|Instructions| + |NotFoundReply|] == PromptHead[|Instructions|..|Instructions| + |NotFoundReply|];
  }

  /**
   * `ask_question(query)`: retrieve with the query as given, build the context
   * and the prompt, call the model, strip its reply. The answer is the model's
   * reply minus the whitespace at its two ends, and does not begin or end with
   * whitespace.
   */
  method AskQuestion(query: string, retrieve: string -> seq<string>, llm: string -> string)
    returns (answer: string)
    ensures answer == PyStrip(llm(Prompt(Context(retrieve(query)), query)))
    ensures var reply := llm(Prompt(Context(retrieve(query)), query));
      exists i, j :: (0 <= i <= j <= |reply| && answer == reply[i..j]
        && (forall k :: 0 <= k < i ==> IsPythonSpace(reply[k]))
        && (forall k :: j <= k < |reply| ==> IsPythonSpace(reply[k])))
    ensures answer != [] ==> !IsPythonSpace(answer[0]) && !IsPythonSpace(answer[|answer| - 1])
  {
    var docs := retrieve(query);
    var context := BuildContext(docs);
    var prompt := Prompt(context, query);
    var reply := llm(prompt);
    answer := PyStrip(reply);
    StripIsSlice(IsPythonSpace, reply);
  }
}
