/**
 * `build_prompt` of generate.py: one numbered block per retrieval result,
 * concatenated in order into the context, which is placed into a fixed
 * question-answering template together with the query.
 */
module Prompt {
  import opened Wrappers

  /** A retrieval result: the title in its metadata, if any, and the text chunk. */
  datatype SearchResult = SearchResult(title: Option<string>, chunk: string)

  const UnknownSource: string := "Unknown Source"

  /**
   * The instruction text that opens every prompt, up to the line "Context:".
   * Its wording has no bearing on the structure modelled here.
   */
  const Instructions: string

  /** `res['metadata'].get('title', 'Unknown Source')`. */
  function TitleOf(r: SearchResult): (title: string)
    ensures r.title.None? ==> title == UnknownSource
    ensures r.title.Some? ==> title == r.title.value
  {
    r.title.GetOr(UnknownSource)
  }

  function DigitChar(d: nat): char
    requires d < 10
  {
    ('0' as int + d) as char
  }

  /** Python's decimal formatting of a non-negative integer: digits only, no leading zero. */
  function NatToString(n: nat): (s: string)
    ensures |s| >= 1
    ensures forall k :: 0 <= k < |s| ==> '0' <= s[k] <= '9'
    ensures |s| > 1 ==> s[0] != '0'
    decreases n
  {
    if n < 10 then [DigitChar(n)] else NatToString(n / 10) + [DigitChar(n % 10)]
  }

  /** The value of a string of decimal digits. */
  function ParseNat(s: string): nat
    requires forall k :: 0 <= k < |s| ==> '0' <= s[k] <= '9'
  {
    if s == [] then 0
    else ParseNat(s[..|s| - 1]) * 10 + (s[|s| - 1] as int - '0' as int)
  }

  /** The number in a header reads back as the number written. */
  lemma {:induction false} ParseNatToString(n: nat)
    ensures ParseNat(NatToString(n)) == n
    decreases n
  {
    if n >= 10 {
      var s := NatToString(n);
      assert s[..|s| - 1] == NatToString(n / 10);
      ParseNatToString(n / 10);
    }
  }

  /** `f"--- Source {i+1}: {title} ---\n"`. */
  function Header(i: nat, title: string): string
  {
    "--- Source " + NatToString(i + 1) + ": " + title + " ---\n"
  }

  /** The block of the result at index `i`: its header, its chunk, a blank line. */
  function Block(i: nat, r: SearchResult): string
  {
    Header(i, TitleOf(r)) + r.chunk + "\n\n"
  }

  /** The context text: the blocks of all results, numbered from 1, in order. */
  function Context(results: seq<SearchResult>): (context: string)
    ensures results == [] ==> context == ""
  {
    if results == [] then ""
    else
      var n := |results| - 1;
      Context(results[..n]) + Block(n, results[n])
  }

  /** The prompt around a context and a query. */
  function Template(context: string, query: string): string
  {
    Instructions + "Context:\n" + context + "\n\nQuestion:\n" + query + "\n\nAnswer:"
  }

  /** `build_prompt(query, results)`. */
  method BuildPrompt(query: string, results: seq<SearchResult>) returns (prompt: string)
    ensures prompt == Template(Context(results), query)
  {
    var contextText := "";
    for i := 0 to |results|
      invariant contextText == Context(results[..i])
    {
      var title := TitleOf(results[i]);
      var chunk := results[i].chunk;
      ContextSnoc(results, i);
      var before := contextText;
      contextText := contextText + Header(i, title);
      contextText := contextText + (chunk + "\n\n");
      assert contextText == before + Block(i, results[i]);
    }
    assert results[..|results|] == results;
    prompt := Instructions + "Context:\n" + contextText + "\n\nQuestion:\n" + query + "\n\nAnswer:";
  }

  lemma ContextSnoc(results: seq<SearchResult>, i: nat)
    requires i < |results|
    ensures Context(results[..i + 1]) == Context(results[..i]) + Block(i, results[i])
  {
    assert results[..i + 1][..i] == results[..i];
  }

  /** The context for the first `k` results is a prefix of the whole context. */
  lemma {:induction false} ContextPrefix(results: seq<SearchResult>, k: nat)
    requires k <= |results|
    ensures Context(results[..k]) <= Context(results)
    decreases |results| - k
  {
    if k < |results| {
      var n := |results| - 1;
      assert results[..n][..k] == results[..k];
      ContextPrefix(results[..n], k);
      assert Context(results) == Context(results[..n]) + Block(n, results[n]);
    } else {
      assert results[..k] == results;
    }
  }

  /**
   * The block of result `k` sits in the context right after the blocks of the
   * results before it.
   */
  lemma BlockAt(results: seq<SearchResult>, k: nat)
    requires k < |results|
    ensures var offset := |Context(results[..k])|;
            var block := Block(k, results[k]);
            offset + |block| <= |Context(results)|
            && Context(results)[offset..offset + |block|] == block
  {
    ContextPrefix(results, k + 1);
    ContextSnoc(results, k);
    var c, whole := Context(results[..k + 1]), Context(results);
    var offset, block := |Context(results[..k])|, Block(k, results[k]);
    assert c == Context(results[..k]) + block;
    assert whole[..|c|] == c;
    assert c[offset..offset + |block|] == block;
  }

  /**
   * The prompt is the instructions, the context after "Context:\n", the query
   * verbatim after "Question:\n", and it ends with "Answer:".
   */
  lemma PromptShape(context: string, query: string)
    ensures var prompt := Template(context, query);
            var start := |Instructions| + |"Context:\n"|;
            var q := start + |context| + |"\n\nQuestion:\n"|;
            && prompt[..|Instructions|] == Instructions
            && prompt[start..start + |context|] == context
            && prompt[q..q + |query|] == query
            && prompt[|prompt| - |"Answer:"|..] == "Answer:"
  {
    var prompt := Template(context, query);
    var start := |Instructions| + |"Context:\n"|;
    var q := start + |context| + |"\n\nQuestion:\n"|;
    assert prompt == (((((Instructions + "Context:\n") + context) + "\n\nQuestion:\n") + query) + "\n\nAnswer:");
    assert prompt[start..start + |context|] == context;
    assert prompt[q..q + |query|] == query;
  }
}
