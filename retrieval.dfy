/** The question-answering endpoint: it retrieves the caller's chunks from the
    vector collection, packs them into a prompt under a character budget, asks the
    language model and returns its answer with a numbered list of sources. The
    vector search and the language model are parameters of the endpoint. */
module Retrieval {
  import opened Wrappers
  import opened Text

  /** `MAX_PROMPT_CHARS` with no environment override. */
  const MaxPromptChars: nat := 3000

  /** The metadata of a retrieved chunk, each key possibly absent. */
  datatype Meta = Meta(policyId: Option<int>, file: Option<string>, chunk: Option<int>)

  datatype RetrievedChunk = RetrievedChunk(document: string, metadata: Meta)

  const Header: string :=
    "You are an assistant that answers user questions about the user's insurance policies.\n" +
    "Use ONLY the context provided below. If the information is not present, say you don't know.\n\n"

  /** The header followed by the context label. */
  const Opening: string := Header + "CONTEXT:\n"

  const QuestionLabel: string := "\n\nUser question: "
  const Instruction: string := "\n\nAnswer concisely and cite sources like [Source 1], [Source 2]."

  /** How Python formats an optional id inside an f-string. */
  function OptionalIdText(x: Option<int>): (r: string)
    ensures r == "None" <==> x.None?
    ensures x.Some? && x.value >= 0 ==> forall k :: 0 <= k < |r| ==> IsDigit(r[k])
  {
    if x.Some? then
      var t := IntToString(x.value);
      assert t[0] == '-' || IsDigit(t[0]);
      t
    else "None"
  }

  const SourceTag: string := "[Source "

  /** The context piece for the chunk at position `idx`: labelled `idx + 1`, naming
      the file ("unknown" when the metadata has none) and the policy. */
  function Piece(idx: nat, c: RetrievedChunk): (r: string)
    ensures StartsWith(r, SourceTag + NatToString(idx + 1) + "]")
    ensures |c.document| + 5 <= |r| && r[|r| - |c.document| - 5..] == c.document + "\n---\n"
  {
    var tag := SourceTag + NatToString(idx + 1);
    var body := PieceBody(c);
    ConcatEnds(tag, body, |c.document| + 5);
    tag + body
  }

  /** The first character after `a` in `a + b` is `b`'s first, and `a + b` ends
      with whatever `b` ends with. */
  lemma ConcatEnds(a: string, b: string, n: nat)
    requires b != [] && n <= |b|
    ensures (a + b)[..|a| + 1] == a + [b[0]]
    ensures (a + b)[|a| + |b| - n..] == b[|b| - n..]
  {
  }

  /** Everything of a piece after its number: it opens the closing bracket of the
      label and ends with the chunk's text and the "---" separator line. */
  function PieceBody(c: RetrievedChunk): (r: string)
    ensures r != [] && r[0] == ']'
    ensures StartsWith(r, "] File: " +
      (if c.metadata.file.Some? then c.metadata.file.value else "unknown") + " | Policy: ")
    ensures |c.document| + 5 <= |r| && r[|r| - |c.document| - 5..] == c.document + "\n---\n"
  {
    var named := "] File: " + c.metadata.file.GetOr("unknown") + " | Policy: ";
    var head := named + OptionalIdText(c.metadata.policyId) + "\n";
    assert (head + c.document + "\n---\n")[..|named|] == named;
    assert (head + c.document + "\n---\n")[|head|..] == c.document + "\n---\n";
    head + c.document + "\n---\n"
  }

  /** The candidate pieces, one per retrieved chunk, in retrieval order. */
  function Pieces(chunks: seq<RetrievedChunk>): (r: seq<string>)
    ensures |r| == |chunks|
    ensures forall i :: 0 <= i < |chunks| ==> r[i] == Piece(i, chunks[i])
  {
    seq(|chunks|, i requires 0 <= i < |chunks| => Piece(i, chunks[i]))
  }

  /** The summed length of some pieces. */
  function TotalLength(pieces: seq<string>): nat {
    if pieces == [] then 0 else |pieces[0]| + TotalLength(pieces[1..])
  }

  lemma {:induction false} TotalLengthAppend(pieces: seq<string>, piece: string)
    ensures TotalLength(pieces + [piece]) == TotalLength(pieces) + |piece|
  {
    if pieces != [] {
      assert (pieces + [piece])[1..] == pieces[1..] + [piece];
      TotalLengthAppend(pieces[1..], piece);
    }
  }

  /** The pieces taken in order until the first one that would overflow `budget`:
      a prefix of `pieces`, within the budget, and the next piece does not fit. */
  function Take(pieces: seq<string>, budget: nat): (r: seq<string>)
    ensures |r| <= |pieces| && r == pieces[..|r|]
    ensures TotalLength(r) <= budget
    ensures |r| < |pieces| ==> TotalLength(r) + |pieces[|r|]| > budget
  {
    if pieces == [] || |pieces[0]| > budget then []
    else
      var rest := Take(pieces[1..], budget - |pieces[0]|);
      assert ([pieces[0]] + rest)[1..] == rest;
      [pieces[0]] + rest
  }

  /** A prefix that fits and cannot be extended is exactly what `Take` returns. */
  lemma {:induction false} TakeUnique(pieces: seq<string>, budget: nat, n: nat)
    requires n <= |pieces|
    requires TotalLength(pieces[..n]) <= budget
    requires n == |pieces| || TotalLength(pieces[..n]) + |pieces[n]| > budget
    ensures Take(pieces, budget) == pieces[..n]
  {
    if n > 0 {
      assert pieces[..n][1..] == pieces[1..][..n - 1];
      assert n - 1 < |pieces[1..]| ==> pieces[1..][n - 1] == pieces[n];
      TakeUnique(pieces[1..], budget - |pieces[0]|, n - 1);
    }
  }

  /** The prompt around a context made of the included pieces. */
  function Prompt(query: string, included: seq<string>): (r: string)
    ensures |r| == |Opening| + |Context(included)| + |QuestionLabel| + |query| + |Instruction|
    ensures StartsWith(r, Opening)
    ensures r[|r| - |Instruction|..] == Instruction
  {
    FiveParts(Opening, Context(included), QuestionLabel, query, Instruction);
    Opening + Context(included) + QuestionLabel + query + Instruction
  }

  /** The included pieces joined by newlines, surrounding whitespace stripped: no
      longer than the pieces and separators, and without whitespace at either end. */
  function Context(included: seq<string>): (r: string)
    ensures |r| <= JoinLength("\n", included)
    ensures r == [] || (!IsWhitespace(r[0]) && !IsWhitespace(r[|r| - 1]))
  {
    JoinHasLength("\n", included);
    Strip(Join("\n", included))
  }

  /** `build_prompt`: adds pieces while the running total stays within the budget
      and stops at the first one that would exceed it. */
  method BuildPrompt(query: string, chunks: seq<RetrievedChunk>) returns (prompt: string)
    ensures prompt == Prompt(query, Take(Pieces(chunks), MaxPromptChars))
  {
    var contextPieces: seq<string> := [];
    var totalChars: nat := 0;
    var idx := 0;
    while idx < |chunks|
      invariant idx <= |chunks|
      invariant contextPieces == Pieces(chunks)[..idx]
      invariant totalChars == TotalLength(contextPieces) <= MaxPromptChars
    {
      var piece := Piece(idx, chunks[idx]);
      if totalChars + |piece| > MaxPromptChars {
        break;
      }
      TotalLengthAppend(contextPieces, piece);
      NextPiece(chunks, idx);
      contextPieces := contextPieces + [piece];
      totalChars := totalChars + |piece|;
      idx := idx + 1;
    }
    TakeUnique(Pieces(chunks), MaxPromptChars, idx);
    var context := Strip(Join("\n", contextPieces));
    prompt := Opening + context + QuestionLabel + query + Instruction;
  }

  /** The first `idx + 1` pieces extend the first `idx` by the piece at `idx`. */
  lemma NextPiece(chunks: seq<RetrievedChunk>, idx: nat)
    requires idx < |chunks|
    ensures Pieces(chunks)[..idx + 1] == Pieces(chunks)[..idx] + [Piece(idx, chunks[idx])]
  {
    assert Pieces(chunks)[..idx + 1][idx] == Piece(idx, chunks[idx]);
  }

  /** The included pieces are the first ones of the retrieval order, their labels
      are 1, 2, ... in that order, their lengths sum to at most the budget, and a
      piece is left out only together with every piece after it. */
  lemma PackedPieces(chunks: seq<RetrievedChunk>, i: nat)
    requires i < |Take(Pieces(chunks), MaxPromptChars)|
    ensures var inc := Take(Pieces(chunks), MaxPromptChars);
      i < |chunks| && inc[i] == Piece(i, chunks[i]) &&
      TotalLength(inc) <= MaxPromptChars &&
      (|inc| < |chunks| ==> TotalLength(inc) + |Piece(|inc|, chunks[|inc|])| > MaxPromptChars)
  {
  }

  /** A digit string followed by a non-digit differs from a longer digit string
      followed by anything. */
  lemma ShorterDigitRun(a: string, b: string, x: string, y: string)
    requires forall k :: 0 <= k < |b| ==> IsDigit(b[k])
    requires |a| < |b| && x != [] && !IsDigit(x[0])
    ensures a + x != b + y
  {
    assert (a + x)[|a|] == x[0];
    assert (b + y)[|a|] == b[|a|];
  }

  /** Digit strings followed by a non-digit are told apart by where the digits end. */
  lemma SameDigitRun(a: string, b: string, x: string, y: string)
    requires forall k :: 0 <= k < |a| ==> IsDigit(a[k])
    requires forall k :: 0 <= k < |b| ==> IsDigit(b[k])
    requires x != [] && !IsDigit(x[0]) && y != [] && !IsDigit(y[0])
    requires a + x == b + y
    ensures a == b
  {
    if |a| < |b| {
      ShorterDigitRun(a, b, x, y);
    } else if |b| < |a| {
      ShorterDigitRun(b, a, y, x);
    } else {
      assert a == (a + x)[..|a|];
      assert b == (b + y)[..|b|];
    }
  }

  /** A piece after its "[Source " tag: the number, then the body. */
  lemma AfterTag(idx: nat, c: RetrievedChunk)
    ensures Piece(idx, c)[|SourceTag|..] == NatToString(idx + 1) + PieceBody(c)
  {
    var rest := NatToString(idx + 1) + PieceBody(c);
    assert Piece(idx, c) == SourceTag + rest;
    assert (SourceTag + rest)[|SourceTag|..] == rest;
  }

  /** Pieces at different positions carry different labels, so no two are equal. */
  lemma SourceLabelsDistinct(i: nat, j: nat, c: RetrievedChunk, d: RetrievedChunk)
    requires i != j
    ensures Piece(i, c) != Piece(j, d)
  {
    if Piece(i, c) == Piece(j, d) {
      var a, b := NatToString(i + 1), NatToString(j + 1);
      var x, y := PieceBody(c), PieceBody(d);
      AfterTag(i, c);
      AfterTag(j, d);
      SameDigitRun(a, b, x, y);
      NatToStringInjective(i + 1, j + 1);
    }
  }

  /** The prompt opens with the header and "CONTEXT:\n" and holds the query verbatim
      after the "User question: " label, right before the closing instruction. */
  lemma PromptLayout(query: string, included: seq<string>)
    ensures var p, ctx := Prompt(query, included), Context(included);
      var k := |Opening| + |ctx| + |QuestionLabel|;
      |p| == k + |query| + |Instruction| &&
      p[..|Opening|] == Opening &&
      p[|Opening|..|Opening| + |ctx|] == ctx &&
      p[k - |QuestionLabel|..k] == QuestionLabel &&
      p[k..k + |query|] == query &&
      p[k + |query|..] == Instruction
  {
    FiveParts(Opening, Context(included), QuestionLabel, query, Instruction);
  }

  /** Where each of five concatenated strings sits in the result. */
  lemma FiveParts(a: string, b: string, c: string, d: string, e: string)
    ensures var p, k := a + b + c + d + e, |a| + |b| + |c|;
      |p| == k + |d| + |e| &&
      p[..|a|] == a && p[|a|..|a| + |b|] == b && p[|a| + |b|..k] == c &&
      p[k..k + |d|] == d && p[k + |d|..] == e
  {
  }

  function JoinLength(sep: string, parts: seq<string>): nat {
    if parts == [] then 0 else TotalLength(parts) + |sep| * (|parts| - 1)
  }

  /** The joined context is as long as its pieces plus one separator between each
      two. */
  lemma {:induction false} JoinHasLength(sep: string, parts: seq<string>)
    ensures |Join(sep, parts)| == JoinLength(sep, parts)
  {
    if |parts| == 1 {
      assert parts[1..] == [];
      assert TotalLength(parts) == |parts[0]|;
      assert |sep| * (|parts| - 1) == 0;
    } else if |parts| > 1 {
      JoinHasLength(sep, parts[1..]);
      assert |sep| * (|parts| - 1) == |sep| * (|parts| - 2) + |sep|;
    }
  }

  /** The context in the prompt is at most the budget plus one newline between each
      two included pieces. */
  lemma ContextWithinBudget(chunks: seq<RetrievedChunk>)
    ensures var inc := Take(Pieces(chunks), MaxPromptChars);
      |Strip(Join("\n", inc))| <= MaxPromptChars + |inc|
  {
    var inc := Take(Pieces(chunks), MaxPromptChars);
    JoinHasLength("\n", inc);
  }

  // ---------------------------------------------------------------------------
  // The endpoint
  // ---------------------------------------------------------------------------

  /** The request body; `topK` is `Some(3)` (the `TOP_K` default) when the client leaves it out
      and `None` when the client sends null. */
  datatype QueryRequest = QueryRequest(userId: int, query: string, topK: Option<int>)

  datatype Source = Source(sourceIndex: nat, policyId: Option<int>, file: Option<string>, chunk: Option<int>)

  /** What the language model returned: its text (`None` when the response carries
      none) and the full response object. */
  datatype Generation = Generation(text: Option<string>, responseObject: string)

  /** The reply body; `rawResponse` is `None` for the empty object `{}`. */
  datatype QueryResponse = QueryResponse(answer: string, sources: seq<Source>, rawResponse: Option<string>)

  datatype QueryError =
    | BadRequest        // 400 "user_id and query are required"
    | SearchFailed      // 500 "Chroma query failed"
    | GenerationFailed  // 502 "Failed to call Gemini"
    | AnswerMissing     // 500: the reply has no text, so `.strip()` on it raises

  /** The services the endpoint calls: the vector search over the caller's chunks
      (query text, user id, result count) and the language model. `None` is a call
      that raised. */
  datatype Services = Services(
    search: (string, int, Option<int>) -> Option<seq<RetrievedChunk>>,
    generate: string -> Option<Generation>)

  const NoDocumentsAnswer: string := "No relevant documents found."

  /** Python's `xs[:k]`: no bound keeps everything, a negative bound drops that many
      from the end. */
  function PrefixSlice<T>(xs: seq<T>, k: Option<int>): (r: seq<T>)
    ensures |r| <= |xs| && r == xs[..|r|]
    ensures k.None? ==> r == xs
    ensures k.Some? && k.value >= 0 ==> |r| == if k.value < |xs| then k.value else |xs|
    ensures k.Some? && k.value < 0 ==> |r| == if -k.value < |xs| then |xs| + k.value else 0
  {
    if k.None? then xs
    else if k.value >= 0 then (if k.value < |xs| then xs[..k.value] else xs)
    else if -k.value < |xs| then xs[..|xs| + k.value]
    else []
  }

  /** The `sources` list: one entry per document among the first `top_k`, numbered
      from 1 in retrieval order and copying the metadata's policy, file and chunk. */
  function Sources(docs: seq<RetrievedChunk>, topK: Option<int>): (r: seq<Source>)
    ensures |r| <= |docs|
    ensures topK.Some? && topK.value >= 0 ==> |r| <= topK.value
    ensures topK.None? || (topK.value >= 0 && |docs| <= topK.value) ==> |r| == |docs|
    ensures forall i :: 0 <= i < |r| ==>
      r[i].sourceIndex == i + 1 &&
      r[i].policyId == docs[i].metadata.policyId &&
      r[i].file == docs[i].metadata.file &&
      r[i].chunk == docs[i].metadata.chunk
  {
    var kept := PrefixSlice(docs, topK);
    seq(|kept|, i requires 0 <= i < |kept| =>
      Source(i + 1, kept[i].metadata.policyId, kept[i].metadata.file, kept[i].metadata.chunk))
  }

  /** `query_endpoint`: rejects an empty query or a zero user id, answers with a
      fixed text when nothing is retrieved, and otherwise asks the model with the
      packed prompt and returns its stripped answer and the numbered sources. */
  method QueryEndpoint(body: QueryRequest, services: Services) returns (r: Result<QueryResponse, QueryError>)
    ensures body.query == "" || body.userId == 0 <==> r == Failure(BadRequest)
    ensures body.query != "" && body.userId != 0 ==>
      var results := services.search(body.query, body.userId, body.topK);
      (results.None? ==> r == Failure(SearchFailed)) &&
      (results == Some([]) ==> r == Success(QueryResponse(NoDocumentsAnswer, [], None)))
    ensures body.query != "" && body.userId != 0 && services.search(body.query, body.userId, body.topK).Some? ==>
      var docs := services.search(body.query, body.userId, body.topK).value;
      var reply := services.generate(Prompt(body.query, Take(Pieces(docs), MaxPromptChars)));
      docs != [] ==>
        (reply.None? ==> r == Failure(GenerationFailed)) &&
        (reply.Some? && reply.value.text.None? ==> r == Failure(AnswerMissing)) &&
        (reply.Some? && reply.value.text.Some? ==>
          r == Success(QueryResponse(Strip(reply.value.text.value), Sources(docs, body.topK),
                                     Some(reply.value.responseObject))))
  {
    if body.query == "" || body.userId == 0 {
      return Failure(BadRequest);
    }
    var results := services.search(body.query, body.userId, body.topK);
    if results.None? {
      return Failure(SearchFailed);
    }
    var docs := results.value;
    if docs == [] {
      return Success(QueryResponse(NoDocumentsAnswer, [], None));
    }
    var prompt := BuildPrompt(body.query, docs);
    var reply := services.generate(prompt);
    if reply.None? {
      return Failure(GenerationFailed);
    }
    var sources := Sources(docs, body.topK);
    if reply.value.text.None? {
      return Failure(AnswerMissing);
    }
    r := Success(QueryResponse(Strip(reply.value.text.value), sources, Some(reply.value.responseObject)));
  }
}
