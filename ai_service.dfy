/** The OpenAI wrapper (Services/AIService.cs): cosine similarity of stored
    embeddings against a query, the embedding call's failure check, and the
    chat call's request assembly and error classification. Arithmetic is
    exact (`real`); the square root is an abstract parameter. */
module AIService {
  import opened Common
  import opened Models

  /** A decoded embedding response (EmbeddingCreateResponse): one vector per embedded text, in order. */
  datatype EmbeddingResponse = EmbeddingResponse(data: seq<seq<real>>)

  /** The exceptions of this service. */
  datatype AIError =
    | NullReference            // a query response without data: FirstOrDefault() is null
    | LengthMismatch           // ArgumentException("Vectors must have the same length")
    | ApiFailure(message: string)  // Exception(response.Error.Message)

  // ---------------------------------------------------------------------
  // CalculateEmbeddingAsync

  /** What the embeddings endpoint answers. */
  datatype EmbeddingApiResponse =
    | EmbeddingSucceeded(response: EmbeddingResponse)
    | EmbeddingFailed(message: string)

  /** An unsuccessful response throws with the service's message; a successful
      one is handed back (as its serialized form in the source). */
  function CalculateEmbedding(api: EmbeddingApiResponse): (r: Result<EmbeddingResponse, AIError>)
    ensures r.Ok? <==> api.EmbeddingSucceeded?
    ensures r.Ok? ==> r.value == api.response
    ensures api.EmbeddingFailed? ==> r == Err(ApiFailure(api.message))
  {
    match api
    case EmbeddingSucceeded(response) => Ok(response)
    case EmbeddingFailed(message) => Err(ApiFailure(message))
  }

  // ---------------------------------------------------------------------
  // CalculateCosineSimilarity

  /** The plain sum of products a[0]*b[0] + ... + a[n-1]*b[n-1]. */
  function Dot(a: seq<real>, b: seq<real>): real
    requires |a| == |b|
  {
    if a == [] then 0.0 else Dot(a[..|a| - 1], b[..|b| - 1]) + a[|a| - 1] * b[|b| - 1]
  }

  lemma {:induction false} DotAppend(a1: seq<real>, a2: seq<real>, b1: seq<real>, b2: seq<real>)
    requires |a1| == |b1| && |a2| == |b2|
    ensures Dot(a1 + a2, b1 + b2) == Dot(a1, b1) + Dot(a2, b2)
    decreases |a2|
  {
    if a2 != [] {
      var n := |a2| - 1;
      assert (a1 + a2)[..|a1 + a2| - 1] == a1 + a2[..n];
      assert (b1 + b2)[..|b1 + b2| - 1] == b1 + b2[..n];
      DotAppend(a1, a2[..n], b1, b2[..n]);
    } else {
      assert a1 + a2 == a1 && b1 + b2 == b1;
    }
  }

  lemma {:induction false} DotSelfNonNegative(a: seq<real>)
    ensures Dot(a, a) >= 0.0
  {
    if a != [] {
      DotSelfNonNegative(a[..|a| - 1]);
    }
  }

  lemma {:induction false} DotSymmetric(a: seq<real>, b: seq<real>)
    requires |a| == |b|
    ensures Dot(a, b) == Dot(b, a)
  {
    if a != [] {
      DotSymmetric(a[..|a| - 1], b[..|b| - 1]);
    }
  }

  /** The abstract square root is positive on positive arguments (all the
      model needs of Math.Sqrt to divide by it). */
  ghost predicate SqrtPositive(sqrt: real -> real) {
    forall x :: 0.0 < x ==> 0.0 < sqrt(x)
  }

  /** The final step of the source: 0 when a norm is 0, else dot / (sqrt(norm1) * sqrt(norm2)). */
  function Quotient(dot: real, norm1: real, norm2: real, sqrt: real -> real): real
    requires norm1 >= 0.0 && norm2 >= 0.0 && SqrtPositive(sqrt)
  {
    if norm1 == 0.0 || norm2 == 0.0 then 0.0 else dot / (sqrt(norm1) * sqrt(norm2))
  }

  /** Cosine similarity under exact arithmetic: a length mismatch throws, a
      zero norm gives 0, otherwise dot / (|v1| * |v2|). */
  function CosineSimilarity(v1: seq<real>, v2: seq<real>, sqrt: real -> real): (r: Result<real, AIError>)
    requires SqrtPositive(sqrt)
    ensures r.Err? <==> |v1| != |v2|
    ensures r.Err? ==> r.error == LengthMismatch
    ensures r.Ok? && (Dot(v1, v1) == 0.0 || Dot(v2, v2) == 0.0) ==> r.value == 0.0
    ensures r.Ok? && Dot(v1, v1) != 0.0 && Dot(v2, v2) != 0.0 ==>
              r.value * (sqrt(Dot(v1, v1)) * sqrt(Dot(v2, v2))) == Dot(v1, v2)
  {
    if |v1| != |v2| then Err(LengthMismatch)
    else
      DotSelfNonNegative(v1);
      DotSelfNonNegative(v2);
      Ok(Quotient(Dot(v1, v2), Dot(v1, v1), Dot(v2, v2), sqrt))
  }

  /** Cosine similarity does not depend on the order of its arguments. */
  lemma CosineSimilaritySymmetric(v1: seq<real>, v2: seq<real>, sqrt: real -> real)
    requires SqrtPositive(sqrt)
    ensures CosineSimilarity(v1, v2, sqrt) == CosineSimilarity(v2, v1, sqrt)
  {
    if |v1| == |v2| {
      DotSymmetric(v1, v2);
      assert sqrt(Dot(v1, v1)) * sqrt(Dot(v2, v2)) == sqrt(Dot(v2, v2)) * sqrt(Dot(v1, v1));
    }
  }

  /** Extending a prefix by the chunk `a[i..j]` adds the chunk's products. */
  lemma DotChunk(a: seq<real>, b: seq<real>, i: nat, j: nat)
    requires |a| == |b| && i <= j <= |a|
    ensures Dot(a[..j], b[..j]) == Dot(a[..i], b[..i]) + Dot(a[i..j], b[i..j])
    ensures j == i + 1 ==> Dot(a[i..j], b[i..j]) == a[i] * b[i]
  {
    DotAppend(a[..i], a[i..j], b[..i], b[i..j]);
    assert a[..i] + a[i..j] == a[..j];
    assert b[..i] + b[i..j] == b[..j];
    if j == i + 1 {
      var x, y := a[i..j], b[i..j];
      assert x[..0] == [] && y[..0] == [];
    }
  }

  /** The accumulation loops of the source: a chunked pass `lanes` elements
      at a time while a whole chunk fits, then a scalar pass over the rest.
      Together they visit every index once, so the accumulators hold the
      plain sums. */
  method CalculateCosineSimilarity(vector1: seq<real>, vector2: seq<real>, lanes: nat, sqrt: real -> real)
    returns (r: Result<real, AIError>)
    requires lanes >= 1
    requires SqrtPositive(sqrt)
    ensures r == CosineSimilarity(vector1, vector2, sqrt)
  {
    if |vector1| != |vector2| {
      return Err(LengthMismatch);
    }
    var dotProduct, norm1, norm2 := 0.0, 0.0, 0.0;
    var i := 0;
    while i <= |vector1| - lanes
      invariant 0 <= i <= |vector1|
      invariant dotProduct == Dot(vector1[..i], vector2[..i])
      invariant norm1 == Dot(vector1[..i], vector1[..i])
      invariant norm2 == Dot(vector2[..i], vector2[..i])
      decreases |vector1| - i
    {
      var vec1, vec2 := vector1[i..i + lanes], vector2[i..i + lanes];
      dotProduct := dotProduct + Dot(vec1, vec2);
      norm1 := norm1 + Dot(vec1, vec1);
      norm2 := norm2 + Dot(vec2, vec2);
      assert dotProduct == Dot(vector1[..i + lanes], vector2[..i + lanes]) by { DotChunk(vector1, vector2, i, i + lanes); }
      assert norm1 == Dot(vector1[..i + lanes], vector1[..i + lanes]) by { DotChunk(vector1, vector1, i, i + lanes); }
      assert norm2 == Dot(vector2[..i + lanes], vector2[..i + lanes]) by { DotChunk(vector2, vector2, i, i + lanes); }
      i := i + lanes;
    }
    while i < |vector1|
      invariant 0 <= i <= |vector1|
      invariant dotProduct == Dot(vector1[..i], vector2[..i])
      invariant norm1 == Dot(vector1[..i], vector1[..i])
      invariant norm2 == Dot(vector2[..i], vector2[..i])
    {
      dotProduct := dotProduct + vector1[i] * vector2[i];
      norm1 := norm1 + vector1[i] * vector1[i];
      norm2 := norm2 + vector2[i] * vector2[i];
      assert dotProduct == Dot(vector1[..i + 1], vector2[..i + 1]) by { DotChunk(vector1, vector2, i, i + 1); }
      assert norm1 == Dot(vector1[..i + 1], vector1[..i + 1]) by { DotChunk(vector1, vector1, i, i + 1); }
      assert norm2 == Dot(vector2[..i + 1], vector2[..i + 1]) by { DotChunk(vector2, vector2, i, i + 1); }
      i := i + 1;
    }
    assert vector1[..i] == vector1 && vector2[..i] == vector2;
    DotSelfNonNegative(vector1);
    DotSelfNonNegative(vector2);
    assert dotProduct == Dot(vector1, vector2) && norm1 == Dot(vector1, vector1) >= 0.0 && norm2 == Dot(vector2, vector2) >= 0.0;
    r := Ok(Quotient(dotProduct, norm1, norm2, sqrt));
  }

  // ---------------------------------------------------------------------
  // CompareEmbeddings

  /** The number of vectors across all stored responses. */
  function TotalVectors(stored: seq<EmbeddingResponse>): nat
  {
    if stored == [] then 0 else |stored[0].data| + TotalVectors(stored[1..])
  }

  /** SelectMany over the stored responses: list order, then order within a response. */
  function Flatten(stored: seq<EmbeddingResponse>): (vs: seq<seq<real>>)
    ensures |vs| == TotalVectors(stored)
  {
    if stored == [] then [] else stored[0].data + Flatten(stored[1..])
  }

  /** Vector j of response i sits at position TotalVectors(stored[..i]) + j of the flattening. */
  lemma {:induction false} FlattenAt(stored: seq<EmbeddingResponse>, i: nat, j: nat)
    requires i < |stored| && j < |stored[i].data|
    ensures TotalVectors(stored[..i]) + j < TotalVectors(stored)
    ensures Flatten(stored)[TotalVectors(stored[..i]) + j] == stored[i].data[j]
  {
    if i == 0 {
      assert stored[..0] == [];
    } else {
      assert stored[..i][1..] == stored[1..][..i - 1];
      FlattenAt(stored[1..], i - 1, j);
    }
  }

  /** Every vector of `vs` has `n` components. */
  predicate AllOfLength(vs: seq<seq<real>>, n: nat) {
    forall k :: 0 <= k < |vs| ==> |vs[k]| == n
  }

  /** Similarities of every vector of `vs` against `q`, in order; the first
      length mismatch throws. */
  function ScoreAll(vs: seq<seq<real>>, q: seq<real>, sqrt: real -> real): (r: Result<seq<real>, AIError>)
    requires SqrtPositive(sqrt)
    ensures r.Ok? <==> AllOfLength(vs, |q|)
    ensures r.Err? ==> r.error == LengthMismatch
    ensures r.Ok? ==> |r.value| == |vs|
    ensures r.Ok? ==> forall k :: 0 <= k < |vs| ==> CosineSimilarity(vs[k], q, sqrt) == Ok(r.value[k])
  {
    if vs == [] then Ok([])
    else
      match CosineSimilarity(vs[0], q, sqrt)
      case Err(e) => Err(e)
      case Ok(x) =>
        match ScoreAll(vs[1..], q, sqrt)
        case Err(e) => Err(e)
        case Ok(xs) =>
          assert forall k :: 1 <= k < |vs| ==> vs[k] == vs[1..][k - 1];
          Ok([x] + xs)
  }

  /** CompareEmbeddings: one similarity per stored vector, aligned with the
      flattened stored vectors, each against the first vector of the query
      response. */
  function CompareEmbeddings(query: EmbeddingResponse, stored: seq<EmbeddingResponse>, sqrt: real -> real)
    : (r: Result<seq<real>, AIError>)
    requires SqrtPositive(sqrt)
    ensures query.data == [] ==> r == Err(NullReference)
    ensures query.data != [] ==>
              (r.Ok? <==> AllOfLength(Flatten(stored), |query.data[0]|))
    ensures r.Err? ==> r.error == NullReference || r.error == LengthMismatch
    ensures r.Ok? ==> |r.value| == TotalVectors(stored)
    ensures r.Ok? ==> forall k :: 0 <= k < |r.value| ==>
              CosineSimilarity(Flatten(stored)[k], query.data[0], sqrt) == Ok(r.value[k])
  {
    if query.data == [] then Err(NullReference)
    else
      ScoreAll(Flatten(stored), query.data[0], sqrt)
  }

  /** The score of vector j of stored response i is at position TotalVectors(stored[..i]) + j. */
  lemma CompareEmbeddingsAt(query: EmbeddingResponse, stored: seq<EmbeddingResponse>, sqrt: real -> real, i: nat, j: nat)
    requires SqrtPositive(sqrt)
    requires CompareEmbeddings(query, stored, sqrt).Ok?
    requires i < |stored| && j < |stored[i].data|
    ensures var scores := CompareEmbeddings(query, stored, sqrt).value;
      TotalVectors(stored[..i]) + j < |scores| &&
      CosineSimilarity(stored[i].data[j], query.data[0], sqrt) == Ok(scores[TotalVectors(stored[..i]) + j])
  {
    FlattenAt(stored, i, j);
  }

  // ---------------------------------------------------------------------
  // ChatWithContextAsync

  const ChatModel := "gpt-3.5-turbo"
  const ContextLengthExceeded := "context_length_exceeded"

  datatype ChatRequest = ChatRequest(model: string, temperature: real, messages: seq<Message>)

  /** What the chat-completion endpoint answers. */
  datatype ChatApiResponse =
    | ChatSucceeded(choices: seq<Message>)
    | ChatFailed(code: string, message: string)

  /** How ChatWithContextAsync ends: a reply (None for a null first choice),
      a FormatException for an over-long context, or a plain Exception. */
  datatype ChatOutcome =
    | Reply(reply: Option<Message>)
    | ContextTooLong(detail: string)
    | Failure(detail: string)

  /** The request: the context as a system message ahead of the caller's messages. */
  function BuildChatRequest(context: string, temperature: real, messages: seq<Message>): (req: ChatRequest)
    ensures |req.messages| == |messages| + 1
    ensures req.messages[0] == Message("system", context)
    ensures forall k :: 0 <= k < |messages| ==> req.messages[k + 1] == messages[k]
    ensures req.model == ChatModel && req.temperature == temperature
  {
    ChatRequest(ChatModel, temperature, [Message("system", context)] + messages)
  }

  /** The error code "context_length_exceeded" and only it becomes a
      FormatException; a success yields the first choice, if any. */
  function ClassifyChatResponse(response: ChatApiResponse): (r: ChatOutcome)
    ensures r.Reply? <==> response.ChatSucceeded?
    ensures r.ContextTooLong? <==> response.ChatFailed? && response.code == ContextLengthExceeded
    ensures r.Failure? <==> response.ChatFailed? && response.code != ContextLengthExceeded
    ensures response.ChatFailed? ==> r.detail == response.message
    ensures r.Reply? ==> (r.reply.Some? <==> response.choices != [])
    ensures r.Reply? && r.reply.Some? ==> r.reply.value == response.choices[0]
  {
    match response
    case ChatSucceeded(choices) => Reply(if choices == [] then None else Some(choices[0]))
    case ChatFailed(code, message) =>
      if code == ContextLengthExceeded then ContextTooLong(message) else Failure(message)
  }

  /** One chat call through the endpoint `api`: the outcome is read from
      what the endpoint answers to the request that puts the context ahead
      of the caller's messages. */
  function ChatWithContext(context: string, temperature: real, messages: seq<Message>,
                           api: ChatRequest -> ChatApiResponse): (r: ChatOutcome)
    ensures var response := api(BuildChatRequest(context, temperature, messages));
      && (r.Reply? <==> response.ChatSucceeded?)
      && (r.ContextTooLong? <==> response.ChatFailed? && response.code == ContextLengthExceeded)
      && (r.Failure? <==> response.ChatFailed? && response.code != ContextLengthExceeded)
      && (response.ChatFailed? ==> r.detail == response.message)
      && (r.Reply? ==> r.reply == if response.choices == [] then None else Some(response.choices[0]))
  {
    ClassifyChatResponse(api(BuildChatRequest(context, temperature, messages)))
  }
}
