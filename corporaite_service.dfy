/** Services/CorporAIteService.cs: computing a CSV file's embeddings in
    batches and uploading them next to it, and answering a chat with the
    lines of that file whose embeddings are closest to the user's last
    question, retrying with half the context while the chat service reports
    the context as too long. */
module CorporAIteService {
  import opened Common
  import opened Text
  import opened Models
  import opened EmbeddingBatches
  import AIService
  import FileExtensions
  import SharePointExtensions
  import SharePointService
  import SharePointAIService

  // ---------------------------------------------------------------------
  // CalculateEmbeddingsAsync

  /** `$"{Path.GetFileNameWithoutExtension(fileName)}-{suffix}.ai"`, not
      sanitised. */
  function EmbeddingName(fileName: string, suffix: nat): string {
    GetFileNameWithoutExtension(fileName) + "-" + NatToString(suffix) + ".ai"
  }

  function EmbeddingNames(fileName: string): nat -> string {
    (suffix: nat) => EmbeddingName(fileName, suffix)
  }

  /** The calls the loop makes for a file's lines. The first batch is the
      whole file (`batchSize = lines.Count`), not at most 2000 lines. */
  function EmbeddingRun(fileName: string, lines: seq<string>, service: Service): seq<Attempt> {
    Run(lines, |lines|, 1, 0, EmbeddingNames(fileName), service)
  }

  /** `Path.Combine(folderPath, fileName)` with '/' as the separator: an
      empty part is dropped, a rooted second part wins, and a separator is
      put between the two only when the first does not end with one. */
  function CombinePath(folderPath: string, fileName: string): string {
    if fileName == "" then folderPath
    else if folderPath == "" then fileName
    else if fileName[0] == '/' then fileName
    else if folderPath[|folderPath| - 1] == '/' then folderPath + fileName
    else folderPath + "/" + fileName
  }

  /** Combining keeps the folder when the name is empty, and otherwise a
      name without separators is the file name of the combined path. */
  lemma CombinePathNamesFile(folderPath: string, fileName: string)
    ensures fileName == "" ==> CombinePath(folderPath, fileName) == folderPath
    ensures fileName != "" && '/' !in fileName ==>
              Text.GetFileName(CombinePath(folderPath, fileName)) == fileName
  {
    if fileName != "" && '/' !in fileName && folderPath != "" {
      var path := CombinePath(folderPath, fileName);
      var at := |path| - |fileName| - 1;
      assert path[at] == '/';
      assert path[at + 1..] == fileName;
    }
  }

  /** `CalculateEmbeddingsAsync`: download the file through the cache, turn
      its records into lines, then embed and upload them batch by batch. The
      source returns nothing; `calls` records the remote calls it makes. */
  method CalculateEmbeddings(client: SharePointService.SharePointClient, siteUrl: string, folderPath: string,
                             fileName: string, parse: Bytes -> seq<FileExtensions.Record>, service: Service)
    returns (calls: seq<Attempt>)
    requires client.Valid()
    modifies client
    ensures client.Valid()
    ensures var download := SharePointService.Download(old(client.cache), client.remote, siteUrl,
                                                       CombinePath(folderPath, fileName));
      && client.cache == download.cache
      && calls == EmbeddingRun(fileName, FileExtensions.CsvLines(parse(download.value)), service)
  {
    var bytes := client.DownloadFileFromSharePoint(siteUrl, CombinePath(folderPath, fileName));
    var lines := FileExtensions.ConvertCsvToList(parse(bytes));
    calls := EmbedInBatches(lines, EmbeddingNames(fileName), service);
  }

  /** What the loop does for a file's lines: no call for no lines; the first
      call sends all of them; every call sends between 1 and
      max(|lines|, 2000) lines; and the k-th upload is named with suffix
      k + 1. */
  lemma EmbeddingRunShape(fileName: string, lines: seq<string>, service: Service, k: nat)
    ensures var t := EmbeddingRun(fileName, lines, service);
      && (lines == [] <==> t == [])
      && (t != [] ==> t[0].batch == lines && t[0].fileName == EmbeddingName(fileName, 1))
      && BatchesWithin(t, Max(|lines|, MaxBatchSize))
      && (k < |Successes(t)| ==> Successes(t)[k].fileName == EmbeddingName(fileName, k + 1))
  {
    var name := EmbeddingNames(fileName);
    var t := EmbeddingRun(fileName, lines, service);
    RunShape(lines, |lines|, 1, 0, name, service);
    if lines != [] {
      RunUnfold(lines, |lines|, 1, 0, name, service);
      assert lines[..|lines|] == lines;
    }
    RunBatchBounds(lines, |lines|, 1, 0, name, service);
    RunNames(lines, |lines|, 1, 0, name, service);
    if k < |Successes(t)| {
      assert Successes(t)[k].fileName == name(1 + k);
    }
  }

  /** The lines uploaded form an in-order prefix of the input, which is all
      of it unless the last call failed on at most 3 lines; and what follows
      call j is what the loop prescribes: after a success, a batch of
      min(2000, remaining lines); after a failure, the first half of the
      batch under the same name, or the end once that half would be 1. */
  lemma EmbeddingRunProgress(fileName: string, lines: seq<string>, service: Service, j: nat)
    ensures var t := EmbeddingRun(fileName, lines, service);
      && |Sent(t)| <= |lines| && Sent(t) == lines[..|Sent(t)|]
      && (Sent(t) == lines || (t != [] && !Succeeded(t[|t| - 1]) && |t[|t| - 1].batch| <= 3))
      && (j < |t| ==> StepsFrom(lines, t, j))
  {
    var name := EmbeddingNames(fileName);
    var t := EmbeddingRun(fileName, lines, service);
    RunSentIsPrefix(lines, |lines|, 1, 0, name, service);
    RunEnd(lines, |lines|, 1, 0, name, service);
    if j < |t| {
      RunStep(lines, |lines|, 1, 0, name, service, j);
    }
  }

  /** Every file uploaded for a document passes the filter `ChatWithDataAsync`
      looks its embeddings up with: the name starts with the document's name
      without extension and has the extension ".ai". */
  lemma EmbeddingNameFound(fileName: string, suffix: nat, f: SharePointExtensions.SpFile)
    requires f.name == EmbeddingName(fileName, suffix)
    ensures SharePointService.Matches(f, ".ai", GetFileNameWithoutExtension(fileName))
  {
    var stem := GetFileNameWithoutExtension(fileName);
    var valid := stem + "-" + NatToString(suffix);
    assert valid[..|stem|] == stem;
    SharePointAIService.ExtendedNameFound(stem, valid, f);
  }

  // ---------------------------------------------------------------------
  // Ranking: Select((l, i) => ...).OrderByDescending(r => r.Score).Take(100)

  const MaxResults := 100

  /** A line of the file with the score at its position. */
  datatype Scored = Scored(text: string, score: real, index: nat)

  /** The order of the stable `OrderByDescending`: a higher score first and,
      of equal scores, the earlier line first. */
  predicate Before(a: Scored, b: Scored) {
    a.score > b.score || (a.score == b.score && a.index < b.index)
  }

  predicate Ordered(s: seq<Scored>) {
    forall i, j :: 0 <= i < j < |s| ==> Before(s[i], s[j])
  }

  /** No two entries come from the same line. */
  predicate DistinctLines(s: seq<Scored>) {
    forall i, j :: 0 <= i < j < |s| ==> s[i].index != s[j].index
  }

  /** Line i paired with score i (`vectors.ElementAt(i)`). */
  function Pair(lines: seq<string>, scores: seq<real>): (r: seq<Scored>)
    requires |lines| <= |scores|
    ensures |r| == |lines|
    ensures forall i :: 0 <= i < |lines| ==> r[i] == Scored(lines[i], scores[i], i)
  {
    seq(|lines|, i requires 0 <= i < |lines| => Scored(lines[i], scores[i], i))
  }

  function Insert(x: Scored, s: seq<Scored>): (r: seq<Scored>)
    ensures multiset(r) == multiset(s) + multiset{x}
  {
    if s == [] then [x]
    else if Before(x, s[0]) then [x] + s
    else
      assert s == [s[0]] + s[1..];
      [s[0]] + Insert(x, s[1..])
  }

  /** The entries in `Before` order. */
  function SortByScore(s: seq<Scored>): (r: seq<Scored>)
    ensures multiset(r) == multiset(s)
  {
    if s == [] then []
    else
      assert s == [s[0]] + s[1..];
      Insert(s[0], SortByScore(s[1..]))
  }

  /** An entry before all of an ordered sequence can go in front of it. */
  lemma OrderedCons(x: Scored, s: seq<Scored>)
    requires Ordered(s)
    requires forall j :: 0 <= j < |s| ==> Before(x, s[j])
    ensures Ordered([x] + s)
  {
    var r := [x] + s;
    forall i, j | 0 <= i < j < |r| ensures Before(r[i], r[j]) {
      assert r[j] == s[j - 1];
      if i > 0 {
        assert r[i] == s[i - 1];
      }
    }
  }

  lemma {:induction false} InsertOrdered(x: Scored, s: seq<Scored>)
    requires Ordered(s)
    requires forall e :: e in s ==> e.index != x.index
    ensures Ordered(Insert(x, s))
  {
    if s == [] {
    } else if Before(x, s[0]) {
      forall j | 0 <= j < |s| ensures Before(x, s[j]) {
        if j > 0 {
          assert Before(s[0], s[j]);
        }
      }
      OrderedCons(x, s);
    } else {
      var tail := s[1..];
      assert Ordered(tail) by {
        forall i, j | 0 <= i < j < |tail| ensures Before(tail[i], tail[j]) {
          assert tail[i] == s[i + 1] && tail[j] == s[j + 1];
        }
      }
      InsertOrdered(x, tail);
      var rest := Insert(x, tail);
      forall j | 0 <= j < |rest| ensures Before(s[0], rest[j]) {
        assert rest[j] in multiset(rest);
        if rest[j] != x {
          assert rest[j] in multiset(tail);
          var l :| 0 <= l < |tail| && tail[l] == rest[j];
          assert s[l + 1] == rest[j];
        }
      }
      OrderedCons(s[0], rest);
    }
  }

  /** Sorting entries that come from different lines puts them in `Before`
      order. */
  lemma {:induction false} SortByScoreOrdered(s: seq<Scored>)
    requires DistinctLines(s)
    ensures Ordered(SortByScore(s))
  {
    if s != [] {
      var tail := s[1..];
      assert DistinctLines(tail);
      SortByScoreOrdered(tail);
      var sorted := SortByScore(tail);
      forall e | e in sorted ensures e.index != s[0].index {
        assert e in multiset(sorted);
        assert e in multiset(tail);
        var l :| 0 <= l < |tail| && tail[l] == e;
        assert s[l + 1] == e;
      }
      InsertOrdered(s[0], sorted);
    }
  }

  /** The ranking: an exception (`ElementAt` past the end) when there are
      fewer scores than lines, else the 100 best-scored lines. */
  function TopResults(lines: seq<string>, scores: seq<real>): (r: Result<seq<Scored>, ChatError>)
    ensures r.Err? <==> |scores| < |lines|
    ensures r.Err? ==> r.error == MissingScores
  {
    if |scores| < |lines| then Err(MissingScores)
    else
      var sorted := SortByScore(Pair(lines, scores));
      assert |sorted| == |multiset(sorted)| == |lines|;
      Ok(sorted[..Min(MaxResults, |lines|)])
  }

  /** The kept entries: min(100, |lines|) of them, line i always with score
      i, no line twice, in `Before` order (best score first, ties in file
      order), and every line left out scores no higher than every line kept;
      with at most 100 lines every line is kept. */
  lemma TopResultsRanked(lines: seq<string>, scores: seq<real>)
    requires |lines| <= |scores|
    ensures var top := TopResults(lines, scores).value;
      && |top| == Min(MaxResults, |lines|)
      && Ordered(top)
      && DistinctLines(top)
      && (forall k :: 0 <= k < |top| ==>
            top[k].index < |lines| && top[k] == Scored(lines[top[k].index], scores[top[k].index], top[k].index))
      && (|lines| <= MaxResults ==> multiset(top) == multiset(Pair(lines, scores)))
  {
    var all := Pair(lines, scores);
    var sorted := SortByScore(all);
    var top := TopResults(lines, scores).value;
    assert |sorted| == |multiset(sorted)| == |lines|;
    SortByScoreOrdered(all);
    assert top == sorted[..Min(MaxResults, |lines|)];
    forall k | 0 <= k < |top|
      ensures top[k].index < |lines| && top[k] == Scored(lines[top[k].index], scores[top[k].index], top[k].index)
    {
      assert top[k] == sorted[k];
      assert sorted[k] in multiset(all);
      var i :| 0 <= i < |all| && all[i] == sorted[k];
    }
    forall i, j | 0 <= i < j < |top| ensures top[i].index != top[j].index {
      assert Before(sorted[i], sorted[j]);
    }
    if |lines| <= MaxResults {
      assert top == sorted;
    }
  }

  /** Line i is kept, or every kept line comes before it in the stable
      descending order: it scores higher, or as high and stands earlier in
      the file. */
  lemma TopResultsBest(lines: seq<string>, scores: seq<real>, i: nat)
    requires |lines| <= |scores| && i < |lines|
    ensures var top := TopResults(lines, scores).value;
      || (exists k :: 0 <= k < |top| && top[k].index == i)
      || (forall k :: 0 <= k < |top| ==> Before(top[k], Scored(lines[i], scores[i], i)))
  {
    var all := Pair(lines, scores);
    var sorted := SortByScore(all);
    var top := TopResults(lines, scores).value;
    assert |sorted| == |multiset(sorted)| == |lines|;
    SortByScoreOrdered(all);
    assert all[i] in multiset(sorted);
    var j :| 0 <= j < |sorted| && sorted[j] == all[i];
    if j < |top| {
      assert top[j].index == i;
    } else {
      forall k | 0 <= k < |top| ensures Before(top[k], Scored(lines[i], scores[i], i)) {
        assert top[k] == sorted[k];
        assert Before(sorted[k], sorted[j]);
      }
    }
  }

  // ---------------------------------------------------------------------
  // ChatWithDataAsync: the retry loop

  /** How ChatWithDataAsync fails. */
  datatype ChatError =
    | NoUserMessage                        // `Last()` of no user message
    | AiFailure(error: AIService.AIError)  // thrown by the embedding call or CompareEmbeddings
    | MissingScores                        // `ElementAt(i)` past the end of the scores
    | ChatFailed(detail: string)           // any chat error but an over-long context
    | CouldNotComplete                     // Exception("Failed to chat with context.")

  /** The chat call: its number, the system context and the history. */
  type Ask = (nat, string, seq<Message>) -> AIService.ChatOutcome

  function Texts(top: seq<Scored>): (r: seq<string>)
    ensures |r| == |top| && forall k :: 0 <= k < |top| ==> r[k] == top[k].text
  {
    seq(|top|, k requires 0 <= k < |top| => top[k].text)
  }

  /** `string.Join(" ", topResults.Select(a => a.Text))` */
  function Context(top: seq<Scored>): string {
    Join(" ", Texts(top))
  }

  /** The context is empty only for no entry or a single empty line. */
  lemma ContextEmpty(top: seq<Scored>)
    ensures Context(top) == "" <==> top == [] || (|top| == 1 && top[0].text == "")
  {
    if |top| >= 2 {
      var texts := Texts(top);
      assert Context(top) == texts[0] + " " + Join(" ", texts[1..]);
    }
  }

  /** The entries tried, in order, and how the loop ended. */
  datatype Exchange = Exchange(tried: seq<seq<Scored>>, result: Result<Option<Message>, ChatError>)

  /** The retry loop from a state: an empty context ends it without a call;
      a reply ends it, as does a chat error other than an over-long context;
      an over-long context halves the entries while there are more than one,
      and ends it otherwise. */
  function Retry(system: string, history: seq<Message>, top: seq<Scored>, call: nat, ask: Ask): Exchange
    decreases |top|
  {
    var context := Context(top);
    if context == "" then Exchange([], Err(CouldNotComplete))
    else
      match ask(call, system + context, history)
      case Reply(reply) => Exchange([top], Ok(reply))
      case Failure(detail) => Exchange([top], Err(ChatFailed(detail)))
      case ContextTooLong(_) =>
        if |top| > 1 then
          var rest := Retry(system, history, top[..|top| / 2], call + 1, ask);
          Exchange([top] + rest.tried, rest.result)
        else Exchange([top], Err(CouldNotComplete))
  }

  /** The attempts: none exactly when the first context is empty; the first
      uses all the entries; and there are at most floor(log2 n) + 1 of them. */
  lemma {:induction false} RetryBound(system: string, history: seq<Message>, top: seq<Scored>, call: nat, ask: Ask)
    ensures var e := Retry(system, history, top, call, ask);
      && (e.tried == [] <==> Context(top) == "")
      && (e.tried != [] ==> e.tried[0] == top)
      && |e.tried| <= Log2(|top|) + 1
    decreases |top|
  {
    var context := Context(top);
    if context != "" && ask(call, system + context, history).ContextTooLong? && |top| > 1 {
      RetryBound(system, history, top[..|top| / 2], call + 1, ask);
    }
  }

  /** One step of the loop: a retry with the first half after an over-long
      context, otherwise at most the one attempt with all the entries. */
  lemma RetryUnfold(system: string, history: seq<Message>, top: seq<Scored>, call: nat, ask: Ask)
    ensures var e := Retry(system, history, top, call, ask);
      var context := Context(top);
      if context != "" && ask(call, system + context, history).ContextTooLong? && |top| > 1 then
        var rest := Retry(system, history, top[..|top| / 2], call + 1, ask);
        e.tried == [top] + rest.tried && e.result == rest.result
      else
        |e.tried| <= 1 && (e.tried != [] ==> e.tried[0] == top && context != "")
  {
  }

  /** Each attempt uses the best-ranked entries and a non-empty context. */
  lemma {:induction false} RetryPrefixes(system: string, history: seq<Message>, top: seq<Scored>, call: nat, ask: Ask)
    ensures var e := Retry(system, history, top, call, ask);
      forall k :: 0 <= k < |e.tried| ==>
        Context(e.tried[k]) != "" && |e.tried[k]| <= |top| && e.tried[k] == top[..|e.tried[k]|]
    decreases |top|
  {
    var e := Retry(system, history, top, call, ask);
    RetryUnfold(system, history, top, call, ask);
    var context := Context(top);
    if context != "" && ask(call, system + context, history).ContextTooLong? && |top| > 1 {
      var half := top[..|top| / 2];
      RetryPrefixes(system, history, half, call + 1, ask);
      var rest := Retry(system, history, half, call + 1, ask);
      forall k | 0 <= k < |e.tried|
        ensures Context(e.tried[k]) != "" && |e.tried[k]| <= |top| && e.tried[k] == top[..|e.tried[k]|]
      {
        if k >= 1 {
          assert e.tried[k] == rest.tried[k - 1];
          assert rest.tried[k - 1] == half[..|rest.tried[k - 1]|];
        } else {
          assert top[..|top|] == top;
        }
      }
    } else if e.tried != [] {
      assert top[..|top|] == top;
    }
  }

  /** Each later attempt uses the first half of the one before, after that
      one's context was too long. */
  lemma {:induction false} RetryHalves(system: string, history: seq<Message>, top: seq<Scored>, call: nat, ask: Ask)
    ensures var e := Retry(system, history, top, call, ask);
      forall k :: 0 <= k < |e.tried| - 1 ==>
        |e.tried[k + 1]| == |e.tried[k]| / 2
        && ask(call + k, system + Context(e.tried[k]), history).ContextTooLong?
    decreases |top|
  {
    var e := Retry(system, history, top, call, ask);
    RetryUnfold(system, history, top, call, ask);
    var context := Context(top);
    if context != "" && ask(call, system + context, history).ContextTooLong? && |top| > 1 {
      var half := top[..|top| / 2];
      RetryHalves(system, history, half, call + 1, ask);
      RetryBound(system, history, half, call + 1, ask);
      var rest := Retry(system, history, half, call + 1, ask);
      forall k | 0 <= k < |e.tried| - 1
        ensures |e.tried[k + 1]| == |e.tried[k]| / 2
        ensures ask(call + k, system + Context(e.tried[k]), history).ContextTooLong?
      {
        assert e.tried[k + 1] == rest.tried[k];
        if k >= 1 {
          assert call + 1 + (k - 1) == call + k;
          assert e.tried[k] == rest.tried[k - 1];
        }
      }
    }
  }

  /** An exchange whose calls were numbered from `call` ended as its last
      call answered: with the reply, with the error when it is not an
      over-long context, and with "Failed to chat with context." otherwise
      or when no call was made. */
  predicate EndsAsLastAsked(system: string, history: seq<Message>, call: nat, ask: Ask, e: Exchange) {
    var n := |e.tried|;
    && (n == 0 ==> e.result == Err(CouldNotComplete))
    && (n > 0 ==>
          var last := ask(call + n - 1, system + Context(e.tried[n - 1]), history);
          && (last.Reply? ==> e.result == Ok(last.reply))
          && (last.Failure? ==> e.result == Err(ChatFailed(last.detail)))
          && (last.ContextTooLong? ==> e.result == Err(CouldNotComplete)))
  }

  /** Putting an attempt whose context was too long in front of an exchange
      keeps the way it ended. */
  lemma EndsAfterTooLong(system: string, history: seq<Message>, call: nat, ask: Ask, top: seq<Scored>, rest: Exchange)
    requires ask(call, system + Context(top), history).ContextTooLong?
    requires EndsAsLastAsked(system, history, call + 1, ask, rest)
    ensures EndsAsLastAsked(system, history, call, ask, Exchange([top] + rest.tried, rest.result))
  {
    var tried := [top] + rest.tried;
    if rest.tried != [] {
      assert tried[|tried| - 1] == rest.tried[|rest.tried| - 1];
      assert call + |tried| - 1 == call + 1 + |rest.tried| - 1;
    } else {
      assert tried == [top];
    }
  }

  /** How the loop ends: with the last call's reply, with its error when it
      is not an over-long context, and with "Failed to chat with context."
      when the context was still too long with at most one entry, or when
      halving emptied it, or when it was empty to begin with. */
  lemma {:induction false} RetryOutcome(system: string, history: seq<Message>, top: seq<Scored>, call: nat, ask: Ask)
    ensures EndsAsLastAsked(system, history, call, ask, Retry(system, history, top, call, ask))
    decreases |top|
  {
    RetryUnfold(system, history, top, call, ask);
    var context := Context(top);
    if context != "" && ask(call, system + context, history).ContextTooLong? && |top| > 1 {
      var half := top[..|top| / 2];
      RetryOutcome(system, history, half, call + 1, ask);
      EndsAfterTooLong(system, history, call, ask, top, Retry(system, history, half, call + 1, ask));
    }
  }

  /** The `while (!string.IsNullOrEmpty(contextquery))` loop of
      `ChatWithDataAsync`; `attempts` counts the chat calls. */
  method RetryWithContext(system: string, history: seq<Message>, top: seq<Scored>, ask: Ask)
    returns (result: Result<Option<Message>, ChatError>, attempts: nat)
    ensures result == Retry(system, history, top, 0, ask).result
    ensures attempts == |Retry(system, history, top, 0, ask).tried|
  {
    var topResults := top;
    var contextquery := Context(topResults);
    attempts := 0;
    while contextquery != ""
      invariant contextquery == Context(topResults)
      invariant Retry(system, history, top, 0, ask).result == Retry(system, history, topResults, attempts, ask).result
      invariant |Retry(system, history, top, 0, ask).tried|
             == attempts + |Retry(system, history, topResults, attempts, ask).tried|
      decreases |topResults|
    {
      var outcome := ask(attempts, system + contextquery, history);
      attempts := attempts + 1;
      match outcome
      case Reply(reply) =>
        return Ok(reply), attempts;
      case Failure(detail) =>
        return Err(ChatFailed(detail)), attempts;
      case ContextTooLong(_) =>
        var topResultsCount := |topResults|;
        if topResultsCount > 1 {
          topResults := topResults[..topResultsCount / 2];
          contextquery := Context(topResults);
        } else {
          return Err(CouldNotComplete), attempts;
        }
    }
    result := Err(CouldNotComplete);
  }

  // ---------------------------------------------------------------------
  // ChatWithDataAsync: the pipeline

  /** The content of the last message whose role is "user". */
  function LastUserMessage(history: seq<Message>): Option<string>
  {
    if history == [] then None
    else
      var last := |history| - 1;
      if history[last].role == "user" then Some(history[last].content)
      else LastUserMessage(history[..last])
  }

  /** None exactly when no message is the user's; otherwise the content of a
      user message after which no message is the user's. */
  lemma {:induction false} LastUserMessageIsLast(history: seq<Message>)
    ensures LastUserMessage(history).None? <==> forall i :: 0 <= i < |history| ==> history[i].role != "user"
    ensures LastUserMessage(history).Some? ==>
      exists i :: 0 <= i < |history| && history[i].role == "user" && history[i].content == LastUserMessage(history).value
                  && forall j :: i < j < |history| ==> history[j].role != "user"
  {
    if history != [] {
      var last := |history| - 1;
      var init := history[..last];
      if history[last].role == "user" {
        assert history[last].role == "user";
      } else {
        LastUserMessageIsLast(init);
        assert forall i :: 0 <= i < last ==> init[i] == history[i];
        if LastUserMessage(init).Some? {
          var i :| 0 <= i < |init| && init[i].role == "user" && init[i].content == LastUserMessage(init).value
                   && forall j :: i < j < |init| ==> init[j].role != "user";
          assert history[i] == init[i];
        }
      }
    }
  }

  /** The services the pipeline calls besides SharePoint: the embeddings
      endpoint for the question, the deserialisation of a stored ".ai"
      file, CsvHelper's reading of the downloaded file, the square root and
      the chat call. */
  datatype Environment = Environment(
    embed: string -> AIService.EmbeddingApiResponse,
    decode: Bytes -> AIService.EmbeddingResponse,
    parse: Bytes -> seq<FileExtensions.Record>,
    sqrt: real -> real,
    ask: Ask)

  /** The embedding of the user's last question. */
  function Question(env: Environment, history: seq<Message>): (r: Result<AIService.EmbeddingResponse, ChatError>)
    ensures r.Err? ==> r.error == NoUserMessage || r.error.AiFailure?
    ensures LastUserMessage(history).None? <==> r == Err(NoUserMessage)
    ensures LastUserMessage(history).Some? ==>
      var api := env.embed(LastUserMessage(history).value);
      (r.Ok? <==> api.EmbeddingSucceeded?) && (r.Ok? ==> r.value == api.response)
  {
    match LastUserMessage(history)
    case None => Err(NoUserMessage)
    case Some(question) =>
      match AIService.CalculateEmbedding(env.embed(question))
      case Err(e) => Err(AiFailure(e))
      case Ok(query) => Ok(query)
  }

  /** The stored embedding files, decoded, in lookup order. */
  function Stored(env: Environment, files: seq<(Bytes, Time)>): (r: seq<AIService.EmbeddingResponse>)
    ensures |r| == |files| && forall i :: 0 <= i < |files| ==> r[i] == env.decode(files[i].0)
  {
    seq(|files|, i requires 0 <= i < |files| => env.decode(files[i].0))
  }

  /** The ranked lines of the downloaded file against the question. */
  function Ranking(env: Environment, query: AIService.EmbeddingResponse, files: seq<(Bytes, Time)>, csv: Bytes)
    : Result<seq<Scored>, ChatError>
    requires AIService.SqrtPositive(env.sqrt)
  {
    match AIService.CompareEmbeddings(query, Stored(env, files), env.sqrt)
    case Err(e) => Err(AiFailure(e))
    case Ok(scores) => TopResults(FileExtensions.CsvLines(env.parse(csv)), scores)
  }

  /** When the ranking succeeds, line i of the file is scored against the
      i-th stored vector, the question's first vector being the query. */
  lemma RankingScores(env: Environment, query: AIService.EmbeddingResponse, files: seq<(Bytes, Time)>, csv: Bytes)
    requires AIService.SqrtPositive(env.sqrt)
    requires Ranking(env, query, files, csv).Ok?
    ensures var stored := AIService.Flatten(Stored(env, files));
      var lines := FileExtensions.CsvLines(env.parse(csv));
      && query.data != [] && |lines| <= |stored|
      && forall k :: 0 <= k < |Ranking(env, query, files, csv).value| ==>
           var e := Ranking(env, query, files, csv).value[k];
           e.index < |lines| && e.text == lines[e.index]
           && AIService.CosineSimilarity(stored[e.index], query.data[0], env.sqrt) == Ok(e.score)
  {
    var scores := AIService.CompareEmbeddings(query, Stored(env, files), env.sqrt).value;
    TopResultsRanked(FileExtensions.CsvLines(env.parse(csv)), scores);
  }

  /** `ChatWithDataAsync`: look the document's ".ai" files up, embed the
      last question, download and read the document, score its lines, rank
      them and chat with the best ones as context. The file lookup and the
      download go through the SharePoint cache; the download happens only
      once the question is embedded. */
  method ChatWithData(client: SharePointService.SharePointClient, siteUrl: string, folderPath: string,
                      fileName: string, chat: Chat, env: Environment)
    returns (result: Result<Option<Message>, ChatError>)
    requires client.Valid() && AIService.SqrtPositive(env.sqrt)
    modifies client
    ensures client.Valid()
    ensures var files := SharePointService.FilesByExtension(old(client.cache), client.remote, siteUrl, folderPath,
                                                            ".ai", GetFileNameWithoutExtension(fileName));
      match Question(env, chat.history)
      case Err(e) => result == Err(e) && client.cache == files.cache
      case Ok(query) =>
        var download := SharePointService.Download(files.cache, client.remote, siteUrl, folderPath + "/" + fileName);
        && client.cache == download.cache
        && result == match Ranking(env, query, files.value, download.value)
                     case Err(e) => Err(e)
                     case Ok(top) => Retry(chat.system, chat.history, top, 0, env.ask).result
  {
    var files := client.GetFilesByExtensionFromFolder(siteUrl, folderPath, ".ai", GetFileNameWithoutExtension(fileName));
    var queryEmbedding := Question(env, chat.history);
    if queryEmbedding.Err? {
      return Err(queryEmbedding.error);
    }
    var bytes := client.DownloadFileFromSharePoint(siteUrl, folderPath + "/" + fileName);
    var lines := FileExtensions.ConvertCsvToList(env.parse(bytes));
    var vectors := AIService.CompareEmbeddings(queryEmbedding.value, Stored(env, files), env.sqrt);
    if vectors.Err? {
      return Err(AiFailure(vectors.error));
    }
    var topResults := TopResults(lines, vectors.value);
    if topResults.Err? {
      return Err(topResults.error);
    }
    var attempts;
    result, attempts := RetryWithContext(chat.system, chat.history, topResults.value, env.ask);
  }
}
