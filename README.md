# CorporAIte core, modelled in Dafny

CorporAIte answers questions about documents stored in SharePoint. A CSV file is
cut into lines and the lines are sent in batches to an embeddings endpoint. Each
batch's embeddings are uploaded next to the document as a numbered `.ai` file. A
chat request about the file then works in four steps:

- it embeds the user's last question;
- it scores every line of the file by cosine similarity against the stored
  embeddings;
- it keeps the 100 best lines;
- it sends them as context to the chat endpoint, halving them while the endpoint
  reports the context as too long.

Around that sit:

- the SharePoint helpers: a cache-aside layer over three getters, the `.url`
  shortcut reader, the name and extension filter for a folder's files, the folder
  walk that collects supported files, the site URL of a full URL, and the choice
  between a single and a chunked upload;
- the SharePoint-safe file names of the embedding files;
- chat-history shortening;
- the text extracted from Word and CSV files.

The model has one module per source file:

| module | models |
|---|---|
| `ChatExtensions` | `Extensions/ChatExtensions.cs` |
| `AIService` | `Services/AIService.cs` |
| `SharePointAIService` | `Services/SharePointAIService.cs` |
| `CorporAIteService` | `Services/CorporAIteService.cs` |
| `SharePointExtensions` | `Extensions/SharePointExtensions.cs` |
| `SharePointService` | `Services/SharePointService.cs` and the `ICacheService` interface |
| `FileExtensions` | `Extensions/FileExtensions.cs` |

Four supporting modules:

- `EmbeddingBatches` holds the batching loop that `CalculateEmbeddingsAsync` and
  `CalculateAndUploadEmbeddingsAsync` both contain. `Run` is the sequence of calls
  that loop makes, and both loop methods are proved equal to it.
- `Models` holds the chat message and the `Chat` object whose history is shortened
  in place.
- `Common` holds Option, Result, bytes, times and min/max.
- `Text` holds the .NET string and `System.IO.Path` operations the core relies on:
  `IndexOf`, `Split`, `Join`, `Trim`, `StartsWith` and `Equals` ignoring case,
  `GetExtension` and `GetFileNameWithoutExtension`.

Remote services are parameters that answer each call:

- the embeddings, upload and chat endpoints are indexed by the call's number;
- the SharePoint client is a `Remote` whose answers are given;
- `DateTime.Now` is a clock indexed by call number;
- the CSV, OpenXml and JSON parsers are functions from bytes to their parsed
  output.

Where the source changes state, the model does too:

- `ShortenChatHistory` removes messages from `Chat.history`;
- the SharePoint service's getters update the class's `cache` map;
- the folder walk appends to a caller-owned list;
- the batching, retry, cosine and conversion loops are `while` loops with
  invariants.

Each of these methods is proved equal to a function, and the properties are
proved about that function.

`ConvertCsvToList` appears twice in the source, with the same loop: in
`Extensions/FileExtensions.cs:49-81` and privately in
`Services/CorporAIteService.cs:118-150`. Both are modelled by
`FileExtensions.ConvertCsvToList`.

## Model

| member | source | states |
|---|---|---|
| Models.Chat.constructor | Models/Chat.cs:19-23 | A new chat holds the given system prompt and history. |
| ChatExtensions.Shortened | Extensions/ChatExtensions.cs:9-26 | An empty history fails, because index 0 is read. A non-empty one can be shortened exactly when it has more than StartIndex + 1 messages, and a shortened history is strictly shorter. |
| ChatExtensions.ShortenedRemoves | Extensions/ChatExtensions.cs:13-20 | Exactly one or two messages go, both at StartIndex, and the rest keep their order. Two go exactly when the message after the first removed one is an assistant reply and is not the newest message. |
| ChatExtensions.ShortenedKeeps | Extensions/ChatExtensions.cs:11-19 | A leading system prompt and the newest message survive, and at least StartIndex + 1 messages remain. |
| ChatExtensions.ShortenChatHistory | Extensions/ChatExtensions.cs:9-26 | On success, the chat's history becomes the shortened history. On failure, it raises the same exception and the history is unchanged. |
| ChatExtensions.RoundsBound | Extensions/ChatExtensions.cs:13-25 | Calling it repeatedly throws after fewer successful calls than the history has messages. |
| ChatExtensions.ExhaustLeavesNewest | Extensions/ChatExtensions.cs:13-25 | Shortening until it throws leaves one or two messages: the newest, and before it the leading system prompt if there was one. |
| AIService.CalculateEmbedding | Services/AIService.cs:50-55 | The call succeeds exactly when the endpoint's response is successful, and then returns that response. A failed response throws with the endpoint's error message. |
| AIService.DotSelfNonNegative | Services/AIService.cs:111-120 | An accumulated norm is never negative, so its square root is defined. |
| AIService.DotSymmetric | Services/AIService.cs:110-118 | The dot product does not depend on the order of the vectors. |
| AIService.CosineSimilarity | Services/AIService.cs:91-129 | Vectors of different lengths throw. A zero norm gives 0. Otherwise the result times the product of the two norms' square roots is the dot product. |
| AIService.CosineSimilaritySymmetric | Services/AIService.cs:91-129 | The similarity of v1 to v2 equals that of v2 to v1. |
| AIService.DotChunk | Services/AIService.cs:106-121 | A chunk of products added to a prefix's sum gives the sum of the longer prefix. A one-element chunk contributes a[i] * b[i]. |
| AIService.CalculateCosineSimilarity | Services/AIService.cs:91-129 | Whatever the SIMD width L >= 1, the chunked loop followed by the scalar loop yields exactly the cosine similarity: every index is visited once. |
| AIService.Flatten | Services/AIService.cs:32-35 | SelectMany over the stored responses yields as many vectors as all responses hold together. |
| AIService.FlattenAt | Services/AIService.cs:32-35 | Vector j of response i lands at position (vectors of the earlier responses) + j. |
| AIService.ScoreAll | Services/AIService.cs:33 | Scoring succeeds exactly when every vector has the query's length. It yields one score per vector, in order, each that vector's cosine similarity. |
| AIService.CompareEmbeddings | Services/AIService.cs:27-38 | A query response without data is a null reference. Otherwise: one score per stored vector, the k-th being the similarity of the k-th flattened vector against the query's first vector. A length mismatch fails. |
| AIService.CompareEmbeddingsAt | Services/AIService.cs:30-35 | The score of vector j of stored response i sits at that vector's flattened position. |
| AIService.BuildChatRequest | Services/AIService.cs:60-72 | The request's messages are a system message with the context, then the caller's messages in order. It names model gpt-3.5-turbo with the given temperature. |
| AIService.ClassifyChatResponse | Services/AIService.cs:77-88 | A FormatException comes exactly from a failure coded "context_length_exceeded". Any other failure is a plain exception carrying the service's message. A success yields the first choice, or null when there is none. |
| AIService.ChatWithContext | Services/AIService.cs:58-89 | The call's outcome is read from what the endpoint answers to the request that puts the context ahead of the messages. It is a reply exactly when the endpoint succeeds (its first choice, or null), a FormatException exactly on the code "context_length_exceeded", and otherwise an exception with the endpoint's message. |
| SharePointAIService.RemoveBoundaryDotsWithoutDots | Services/SharePointAIService.cs:28-34 | Removing a leading or trailing '.' changes nothing once the first replacement has removed every '.'. |
| SharePointAIService.MakeValidIsTruncatedReplace | Services/SharePointAIService.cs:25-43 | Sanitising is replacing the invalid characters, then cutting to 128 characters. |
| SharePointAIService.MakeValidSharePointFileName | Services/SharePointAIService.cs:25-43 | The sanitised name has length min(128, length of the input). Each of its characters is the input's, or '_' where the input's was invalid, and none of the class's characters (~ # % & * { } : < > ? / + " . and the vertical bar) is left. |
| SharePointAIService.MakeValidIdempotent | Services/SharePointAIService.cs:25-43 | Sanitising a sanitised name changes nothing. |
| SharePointAIService.MakeValidPrefix | Services/SharePointAIService.cs:25-43 | The sanitised form of a text is a prefix of the sanitised form of any extension of it. |
| SharePointAIService.MakeValidTruncates | Services/SharePointAIService.cs:37-40 | Whatever follows the first 128 characters has no effect on the name. |
| SharePointAIService.UploadNameFound | Services/SharePointAIService.cs:46-65 | Every file name an upload uses passes the filter GetAiFilesForFile looks the files up with: it starts with the lookup prefix and has extension ".ai". |
| SharePointAIService.ExtendedNameFound | Services/SharePointService.cs:157-159 | A name `valid + ".ai"` passes the ".ai" filter for every prefix of `valid`. |
| SharePointAIService.UploadNamesDistinct | Services/SharePointAIService.cs:65 | Batches with different suffixes get different names, as long as the unsanitised name fits in 128 characters. |
| SharePointAIService.UploadNamesCollide | Services/SharePointAIService.cs:37-65 | Once the folder path and document name fill 128 characters, every batch gets the same name, whatever its suffix. |
| SharePointAIService.AiFilesForFile | Services/SharePointAIService.cs:46-49 | A cached answer comes back unchanged, with the cache untouched. A fresh one holds only the bytes and times of files in the AI folder whose names start with the document's sanitised prefix and end in ".ai". The cache stays well formed. |
| SharePointAIService.UploadedFilesAreFound | Services/SharePointAIService.cs:46-49 | On a cache miss, every file of the AI folder named as some batch of the document appears, with its bytes and time, among the entries GetAiFilesForFile returns. |
| SharePointAIService.UploadedIsSuccesses | Services/SharePointAIService.cs:64-68 | The returned list has one entry per successful batch, in order: the bytes uploaded and the time of that call. |
| SharePointAIService.CalculateAndUploadEmbeddings | Services/SharePointAIService.cs:52-85 | The loop terminates and returns exactly the entries of the successful calls of the specified run, which starts with min(2000, count) lines. |
| SharePointAIService.UploadRunFacts | Services/SharePointAIService.cs:55-71 | No lines means no call. Every batch has between 1 and 2000 lines. The uploaded lines are an in-order prefix of the input. The k-th upload is named with suffix k + 1 and is found by the document's lookup. |
| EmbeddingBatches.EmbedInBatches | Services/CorporAIteService.cs:35-61 | The loop terminates, and its calls are exactly those of the specified run from batch size count, suffix 1 and call 0. |
| EmbeddingBatches.RunShape | Services/CorporAIteService.cs:38-61 | There is no call exactly when there are no lines. The first call sends `size` lines under name(suffix). Calls are numbered consecutively. |
| EmbeddingBatches.RunBatchBounds | Services/CorporAIteService.cs:35-53 | Every call sends between 1 and max(starting size, 2000) lines. |
| EmbeddingBatches.RunPosition | Services/CorporAIteService.cs:42-47 | Each call sends the lines that start where the lines of the successful calls before it end. |
| EmbeddingBatches.RunSentIsPrefix | Services/CorporAIteService.cs:42-47 | The lines of the successful calls, concatenated, are an in-order prefix of the input. |
| EmbeddingBatches.RunEnd | Services/CorporAIteService.cs:38-59 | The loop ends either with every line sent, or with lines remaining after a failed call of at most 3 lines (halving it gives 1). |
| EmbeddingBatches.RunStep | Services/CorporAIteService.cs:47-58 | After a failure comes the first half of the same lines under the same name, or the end if the batch had at most 3 lines. After a success comes a batch of min(2000, remaining lines). |
| EmbeddingBatches.RunNames | Services/CorporAIteService.cs:36-48 | The successful calls are named name(suffix), name(suffix + 1), ... in order. Failures do not use up a suffix. |
| CorporAIteService.CombinePathNamesFile | Services/CorporAIteService.cs:31 | `Path.Combine` with an empty name gives the folder. Otherwise a name without separators is the file name of the combined path. |
| CorporAIteService.CalculateEmbeddings | Services/CorporAIteService.cs:29-62 | The file at Path.Combine(folder, name) is downloaded through the cache. Its CSV lines are embedded and uploaded in exactly the calls of the run that starts with the whole file. |
| CorporAIteService.EmbeddingRunShape | Services/CorporAIteService.cs:35-49 | No lines means no call. The first call sends all lines, uncapped, as `<name>-1.ai`. Every batch has between 1 and max(count, 2000) lines. The k-th upload is `<name>-(k+1).ai`. |
| CorporAIteService.EmbeddingRunProgress | Services/CorporAIteService.cs:38-61 | The uploaded lines are an in-order prefix of the input: all of it unless the last call failed on at most 3 lines. Each call is followed as the loop prescribes. |
| CorporAIteService.EmbeddingNameFound | Services/CorporAIteService.cs:44-66 | Every uploaded embedding file passes the filter ChatWithDataAsync looks them up with. |
| CorporAIteService.SortByScore | Services/CorporAIteService.cs:76 | Sorting keeps exactly the same entries. |
| CorporAIteService.SortByScoreOrdered | Services/CorporAIteService.cs:76 | Entries from different lines come out by descending score, equal scores in file order, as the stable OrderByDescending leaves them. |
| CorporAIteService.TopResults | Services/CorporAIteService.cs:74-78 | Ranking fails, with ElementAt past the end, exactly when there are fewer scores than lines. |
| CorporAIteService.TopResultsRanked | Services/CorporAIteService.cs:74-78 | min(100, lines) entries are kept, in ranking order and from distinct lines. Each is a line with its own score. With at most 100 lines, every line is kept. |
| CorporAIteService.TopResultsBest | Services/CorporAIteService.cs:76-77 | Every line is kept, or else every kept line comes before it in the stable descending order: it scores higher, or scores the same and stands earlier in the file. Of 101 equal scores, lines 0 to 99 are kept. |
| CorporAIteService.ContextEmpty | Services/CorporAIteService.cs:80-82 | The context is empty exactly when there are no entries or a single empty line. |
| CorporAIteService.RetryBound | Services/CorporAIteService.cs:82-105 | No chat call is made exactly when the first context is empty. The first call uses all entries. There are at most floor(log2 n) + 1 calls. |
| CorporAIteService.RetryUnfold | Services/CorporAIteService.cs:86-99 | After a context-too-long error with more than one entry, the loop retries with the first half and ends as that retry ends. Otherwise it makes at most the one call with all entries. |
| CorporAIteService.RetryPrefixes | Services/CorporAIteService.cs:93-97 | Every call uses a non-empty context made of the best-ranked entries, a prefix of the ranking. |
| CorporAIteService.RetryHalves | Services/CorporAIteService.cs:91-99 | Each later call uses the first half of the entries of the call before, which reported its context as too long. |
| CorporAIteService.RetryOutcome | Services/CorporAIteService.cs:82-107 | The loop ends as its last call answered: a reply returns it, and another chat error propagates. "Failed to chat with context." comes when the context is too long with one entry, or when the context is or becomes empty. |
| CorporAIteService.RetryWithContext | Services/CorporAIteService.cs:82-107 | The loop returns the specified outcome after the specified number of chat calls. |
| CorporAIteService.LastUserMessageIsLast | Services/CorporAIteService.cs:68 | There is no answer exactly when no message is the user's. Otherwise the answer is the content of the user's message after which no user message follows. |
| CorporAIteService.Question | Services/CorporAIteService.cs:68 | Without a user message, Last() throws. Otherwise the question embeds exactly when the endpoint succeeds, and yields its response. |
| CorporAIteService.RankingScores | Services/CorporAIteService.cs:71-75 | When ranking succeeds, every kept entry is line i with the similarity of the i-th stored vector to the question's first vector, and there are no fewer stored vectors than lines. |
| CorporAIteService.ChatWithData | Services/CorporAIteService.cs:64-108 | The method looks the ".ai" files up, embeds the question, downloads the document, ranks its lines and chats. Cached lookups update the cache as the getters specify, and the download happens only once the question is embedded. |
| FileExtensions.ConvertDocxToText | Extensions/FileExtensions.cs:13-47 | The nested loops yield exactly the document's text: one entry per non-empty paragraph, each the concatenation of its runs' texts. |
| FileExtensions.DocxTextKept | Extensions/FileExtensions.cs:25-42 | The output is, in paragraph order, the text of each paragraph with non-empty text. Every paragraph left out has empty text, and there are at most as many outputs as paragraphs. |
| FileExtensions.ConvertCsvToList | Extensions/FileExtensions.cs:49-81 | One line per record, in record order. Each line joins the record's formatted fields with ';'. |
| FileExtensions.FormatFieldSplits | Extensions/FileExtensions.cs:73 | A formatted field splits back, at its first ':', into its key and its trimmed value, when the key has no ':'. |
| FileExtensions.FormatRecordSplits | Extensions/FileExtensions.cs:76 | Splitting a line on ';' gives back the record's formatted fields when no key or value contains ';'. |
| SharePointExtensions.SupportedOnlyMembers | Extensions/SharePointExtensions.cs:15-16 | A file is kept exactly when its lower-cased extension is one of the supported ones. |
| SharePointExtensions.FileList.constructor | Extensions/SharePointExtensions.cs:40 | The caller's list starts empty. |
| SharePointExtensions.RetrieveSupportedFilesRecursively | Extensions/SharePointExtensions.cs:10-34 | The list gains what the walk collects after its existing entries, which are untouched. The folder's own supported files come first, then those of each subfolder not named "Forms" if subfolders are included. |
| SharePointExtensions.CollectedIsFilteredWalk | Extensions/SharePointExtensions.cs:15-32 | The collected entries are the supported files of the whole tree, skipping "Forms" subfolders, in walk order. |
| SharePointExtensions.FormsFolderIgnored | Extensions/SharePointExtensions.cs:27 | A subfolder named "Forms" contributes nothing, whatever it holds. |
| SharePointExtensions.WithoutPrefix | Extensions/SharePointExtensions.cs:44 | An entry is kept exactly when its URL does not start with the prefix. |
| SharePointExtensions.WithoutPrefixAppend | Extensions/SharePointExtensions.cs:44 | The filter works entry by entry, keeping order. |
| SharePointExtensions.GetSupportedFilesInFolder | Extensions/SharePointExtensions.cs:36-45 | The result is the whole tree's collected entries, without those under `folderPath + "/Forms/"`. |
| SharePointExtensions.NonEmpty | Extensions/SharePointExtensions.cs:74 | A piece is kept exactly when it is one of the split's pieces and is not empty. |
| SharePointExtensions.NonEmptyAppend | Extensions/SharePointExtensions.cs:74 | Removing empty entries keeps the order: the pieces of a concatenation are those of its first part, then those of its second. |
| SharePointExtensions.Segments | Extensions/SharePointExtensions.cs:74 | Path segments are non-empty and contain no '/'. |
| SharePointExtensions.SegmentsOfPiece | Extensions/SharePointExtensions.cs:74 | A path without '/' is a single segment, or has none when it is empty. |
| SharePointExtensions.SegmentsAfterSlash | Extensions/SharePointExtensions.cs:74 | The text before the first '/' is the first segment unless it is empty, and the segments after the '/' follow it. So a leading or doubled '/' adds no segment. With SegmentsOfPiece this fixes the segments of every path. |
| SharePointExtensions.SegmentsOfSitePath | Extensions/SharePointExtensions.cs:74-77 | A path starting `/a/b`, followed by nothing or by '/', has a and b as its first two segments. |
| SharePointExtensions.GetSiteUrlFromFullUrl | Extensions/SharePointExtensions.cs:69-83 | The site URL always starts with `scheme://host/`. |
| SharePointExtensions.SiteUrlOfRoot | Extensions/SharePointExtensions.cs:69-83 | The path "/" has no segment, and its site URL is `scheme://host/`. |
| SharePointExtensions.SiteUrlOfOneSegment | Extensions/SharePointExtensions.cs:69-83 | A path `/a` or `/a/` has one segment, and its site URL is `scheme://host/a`. |
| SharePointExtensions.SiteUrlOfSitePath | Extensions/SharePointExtensions.cs:69-83 | The site URL of such a path is `scheme://host/a/b`. Only two segments are taken. |
| SharePointService.ExtractUrl | Services/SharePointService.cs:53-57 | Reading starts right after the first "URL=", or at index 3 when there is none. It fails exactly when that start is past the end. Otherwise the result is the text from there up to the first "\r\n" or the end, with no "\r\n" starting inside it. |
| SharePointService.ExtractedUrlHasNoNewLine | Services/SharePointService.cs:55-57 | The extracted URL never contains "\r\n". |
| SharePointService.ExtractUrlOfShortcut | Services/SharePointService.cs:53-57 | A shortcut whose first "URL=" is followed by a URL, then a line break or the end, gives back exactly that URL. |
| SharePointService.SelectFilesMembers | Services/SharePointService.cs:157-159 | A file is selected exactly when it is in the folder, its name starts with the prefix and its extension equals the given one, both ignoring case. |
| SharePointService.KeysFit | Services/SharePointService.cs:66-142 | The three getters' keys fall in disjoint families, so no getter reads another's kind of entry. |
| SharePointService.PageTextHit | Services/SharePointService.cs:66-94 | A cached page is answered from the cache, whatever the site would say, and the cache is unchanged. |
| SharePointService.PageTextMiss | Services/SharePointService.cs:69-92 | On a miss, a page is returned and cached exactly when it is a modern page with canvas content. Otherwise the answer is null and the cache is unchanged. |
| SharePointService.PageTextRepeat | Services/SharePointService.cs:66-94 | Asking again for a page that was found gives the same paragraphs without asking the site. |
| SharePointService.DownloadCacheAside | Services/SharePointService.cs:99-138 | A hit returns the cached bytes and changes nothing. A miss downloads the bytes and stores them under the key. |
| SharePointService.DownloadRepeat | Services/SharePointService.cs:101-137 | A second download of the same file returns the first one's bytes. |
| SharePointService.DownloadKeyShared | Services/SharePointService.cs:101 | Different (site, path) pairs with the same concatenation share one cache entry. |
| SharePointService.FilesByExtensionCacheAside | Services/SharePointService.cs:140-181 | A hit returns the cached list. A miss returns the entries of the folder's matching files and stores them under the key. |
| SharePointService.FilesByExtensionFromFolder | Services/SharePointService.cs:140-181 | A hit returns the cached entries and leaves the cache alone. On a miss, every entry returned is the bytes and time of a file of the folder that passes the filter. |
| SharePointService.FilesByExtensionEntries | Services/SharePointService.cs:157-174 | On a miss there is one (bytes, last-modified) entry per matching file of the folder, in folder order. |
| SharePointService.SharePointClient.constructor | Services/SharePointService.cs:14-19 | The service starts with the given client and an empty cache. |
| SharePointService.SharePointClient.GetSharePointPageText | Services/SharePointService.cs:64-95 | It returns the specified page text and leaves the cache as the cache-aside specification says. |
| SharePointService.SharePointClient.DownloadFileFromSharePoint | Services/SharePointService.cs:99-138 | It returns the specified bytes and leaves the cache as the cache-aside specification says. |
| SharePointService.SharePointClient.GetFilesByExtensionFromFolder | Services/SharePointService.cs:140-181 | Its loop returns the specified entries and leaves the cache as the cache-aside specification says. |
| SharePointService.ChooseUpload | Services/SharePointService.cs:186-202 | A payload of at most 2 MB is sent in one request. A larger one is sent in chunks of 2 MB blocks. |

## Left out

- Remote I/O is not modelled:
  - SharePoint CSOM authentication, queries, streams and the small and chunked uploads themselves;
  - the OpenAI HTTP calls;
  - GraphService.
  
  Each is a parameter that answers each call: the `Service`, `Remote`, `Ask` and `Environment` datatypes.
- The parsers are not modelled: CsvHelper, OpenXml, HtmlAgilityPack (so `ExtractTextFromHtmlParagraphs` is not part of this model), `System.Uri` parsing and the JSON (de)serialisation of embedding responses. Their outputs are inputs: records, paragraphs of runs, a parsed `Uri`, decoded responses.
- Floating point is not modelled: similarity uses exact `real` arithmetic, `Math.Sqrt` is an abstract function that is positive on positive arguments, and `Vector<double>.Count` is a width `lanes >= 1`.
- Case folding is ASCII only (`ToLowerInvariant`, `OrdinalIgnoreCase`). `char.IsWhiteSpace` lists the Unicode white-space characters explicitly.
- Culture-sensitive comparison is not modelled. `IndexOf(string)` (Services/SharePointService.cs:54-55) and `StartsWith(string)` (Services/SharePointService.cs:79, Extensions/SharePointExtensions.cs:44) use the current culture in .NET, which skips ignorable characters such as the soft hyphen U+00AD. The model compares character by character, as an ordinal comparison would.
- Lengths are counted in characters, not in UTF-16 code units. `Substring(0, 128)` (Services/SharePointAIService.cs:39) keeps 128 code units and can split a surrogate pair; `SharePointAIService.Truncate` keeps 128 characters and splits nothing.
- `Path.Combine`, `Path.GetExtension` and `Path.GetFileNameWithoutExtension` are modelled for '/' as the only separator.
- Async/await, `Thread.Sleep(500)` between retries, logging and cache expiry (`expiresIn`) are left out. `DateTime.Now` is a clock parameter indexed by call number.
- Not modelled: the controllers, Program.cs, AppConfig, Prompts, the AutoMapper profile, `ChatAsync`, `GetContext`, `GetFileInfoAsync` and `RemoveBaseUrl`. They are plumbing or remote-only.
- CorporAIteService.RetryWithContext: the source calls `ChatWithContextAsync` with two arguments although it declares three, including the temperature. The retry loop therefore takes the classified chat outcome from an `Ask` parameter and does not bind it to `AIService.ChatWithContext`.
- CorporAIteService.ChatWithData: the source passes the looked-up `(bytes, time)` tuples where `CompareEmbeddings` expects `List<byte[]>`. The model decodes the bytes of each tuple.
- CorporAIteService.CalculateEmbeddings: the source returns nothing. The model returns the sequence of calls the loop made so that its contract can state them.
- CorporAIteService.RetryWithContext: `attempts` is an extra out-parameter counting the chat calls. The source keeps no such count.
- Models.Chat.constructor: a null history, which the source replaces with an empty list, cannot occur in the model. `SourceFiles` and the parameterless constructor are not modelled.
- SharePointService.SharePointClient.GetSharePointPageText: the cache key ignores `siteUrl`, as in the source, and so do the lemmas. A null `ContentTypeId`, which would throw, cannot occur in the model.
- SharePointService.ChooseUpload: the model decides between the small and the chunked upload. The upload calls themselves are remote and left out.
- Text.Trim: its contract is stated by the lemmas `TrimSlice` and `TrimEnds` rather than by the function itself.
