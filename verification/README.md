# InterviewIQ backend core in Dafny

This project models the InterviewIQ serverless backend. The backend takes a company name and optional URL and researches
the company. It can use a scrape or mock data, uploaded documents (Word files via python-docx, PDFs and images via Textract
OCR) and Amazon Comprehend analysis. From these it generates an interviewer brief and an interviewee packet. It then
records interviewee feedback on the session.

The model has two layers.

- **Shared services**, one module each:
  - `Responses`: API Gateway responses and body parsing.
  - `S3`: the documents bucket as a map from key to object.
  - `Dynamo`: the sessions table as a sequence of records keyed by `sessionId` and `createdAt`. `update_session`'s
    generated `SET` expression is evaluated back to the updates it encodes.
  - `Chunking` and `Comprehend`: text chunking under the 5000-byte limit, and entity, key-phrase and sentiment detection.
    Comprehend itself is a function parameter.
  - `Ranking`: the merge-by-key-keeping-the-best and the descending sort that detection results go through.
  - `Scraper`: page parsing, aggregation, the mock-data lookup and the live-scrape plan. HTTP fetches and HTML
    extraction are parameters.
  - `Textract`: OCR block processing, docx paragraph joining and routing by file extension.
  - `Bedrock`: the `invoke_model` request body and reply, plus the generation stubs as they stand.
  - `Strings` and `Json`: the Python string and dict behaviour the services rely on. This covers UTF-8 length, `strip`,
    `split`, `join` and `lower`; truthiness, `or` and `.get`. A JSON number is an integer, a Python float or a
    `Decimal`, the last two held exactly as digits and a decimal scale.
- **Lambda handlers**, one module each: `StartPipelineHandler`, `CreateSessionHandler`, `GenerateBriefHandler`,
  `ParseDocumentHandler`, `ScrapeCompanyHandler`, `AnalyzeCompanyHandler` and `SubmitFeedbackHandler`. Each one is a
  pure transition `World × event × Env → World × Reply`.
  - `World` holds the sessions table, the bucket and the started Step Functions executions.
  - `Env` supplies what the code obtains from outside: the invocation's `uuid4` and `datetime.now`, JSON and base64
    decoding, and the AWS and HTTP answers.
  - `Reply` is either a response or an exception that escapes the handler.

Where a `.get` meets a value that is not a dict, the model follows the code, not the documented request shapes. A falsy
value is handled through Python truthiness. Exceptions inside a handler's `try` become its 500 response.

## Model

| member | source | states |
|---|---|---|
| Responses.SuccessResponse | backend/shared/response_helpers.py:45-60 | A success reply carries the given status and body with the CORS headers and no top-level session id |
| Responses.ErrorResponseSpec | backend/shared/response_helpers.py:63-84 | An error body names the message and the status code; it carries `details` exactly when the details are truthy, and has no other field |
| Responses.ParseBody | backend/shared/response_helpers.py:87-108 | A missing or falsy body is refused as "Request body is required"; a string body is JSON-decoded; a dict body is used as it is |
| Responses.ParseBodyRoundTrip | backend/shared/response_helpers.py:102-108 | A truthy non-string body reads back as itself, whether API Gateway passes it JSON-encoded or already decoded |
| S3.UploadDocument | backend/shared/s3_service.py:56-93 | The object is stored under `prefix/sessionId/filename` with the payload; a content type is recorded exactly when a non-empty one is given; no other key changes |
| S3.GetDocument | backend/shared/s3_service.py:95-111 | A read succeeds exactly for a stored key, with that object's payload, and otherwise fails as NoSuchKey |
| S3.UploadThenGet | backend/shared/s3_service.py:80-111 | Reading the key an upload returns gives back the uploaded payload |
| S3.UploadKeepsOthers | backend/shared/s3_service.py:80-93 | An upload leaves every other key's object as it was |
| S3.ListSessionFiles | backend/shared/s3_service.py:144-162 | The listing is exactly the stored keys under `prefix/sessionId/`, with `uploads` as the prefix when none is given |
| S3.UploadIsListed | backend/shared/s3_service.py:144-162 | A document uploaded for a session and prefix shows up when that session's files under that prefix are listed |
| S3.DefaultUploadIsListed | backend/shared/s3_service.py:155 | Listing with no prefix finds what was uploaded under `uploads` |
| Dynamo.BeforeTransitive | backend/shared/dynamo_service.py:121-128 | The sort-key order is transitive, as a descending query needs |
| Dynamo.BeforeTotal | backend/shared/dynamo_service.py:121-128 | Any two distinct sort keys are ordered, so the newest record is well defined |
| Dynamo.ToDecimals | backend/shared/dynamo_service.py:165-171 | The conversion of floats to `Decimal` gives a value the DynamoDB serializer accepts |
| Dynamo.ToDecimalsKeeps | backend/shared/dynamo_service.py:165-171 | A value without floats is left unchanged by the conversion |
| Dynamo.Put | backend/shared/dynamo_service.py:102 | `put_item` stores the record, replaces only a record with the same key pair, and keeps key pairs unique |
| Dynamo.Latest | backend/shared/dynamo_service.py:121-128 | The query with `Limit=1`, newest first, finds a record exactly when the session has one, and it is one of that session's records |
| Dynamo.LatestIsNewest | backend/shared/dynamo_service.py:121-128 | No record of the session has a later creation time than the one found |
| Dynamo.GetSession | backend/shared/dynamo_service.py:106-131 | A string id yields the newest record's full item, or nothing when the session has no record; an id DynamoDB would refuse is an error |
| Dynamo.NewSessionKeys | backend/shared/dynamo_service.py:83-100 | A new session is keyed by the fresh id and the creation time, is CREATED, and has `updatedAt` equal to its creation time |
| Dynamo.NewSessionInputs | backend/shared/dynamo_service.py:90-99 | A new session keeps the company name, the URL or "", and the metadata or `{}` |
| Dynamo.NewSessionEmpty | backend/shared/dynamo_service.py:93-98 | A new session has no parsed documents, and its scrape, analysis, brief, packet and feedback are empty |
| Dynamo.CreateSession | backend/shared/dynamo_service.py:60-104 | `put_item` succeeds exactly when the new item holds no float, and otherwise raises the serializer's TypeError; on success it returns the new item, keeps every other session's records and keeps key pairs unique |
| Dynamo.NewSessionSerializable | backend/shared/dynamo_service.py:86-102 | The new item can be written exactly when the company name, the URL as stored and the metadata as stored hold no float |
| Dynamo.CreateThenGet | backend/shared/dynamo_service.py:102-128 | Under a fresh id and without floats, the put succeeds and `get_session` then returns exactly the item that was created |
| Dynamo.WithTimestamp | backend/shared/dynamo_service.py:151-152 | The updates gain `updatedAt` set to the call's time, replacing a given `updatedAt` in place; no other update changes |
| Dynamo.WithTimestampLookup | backend/shared/dynamo_service.py:151-152 | After stamping, `updatedAt` reads as the call's time and every other name reads as in the caller's updates |
| Dynamo.BuildUpdate | backend/shared/dynamo_service.py:154-163 | The `#attrN` placeholders resolve to the update names and the `:valN` placeholders to the values, and distinct names stay distinct |
| Dynamo.EvaluateBuild | backend/shared/dynamo_service.py:154-171 | Parsing the generated `SET #attr0 = :val0, ...` expression against its name and value maps gives back exactly the updates it was built from |
| Dynamo.ApplySetsSpec | backend/shared/dynamo_service.py:165-170 | Applying the SET clauses gives every named attribute its new value and leaves every other attribute as it was |
| Dynamo.UpdateItem | backend/shared/dynamo_service.py:165-171 | Any value holding a float is refused with the serializer's TypeError; otherwise an update succeeds only for valid key values and an expression that parses and does not touch a key attribute, and it keeps key pairs unique |
| Dynamo.UpdateSession | backend/shared/dynamo_service.py:133-173 | An update succeeds only for valid keys and float-free updates that leave `sessionId` and `createdAt` alone, and it keeps key pairs unique |
| Dynamo.UpdateRefusesFloat | backend/shared/dynamo_service.py:151-171 | An update with a float in any value the timestamp does not replace fails with the serializer's TypeError |
| Dynamo.UpdateSessionSpec | backend/shared/dynamo_service.py:133-173 | With valid keys the update writes the record with the updates and the timestamp applied, and returns that record's full item |
| Dynamo.UpdatedHoldsUpdates | backend/shared/dynamo_service.py:151-171 | The updated record holds `updatedAt` as the call's time and every other update's value |
| Dynamo.UpdateKeepsOthers | backend/shared/dynamo_service.py:165-171 | An attribute neither the updates nor the timestamp name keeps the value it had (and stays absent when it was absent) |
| Dynamo.UpdateThenGet | backend/shared/dynamo_service.py:106-173 | Updating a session's newest record and then reading the session returns the item the update returned |
| Dynamo.StoreFeedback | backend/shared/dynamo_service.py:175-209 | Storing feedback succeeds exactly for valid key values and feedback without floats |
| Dynamo.StoreFeedbackSpec | backend/shared/dynamo_service.py:199-209 | The record then holds the feedback (corrections, selected questions, notes and submission time), status FEEDBACK_RECEIVED, and the call's `updatedAt` |
| Dynamo.SecondFeedbackOverwrites | backend/shared/dynamo_service.py:175-209 | Nothing guards the write: a second feedback for the same record replaces the first |
| Chunking.TakeBytes | backend/shared/comprehend_service.py:74 | The cut is the longest prefix whose UTF-8 encoding fits the limit |
| Chunking.Truncate | backend/shared/comprehend_service.py:74 | The cut is a prefix of at most `max_bytes` characters, and a paragraph that fits in bytes is not cut |
| Chunking.ChunkWith | backend/shared/comprehend_service.py:48-82 | Text within the limit is one chunk; otherwise every chunk is non-empty, and every chunk has at most `max_bytes` characters |
| Chunking.ChunkTextFits | backend/shared/comprehend_service.py:48-82 | With the byte cut, every chunk's UTF-8 encoding fits the limit, as the docstring promises |
| Chunking.ChunksFit | backend/shared/comprehend_service.py:65-79 | The chunking loop with the byte cut, started from a chunk that fits, emits only chunks that fit |
| Chunking.AsWrittenFitsOrCut | backend/shared/comprehend_service.py:68-76 | As written, a chunk over the byte limit can only be a single paragraph cut to `max_bytes` characters |
| Chunking.ChunkingKeepsText | backend/shared/comprehend_service.py:65-79 | When no paragraph needs cutting and none is empty, joining the chunks with "\n" gives back the text |
| Chunking.ChunkWithKeepsChars | backend/shared/comprehend_service.py:65-79 | Chunks contain only characters of the text: a property every character of the text has, every chunk has |
| Chunking.AsciiChunksFit | backend/shared/comprehend_service.py:74 | For ASCII text the character cut is a byte cut, so the code as written keeps every chunk within the limit |
| Chunking.NewlinesYieldNoChunks | backend/shared/comprehend_service.py:68-79 | Text of only newlines over the limit yields no chunk at all |
| Chunking.RunIsCut | backend/shared/comprehend_service.py:71-74 | As written, an over-long run of one character becomes a single chunk of `max_bytes` characters |
| Chunking.AsWrittenChunkOverflows | backend/shared/comprehend_service.py:74 | As written, 5001 two-byte characters become one chunk of 10000 bytes, twice Comprehend's limit |
| Chunking.AsciiChunkingAgrees | backend/shared/comprehend_service.py:65-79 | For ASCII text the code's character cut and the corrected byte cut give the same chunks |
| Comprehend.Gather | backend/shared/comprehend_service.py:101-121 | The collected detections are exactly those Comprehend returned for some non-blank chunk; blank chunks and failed calls contribute nothing |
| Comprehend.DetectEntitiesSpec | backend/shared/comprehend_service.py:84-124 | Entities come out sorted by score, descending, one per `Type:Text` key; each is the first highest-scoring detection of its key, and every detected key is present |
| Comprehend.DetectKeyPhrasesSpec | backend/shared/comprehend_service.py:126-164 | Key phrases come out sorted by score, descending, one per lower-cased text; each is the first highest-scoring detection of its key, and every detected key is present |
| Comprehend.BlankTextDetectsNothing | backend/shared/comprehend_service.py:104-106 | Whitespace-only text yields no entities and no key phrases, whatever Comprehend would answer |
| Comprehend.FromResponse | backend/shared/comprehend_service.py:188-206 | A sentiment answer gives its label and scores; a failed call gives UNKNOWN with empty scores and the error |
| Comprehend.BlankTextIsNeutral | backend/shared/comprehend_service.py:183-186 | Empty or whitespace-only text is NEUTRAL with empty scores, and Comprehend is not asked |
| Comprehend.ShortTextSentiment | backend/shared/comprehend_service.py:183-202 | Non-blank text within the limit is sent whole, and the answer is Comprehend's answer about that text |
| Comprehend.NewlineTextRaises | backend/shared/comprehend_service.py:183 | As written, text of only newlines over the limit makes `[0]` index an empty chunk list; with that read as blank text the answer is NEUTRAL |
| Comprehend.NewlineRunRaises | backend/shared/comprehend_service.py:183 | Concretely, 5001 newlines make the code as written raise IndexError, and the corrected function answers NEUTRAL |
| Comprehend.BlankTextAnalysis | backend/shared/comprehend_service.py:208-228 | With the corrected chunking, whitespace-only text analyses to no entities, no key phrases and NEUTRAL |
| Comprehend.AnalyzeTextAsWritten | backend/shared/comprehend_service.py:166-228 | As written, the analysis fails exactly when sentiment detection indexes an empty chunk list |
| Comprehend.AsciiAnalysisAgrees | backend/shared/comprehend_service.py:208-228 | For ASCII text that is empty or yields a chunk, the code's analysis is the corrected analysis |
| Comprehend.NewlineRunAnalysisRaises | backend/shared/comprehend_service.py:166-228 | As written, `analyze_text("\n" * 5001)` raises; the corrected analysis is empty and NEUTRAL |
| Ranking.FindKey | backend/shared/comprehend_service.py:113 | The key is found exactly when some entry has it, at a position holding that key |
| Ranking.MergeBest | backend/shared/comprehend_service.py:111-118 | The merge holds one entry per key, and every detected key and only detected keys |
| Ranking.MergeBestKeepsBest | backend/shared/comprehend_service.py:113-118 | Each merged entry scores at least as high as every detection of its key and is the first detection with that score |
| Ranking.SortDesc | backend/shared/comprehend_service.py:122 | The sort is a permutation of its input, in descending score order |
| Ranking.SortStable | backend/shared/comprehend_service.py:122 | The sort is stable: entries with equal scores keep their relative order |
| Ranking.SortKeepsKeysDistinct | backend/shared/comprehend_service.py:122 | Sorting keeps one entry per key |
| Ranking.RankSpec | backend/shared/comprehend_service.py:111-122 | Merge then sort: descending, one per key, each the first best of its key, and covering every detected key |
| Strings.Utf8LengthConcat | backend/shared/comprehend_service.py:62 | The UTF-8 length of a concatenation is the sum of the lengths |
| Strings.StripEmptyIffBlank | backend/shared/comprehend_service.py:105 | `strip()` is empty exactly for whitespace-only text |
| Strings.StripIdempotent | backend/shared/scraper_service.py:171 | Stripping twice is stripping once |
| Strings.JoinSplit | backend/shared/comprehend_service.py:68 | Joining the pieces of `split(d)` with `d` gives back the text |
| Strings.SplitJoin | backend/shared/scraper_service.py:173-174 | Splitting a `d`-join of pieces free of `d` gives back the pieces |
| Strings.NonBlankStrippedAreStripped | backend/shared/textract_service.py:100-103 | The kept lines or paragraphs are stripped and non-empty |
| Scraper.CleanTextLines | backend/shared/scraper_service.py:171-174 | The cleaned text is empty exactly when no line has content; otherwise its lines are the original lines stripped, without the blank ones |
| Scraper.NonEmptyHeadings | backend/shared/scraper_service.py:160-165 | The headings kept are exactly the ones with text |
| Scraper.ParsePage | backend/shared/scraper_service.py:126-181 | A page keeps its title and description; its content is the first 10000 characters of the cleaned main text (all of a shorter one), and its headings the first 20 non-empty ones (all when fewer) |
| Scraper.ParsePageUncapped | backend/shared/scraper_service.py:176-181 | Content and headings within the caps are kept whole |
| Scraper.ScrapeUrl | backend/shared/scraper_service.py:76-124 | A scraped page records its URL and succeeds exactly when the fetch succeeded |
| Scraper.Successes | backend/shared/scraper_service.py:267-272 | The successful pages, and only they, are aggregated |
| Scraper.CountIsSuccesses | backend/shared/scraper_service.py:270-280 | `pages_scraped` counts exactly the successful pages whose content is combined |
| Scraper.AggregateSpec | backend/shared/scraper_service.py:256-282 | The summary combines the successful pages' contents with the page separator, its total length is their sum, and it counts them |
| Scraper.AllFailedAggregate | backend/shared/scraper_service.py:267-282 | When no page succeeded, the summary is empty: no description, no content, no headings, zero counts |
| Scraper.FindMock | backend/shared/scraper_service.py:208-210 | A mock is used exactly when some key matches the normalised name in either direction, and it is the first match in file order |
| Scraper.SameNameMatches | backend/shared/scraper_service.py:204-210 | A company named exactly like a mock key without spaces (up to case) finds a mock: the first matching key's, not necessarily that key's |
| Scraper.LivePages | backend/shared/scraper_service.py:220-240 | Without a URL nothing is fetched; with one the given page comes first, then exactly those of `<origin>/about` and `<origin>/about-us` that succeeded, in that order |
| Scraper.ScrapeCompany | backend/shared/scraper_service.py:183-254 | The result is mock data with no pages exactly when a mock matches; otherwise it is a live scrape summarised from its pages |
| Scraper.LiveScrapeSpec | backend/shared/scraper_service.py:220-251 | A live scrape with a URL fetches at most three pages, counts all but possibly the first as successes, and takes its description from the given URL |
| Scraper.NoUrlNoPages | backend/shared/scraper_service.py:220-251 | A live scrape without a URL summarises nothing |
| Textract.LineTexts | backend/shared/textract_service.py:139-144 | The line texts are at most one per block |
| Textract.LineTextsComplete | backend/shared/textract_service.py:139-144 | Every LINE block's text is collected, and nothing is collected exactly when there is no LINE block |
| Textract.LineTextsConcat | backend/shared/textract_service.py:139-144 | Collecting lines distributes over concatenated block lists, so block order is line order |
| Textract.Pages | backend/shared/textract_service.py:151 | The page set is exactly the pages of the blocks, with a missing page counted as page 1 |
| Textract.PageCountBound | backend/shared/textract_service.py:151 | There are at most as many pages as blocks, and zero exactly when there are no blocks |
| Textract.UnpagedIsOnePage | backend/shared/textract_service.py:151 | Blocks without page numbers make one page |
| Textract.ProcessBlocks | backend/shared/textract_service.py:109-159 | The OCR text is the LINE texts joined with newlines; line and page counts are bounded by the blocks, and there are zero pages only for no blocks |
| Textract.OcrLinesRecoverable | backend/shared/textract_service.py:139-152 | For single-line, non-empty LINE texts, splitting the OCR text at newlines gives back the lines, and the line count is their number |
| Textract.NoneKeptIffBlank | backend/shared/textract_service.py:100-103 | No paragraph is kept exactly when every paragraph is blank |
| Textract.DocxTextEmptyIffBlank | backend/shared/textract_service.py:85-107 | A Word document's text is empty exactly when every paragraph is blank |
| Textract.DocxParagraphsRecoverable | backend/shared/textract_service.py:100-105 | Splitting a Word document's text at newlines gives back its non-blank paragraphs, stripped |
| Textract.Extension | backend/shared/textract_service.py:197 | The extension has no dot, and a name without a dot has none |
| Textract.ExtensionAfterLastDot | backend/shared/textract_service.py:197 | The extension is the lower-cased text after the last dot |
| Textract.Route | backend/shared/textract_service.py:199-223 | `docx` goes to python-docx, exactly the OCR extensions go to Textract, and anything else is unsupported |
| Textract.ExtensionOf | backend/shared/textract_service.py:197 | A string filename's extension is that of its text |
| Textract.UploadAndProcess | backend/shared/textract_service.py:165-223 | The file is uploaded under `uploads/session/filename` before any extraction, whatever happens next; the result names that key and the method, with an error exactly when unsupported and a page count exactly for Textract |
| Textract.RoutingSpec | backend/shared/textract_service.py:190-223 | Each route succeeds exactly when its extractor does: a docx gives the joined paragraphs, an OCR type the Textract text, and anything else an unsupported result with empty text and the error naming the extension |
| Textract.OcrRouteSpec | backend/shared/textract_service.py:208-214 | An OCR upload's result is the processed blocks' text, lines and pages, with method textract and the upload key |
| Bedrock.RequestBody | backend/shared/bedrock_service.py:62-98 | The request body is a dict of four fields, and of five exactly when a system prompt is given |
| Bedrock.RequestBodySpec | backend/shared/bedrock_service.py:62-98 | The body's names are distinct; it names the Anthropic version, the prompt's messages, the token limit and the temperature, and carries `system`, the given prompt, exactly when one is given |
| Bedrock.MessagesHoldPrompt | backend/shared/bedrock_service.py:88 | The one message is the user's, with the prompt as its content |
| Bedrock.ReplyText | backend/shared/bedrock_service.py:107-108 | The reply text is the first content block's text, and a reply without one, or whose `usage` is present but not a dict, is an error |
| Bedrock.InvokeClaude | backend/shared/bedrock_service.py:62-115 | A failed `invoke_model` call is a failure of the whole call |
| Bedrock.ReplyTextOfContent | backend/shared/bedrock_service.py:107-108 | A reply whose first content block has text, and whose `usage` is absent or a dict, answers that text, whatever follows |
| Bedrock.GenerateProfile | backend/shared/bedrock_service.py:117-160 | The profile stub succeeds exactly for dict scrape data, and is named after its `company_name` or "Unknown" |
| Bedrock.ProfileName | backend/shared/bedrock_service.py:149-151 | The profile's name is the scrape data's `company_name` when present, else "Unknown" |
| Bedrock.GenerateQuestions | backend/shared/bedrock_service.py:162-196 | The questions stub returns no questions |
| Bedrock.GenerateBrief | backend/shared/bedrock_service.py:198-238 | The brief is a dict with exactly the seven brief sections, in order |
| Bedrock.BriefEmbeds | backend/shared/bedrock_service.py:230-238 | The brief's overview is the profile and its questions are the questions given |
| Bedrock.GeneratePacket | backend/shared/bedrock_service.py:240-271 | The packet is a dict of exactly the findings, the questions menu and the invitation text, in order |
| Bedrock.PacketEmbeds | backend/shared/bedrock_service.py:267-271 | The packet's findings are the profile and its menu is the questions given |
| Bedrock.BriefAndPacketAgree | backend/shared/bedrock_service.py:230-271 | The interviewer's overview and questions are the interviewee's findings and menu |
| Lambda.CreatedAt | backend/functions/generate_brief/handler.py:101-105 | A handler's update uses the found item's `createdAt`, and an item without one is a KeyError |
| Lambda.UpdateReadSpec | backend/functions/generate_brief/handler.py:100-105 | A handler updating the session it just read writes the newest record with the updates |
| StartPipelineHandler.Handle | backend/functions/start_pipeline/handler.py:37-56 | A GET asks for a status, and any other method, or none, starts a pipeline; an event that is not a dict raises |
| StartPipelineHandler.Start | backend/functions/start_pipeline/handler.py:59-114 | A start changes neither sessions nor bucket, and adds exactly one execution exactly when it answers 200 |
| StartPipelineHandler.StartNeedsName | backend/functions/start_pipeline/handler.py:77-79 | A missing or falsy company name is a 400 and starts nothing |
| StartPipelineHandler.StartNeedsMachine | backend/functions/start_pipeline/handler.py:81-83 | Without a configured state machine the answer is a 500 before Step Functions is called |
| StartPipelineHandler.StartedSpec | backend/functions/start_pipeline/handler.py:85-110 | Exactly one execution of the configured machine is started, with the company name, the URL or "", and the documents or [] as input; the reply is a 200 reporting its id (the ARN's last segment) and RUNNING |
| StartPipelineHandler.StatusExtra | backend/functions/start_pipeline/handler.py:149-153 | A SUCCEEDED execution adds its decoded output, a failed one its error and cause, and any other status nothing |
| StartPipelineHandler.Status | backend/functions/start_pipeline/handler.py:117-160 | A status reply that succeeds is a dict with at least the four base fields |
| StartPipelineHandler.StatusFieldsSpec | backend/functions/start_pipeline/handler.py:142-153 | A status carries `output` exactly when SUCCEEDED, and `error` and `cause` exactly when FAILED, TIMED_OUT or ABORTED |
| StartPipelineHandler.FailedStatusSpec | backend/functions/start_pipeline/handler.py:149-153 | A failed execution reports its error and cause, or "Unknown error" and "" |
| StartPipelineHandler.ExecutionArnRoundTrip | backend/functions/start_pipeline/handler.py:99-138 | The id a start reports rebuilds, under the same machine, the ARN Step Functions returned, and that ARN's id is the id again |
| StartPipelineHandler.StatusFindsStarted | backend/functions/start_pipeline/handler.py:127-140 | A status request for the id a start reported describes exactly the started execution |
| CreateSessionHandler.Handle | backend/functions/create_session/handler.py:31-72 | Only the sessions table can change, and only with a 201 |
| CreateSessionHandler.CreateNeedsName | backend/functions/create_session/handler.py:50-52 | A missing or falsy company name is a 400, and nothing changes |
| CreateSessionHandler.CreateSpec | backend/functions/create_session/handler.py:54-68 | With a name and no float in the request, the reply is a 201 with the new id at top level and in the body, status CREATED, the URL or "" and the metadata or `{}` |
| CreateSessionHandler.HandleStores | backend/functions/create_session/handler.py:56-68 | With a name and no float in the request, the put succeeds and the reply is the 201 for the stored item |
| CreateSessionHandler.FloatIs500 | backend/functions/create_session/handler.py:56-72 | Metadata holding a float makes `put_item` raise: a 500 "Failed to create session", and nothing is created |
| CreateSessionHandler.CreateThenGet | backend/functions/create_session/handler.py:56-68 | Under a fresh id, the created body is what `get_session` then returns, and key pairs stay unique |
| GenerateBriefHandler.SessionIdOf | backend/functions/generate_brief/handler.py:51-55 | The id is the body's truthy `sessionId`, otherwise the one Step Functions nests under `sessionResult` |
| GenerateBriefHandler.BriefNeedsSessionId | backend/functions/generate_brief/handler.py:51-57 | Neither id form is a 400, and nothing changes |
| GenerateBriefHandler.Generate | backend/functions/generate_brief/handler.py:59-119 | Nothing is started, and sessions change only on a 200 |
| GenerateBriefHandler.UnknownSessionIs404 | backend/functions/generate_brief/handler.py:59-64 | An unknown session is a 404: nothing is generated, stored or written |
| GenerateBriefHandler.GenerateSpec | backend/functions/generate_brief/handler.py:66-115 | For a found session, brief and packet are stored under `briefs/` and `packets/`, the session holds both and is READY, and the reply lists the seven sections and zero questions |
| GenerateBriefHandler.StoredBriefAndPacketAgree | backend/functions/generate_brief/handler.py:84-98 | The stored brief and packet read back as generated, and agree on the profile and questions |
| ParseDocumentHandler.FileSource | backend/functions/parse_document/handler.py:62-71 | Truthy base64 content is used first, otherwise the object under a truthy S3 key; neither is a missing source |
| ParseDocumentHandler.ContentWins | backend/functions/parse_document/handler.py:65-69 | When content is given, the S3 key is never looked at |
| ParseDocumentHandler.ParseNeedsIds | backend/functions/parse_document/handler.py:53-56 | A missing or falsy session id or filename is a 400, and nothing changes |
| ParseDocumentHandler.ParseNeedsSource | backend/functions/parse_document/handler.py:65-71 | Neither content nor key is a 400, and nothing is uploaded or written |
| ParseDocumentHandler.Process | backend/functions/parse_document/handler.py:73-101 | The file is in the bucket under its uploads key whatever the reply, and sessions change only on a 200 |
| ParseDocumentHandler.PreviewSpec | backend/functions/parse_document/handler.py:96 | The preview is the text's first 500 characters, or all of a shorter text |
| ParseDocumentHandler.DocumentAppended | backend/functions/parse_document/handler.py:77-101 | For a found session, exactly one entry is appended after the existing parsed documents, recording filename, method, length and key |
| ParseDocumentHandler.NoSessionNoWrite | backend/functions/parse_document/handler.py:77-79 | A document for an unknown session is still extracted and reported, and no session is written |
| ParseDocumentHandler.AppendedEntryStored | backend/functions/parse_document/handler.py:80-89 | The updated record holds the old entries, in order, then the new one |
| ParseDocumentHandler.EntryLength | backend/functions/parse_document/handler.py:81-86 | The entry's `text_length` is the length of the extracted text |
| ScrapeCompanyHandler.ScrapeNeedsIds | backend/functions/scrape_company/handler.py:53-56 | A missing or falsy session id or company name is a 400, and nothing changes |
| ScrapeCompanyHandler.ScrapeUrlDefault | backend/functions/scrape_company/handler.py:58-63 | A missing, empty or null URL scrapes by name only |
| ScrapeCompanyHandler.Scrape | backend/functions/scrape_company/handler.py:58-96 | Nothing is started, and sessions change only on a 200 |
| ScrapeCompanyHandler.Store | backend/functions/scrape_company/handler.py:65-92 | The raw result is stored as JSON under `scraped/session/scraped_data.json` whatever follows; a session write comes only with a 200 reporting the result |
| ScrapeCompanyHandler.StoreSpec | backend/functions/scrape_company/handler.py:76-82 | For a found session, the record holds the summary as `scrapedData` and is SCRAPING_COMPLETE |
| ScrapeCompanyHandler.PagesCount | backend/functions/scrape_company/handler.py:84-89 | `pages_count` is the number of pages the scraper returned |
| ScrapeCompanyHandler.ScrapeUpdatesStored | backend/functions/scrape_company/handler.py:76-82 | The updated record holds the summary and SCRAPING_COMPLETE |
| ScrapeCompanyHandler.LiveSummarySerializable | backend/shared/scraper_service.py:256-282 | A live scrape's summary holds no float, so storing it never fails for that reason |
| ScrapeCompanyHandler.FloatMockIs500 | backend/functions/scrape_company/handler.py:76-96 | Mock data holding a float cannot be written to the session: a 500 "Scraping failed", and the table is unchanged |
| ScrapeCompanyHandler.LiveScrapeProfileIsUnknown | backend/shared/bedrock_service.py:149-151 | After a live scrape the stored summary names the company under `name`, which the profile stub does not read, so the profile is named "Unknown" |
| AnalyzeCompanyHandler.ScrapedKeyShared | backend/functions/analyze_company/handler.py:63 | The analysis reads exactly the key the scrape handler writes |
| AnalyzeCompanyHandler.ScrapedText | backend/functions/analyze_company/handler.py:59-67 | Without a stored scrape, the fallback is used |
| AnalyzeCompanyHandler.TextSource | backend/functions/analyze_company/handler.py:57-67 | Truthy request text is analysed as given |
| AnalyzeCompanyHandler.AnalyzeNeedsSessionId | backend/functions/analyze_company/handler.py:51-53 | A missing or falsy session id is a 400, and nothing changes |
| AnalyzeCompanyHandler.RequestTextWins | backend/functions/analyze_company/handler.py:57-59 | With request text, the reply does not depend on the bucket |
| AnalyzeCompanyHandler.NoTextIs400 | backend/functions/analyze_company/handler.py:69-70 | No request text and no stored scrape is a 400, and nothing changes |
| AnalyzeCompanyHandler.Analyze | backend/functions/analyze_company/handler.py:55-100 | Neither bucket nor executions change, and sessions change only on a 200 |
| AnalyzeCompanyHandler.AnalyzeReadsScrape | backend/functions/analyze_company/handler.py:59-67 | After a live scrape was stored, an analysis without text reads that scrape's combined content |
| AnalyzeCompanyHandler.CombinedContent | backend/functions/analyze_company/handler.py:65 | The stored scrape's `summary.combined_content` is the aggregated combined content |
| AnalyzeCompanyHandler.AnalysisSerializable | backend/shared/comprehend_service.py:84-228 | The analysis dict holds a float exactly when it carries an entity, a key phrase or sentiment scores |
| AnalyzeCompanyHandler.RecordAsWrittenRefusesScores | backend/functions/analyze_company/handler.py:76-100 | As written, for a found session an analysis carrying any score makes `update_session` raise: a 500 "Analysis failed" and no write |
| AnalyzeCompanyHandler.RecordAsWrittenUnscored | backend/functions/analyze_company/handler.py:76-96 | An analysis without scores is written the same by the code and by the corrected write |
| AnalyzeCompanyHandler.RecordSpec | backend/functions/analyze_company/handler.py:76-96 | With the scores converted to decimals, for a found session the record holds the analysis and is ANALYSIS_COMPLETE, and the reply reports it, whatever the analysis holds |
| AnalyzeCompanyHandler.AsWrittenRaises | backend/functions/analyze_company/handler.py:72-100 | Where the code's analysis raises, the handler answers 500 with the IndexError's message as details and changes nothing |
| AnalyzeCompanyHandler.NoSessionAnalysis | backend/functions/analyze_company/handler.py:72-96 | For a session with no record, request text is analysed and reported with a 200, and nothing is written |
| AnalyzeCompanyHandler.NewlineRunIs500 | backend/functions/analyze_company/handler.py:72-100 | As written, the request text `"\n" * 5001` is a 500 with the IndexError's message; with the corrections it is an empty NEUTRAL analysis and, without a session record, a 200 |
| AnalyzeCompanyHandler.TopTen | backend/functions/analyze_company/handler.py:85-92 | The counts are the full lengths, and the top lists are the first ten entities and key phrases, in order |
| SubmitFeedbackHandler.PathSessionId | backend/functions/submit_feedback/handler.py:44 | The session id comes from the path; no path parameters means no id |
| SubmitFeedbackHandler.FeedbackNeedsPathId | backend/functions/submit_feedback/handler.py:44-46 | A missing or falsy path id is a 400 whatever the body holds, and nothing changes |
| SubmitFeedbackHandler.FeedbackDefaults | backend/functions/submit_feedback/handler.py:53-55 | Missing corrections, selected questions and notes default to `[]`, `[]` and "" |
| SubmitFeedbackHandler.Submit | backend/functions/submit_feedback/handler.py:57-84 | The table changes only for a session that exists, and then the reply reports the two counts when both have a length |
| SubmitFeedbackHandler.UnknownSessionIs404 | backend/functions/submit_feedback/handler.py:58-61 | Feedback for an unknown session is a 404, and nothing is written |
| SubmitFeedbackHandler.SubmitSpec | backend/functions/submit_feedback/handler.py:58-69 | For a found session, the record holds the feedback stamped with the call's time and is FEEDBACK_RECEIVED, and only then are the counts taken |
| SubmitFeedbackHandler.FloatFeedbackIs500 | backend/functions/submit_feedback/handler.py:58-84 | Feedback holding a float makes the write raise: a 500 "Failed to store feedback", and nothing changes |
| SubmitFeedbackHandler.Counted | backend/functions/submit_feedback/handler.py:71-80 | The reply is a 200 exactly when both values have a length, and then it reports those lengths |
| SubmitFeedbackHandler.CountsSpec | backend/functions/submit_feedback/handler.py:71-76 | The counts are the lengths of the lists as given |

## Left out

- AWS and HTTP calls are not executed. DynamoDB and S3 are modelled as state (a sequence of records, a map of objects).
  Comprehend, Textract, Bedrock `invoke_model`, Step Functions, `requests` and `urlparse` are function parameters.
  Their failures are the parameters' error results.
- `put_object` is assumed to succeed, so a failed upload in the handlers is not modelled. `put_item` and `update_item`
  fail only as the DynamoDB serializer does, on a float; service errors such as throttling are not modelled.
- `json.dumps` and `json.loads` are not modelled as text: a stored JSON document reads back as itself, and request
  bodies are decoded by a parameter. `indent` and UTF-8 encoding of stored objects are not modelled.
- Base64 decoding, python-docx's paragraph extraction and BeautifulSoup's HTML extraction are parameters or given fields.
  `decompose` of script, style and navigation tags happens inside that extraction.
- Floating point arithmetic is not modelled. A Python float is a value `Float(digits, scale)`. Comprehend scores are
  floats rounded to four places, held exactly; Bedrock's default temperature is `Float(7, 1)`. `DecimalEncoder` in the
  handlers is not modelled, because no response body it serialises is rendered as text here.
- DynamoDB numbers read back as they were stored, not as `Decimal`; the model stores no float, so only integers differ.
- Comprehend.DetectEntitiesSpec: the merge compares the rounded scores. The code compares a raw float score with the
  rounded score already stored, which can differ on near-ties.
- Comprehend.DetectKeyPhrasesSpec: the merge compares the rounded scores. The code compares a raw float score with the
  rounded score already stored, which can differ on near-ties.
- Comprehend.BlankTextAnalysis: states the corrected analysis. As written, blank text of only newlines over 5000 bytes
  raises IndexError instead (`Comprehend.NewlineRunAnalysisRaises`, `Comprehend.AnalyzeTextAsWritten`).
- Comprehend.AnalyzeText: is the corrected analysis (byte cut, empty chunk list read as blank). The code's analysis is
  `Comprehend.AnalyzeTextAsWritten`, which agrees on ASCII text with a chunk (`Comprehend.AsciiAnalysisAgrees`).
- AnalyzeCompanyHandler.Analyze: runs the corrected analysis and the corrected write with decimals. The code's handler is
  `AnalyzeCompanyHandler.AnalyzeAsWritten`: it answers 500 for an analysis with any score of a found session and for
  `"\n" * 5001`; the handler lemmas other than those naming the code's behaviour describe the corrected program.
- AnalyzeCompanyHandler.RecordSpec: states the corrected write, with the scores converted to `Decimal`. As written the
  write of an analysis with any score raises TypeError and the handler answers 500
  (`AnalyzeCompanyHandler.RecordAsWrittenRefusesScores`).
- Textract.ProcessBlocks: the average confidence and the raw `blocks` list in the result are left out (floating point and
  pass-through data).
- `uuid4` and `datetime.now` are inputs of each invocation. One `now` serves the whole invocation, so `submittedAt` and
  `updatedAt` of a feedback carry the same time.
- `Json.Display` renders `str()` of None, booleans, integers and strings exactly. It renders lists, dicts, floats and
  decimals as fixed markers, which only matter for ids that are not strings.
- `list_session_files` returns every matching key. The 1000-key page limit of `list_objects_v2` is not modelled.
- `S3Service.generate_presigned_url` is not modelled: it only signs a URL and no handler in the core calls it.
- `ScraperService._load_mock_data` reads a JSON file from disk. The mock data is an input in file order.
- `time.sleep(REQUEST_DELAY_SECONDS)`, the request timeout, the User-Agent header and the log messages are not modelled; the `usage` lookups in the log call are (Bedrock.ReplyText).
- Strings.Lower folds ASCII letters only. Python's `lower()` folds all of Unicode.
- ScrapeCompanyHandler.UrlOf: a truthy URL that is not a string is refused with a 500 before the mock lookup. The code
  would echo such a URL back when a mock matches.
- Bedrock.ReplyText: a first content block whose `text` is a list or a dict is treated as an error. The code would
  return that value. A number, boolean or null `text` raises in `len(text)`, as modelled.
- Error texts: a 500's details are `str(e)`. Where Python's wording depends on the value's type (AttributeError on a
  non-dict, TypeError from subscripting or `len`, botocore's parameter-validation and ValidationException messages) the
  model's text stands in for the real one. Float refusals, KeyErrors (`'createdAt'`), `list index out of range` and S3's
  NoSuchKey message are the real texts.
- Bedrock.GenerateProfile: the stub ignores the parsed documents and the analysis, so they are not parameters.
- The `health` and `get_session` handlers are not part of this model.

## Findings

| source | as written | input that shows it | evidently intended | confidence | as-written member | corrected member |
|---|---|---|---|---|---|---|
| backend/shared/comprehend_service.py:74 | a paragraph too long for one chunk is cut with `paragraph[:max_bytes]`, which counts characters, not bytes | one paragraph of 5001 `é` (10002 bytes) becomes one chunk of 5000 characters, 10000 bytes | cut to at most `max_bytes` bytes, so every chunk fits Comprehend's 5000-byte limit as the docstring says | not executed | Chunking.AsWrittenChunkOverflows | Chunking.ChunkTextFits |
| backend/shared/comprehend_service.py:183 | `self._chunk_text(text)[0]` indexes the chunk list without checking it is non-empty | `"\n" * 5001`: over the limit, every paragraph is empty, no chunk is emitted, and `[0]` raises IndexError (the analysis handler answers 500) | text with no content is blank and answers NEUTRAL, as for empty text | not executed | Comprehend.NewlineRunRaises | Comprehend.BlankTextIsNeutral |
| backend/functions/analyze_company/handler.py:80-83 | the analysis dict, whose scores are Python floats from `round(score, 4)`, is passed to `update_session`, and boto3's serializer refuses floats | any text for which Comprehend returns one entity, key phrase or sentiment score, for a session that exists: `update_item` raises TypeError and the handler answers 500 "Analysis failed" | the analysis is stored (its scores converted to `Decimal`) and the handler answers 200 | not executed | AnalyzeCompanyHandler.RecordAsWrittenRefusesScores | AnalyzeCompanyHandler.RecordSpec |

The model chunks with the byte cut (`Chunking.ChunkText`) and reads an empty chunk list as blank text
(`Comprehend.DetectSentiment`). `Chunking.ChunkTextAsWritten` and `Comprehend.DetectSentimentAsWritten` keep the code's
behaviour for the lemmas above. The analysis handler writes the analysis with its scores converted to `Decimal`
(`AnalyzeCompanyHandler.Record`); `AnalyzeCompanyHandler.RecordAsWritten` and `AnalyzeCompanyHandler.AnalyzeAsWritten`
keep the code's write and handler.
