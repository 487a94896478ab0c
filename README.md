# BizMind core, modelled in Dafny

BizMind lets a small business build a customer-service chatbot. It stores bots, uploaded
training files, conversations and channel integrations in an in-memory store. It extracts
plain text from uploaded files, and it answers chat messages through a hosted
chat-completion model. The system prompt for that model names the bot and its processed
training files.

This project models four parts of that core:

- **The store** (`MemStorage`): a class with five insertion-ordered tables that its
  methods update in place.
  - `Tables` models a JavaScript `Map`: keyed rows plus the insertion order that
    `values()` iterates in.
  - `Schema` holds the record types, the create inputs, the partial updates and their
    merge functions.
- **The text extractor** (`extractRealFileContent`): a chain of stages in source order.
  - The stages are pdf-parse, text formats, re-decoding as Latin-1, printable runs of a
    PDF, readable characters, and a fixed diagnostic.
  - `JsText` supplies the JavaScript string operations the stages use. These are `\s`,
    `trim`, `replace(/\s+/g, ' ')`, UTF-16 `length` and `toLowerCase` of an extension.
- **Prompt construction and the reply rules** of `chatWithBot` and `generateBotResponse`.
  The completion service is a function argument, so every request sent and every
  answer handled is explicit.
- **The REST handlers.** Each handler is a method over one `MemStorage`. It returns the
  status and the body, and it changes exactly the table it names.
  - The processing timer that `POST …/training-data` schedules is a separate method.
  - The dashboard's conversation total is a loop proved against a specification
    function. A lemma shows that this total counts each conversation of the user's bots
    exactly once, provided every bot is filed under its own id.

Fresh ids (`randomUUID()`) and the current time (`new Date()`) are parameters. A create
takes an id that is not yet a key of its table.

Two facts about the code shape what the model covers:

- The system prompt lists only `Training file: <name>` for each processed record. The
  extracted file content never reaches the prompt (`PromptIgnoresContent`).
- The upload route never calls the extractor. Its timer only sets `processed`, and
  `content` stays null under every handler (`NoExtractedContent`).

## Model

| member | source | states |
|---|---|---|
| Tables.Table.Set | server/storage.ts:99 | `map.set` keeps every key listed exactly once, and the row for the key becomes the new value |
| Tables.Table.Delete | server/storage.ts:117 | `map.delete` removes exactly that key, and the table stays well formed |
| Tables.Table.Values | server/storage.ts:84 | `Array.from(map.values())` lists the row of each key, in insertion order |
| Seqs.Find | server/storage.ts:67 | `find` returns a value exactly when some element satisfies the test, and then the first such element |
| Tables.SetFreshAppends | server/storage.ts:99 | storing a record under a fresh id appends it at the end of iteration order |
| Tables.SetPresentInPlace | server/storage.ts:112 | re-storing an existing id keeps every position and replaces only that record |
| Tables.DeleteValues | server/storage.ts:116-118 | deleting splices exactly that record out of iteration order, and the others keep their order |
| Tables.WhereAfterInsert | server/storage.ts:121-123 | a new record for a bot goes last in that bot's list, and other bots' lists are unchanged |
| Schema.OrNull | server/storage.ts:94-95 | `x \|\| null` is null exactly for an absent or empty string, and otherwise the value itself |
| Schema.BotPatchFields | server/storage.ts:107-111 | an update overwrites exactly the supplied fields and keeps the others; `updatedAt` becomes now, even for an empty update |
| Schema.BotPatchCompose | server/storage.ts:103-114 | two updates in a row equal one merged update in which the later value of each field wins |
| Schema.ConversationPatchFields | server/storage.ts:182-189 | a conversation update overwrites exactly the supplied fields and keeps the others; an empty update changes nothing |
| Schema.IntegrationPatchConnectedAt | server/storage.ts:214-218 | `connectedAt` is refreshed only when the update sets `enabled` to true; leaving it out, or setting it to false or null, keeps the old value |
| Storage.MemStorage.constructor | server/storage.ts:54-60 | all five tables start empty |
| Storage.MemStorage.GetUser | server/storage.ts:63-65 | finds the user exactly when the id is a key |
| Storage.MemStorage.GetUserByUsername | server/storage.ts:67-69 | finds a user iff some user has that name, and returns the first such user in insertion order |
| Storage.MemStorage.CreateUser | server/storage.ts:71-76 | the new user carries the fresh id and the inputs, and only the users table gains that row |
| Storage.MemStorage.GetBot | server/storage.ts:79-81 | finds the bot exactly when the id is a key |
| Storage.MemStorage.GetBotsByUserId | server/storage.ts:83-85 | lists exactly the bots owned by the user, in insertion order |
| Storage.MemStorage.CreateBot | server/storage.ts:87-101 | status defaults to "draft" when absent or empty; an empty description or owner becomes null; both timestamps are the creation time |
| Storage.MemStorage.UpdateBot | server/storage.ts:103-114 | an unknown id gives undefined and changes nothing; otherwise the merged bot is stored in place and returned |
| Storage.MemStorage.DeleteBot | server/storage.ts:116-118 | returns whether the bot existed; afterwards it does not |
| Storage.MemStorage.GetTrainingDataByBotId | server/storage.ts:121-123 | lists exactly the bot's training records, in insertion order |
| Storage.MemStorage.CreateTrainingData | server/storage.ts:125-137 | content starts null, `processed` defaults to false, and an empty bot id becomes null |
| Storage.MemStorage.DeleteTrainingData | server/storage.ts:139-141 | returns whether the record existed; afterwards it does not |
| Storage.MemStorage.UpdateTrainingDataProcessed | server/storage.ts:143-149 | changes only the `processed` flag of that record; an unknown id is a no-op |
| Storage.MemStorage.UpdateTrainingDataWithContent | server/storage.ts:151-157 | changes only the `content` of that record; an unknown id is a no-op |
| Storage.MemStorage.GetTrainingDataById | server/storage.ts:159-161 | finds the record exactly when the id is a key |
| Storage.MemStorage.GetConversationsByBotId | server/storage.ts:164-166 | lists exactly the bot's conversations, in insertion order |
| Storage.MemStorage.CreateConversation | server/storage.ts:168-180 | messages default to the empty list; the conversation starts now and has not ended |
| Storage.MemStorage.UpdateConversation | server/storage.ts:182-189 | an unknown id changes nothing; otherwise the merged conversation is stored and returned |
| Storage.MemStorage.GetIntegrationsByBotId | server/storage.ts:192-194 | lists exactly the bot's integrations, in insertion order |
| Storage.MemStorage.CreateIntegration | server/storage.ts:196-208 | `enabled` defaults to false and `config` to `{}`; `connectedAt` is set, to now, exactly when enabled |
| Storage.MemStorage.UpdateIntegration | server/storage.ts:210-221 | an unknown id changes nothing; otherwise the merged integration is stored and returned |
| Storage.MemStorage.DeleteIntegration | server/storage.ts:223-225 | returns whether the integration existed; afterwards it does not |
| JsText.Trim | server/fileProcessor.ts:33 | the result is empty exactly when the text is all whitespace; otherwise neither end is whitespace; every non-whitespace character is kept |
| JsText.TrimSlice | server/fileProcessor.ts:33 | `trim()` returns the slice `s[k..e]` of its input, and every character outside that slice is whitespace |
| JsText.TrimExact | server/fileProcessor.ts:33 | trimming whitespace around a piece whose ends are not whitespace gives back exactly that piece |
| JsText.CollapseSpaces | server/fileProcessor.ts:21 | every whitespace character of the result is a plain space and no two are adjacent; it keeps the non-whitespace characters in order, is empty exactly when the input is, and starts with whitespace exactly when the input does |
| JsText.Normalize | server/fileProcessor.ts:21 | the result's whitespace is single plain spaces, none at either end, and it keeps the non-whitespace characters in order |
| JsText.CollapseWords | server/fileProcessor.ts:21 | `replace(/\s+/g, ' ')` is the words of the text joined by single spaces, with one space kept for a leading and for a trailing whitespace run |
| JsText.NormalizeWords | server/fileProcessor.ts:21 | collapsing and trimming gives exactly the whitespace-free words of the text joined by single spaces |
| JsText.NormalizeSplit | server/fileProcessor.ts:21 | normalising across a whitespace character is normalising each side and joining the two with one space (an empty side adds nothing) |
| JsText.NormalizeExample | server/fileProcessor.ts:21 | "a \t b" normalises to "a b" |
| JsText.NormalizeTidy | server/fileProcessor.ts:21 | already-normalised text is left unchanged: the normalisation is idempotent |
| JsText.AfterLastDot | server/fileProcessor.ts:15 | the extension is the suffix after the last dot, and it holds no dot |
| JsText.ToLowerAscii | server/fileProcessor.ts:15 | each of 'A'..'Z' becomes its lower-case letter (32 code points on), every other character is unchanged, and no upper-case letter remains |
| FileProcessor.Extension | server/fileProcessor.ts:15 | the extension is the lower-cased suffix after the last dot of the name (all of it when there is no dot), and it holds no dot |
| FileProcessor.Latin1 | server/fileProcessor.ts:44 | one character per byte, with the byte's value as its code point |
| FileProcessor.PdfParseStage | server/fileProcessor.ts:18-28 | the parsed PDF text, normalised, is accepted exactly when it is longer than 20 code units |
| FileProcessor.TextStage | server/fileProcessor.ts:31-36 | a text-format file is accepted verbatim exactly when its UTF-8 text has a non-whitespace character |
| FileProcessor.Content | server/fileProcessor.ts:39-45 | the text is the Latin-1 reading of the bytes when the UTF-8 text holds U+FFFD or a control character starting before code unit 1000, and the UTF-8 text otherwise |
| FileProcessor.HasControlWithinSpec | server/fileProcessor.ts:42 | the control-character test over `substring(0, 1000)` holds exactly when a control character starts before code unit 1000 |
| FileProcessor.PrintableRunsAreRuns | server/fileProcessor.ts:49 | every match has at least two characters, a printable character at each end, and run characters throughout |
| FileProcessor.PrintableRunsOfPrintable | server/fileProcessor.ts:49 | printable ASCII text of length two or more is one single match |
| FileProcessor.PrintableRunsOfRunChars | server/fileProcessor.ts:49 | text made only of run characters (printable ASCII or `\s`) is one match from its first printable character to its last when these differ, and has no match when there is only one; a tab or newline inside stays in the match |
| FileProcessor.NoPrintableRuns | server/fileProcessor.ts:49 | text without a printable ASCII character has no match |
| FileProcessor.PrintableRunsSplit | server/fileProcessor.ts:49 | a character outside the class splits the matches into those before it and those after it |
| FileProcessor.RunText | server/fileProcessor.ts:51-55 | the joined matches longer than 3, collapsed and trimmed, are tidy printable ASCII |
| FileProcessor.RunTextSingle | server/fileProcessor.ts:51-55 | one match contributes its normalised text when it is longer than 3 characters, and nothing otherwise |
| FileProcessor.RunTextAppend | server/fileProcessor.ts:51-55 | the text of two lists of matches is their two texts joined by one space (an empty side adds nothing) |
| FileProcessor.RunsText | server/fileProcessor.ts:49-55 | the text made from a file's matches is tidy printable ASCII |
| FileProcessor.RunsTextSplit | server/fileProcessor.ts:49-55 | a character outside the run class splits the file's run text into the texts of the two sides, joined by one space |
| FileProcessor.RunsTextOfPrintable | server/fileProcessor.ts:49-55 | printable ASCII text gives its own normalised text when longer than 3 characters, and nothing otherwise |
| FileProcessor.PdfRunStage | server/fileProcessor.ts:48-61 | a PDF's run text is accepted exactly when it is longer than 20 characters |
| FileProcessor.KeepReadable | server/fileProcessor.ts:64 | the result is exactly the printable ASCII, newline, carriage return and tab characters of the text, in order |
| FileProcessor.ReadableStage | server/fileProcessor.ts:64-67 | the readable characters, normalised, are accepted exactly when longer than 20 characters, and the accepted text is that normalised text (tidy printable ASCII) |
| FileProcessor.ExtractRealFileContent | server/fileProcessor.ts:7-75 | extraction never throws: every path yields a non-empty string |
| FileProcessorProperties.ExtensionWithoutDot | server/fileProcessor.ts:15 | a name without a dot is its own extension, lower-cased |
| FileProcessorProperties.DownloadFailureMessage | server/fileProcessor.ts:71-74 | a failed download yields the failure message, with the error's message or "Unknown error" |
| FileProcessorProperties.TextFileVerbatim | server/fileProcessor.ts:31-36 | a text-format file with some non-whitespace content is returned untouched and untrimmed |
| FileProcessorProperties.PdfParsedText | server/fileProcessor.ts:18-24 | a PDF whose parsed text is long enough yields that text, normalised |
| FileProcessorProperties.OutputShape | server/fileProcessor.ts:7-69 | after a successful download the result is either the verbatim text file, tidy text longer than 20, or the diagnostic |
| FileProcessorProperties.LaterStagesInOrder | server/fileProcessor.ts:48-69 | when neither pdf-parse nor the text formats accept, the PDF's printable-run text wins if that stage accepts; otherwise the readable-character text if that stage accepts; otherwise the diagnostic |
| FileProcessorProperties.ShortLinesKept | server/fileProcessor.ts:49 | "ab\ncd" is one single match of five characters: the newline between two short words does not split them |
| FileProcessorProperties.ShortLinesText | server/fileProcessor.ts:49-54 | the run text of "ab\ncd" is "ab cd": both two-letter words pass the `length > 3` filter inside one match, and the newline becomes a space |
| FileProcessorProperties.NothingAccepted | server/fileProcessor.ts:69 | after a successful download where none of the four stages accepts, the result is the diagnostic naming the file |
| FileProcessorProperties.UpperCaseExtension | server/fileProcessor.ts:15 | "report.PDF" has the extension "pdf": the suffix is lower-cased before it is compared |
| FileProcessorProperties.HelloWorldText | server/fileProcessor.ts:31-35 | "a.txt" holding "Hello world" extracts to exactly that text |
| FileProcessorProperties.BinaryWithoutText | server/fileProcessor.ts:39-69 | a ".bin" file made of control bytes extracts to the diagnostic |
| OpenAi.ReplyText | server/openai.ts:47-51 | the reply is the first choice's text; an empty or null reply gives the fallback; no choices or an exception gives the failure message |
| OpenAi.TrainingContext | server/openai.ts:20-23 | the training context is empty exactly when no record is processed |
| OpenAi.ChatSystemPrompt | server/openai.ts:25-35 | the chat prompt is the opening, then "You have been trained on the following data: " and the context exactly when some record is processed, then the fixed charter |
| OpenAi.ResponseSystemPrompt | server/openai.ts:69-73 | the generateBotResponse prompt is its opening, then "Training data: " and the context exactly when some record is processed, then its fixed charter |
| OpenAi.ChatWithBot | server/openai.ts:9-52 | the reply is never empty; without a key it is the fixed message; with a key it is the failure message, the fallback, or the first choice's text of the answer to the chat request |
| OpenAi.GenerateBotResponse | server/openai.ts:54-92 | the same three outcomes for generateBotResponse, with its own messages and request |
| OpenAi.NoKeyNoCall | server/openai.ts:15-17 | without an API key, both entry points return their fixed message whatever the service would answer |
| OpenAi.ChatWithKey | server/openai.ts:37-51 | with a key, exactly one request is sent: gpt-4o, 500 tokens, temperature 0.7, the system prompt and then the message |
| OpenAi.ResponseWithKey | server/openai.ts:80-91 | generateBotResponse uses the same request settings, with its own fallback and failure messages |
| OpenAi.ResponseRequestOrder | server/openai.ts:75-78 | the system prompt comes first, followed by the history in its original order |
| OpenAi.ContextSingle | server/openai.ts:20-23 | one record contributes its label when processed, and nothing otherwise |
| OpenAi.ContextAppend | server/openai.ts:20-23 | the context of two lists is their contexts joined by ", ", in input order |
| OpenAi.PromptIgnoresUnprocessed | server/openai.ts:20-21 | unprocessed records do not affect either prompt |
| OpenAi.PromptIgnoresContent | server/openai.ts:22 | records that differ only in extracted content give identical prompts |
| OpenAi.PromptOpening | server/openai.ts:25 | each prompt opens with the bot's name and its description, or with nothing in the description's place when it has none |
| OpenAi.OneProcessedFile | server/openai.ts:20-23 | one processed "file.txt" is listed as "Training file: file.txt" |
| Routes.GetBots | server/routes.ts:11-21 | lists exactly the default user's bots |
| Routes.GetBotById | server/routes.ts:23-34 | returns the bot, or 404 |
| Routes.PostBot | server/routes.ts:36-48 | no name gives 500 and stores nothing; otherwise 201 with a bot owned by "default-user", whatever owner the body gives; the stored bot has status "draft" unless a non-empty one is given, a null description when the given one is absent or empty, and both timestamps equal to now |
| Routes.PutBot | server/routes.ts:50-61 | 404 with nothing changed, or the merged bot; bots stay filed under their own ids unless the body changes the id |
| Routes.DeleteBot | server/routes.ts:63-74 | 204 exactly when the bot existed, otherwise 404 |
| Routes.GetTrainingData | server/routes.ts:77-85 | lists the bot's training records |
| Routes.PostTrainingData | server/routes.ts:98-128 | a missing or empty file URL or file name gives 400, stores nothing and schedules nothing; otherwise an unprocessed record with size 0 and type "application/octet-stream" by default, and a timer for it |
| Routes.FireProcessingTimer | server/routes.ts:119-121 | marks the record processed if it still exists; content stays null |
| Routes.DeleteTrainingData | server/routes.ts:130-141 | 204 exactly when the record existed, otherwise 404 |
| Routes.GetIntegrations | server/routes.ts:144-152 | lists the bot's integrations |
| Routes.PostIntegration | server/routes.ts:154-166 | no platform gives 500; otherwise 201 with an integration for the bot in the path, stored with enabled defaulting to false, config to `{}`, and connectedAt equal to now exactly when enabled (null otherwise) |
| Routes.PutIntegration | server/routes.ts:168-179 | 404 with nothing changed, or the merged integration |
| Routes.PostChat | server/routes.ts:182-202 | an empty or missing message gives 400 before the bot lookup; an unknown bot gives 404; otherwise the chatWithBot reply for the bot and its training records; the store is unchanged |
| Routes.DashboardStats | server/routes.ts:205-230 | active bots counted, the per-bot conversation counts summed by the loop, and the fixed figures "94.2%" and "1.2s" |
| Routes.WhereCount | server/routes.ts:214-215 | a bot's conversation list has exactly as many entries as the conversations naming that bot |
| Routes.TotalCountsEachConversationOnce | server/routes.ts:212-216 | over bots with distinct ids, the summed total counts each conversation of those bots once |
| Routes.DashboardTotalIsOwnedCount | server/routes.ts:207-216 | while every bot is filed under its own id, the total counts exactly the conversations of the user's bots |

## Left out

- Id generation and the clock: `randomUUID()` is a fresh-id parameter and `new Date()` is a timestamp parameter.
- Object storage: locating and downloading a file, `normalizeObjectEntityPath` (a function argument) and the upload-URL route (server/routes.ts:87-96). server/objectStorage.ts is not part of this model.
- The UTF-8 decoder and the pdf-parse library: their outputs for a file are inputs to the model. Latin-1 decoding is modelled.
- The OpenAI client and network: the completion service is a function argument, and the environment is a map.
- JavaScript `toLowerCase` outside ASCII: only ASCII letters are lowered. Two non-ASCII characters lower to ASCII letters: KELVIN SIGN becomes `k`, and LATIN CAPITAL LETTER I WITH DOT ABOVE (U+0130) becomes `i` followed by the combining dot U+0307. No compared extension contains `k` or U+0307, so no extension test changes.
- Aliasing of returned records: a record is a value. The in-place writes at server/storage.ts:146 and 154 become a re-store of the same key. A caller holding an earlier reference would see the change; the model does not capture that.
- Asynchrony: handlers and the two-second timer run as whole steps. Interleavings are the caller's choice of call order.
- Request bodies of the wrong JSON type: bodies are modelled by their fields' presence and emptiness. Zod's error details and the `console.error` logging are omitted.
- Patch fields `updatedAt` of a bot and `connectedAt` of an integration: the store always overwrites them, so the patches omit them.
- Conversations and users are not reachable from any route except through the dashboard's read.
- Routes.PutBot and Routes.PutIntegration: `PUT /api/bots/:id` and `PUT /api/integrations/:id` (server/routes.ts:52 and 170) spread `req.body` into the record without validation, so a body field that is not a column is stored and returned. The model's patches hold only the record's own fields, so it does not capture those extra fields.
- Routes.PutBot: a body whose `id` differs from the path stores a bot whose `id` field differs from its key. The dashboard's total is then only proved for stores in which every bot is filed under its own id.
- The server bootstrap (server/index.ts), the client UI and the database defaults in shared/schema.ts are not part of this model.
- JsText.Length: Dafny characters are code points. A surrogate pair therefore counts as one character that takes two UTF-16 code units, and lone surrogates are not representable.
