/**
 * `chatWithBot` and `generateBotResponse` (server/openai.ts): the system prompt built
 * from the bot and the names of its processed training files, the API-key gate and
 * the fixed fallback replies. The completion service is a function argument; the
 * environment is a map from variable names to values.
 */
module OpenAi {
  import opened Wrappers
  import opened Seqs
  import opened Schema

  type Env = map<string, string>

  /** `process.env[name]` is truthy: present and not empty. */
  predicate EnvSet(env: Env, name: string) {
    name in env && env[name] != ""
  }

  predicate HasApiKey(env: Env) {
    EnvSet(env, "OPENAI_API_KEY") || EnvSet(env, "OPENAI_API_KEY_ENV_VAR")
  }

  /** A call to `openai.chat.completions.create`. */
  datatype ChatRequest = ChatRequest(model: string, messages: seq<ChatMessage>, maxTokens: nat, temperature: real)

  /** What the service answers: the `content` of each choice (null as None), or an exception. */
  datatype Completion = Completed(choices: seq<Option<string>>) | Failed

  const ChatKeyMissing :=
    "I'm sorry, but the OpenAI API key is not configured. " +
    "Please contact the administrator to set up the API key."
  const ChatEmptyReply :=
    "I apologize, but I'm having trouble generating a response right now. " +
    "Please try again."
  const ChatFailure :=
    "I'm sorry, but I'm experiencing technical difficulties. " +
    "Please try again later or contact support if the problem persists."
  const ChatCharter :=
    "You are designed to help with:\n" +
    "- Answering frequently asked questions\n" +
    "- Assisting with scheduling appointments\n" +
    "- Providing information about products or services\n" +
    "- Helping customers with general inquiries\n" +
    "\n" +
    "Please provide helpful, accurate, and professional responses. " +
    "If you don't know something specific about the business, " +
    "politely say so and offer to help find the information " +
    "or connect them with a human representative."

  const ResponseKeyMissing := "OpenAI API key not configured."
  const ResponseEmptyReply := "Unable to generate response."
  const ResponseFailure := "Technical difficulties. Please try again."
  const ResponseCharter := "Provide helpful, professional responses for small business customer service."

  function IsProcessed(d: TrainingData): bool {
    d.processed
  }

  function FileLabel(d: TrainingData): string {
    "Training file: " + d.fileName
  }

  /** The processed records' labels joined by ", "; empty exactly when no record is processed. */
  function TrainingContext(td: seq<TrainingData>): (context: string)
    ensures context == "" <==> forall i :: 0 <= i < |td| ==> !td[i].processed
  {
    var processed := Filter(td, IsProcessed);
    var labels := Map(processed, FileLabel);
    if processed == [] then
      assert forall i :: 0 <= i < |td| && IsProcessed(td[i]) ==> td[i] in processed;
      Join(labels, ", ")
    else
      JoinNonEmpty(labels, ", ");
      assert processed[0] in td;
      Join(labels, ", ")
  }

  /** `bot.description || ""`. */
  function DescriptionText(bot: Bot): string {
    bot.description.GetOr("")
  }

  /** The opening sentence of `chatWithBot`'s system prompt. */
  function ChatIntro(bot: Bot): string {
    "You are " + bot.name + ", an AI assistant for small businesses. " + DescriptionText(bot)
  }

  /**
   * `chatWithBot`'s system prompt: the opening, then the training clause only when some
   * record is processed, then the fixed charter.
   */
  function ChatSystemPrompt(bot: Bot, td: seq<TrainingData>): (prompt: string)
    ensures (forall i :: 0 <= i < |td| ==> !td[i].processed) ==>
              prompt == ChatIntro(bot) + " \n\n" + "\n\n" + ChatCharter
    ensures (exists i :: 0 <= i < |td| && td[i].processed) ==>
              prompt == ChatIntro(bot) + " \n\n" + "You have been trained on the following data: " +
                        TrainingContext(td) + "\n\n" + ChatCharter
  {
    var context := TrainingContext(td);
    var clause := if context != "" then "You have been trained on the following data: " + context else "";
    assert clause == "" ==> ChatIntro(bot) + " \n\n" + clause == ChatIntro(bot) + " \n\n";
    ChatIntro(bot) + " \n\n" + clause + "\n\n" + ChatCharter
  }

  function ChatRequestFor(message: string, bot: Bot, td: seq<TrainingData>): ChatRequest {
    ChatRequest("gpt-4o", [ChatMessage(SystemRole, ChatSystemPrompt(bot, td)), ChatMessage(UserRole, message)], 500, 0.7)
  }

  /**
   * `response.choices[0].message.content || fallback`; reading the first choice of an
   * empty list throws, which the surrounding `catch` turns into `failure`.
   */
  function ReplyText(c: Completion, fallback: string, failure: string): (r: string)
    ensures c.Failed? ==> r == failure
    ensures c.Completed? && c.choices == [] ==> r == failure
    ensures c.Completed? && c.choices != [] && TruthyString(c.choices[0]) ==> r == c.choices[0].value
    ensures c.Completed? && c.choices != [] && !TruthyString(c.choices[0]) ==> r == fallback
  {
    match c
    case Failed => failure
    case Completed(choices) =>
      if choices == [] then failure
      else if TruthyString(choices[0]) then choices[0].value
      else fallback
  }

  /** `chatWithBot(message, bot, trainingData)`. */
  function ChatWithBot(message: string, bot: Bot, td: seq<TrainingData>, env: Env,
                       complete: ChatRequest -> Completion): (reply: string)
    ensures reply != ""
    ensures !HasApiKey(env) ==> reply == ChatKeyMissing
    ensures HasApiKey(env) ==>
              var answer := complete(ChatRequestFor(message, bot, td));
              || reply == ChatFailure
              || reply == ChatEmptyReply
              || (answer.Completed? && answer.choices != [] && answer.choices[0] == Some(reply))
  {
    if !HasApiKey(env) then ChatKeyMissing
    else ReplyText(complete(ChatRequestFor(message, bot, td)), ChatEmptyReply, ChatFailure)
  }

  /** The opening sentence of `generateBotResponse`'s system prompt. */
  function ResponseIntro(bot: Bot): string {
    "You are " + bot.name + ", an AI assistant. " + DescriptionText(bot)
  }

  /** `generateBotResponse`'s system prompt, with its own "Training data: " clause. */
  function ResponseSystemPrompt(bot: Bot, td: seq<TrainingData>): (prompt: string)
    ensures (forall i :: 0 <= i < |td| ==> !td[i].processed) ==>
              prompt == ResponseIntro(bot) + " \n\n" + "\n\n" + ResponseCharter
    ensures (exists i :: 0 <= i < |td| && td[i].processed) ==>
              prompt == ResponseIntro(bot) + " \n\n" + "Training data: " + TrainingContext(td) + "\n\n" + ResponseCharter
  {
    var context := TrainingContext(td);
    var clause := if context != "" then "Training data: " + context else "";
    assert clause == "" ==> ResponseIntro(bot) + " \n\n" + clause == ResponseIntro(bot) + " \n\n";
    ResponseIntro(bot) + " \n\n" + clause + "\n\n" + ResponseCharter
  }

  function ResponseRequestFor(history: seq<ChatMessage>, bot: Bot, td: seq<TrainingData>): ChatRequest {
    ChatRequest("gpt-4o", [ChatMessage(SystemRole, ResponseSystemPrompt(bot, td))] + history, 500, 0.7)
  }

  /** `generateBotResponse(conversationHistory, bot, trainingData)`. */
  function GenerateBotResponse(history: seq<ChatMessage>, bot: Bot, td: seq<TrainingData>, env: Env,
                               complete: ChatRequest -> Completion): (reply: string)
    ensures reply != ""
    ensures !HasApiKey(env) ==> reply == ResponseKeyMissing
    ensures HasApiKey(env) ==>
              var answer := complete(ResponseRequestFor(history, bot, td));
              || reply == ResponseFailure
              || reply == ResponseEmptyReply
              || (answer.Completed? && answer.choices != [] && answer.choices[0] == Some(reply))
  {
    if !HasApiKey(env) then ResponseKeyMissing
    else ReplyText(complete(ResponseRequestFor(history, bot, td)), ResponseEmptyReply, ResponseFailure)
  }

  // ----- Properties -----

  /** Without a key both entry points return their fixed message whatever the service would answer: no call is made. */
  lemma NoKeyNoCall(message: string, history: seq<ChatMessage>, bot: Bot, td: seq<TrainingData>, env: Env,
                    c1: ChatRequest -> Completion, c2: ChatRequest -> Completion)
    requires !HasApiKey(env)
    ensures ChatWithBot(message, bot, td, env, c1) == ChatWithBot(message, bot, td, env, c2) == ChatKeyMissing
    ensures GenerateBotResponse(history, bot, td, env, c1) == GenerateBotResponse(history, bot, td, env, c2)
            == ResponseKeyMissing
  {
  }

  /**
   * With a key, `chatWithBot` sends exactly one request: the system prompt, then the
   * user's message; it returns the reply text, the apology for an empty reply, and the
   * technical-difficulties message for an exception.
   */
  lemma ChatWithKey(message: string, bot: Bot, td: seq<TrainingData>, env: Env, complete: ChatRequest -> Completion)
    requires HasApiKey(env)
    ensures var req := ChatRequestFor(message, bot, td);
      && req.model == "gpt-4o" && req.maxTokens == 500 && req.temperature == 0.7
      && req.messages == [ChatMessage(SystemRole, ChatSystemPrompt(bot, td)), ChatMessage(UserRole, message)]
      && var r := ChatWithBot(message, bot, td, env, complete);
         match complete(req)
         case Failed => r == ChatFailure
         case Completed(choices) =>
           r == if choices == [] then ChatFailure
                else if TruthyString(choices[0]) then choices[0].value
                else ChatEmptyReply
  {
  }

  /**
   * With a key, `generateBotResponse` sends one request with the same model settings and
   * returns the reply text, its own fallback for an empty reply, and its own message for
   * an exception.
   */
  lemma ResponseWithKey(history: seq<ChatMessage>, bot: Bot, td: seq<TrainingData>, env: Env,
                        complete: ChatRequest -> Completion)
    requires HasApiKey(env)
    ensures var req := ResponseRequestFor(history, bot, td);
      && req.model == "gpt-4o" && req.maxTokens == 500 && req.temperature == 0.7
      && var r := GenerateBotResponse(history, bot, td, env, complete);
         match complete(req)
         case Failed => r == ResponseFailure
         case Completed(choices) =>
           r == if choices == [] then ResponseFailure
                else if TruthyString(choices[0]) then choices[0].value
                else ResponseEmptyReply
  {
  }

  /** `generateBotResponse` sends the system prompt followed by the history in its original order. */
  lemma ResponseRequestOrder(history: seq<ChatMessage>, bot: Bot, td: seq<TrainingData>)
    ensures var msgs := ResponseRequestFor(history, bot, td).messages;
      |msgs| == |history| + 1 && msgs[0] == ChatMessage(SystemRole, ResponseSystemPrompt(bot, td)) &&
      forall i :: 0 <= i < |history| ==> msgs[i + 1] == history[i]
  {
  }

  /** The context of one record is its label when processed, and nothing otherwise. */
  lemma ContextSingle(d: TrainingData)
    ensures TrainingContext([d]) == if d.processed then "Training file: " + d.fileName else ""
  {
    assert [d][1..] == [];
  }

  /** The context of two lists is their contexts joined by ", " (either may be empty): input order is kept. */
  lemma {:induction false} ContextAppend(a: seq<TrainingData>, b: seq<TrainingData>)
    ensures TrainingContext(a + b) ==
              if TrainingContext(a) == "" then TrainingContext(b)
              else if TrainingContext(b) == "" then TrainingContext(a)
              else TrainingContext(a) + ", " + TrainingContext(b)
  {
    FilterAppend(a, b, IsProcessed);
    var fa, fb := Filter(a, IsProcessed), Filter(b, IsProcessed);
    MapAppend(fa, fb, FileLabel);
    if fa != [] && fb != [] {
      JoinAppend(Map(fa, FileLabel), Map(fb, FileLabel), ", ");
    } else if fa == [] {
      assert fa + fb == fb;
    } else {
      assert fa + fb == fa;
    }
  }

  lemma {:induction false} MapAppend<T, U>(a: seq<T>, b: seq<T>, f: T -> U)
    ensures Map(a + b, f) == Map(a, f) + Map(b, f)
  {
  }

  /** Joining a non-empty list whose first part is non-empty gives a non-empty string. */
  lemma {:induction false} JoinNonEmpty(parts: seq<string>, sep: string)
    requires parts != [] && parts[0] != ""
    ensures Join(parts, sep) != ""
  {
    assert |Join(parts, sep)| >= |parts[0]|;
  }

  /** Unprocessed records do not influence either prompt. */
  lemma PromptIgnoresUnprocessed(bot: Bot, td: seq<TrainingData>)
    ensures ChatSystemPrompt(bot, td) == ChatSystemPrompt(bot, Filter(td, IsProcessed))
    ensures ResponseSystemPrompt(bot, td) == ResponseSystemPrompt(bot, Filter(td, IsProcessed))
  {
    FilterIdempotent(td, IsProcessed);
  }

  lemma {:induction false} FilterIdempotent<T>(s: seq<T>, p: T -> bool)
    ensures Filter(Filter(s, p), p) == Filter(s, p)
  {
    if s != [] {
      FilterIdempotent(s[1..], p);
    }
  }

  /** Only file names reach the prompt: records that differ only in `content` give the same prompts. */
  lemma {:induction false} PromptIgnoresContent(bot: Bot, td: seq<TrainingData>, td': seq<TrainingData>)
    requires |td| == |td'|
    requires forall i :: 0 <= i < |td| ==> td'[i] == td[i].(content := td'[i].content)
    ensures TrainingContext(td) == TrainingContext(td')
    ensures ChatSystemPrompt(bot, td) == ChatSystemPrompt(bot, td')
    ensures ResponseSystemPrompt(bot, td) == ResponseSystemPrompt(bot, td')
  {
    LabelsIgnoreContent(td, td');
  }

  lemma {:induction false} LabelsIgnoreContent(td: seq<TrainingData>, td': seq<TrainingData>)
    requires |td| == |td'|
    requires forall i :: 0 <= i < |td| ==> td'[i] == td[i].(content := td'[i].content)
    ensures Map(Filter(td, IsProcessed), FileLabel) == Map(Filter(td', IsProcessed), FileLabel)
  {
    if td != [] {
      LabelsIgnoreContent(td[1..], td'[1..]);
      assert td'[0].processed == td[0].processed && td'[0].fileName == td[0].fileName;
      var rest, rest' := Filter(td[1..], IsProcessed), Filter(td'[1..], IsProcessed);
      if td[0].processed {
        assert Map([td[0]] + rest, FileLabel) == [FileLabel(td[0])] + Map(rest, FileLabel);
        assert Map([td'[0]] + rest', FileLabel) == [FileLabel(td'[0])] + Map(rest', FileLabel);
      }
    }
  }

  /** The system prompt opens with the bot's name and its description (or nothing when it has none). */
  lemma PromptOpening(bot: Bot, td: seq<TrainingData>)
    ensures var intro := "You are " + bot.name + ", an AI assistant for small businesses. " +
                         (if bot.description.Some? then bot.description.value else "");
      ChatSystemPrompt(bot, td)[..|intro|] == intro
    ensures var intro := "You are " + bot.name + ", an AI assistant. " +
                         (if bot.description.Some? then bot.description.value else "");
      ResponseSystemPrompt(bot, td)[..|intro|] == intro
  {
    var chat := ChatIntro(bot);
    var chatClause := if TrainingContext(td) != "" then "You have been trained on the following data: " + TrainingContext(td) else "";
    OpensWith(chat, " \n\n", chatClause, "\n\n", ChatCharter);
    var response := ResponseIntro(bot);
    var responseClause := if TrainingContext(td) != "" then "Training data: " + TrainingContext(td) else "";
    OpensWith(response, " \n\n", responseClause, "\n\n", ResponseCharter);
  }

  lemma OpensWith(intro: string, a: string, b: string, c: string, d: string)
    ensures (intro + a + b + c + d)[..|intro|] == intro
  {
    var x := intro + a + b + c;
    assert (intro + a + b + c + d)[..|intro|] == x[..|intro|];
    assert x[..|intro|] == (intro + a + b)[..|intro|];
    assert (intro + a + b)[..|intro|] == (intro + a)[..|intro|];
  }

  /** Example: one processed record named "file.txt" is listed as "Training file: file.txt". */
  lemma OneProcessedFile(d: TrainingData)
    requires d.processed && d.fileName == "file.txt"
    ensures TrainingContext([d]) == "Training file: file.txt"
  {
    ContextSingle(d);
  }
}
