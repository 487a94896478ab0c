/**
 * The REST handlers (server/routes.ts) over one `MemStorage`. A handler takes the
 * path parameters and the fields of the JSON body it reads, and returns the status
 * and body it sends. Every create takes the fresh id and the time the store would
 * draw itself; the chat handler takes the environment and the completion service.
 */
module Routes {
  import opened Wrappers
  import opened Seqs
  import opened Tables
  import opened Schema
  import opened Storage
  import OpenAi

  /** The owner every bot is created for and listed by. */
  const DefaultUser: Id := "default-user"

  datatype Stats = Stats(activeBots: nat, totalConversations: nat, successRate: string, responseTime: string)

  datatype Body =
    | BotBody(bot: Bot)
    | BotList(bots: seq<Bot>)
    | TrainingDataBody(data: TrainingData)
    | TrainingDataList(items: seq<TrainingData>)
    | IntegrationBody(integration: Integration)
    | IntegrationList(integrations: seq<Integration>)
    | ChatReply(response: string)
    | StatsBody(stats: Stats)
    | ErrorBody(error: string)
    | NoContent

  datatype Response = Response(status: nat, body: Body)

  /** The fields of a `POST /api/bots` body; the owner in it is always replaced. */
  datatype BotRequest = BotRequest(name: Option<string>, description: Option<string>, status: Option<string>)

  /** The fields of a `POST /api/bots/:botId/training-data` body. */
  datatype TrainingDataRequest = TrainingDataRequest(
    fileUrl: Option<string>,
    fileName: Option<string>,
    fileSize: Option<int>,
    fileType: Option<string>)

  /** The fields of a `POST /api/bots/:botId/integrations` body; the bot in it is always replaced. */
  datatype IntegrationRequest = IntegrationRequest(platform: Option<string>, config: Option<Config>, enabled: Option<bool>)

  /** A bot whose status is "active". */
  predicate IsActive(b: Bot) {
    b.status == "active"
  }

  /** Every training record is still without extracted content. */
  ghost predicate NoExtractedContent(store: MemStorage)
    reads store
  {
    forall k :: k in store.trainingData.rows ==> store.trainingData.rows[k].content == None
  }

  // ----- Bots -----

  /** `GET /api/bots`: the default user's bots in creation order. */
  method GetBots(store: MemStorage) returns (resp: Response)
    requires store.Valid()
    ensures resp.status == 200 && resp.body.BotList?
    ensures resp.body.bots == Where(store.bots.Values(), BotOwner, DefaultUser)
    ensures forall b :: b in resp.body.bots <==> b in store.bots.rows.Values && b.userId == Some(DefaultUser)
  {
    var bots := store.GetBotsByUserId(DefaultUser);
    forall b | b in store.bots.rows.Values && b.userId == Some(DefaultUser) ensures b in bots {
      var k :| k in store.bots.rows && store.bots.rows[k] == b;
    }
    forall b | b in bots ensures b in store.bots.rows.Values {
      WhereExact(store.bots.Values(), BotOwner, DefaultUser);
      var i :| 0 <= i < |store.bots.order| && store.bots.Values()[i] == b;
      assert store.bots.order[i] in store.bots.rows;
    }
    resp := Response(200, BotList(bots));
  }

  /** `GET /api/bots/:id`. */
  method GetBotById(store: MemStorage, id: Id) returns (resp: Response)
    ensures id !in store.bots.rows ==> resp == Response(404, ErrorBody("Bot not found"))
    ensures id in store.bots.rows ==> resp == Response(200, BotBody(store.bots.rows[id]))
  {
    var bot := store.GetBot(id);
    if bot.None? {
      return Response(404, ErrorBody("Bot not found"));
    }
    resp := Response(200, BotBody(bot.value));
  }

  /**
   * `POST /api/bots`: a body without a name fails validation and creates nothing;
   * otherwise the bot is created for the default user, whatever owner the body names.
   */
  method PostBot(store: MemStorage, body: BotRequest, id: Id, now: Timestamp) returns (resp: Response)
    requires store.Valid() && id !in store.bots.rows
    modifies store`bots
    ensures store.Valid()
    ensures body.name.None? ==> resp == Response(500, ErrorBody("Failed to create bot")) && store.bots == old(store.bots)
    ensures body.name.Some? ==>
              && resp.status == 201 && resp.body.BotBody?
              && resp.body.bot.userId == Some(DefaultUser)
              && resp.body.bot.name == body.name.value
              && resp.body.bot.id == id
              && resp.body.bot.status == (if TruthyString(body.status) then body.status.value else "draft")
              && resp.body.bot.description == OrNull(body.description)
              && resp.body.bot.createdAt == resp.body.bot.updatedAt == Some(now)
              && store.bots == old(store.bots).Set(id, resp.body.bot)
    ensures old(KeyedById(store.bots)) ==> KeyedById(store.bots)
  {
    if body.name.None? {
      return Response(500, ErrorBody("Failed to create bot"));
    }
    var bot := store.CreateBot(InsertBot(body.name.value, body.description, body.status, Some(DefaultUser)), id, now);
    resp := Response(201, BotBody(bot));
  }

  /** `PUT /api/bots/:id`: the merged bot, or 404 with nothing changed. */
  method PutBot(store: MemStorage, id: Id, patch: BotPatch, now: Timestamp) returns (resp: Response)
    requires store.Valid()
    modifies store`bots
    ensures store.Valid()
    ensures id !in old(store.bots.rows) ==> resp == Response(404, ErrorBody("Bot not found")) && store.bots == old(store.bots)
    ensures id in old(store.bots.rows) ==>
              var b := ApplyBotPatch(old(store.bots.rows[id]), patch, now);
              resp == Response(200, BotBody(b)) && store.bots == old(store.bots).Set(id, b)
    ensures old(KeyedById(store.bots)) && (patch.id.None? || patch.id == Some(id)) ==> KeyedById(store.bots)
  {
    var bot := store.UpdateBot(id, patch, now);
    if bot.None? {
      return Response(404, ErrorBody("Bot not found"));
    }
    resp := Response(200, BotBody(bot.value));
  }

  /** `DELETE /api/bots/:id`: 204 when the bot existed, 404 otherwise; it is gone afterwards either way. */
  method DeleteBot(store: MemStorage, id: Id) returns (resp: Response)
    requires store.Valid()
    modifies store`bots
    ensures store.Valid()
    ensures resp == if id in old(store.bots.rows) then Response(204, NoContent)
                    else Response(404, ErrorBody("Bot not found"))
    ensures store.bots == old(store.bots).Delete(id)
    ensures old(KeyedById(store.bots)) ==> KeyedById(store.bots)
  {
    var deleted := store.DeleteBot(id);
    if !deleted {
      return Response(404, ErrorBody("Bot not found"));
    }
    resp := Response(204, NoContent);
  }

  // ----- Training data -----

  /** `GET /api/bots/:botId/training-data`. */
  method GetTrainingData(store: MemStorage, botId: Id) returns (resp: Response)
    requires store.Valid()
    ensures resp == Response(200, TrainingDataList(Where(store.trainingData.Values(), TrainingDataBot, botId)))
  {
    var items := store.GetTrainingDataByBotId(botId);
    resp := Response(200, TrainingDataList(items));
  }

  /**
   * `POST /api/bots/:botId/training-data`: 400 with nothing stored unless both the
   * file URL and the file name are non-empty; otherwise an unprocessed record for the
   * bot in the path, with the URL normalised, size 0 and type
   * "application/octet-stream" when those are missing or empty, and a processing
   * timer scheduled for the new record.
   */
  method PostTrainingData(store: MemStorage, botId: Id, body: TrainingDataRequest,
                          normalize: string -> string, id: Id, now: Timestamp)
    returns (resp: Response, timer: Option<Id>)
    requires store.Valid() && id !in store.trainingData.rows
    modifies store`trainingData
    ensures store.Valid()
    ensures !TruthyString(body.fileUrl) || !TruthyString(body.fileName) ==>
              && resp == Response(400, ErrorBody("fileUrl and fileName are required"))
              && timer == None
              && store.trainingData == old(store.trainingData)
    ensures TruthyString(body.fileUrl) && TruthyString(body.fileName) ==>
              var d := TrainingData(id, if botId == "" then None else Some(botId), body.fileName.value,
                                    normalize(body.fileUrl.value), body.fileSize.GetOr(0),
                                    if TruthyString(body.fileType) then body.fileType.value else "application/octet-stream",
                                    None, false, now);
              && resp == Response(201, TrainingDataBody(d))
              && timer == Some(id)
              && store.trainingData == old(store.trainingData).Set(id, d)
    ensures old(NoExtractedContent(store)) ==> NoExtractedContent(store)
  {
    if !TruthyString(body.fileUrl) || !TruthyString(body.fileName) {
      return Response(400, ErrorBody("fileUrl and fileName are required")), None;
    }
    var fileType := if TruthyString(body.fileType) then body.fileType.value else "application/octet-stream";
    var input := InsertTrainingData(Some(botId), body.fileName.value, normalize(body.fileUrl.value),
                                    body.fileSize.GetOr(0), fileType, Some(false));
    var data := store.CreateTrainingData(input, id, now);
    resp := Response(201, TrainingDataBody(data));
    timer := Some(id);
  }

  /** The processing timer of a new record firing: the record is marked processed if it still exists. */
  method FireProcessingTimer(store: MemStorage, id: Id)
    requires store.Valid()
    modifies store`trainingData
    ensures store.Valid()
    ensures id !in old(store.trainingData.rows) ==> store.trainingData == old(store.trainingData)
    ensures id in old(store.trainingData.rows) ==>
              store.trainingData == old(store.trainingData).Set(id, old(store.trainingData.rows[id]).(processed := true))
    ensures old(NoExtractedContent(store)) ==> NoExtractedContent(store)
  {
    store.UpdateTrainingDataProcessed(id, true);
  }

  /** `DELETE /api/training-data/:id`. */
  method DeleteTrainingData(store: MemStorage, id: Id) returns (resp: Response)
    requires store.Valid()
    modifies store`trainingData
    ensures store.Valid()
    ensures resp == if id in old(store.trainingData.rows) then Response(204, NoContent)
                    else Response(404, ErrorBody("Training data not found"))
    ensures store.trainingData == old(store.trainingData).Delete(id)
    ensures old(NoExtractedContent(store)) ==> NoExtractedContent(store)
  {
    var deleted := store.DeleteTrainingData(id);
    if !deleted {
      return Response(404, ErrorBody("Training data not found"));
    }
    resp := Response(204, NoContent);
  }

  // ----- Integrations -----

  /** `GET /api/bots/:botId/integrations`. */
  method GetIntegrations(store: MemStorage, botId: Id) returns (resp: Response)
    requires store.Valid()
    ensures resp == Response(200, IntegrationList(Where(store.integrations.Values(), IntegrationBot, botId)))
  {
    var items := store.GetIntegrationsByBotId(botId);
    resp := Response(200, IntegrationList(items));
  }

  /** `POST /api/bots/:botId/integrations`: a body without a platform fails validation; otherwise the integration belongs to the bot in the path. */
  method PostIntegration(store: MemStorage, botId: Id, body: IntegrationRequest, id: Id, now: Timestamp)
    returns (resp: Response)
    requires store.Valid() && id !in store.integrations.rows
    modifies store`integrations
    ensures store.Valid()
    ensures body.platform.None? ==>
              resp == Response(500, ErrorBody("Failed to create integration")) && store.integrations == old(store.integrations)
    ensures body.platform.Some? ==>
              && resp.status == 201 && resp.body.IntegrationBody?
              && resp.body.integration.id == id
              && resp.body.integration.botId == (if botId == "" then None else Some(botId))
              && resp.body.integration.platform == body.platform.value
              && resp.body.integration.enabled == Some(TruthyBool(body.enabled))
              && resp.body.integration.config == body.config.GetOr(map[])
              && resp.body.integration.connectedAt == (if TruthyBool(body.enabled) then Some(now) else None)
              && store.integrations == old(store.integrations).Set(id, resp.body.integration)
  {
    if body.platform.None? {
      return Response(500, ErrorBody("Failed to create integration"));
    }
    var input := InsertIntegration(Some(botId), body.platform.value, body.config, body.enabled);
    var g := store.CreateIntegration(input, id, now);
    resp := Response(201, IntegrationBody(g));
  }

  /** `PUT /api/integrations/:id`. */
  method PutIntegration(store: MemStorage, id: Id, patch: IntegrationPatch, now: Timestamp) returns (resp: Response)
    requires store.Valid()
    modifies store`integrations
    ensures store.Valid()
    ensures id !in old(store.integrations.rows) ==>
              resp == Response(404, ErrorBody("Integration not found")) && store.integrations == old(store.integrations)
    ensures id in old(store.integrations.rows) ==>
              var g := ApplyIntegrationPatch(old(store.integrations.rows[id]), patch, now);
              resp == Response(200, IntegrationBody(g)) && store.integrations == old(store.integrations).Set(id, g)
  {
    var g := store.UpdateIntegration(id, patch, now);
    if g.None? {
      return Response(404, ErrorBody("Integration not found"));
    }
    resp := Response(200, IntegrationBody(g.value));
  }

  // ----- Chat -----

  /**
   * `POST /api/bots/:botId/chat`: 400 for a missing or empty message (before the bot
   * is looked up), 404 for an unknown bot, otherwise the reply `chatWithBot` gives for
   * the bot and its training records. Nothing in the store changes.
   */
  method PostChat(store: MemStorage, botId: Id, message: Option<string>, env: OpenAi.Env,
                  complete: OpenAi.ChatRequest -> OpenAi.Completion) returns (resp: Response)
    requires store.Valid()
    ensures !TruthyString(message) ==> resp == Response(400, ErrorBody("Message is required"))
    ensures TruthyString(message) && botId !in store.bots.rows ==> resp == Response(404, ErrorBody("Bot not found"))
    ensures TruthyString(message) && botId in store.bots.rows ==>
              resp == Response(200, ChatReply(OpenAi.ChatWithBot(message.value, store.bots.rows[botId],
                                        Where(store.trainingData.Values(), TrainingDataBot, botId), env, complete)))
  {
    if !TruthyString(message) {
      return Response(400, ErrorBody("Message is required"));
    }
    var bot := store.GetBot(botId);
    if bot.None? {
      return Response(404, ErrorBody("Bot not found"));
    }
    var td := store.GetTrainingDataByBotId(botId);
    var reply := OpenAi.ChatWithBot(message.value, bot.value, td, env, complete);
    resp := Response(200, ChatReply(reply));
  }

  // ----- Dashboard -----

  /** The number of conversations of each bot, summed over `bots` (a bot listed twice counts twice). */
  function ConversationTotal(bots: seq<Bot>, convs: seq<Conversation>): nat {
    if bots == [] then 0
    else ConversationTotal(bots[..|bots| - 1], convs) + |Where(convs, ConversationBot, bots[|bots| - 1].id)|
  }

  /**
   * `GET /api/dashboard/stats`: the default user's active bots, the conversations of
   * all of that user's bots, and the two fixed figures.
   */
  method DashboardStats(store: MemStorage) returns (resp: Response)
    requires store.Valid()
    ensures var bots := Where(store.bots.Values(), BotOwner, DefaultUser);
      resp == Response(200, StatsBody(Stats(|Filter(bots, IsActive)|,
                                           ConversationTotal(bots, store.conversations.Values()),
                                           "94.2%", "1.2s")))
  {
    var bots := store.GetBotsByUserId(DefaultUser);
    var activeBots := |Filter(bots, IsActive)|;
    var total := 0;
    var i := 0;
    while i < |bots|
      invariant 0 <= i <= |bots|
      invariant total == ConversationTotal(bots[..i], store.conversations.Values())
    {
      var conversations := store.GetConversationsByBotId(bots[i].id);
      assert bots[..i + 1][..i] == bots[..i];
      total := total + |conversations|;
      i := i + 1;
    }
    assert bots[..|bots|] == bots;
    resp := Response(200, StatsBody(Stats(activeBots, total, "94.2%", "1.2s")));
  }

  /** The conversations whose bot is one of `ids`. */
  function CountOwned(convs: seq<Conversation>, ids: set<Id>): (n: nat)
    ensures n <= |convs|
  {
    if convs == [] then 0
    else (if convs[0].botId.Some? && convs[0].botId.value in ids then 1 else 0) + CountOwned(convs[1..], ids)
  }

  function BotIds(bots: seq<Bot>): set<Id> {
    set i | 0 <= i < |bots| :: bots[i].id
  }

  predicate DistinctIds(bots: seq<Bot>) {
    forall i, j :: 0 <= i < j < |bots| ==> bots[i].id != bots[j].id
  }

  /** One bot's conversation list has exactly the conversations naming it. */
  lemma {:induction false} WhereCount(convs: seq<Conversation>, id: Id)
    ensures |Where(convs, ConversationBot, id)| == CountOwned(convs, {id})
  {
    if convs != [] {
      WhereCount(convs[1..], id);
      WhereCons(convs, ConversationBot, id);
    }
  }

  /** No bots own no conversations. */
  lemma {:induction false} CountOwnedNone(convs: seq<Conversation>)
    ensures CountOwned(convs, {}) == 0
  {
    if convs != [] {
      CountOwnedNone(convs[1..]);
    }
  }

  /** Counting over two disjoint sets of bots adds up. */
  lemma {:induction false} CountOwnedUnion(convs: seq<Conversation>, a: set<Id>, b: set<Id>)
    requires a !! b
    ensures CountOwned(convs, a + b) == CountOwned(convs, a) + CountOwned(convs, b)
  {
    if convs != [] {
      CountOwnedUnion(convs[1..], a, b);
    }
  }

  /**
   * When the listed bots have distinct ids, the dashboard total counts every
   * conversation belonging to one of them exactly once.
   */
  lemma {:induction false} TotalCountsEachConversationOnce(bots: seq<Bot>, convs: seq<Conversation>)
    requires DistinctIds(bots)
    ensures ConversationTotal(bots, convs) == CountOwned(convs, BotIds(bots))
  {
    if bots != [] {
      var init, last := bots[..|bots| - 1], bots[|bots| - 1];
      TotalCountsEachConversationOnce(init, convs);
      WhereCount(convs, last.id);
      assert BotIds(bots) == BotIds(init) + {last.id} by {
        forall x | x in BotIds(bots) ensures x in BotIds(init) + {last.id} {
          var i :| 0 <= i < |bots| && bots[i].id == x;
          if i < |bots| - 1 {
            assert init[i].id == x;
          }
        }
        forall x | x in BotIds(init) ensures x in BotIds(bots) {
          var i :| 0 <= i < |init| && init[i].id == x;
          assert bots[i].id == x;
        }
        assert bots[|bots| - 1].id in BotIds(bots);
      }
      assert BotIds(init) !! {last.id} by {
        forall i | 0 <= i < |init| ensures init[i].id != last.id {
          assert init[i] == bots[i];
        }
      }
      CountOwnedUnion(convs, BotIds(init), {last.id});
      assert ConversationTotal(bots, convs) == ConversationTotal(init, convs) + |Where(convs, ConversationBot, last.id)|;
    } else {
      assert BotIds(bots) == {};
      CountOwnedNone(convs);
    }
  }

  /** Every stored bot is filed under its own id (true of every bot the handlers create). */
  ghost predicate KeyedById(t: Table<Bot>) {
    forall k :: k in t.rows ==> t.rows[k].id == k
  }

  /** A bot's list of records keeps ids distinct: it is a subsequence of the table's values. */
  lemma {:induction false} WhereDistinctIds(bots: seq<Bot>, fk: Bot -> Option<Id>, id: Id)
    requires DistinctIds(bots)
    ensures DistinctIds(Where(bots, fk, id))
  {
    if bots != [] {
      var rest := bots[1..];
      DistinctTail(bots);
      WhereDistinctIds(rest, fk, id);
      WhereCons(bots, fk, id);
      WhereExact(rest, fk, id);
      var w := Where(rest, fk, id);
      forall j | 0 <= j < |w| ensures w[j].id != bots[0].id {
        var k :| 0 <= k < |rest| && rest[k] == w[j];
        assert bots[k + 1] == w[j];
      }
      if fk(bots[0]) == Some(id) {
        DistinctCons(bots[0], w);
      } else {
        assert [] + w == w;
      }
    }
  }

  lemma DistinctCons(x: Bot, w: seq<Bot>)
    requires DistinctIds(w) && forall j :: 0 <= j < |w| ==> w[j].id != x.id
    ensures DistinctIds([x] + w)
  {
    var v := [x] + w;
    forall i, j | 0 <= i < j < |v| ensures v[i].id != v[j].id {
      assert v[j] == w[j - 1];
      if i > 0 {
        assert v[i] == w[i - 1];
      }
    }
  }

  lemma DistinctTail(bots: seq<Bot>)
    requires bots != [] && DistinctIds(bots)
    ensures DistinctIds(bots[1..])
    ensures forall j :: 1 <= j < |bots| ==> bots[j].id != bots[0].id
  {
    forall i, j | 0 <= i < j < |bots| - 1 ensures bots[1..][i].id != bots[1..][j].id {
      assert bots[1..][i] == bots[i + 1] && bots[1..][j] == bots[j + 1];
    }
  }

  /**
   * While every bot is filed under its own id, the dashboard's conversation total is
   * the number of conversations that belong to one of the default user's bots.
   */
  lemma DashboardTotalIsOwnedCount(t: Table<Bot>, convs: seq<Conversation>)
    requires t.Valid() && KeyedById(t)
    ensures var bots := Where(t.Values(), BotOwner, DefaultUser);
      ConversationTotal(bots, convs) == CountOwned(convs, BotIds(bots))
  {
    var vs := t.Values();
    assert DistinctIds(vs) by {
      forall i, j | 0 <= i < j < |vs| ensures vs[i].id != vs[j].id {
        assert t.order[i] in t.rows && t.order[j] in t.rows;
      }
    }
    WhereDistinctIds(vs, BotOwner, DefaultUser);
    TotalCountsEachConversationOnce(Where(vs, BotOwner, DefaultUser), convs);
  }
}
