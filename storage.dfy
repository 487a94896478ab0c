/**
 * `MemStorage` (server/storage.ts): five insertion-ordered tables mutated in place.
 * Fresh ids (`randomUUID()`) and the current time (`new Date()`) are supplied by the
 * caller: every create takes an `id` that is not yet a key of its table and a `now`.
 */
module Storage {
  import opened Wrappers
  import opened Seqs
  import opened Tables
  import opened Schema

  class MemStorage {
    var users: Table<User>
    var bots: Table<Bot>
    var trainingData: Table<TrainingData>
    var conversations: Table<Conversation>
    var integrations: Table<Integration>

    ghost predicate Valid()
      reads this
    {
      users.Valid() && bots.Valid() && trainingData.Valid() && conversations.Valid() && integrations.Valid()
    }

    constructor ()
      ensures Valid()
      ensures users.rows == map[] && bots.rows == map[] && trainingData.rows == map[]
      ensures conversations.rows == map[] && integrations.rows == map[]
    {
      users := Empty();
      bots := Empty();
      trainingData := Empty();
      conversations := Empty();
      integrations := Empty();
    }

    // ----- Users -----

    method GetUser(id: Id) returns (r: Option<User>)
      ensures r.Some? <==> id in users.rows
      ensures r.Some? ==> r.value == users.rows[id]
    {
      r := users.Get(id);
    }

    /** The first user, in insertion order, with the given username. */
    method GetUserByUsername(username: string) returns (r: Option<User>)
      requires Valid()
      ensures r.Some? <==> exists i :: 0 <= i < |users.order| && users.rows[users.order[i]].username == username
      ensures r.Some? ==> exists i :: 0 <= i < |users.order| && users.rows[users.order[i]] == r.value &&
                            r.value.username == username &&
                            forall j :: 0 <= j < i ==> users.rows[users.order[j]].username != username
    {
      r := Find(users.Values(), (u: User) => u.username == username);
    }

    method CreateUser(input: InsertUser, id: Id) returns (user: User)
      requires Valid() && id !in users.rows
      modifies this`users
      ensures Valid()
      ensures user == User(id, input.username, input.password)
      ensures users == old(users).Set(id, user)
    {
      user := User(id, input.username, input.password);
      users := users.Set(id, user);
    }

    // ----- Bots -----

    method GetBot(id: Id) returns (r: Option<Bot>)
      ensures r.Some? <==> id in bots.rows
      ensures r.Some? ==> r.value == bots.rows[id]
    {
      r := bots.Get(id);
    }

    /** The bots owned by `userId`, in insertion order. */
    method GetBotsByUserId(userId: Id) returns (r: seq<Bot>)
      requires Valid()
      ensures r == Where(bots.Values(), BotOwner, userId)
      ensures forall i :: 0 <= i < |r| ==> r[i].userId == Some(userId)
      ensures forall k :: k in bots.rows && bots.rows[k].userId == Some(userId) ==> bots.rows[k] in r
    {
      r := Where(bots.Values(), BotOwner, userId);
      WhereExact(bots.Values(), BotOwner, userId);
      forall k | k in bots.rows && bots.rows[k].userId == Some(userId) ensures bots.rows[k] in r {
        var i :| 0 <= i < |bots.order| && bots.order[i] == k;
        assert bots.Values()[i] == bots.rows[k];
      }
    }

    /**
     * Status defaults to "draft" when absent or empty, an absent or empty description
     * or owner becomes null, and both timestamps are the creation time.
     */
    method CreateBot(input: InsertBot, id: Id, now: Timestamp) returns (bot: Bot)
      requires Valid() && id !in bots.rows
      modifies this`bots
      ensures Valid()
      ensures bot.id == id && bot.name == input.name
      ensures bot.status == if TruthyString(input.status) then input.status.value else "draft"
      ensures bot.description == OrNull(input.description)
      ensures bot.userId == OrNull(input.userId)
      ensures bot.createdAt == bot.updatedAt == Some(now)
      ensures bots == old(bots).Set(id, bot)
    {
      bot := Bot(id, input.name, OrNull(input.description),
                 if TruthyString(input.status) then input.status.value else "draft",
                 OrNull(input.userId), Some(now), Some(now));
      bots := bots.Set(id, bot);
    }

    /**
     * Merges the supplied fields into the stored bot and refreshes `updatedAt`; the
     * bot keeps its position in iteration order. An absent id changes nothing.
     */
    method UpdateBot(id: Id, patch: BotPatch, now: Timestamp) returns (r: Option<Bot>)
      requires Valid()
      modifies this`bots
      ensures Valid()
      ensures r.Some? <==> id in old(bots.rows)
      ensures r.None? ==> bots == old(bots)
      ensures r.Some? ==> r.value == ApplyBotPatch(old(bots.rows[id]), patch, now) &&
                          bots == old(bots).Set(id, r.value) && bots.order == old(bots.order)
    {
      var current := bots.Get(id);
      if current.None? {
        return None;
      }
      var updated := ApplyBotPatch(current.value, patch, now);
      bots := bots.Set(id, updated);
      r := Some(updated);
    }

    /** True exactly when the bot existed; afterwards it does not. */
    method DeleteBot(id: Id) returns (deleted: bool)
      requires Valid()
      modifies this`bots
      ensures Valid()
      ensures deleted == (id in old(bots.rows))
      ensures bots == old(bots).Delete(id) && id !in bots.rows
    {
      deleted := id in bots.rows;
      bots := bots.Delete(id);
    }

    // ----- Training data -----

    /** The training records of `botId`, in insertion order. */
    method GetTrainingDataByBotId(botId: Id) returns (r: seq<TrainingData>)
      requires Valid()
      ensures r == Where(trainingData.Values(), TrainingDataBot, botId)
      ensures forall i :: 0 <= i < |r| ==> r[i].botId == Some(botId)
    {
      r := Where(trainingData.Values(), TrainingDataBot, botId);
      WhereExact(trainingData.Values(), TrainingDataBot, botId);
    }

    /** Content starts out null, `processed` defaults to false and an absent bot id becomes null. */
    method CreateTrainingData(input: InsertTrainingData, id: Id, now: Timestamp) returns (data: TrainingData)
      requires Valid() && id !in trainingData.rows
      modifies this`trainingData
      ensures Valid()
      ensures data.id == id && data.fileName == input.fileName && data.fileUrl == input.fileUrl
      ensures data.fileSize == input.fileSize && data.fileType == input.fileType
      ensures data.botId == OrNull(input.botId)
      ensures data.content == None
      ensures data.processed == TruthyBool(input.processed)
      ensures data.uploadedAt == now
      ensures trainingData == old(trainingData).Set(id, data)
    {
      data := TrainingData(id, OrNull(input.botId), input.fileName, input.fileUrl, input.fileSize,
                           input.fileType, None, TruthyBool(input.processed), now);
      trainingData := trainingData.Set(id, data);
    }

    method DeleteTrainingData(id: Id) returns (deleted: bool)
      requires Valid()
      modifies this`trainingData
      ensures Valid()
      ensures deleted == (id in old(trainingData.rows))
      ensures trainingData == old(trainingData).Delete(id) && id !in trainingData.rows
    {
      deleted := id in trainingData.rows;
      trainingData := trainingData.Delete(id);
    }

    /** Sets the `processed` flag of one record and nothing else; no-op on an absent id. */
    method UpdateTrainingDataProcessed(id: Id, processed: bool)
      requires Valid()
      modifies this`trainingData
      ensures Valid()
      ensures id !in old(trainingData.rows) ==> trainingData == old(trainingData)
      ensures id in old(trainingData.rows) ==>
                trainingData == old(trainingData).Set(id, old(trainingData.rows[id]).(processed := processed))
    {
      var data := trainingData.Get(id);
      if data.Some? {
        trainingData := trainingData.Set(id, data.value.(processed := processed));
      }
    }

    /** Sets the `content` of one record and nothing else; no-op on an absent id. */
    method UpdateTrainingDataWithContent(id: Id, content: string)
      requires Valid()
      modifies this`trainingData
      ensures Valid()
      ensures id !in old(trainingData.rows) ==> trainingData == old(trainingData)
      ensures id in old(trainingData.rows) ==>
                trainingData == old(trainingData).Set(id, old(trainingData.rows[id]).(content := Some(content)))
    {
      var data := trainingData.Get(id);
      if data.Some? {
        trainingData := trainingData.Set(id, data.value.(content := Some(content)));
      }
    }

    method GetTrainingDataById(id: Id) returns (r: Option<TrainingData>)
      ensures r.Some? <==> id in trainingData.rows
      ensures r.Some? ==> r.value == trainingData.rows[id]
    {
      r := trainingData.Get(id);
    }

    // ----- Conversations -----

    method GetConversationsByBotId(botId: Id) returns (r: seq<Conversation>)
      requires Valid()
      ensures r == Where(conversations.Values(), ConversationBot, botId)
      ensures forall i :: 0 <= i < |r| ==> r[i].botId == Some(botId)
    {
      r := Where(conversations.Values(), ConversationBot, botId);
      WhereExact(conversations.Values(), ConversationBot, botId);
    }

    /** Messages default to the empty list, the conversation starts now and has not ended. */
    method CreateConversation(input: InsertConversation, id: Id, now: Timestamp) returns (c: Conversation)
      requires Valid() && id !in conversations.rows
      modifies this`conversations
      ensures Valid()
      ensures c.id == id && c.botId == OrNull(input.botId)
      ensures c.messages == input.messages.GetOr([])
      ensures c.startedAt == Some(now) && c.endedAt == None
      ensures conversations == old(conversations).Set(id, c)
    {
      c := Conversation(id, OrNull(input.botId), input.messages.GetOr([]), Some(now), None);
      conversations := conversations.Set(id, c);
    }

    method UpdateConversation(id: Id, patch: ConversationPatch) returns (r: Option<Conversation>)
      requires Valid()
      modifies this`conversations
      ensures Valid()
      ensures r.Some? <==> id in old(conversations.rows)
      ensures r.None? ==> conversations == old(conversations)
      ensures r.Some? ==> r.value == ApplyConversationPatch(old(conversations.rows[id]), patch) &&
                          conversations == old(conversations).Set(id, r.value)
    {
      var current := conversations.Get(id);
      if current.None? {
        return None;
      }
      var updated := ApplyConversationPatch(current.value, patch);
      conversations := conversations.Set(id, updated);
      r := Some(updated);
    }

    // ----- Integrations -----

    method GetIntegrationsByBotId(botId: Id) returns (r: seq<Integration>)
      requires Valid()
      ensures r == Where(integrations.Values(), IntegrationBot, botId)
      ensures forall i :: 0 <= i < |r| ==> r[i].botId == Some(botId)
    {
      r := Where(integrations.Values(), IntegrationBot, botId);
      WhereExact(integrations.Values(), IntegrationBot, botId);
    }

    /** `enabled` defaults to false, `config` to `{}`, and `connectedAt` is set exactly when enabled. */
    method CreateIntegration(input: InsertIntegration, id: Id, now: Timestamp) returns (g: Integration)
      requires Valid() && id !in integrations.rows
      modifies this`integrations
      ensures Valid()
      ensures g.id == id && g.botId == OrNull(input.botId) && g.platform == input.platform
      ensures g.enabled == Some(TruthyBool(input.enabled))
      ensures g.config == input.config.GetOr(map[])
      ensures g.connectedAt.Some? <==> g.enabled == Some(true)
      ensures g.connectedAt.Some? ==> g.connectedAt == Some(now)
      ensures integrations == old(integrations).Set(id, g)
    {
      g := Integration(id, OrNull(input.botId), input.platform, input.config.GetOr(map[]),
                       Some(TruthyBool(input.enabled)),
                       if TruthyBool(input.enabled) then Some(now) else None);
      integrations := integrations.Set(id, g);
    }

    method UpdateIntegration(id: Id, patch: IntegrationPatch, now: Timestamp) returns (r: Option<Integration>)
      requires Valid()
      modifies this`integrations
      ensures Valid()
      ensures r.Some? <==> id in old(integrations.rows)
      ensures r.None? ==> integrations == old(integrations)
      ensures r.Some? ==> r.value == ApplyIntegrationPatch(old(integrations.rows[id]), patch, now) &&
                          integrations == old(integrations).Set(id, r.value)
    {
      var current := integrations.Get(id);
      if current.None? {
        return None;
      }
      var updated := ApplyIntegrationPatch(current.value, patch, now);
      integrations := integrations.Set(id, updated);
      r := Some(updated);
    }

    method DeleteIntegration(id: Id) returns (deleted: bool)
      requires Valid()
      modifies this`integrations
      ensures Valid()
      ensures deleted == (id in old(integrations.rows))
      ensures integrations == old(integrations).Delete(id) && id !in integrations.rows
    {
      deleted := id in integrations.rows;
      integrations := integrations.Delete(id);
    }
  }
}
