/**
 * The records the store keeps (shared/schema.ts) and the inputs its create and
 * update operations take. A nullable column is an `Option`; a field a caller may
 * leave out of an insert or a partial update is an `Option` as well, so a nullable
 * field in a patch is an `Option<Option<…>>` (absent / set to null / set to a value).
 * Timestamps are milliseconds read from a clock supplied by the caller.
 */
module Schema {
  import opened Wrappers
  import opened Tables

  type Timestamp = nat

  datatype User = User(id: Id, username: string, password: string)

  datatype Bot = Bot(
    id: Id,
    name: string,
    description: Option<string>,
    status: string,
    userId: Option<Id>,
    createdAt: Option<Timestamp>,
    updatedAt: Option<Timestamp>)

  datatype TrainingData = TrainingData(
    id: Id,
    botId: Option<Id>,
    fileName: string,
    fileUrl: string,
    fileSize: int,
    fileType: string,
    content: Option<string>,
    processed: bool,
    uploadedAt: Timestamp)

  datatype Role = SystemRole | UserRole | AssistantRole

  datatype ChatMessage = ChatMessage(role: Role, content: string)

  datatype Conversation = Conversation(
    id: Id,
    botId: Option<Id>,
    messages: seq<ChatMessage>,
    startedAt: Option<Timestamp>,
    endedAt: Option<Timestamp>)

  /** The free-form JSON `config` object of an integration, kept opaque. */
  type Config = map<string, string>

  datatype Integration = Integration(
    id: Id,
    botId: Option<Id>,
    platform: string,
    config: Config,
    enabled: Option<bool>,
    connectedAt: Option<Timestamp>)

  // Insert inputs: the record without the columns the store fills in.

  datatype InsertUser = InsertUser(username: string, password: string)

  datatype InsertBot = InsertBot(
    name: string,
    description: Option<string>,
    status: Option<string>,
    userId: Option<Id>)

  datatype InsertTrainingData = InsertTrainingData(
    botId: Option<Id>,
    fileName: string,
    fileUrl: string,
    fileSize: int,
    fileType: string,
    processed: Option<bool>)

  datatype InsertConversation = InsertConversation(
    botId: Option<Id>,
    messages: Option<seq<ChatMessage>>)

  datatype InsertIntegration = InsertIntegration(
    botId: Option<Id>,
    platform: string,
    config: Option<Config>,
    enabled: Option<bool>)

  // Partial updates (`Partial<T>`): a field is overwritten exactly when it is supplied.
  // `updatedAt` of a bot and `connectedAt` of an integration are always recomputed by
  // the store, so a supplied value for them has no effect and the patches omit them.

  datatype BotPatch = BotPatch(
    id: Option<Id>,
    name: Option<string>,
    description: Option<Option<string>>,
    status: Option<string>,
    userId: Option<Option<Id>>,
    createdAt: Option<Option<Timestamp>>)

  datatype ConversationPatch = ConversationPatch(
    id: Option<Id>,
    botId: Option<Option<Id>>,
    messages: Option<seq<ChatMessage>>,
    startedAt: Option<Option<Timestamp>>,
    endedAt: Option<Option<Timestamp>>)

  datatype IntegrationPatch = IntegrationPatch(
    id: Option<Id>,
    botId: Option<Option<Id>>,
    platform: Option<string>,
    config: Option<Config>,
    enabled: Option<Option<bool>>)

  // Foreign keys the store filters by.
  function BotOwner(b: Bot): Option<Id> { b.userId }
  function TrainingDataBot(d: TrainingData): Option<Id> { d.botId }
  function ConversationBot(c: Conversation): Option<Id> { c.botId }
  function IntegrationBot(g: Integration): Option<Id> { g.botId }

  /** JavaScript truthiness of an optional string: absent, null and `""` are falsy. */
  predicate TruthyString(s: Option<string>) {
    s.Some? && s.value != ""
  }

  /** `s || null` for an optional string: `""` becomes null. */
  function OrNull(s: Option<string>): (r: Option<string>)
    ensures r.Some? <==> TruthyString(s)
    ensures r.Some? ==> r == s
  {
    if TruthyString(s) then s else None
  }

  /** JavaScript truthiness of an optional boolean: only `true` is truthy. */
  predicate TruthyBool(b: Option<bool>) {
    b == Some(true)
  }

  /** Object spread for one field: the supplied value wins, otherwise the old one stays. */
  function Pick<T>(supplied: Option<T>, current: T): T {
    supplied.GetOr(current)
  }

  /** `{...bot, ...patch, updatedAt: now}`. */
  function ApplyBotPatch(b: Bot, p: BotPatch, now: Timestamp): (r: Bot) {
    Bot(
      Pick(p.id, b.id),
      Pick(p.name, b.name),
      Pick(p.description, b.description),
      Pick(p.status, b.status),
      Pick(p.userId, b.userId),
      Pick(p.createdAt, b.createdAt),
      Some(now))
  }

  /** `{...conversation, ...patch}`. */
  function ApplyConversationPatch(c: Conversation, p: ConversationPatch): (r: Conversation) {
    Conversation(
      Pick(p.id, c.id),
      Pick(p.botId, c.botId),
      Pick(p.messages, c.messages),
      Pick(p.startedAt, c.startedAt),
      Pick(p.endedAt, c.endedAt))
  }

  /** `{...integration, ...patch, connectedAt: patch.enabled ? now : integration.connectedAt}`. */
  function ApplyIntegrationPatch(g: Integration, p: IntegrationPatch, now: Timestamp): (r: Integration) {
    Integration(
      Pick(p.id, g.id),
      Pick(p.botId, g.botId),
      Pick(p.platform, g.platform),
      Pick(p.config, g.config),
      Pick(p.enabled, g.enabled),
      if p.enabled.Some? && TruthyBool(p.enabled.value) then Some(now) else g.connectedAt)
  }

  /** The patch that applies `p` and then `q`: later fields win. */
  function ThenBot(p: BotPatch, q: BotPatch): BotPatch {
    BotPatch(
      if q.id.Some? then q.id else p.id,
      if q.name.Some? then q.name else p.name,
      if q.description.Some? then q.description else p.description,
      if q.status.Some? then q.status else p.status,
      if q.userId.Some? then q.userId else p.userId,
      if q.createdAt.Some? then q.createdAt else p.createdAt)
  }

  /** The patch that supplies nothing. */
  const NoBotChange := BotPatch(None, None, None, None, None, None)

  /**
   * A bot update overwrites exactly the supplied fields, keeps every other field and
   * refreshes `updatedAt`; an empty update only refreshes `updatedAt`.
   */
  lemma BotPatchFields(b: Bot, p: BotPatch, now: Timestamp)
    ensures var r := ApplyBotPatch(b, p, now);
      && (p.id.Some? ==> r.id == p.id.value) && (p.id.None? ==> r.id == b.id)
      && (p.name.Some? ==> r.name == p.name.value) && (p.name.None? ==> r.name == b.name)
      && (p.description.Some? ==> r.description == p.description.value)
      && (p.description.None? ==> r.description == b.description)
      && (p.status.Some? ==> r.status == p.status.value) && (p.status.None? ==> r.status == b.status)
      && (p.userId.Some? ==> r.userId == p.userId.value) && (p.userId.None? ==> r.userId == b.userId)
      && (p.createdAt.Some? ==> r.createdAt == p.createdAt.value)
      && (p.createdAt.None? ==> r.createdAt == b.createdAt)
      && r.updatedAt == Some(now)
    ensures ApplyBotPatch(b, NoBotChange, now) == b.(updatedAt := Some(now))
  {
  }

  /** Two successive bot updates equal one update with the merged patch: the later value of each field wins. */
  lemma BotPatchCompose(b: Bot, p: BotPatch, q: BotPatch, t1: Timestamp, t2: Timestamp)
    ensures ApplyBotPatch(ApplyBotPatch(b, p, t1), q, t2) == ApplyBotPatch(b, ThenBot(p, q), t2)
  {
  }

  /** A conversation update overwrites exactly the supplied fields and keeps every other field. */
  lemma ConversationPatchFields(c: Conversation, p: ConversationPatch)
    ensures var r := ApplyConversationPatch(c, p);
      && (p.id.Some? ==> r.id == p.id.value) && (p.id.None? ==> r.id == c.id)
      && (p.botId.Some? ==> r.botId == p.botId.value) && (p.botId.None? ==> r.botId == c.botId)
      && (p.messages.Some? ==> r.messages == p.messages.value) && (p.messages.None? ==> r.messages == c.messages)
      && (p.startedAt.Some? ==> r.startedAt == p.startedAt.value)
      && (p.startedAt.None? ==> r.startedAt == c.startedAt)
      && (p.endedAt.Some? ==> r.endedAt == p.endedAt.value) && (p.endedAt.None? ==> r.endedAt == c.endedAt)
    ensures ApplyConversationPatch(c, ConversationPatch(None, None, None, None, None)) == c
  {
  }

  /**
   * An integration update refreshes `connectedAt` only when the update sets `enabled`
   * to true; an update that leaves `enabled` out, or sets it to false or null, keeps
   * the old `connectedAt`.
   */
  lemma IntegrationPatchConnectedAt(g: Integration, p: IntegrationPatch, now: Timestamp)
    ensures var r := ApplyIntegrationPatch(g, p, now);
      && (p.enabled == Some(Some(true)) ==> r.connectedAt == Some(now) && r.enabled == Some(true))
      && (p.enabled != Some(Some(true)) ==> r.connectedAt == g.connectedAt)
      && (p.enabled.Some? ==> r.enabled == p.enabled.value)
      && (p.enabled.None? ==> r.enabled == g.enabled)
  {
  }
}
