/**
 * The chat schema shared by `Django-Middleware-0x03/chats` and
 * `messaging_app/chats`: users, conversations, the `ConversationParticipant`
 * rows that link them (unique per conversation and user) and messages.
 * Primary keys are UUIDs, compared only for equality, so they are naturals
 * here; a request is its HTTP method and its user, if it is authenticated.
 */
module ChatModels {
  import opened Wrappers
  import opened Sequences

  type UserId = nat
  type ConversationId = nat

  /** A user row: its primary key and its (unique) email. */
  datatype User = User(id: UserId, email: string)

  /** `request.method` and `request.user`; `user` is None for an anonymous or missing user. */
  datatype Request = Request(verb: string, user: Option<User>)

  /** A `ConversationParticipant` row. */
  datatype Participation = Participation(conversation: ConversationId, user: UserId)

  /** A `Message` row. */
  datatype ChatMessage = ChatMessage(sender: UserId, conversation: ConversationId, body: string)

  /** The object a permission check is asked about. */
  datatype ChatObject =
    | ConversationObject(id: ConversationId)
    | MessageObject(message: ChatMessage)
    | OtherObject

  /** `conversation.participants.filter(pk=user).exists()`. */
  predicate Participates(rows: seq<Participation>, conversation: ConversationId, user: UserId)
  {
    Participation(conversation, user) in rows
  }

  /** One participant row per user, in the order of `users`. */
  function RowsFor(conversation: ConversationId, users: seq<UserId>): (rows: seq<Participation>)
    ensures |rows| == |users|
    ensures forall k :: 0 <= k < |rows| ==> rows[k] == Participation(conversation, users[k])
  {
    seq(|users|, k requires 0 <= k < |users| => Participation(conversation, users[k]))
  }

  /**
   * `bulk_create(rows)` is one INSERT: it fails as a whole when a row repeats
   * another one, in the table or in `rows`, under the unique
   * (conversation, user) constraint.
   */
  predicate Insertable(table: seq<Participation>, rows: seq<Participation>)
  {
    && (forall k :: 0 <= k < |rows| ==> rows[k] !in table)
    && (forall i, j :: 0 <= i < j < |rows| ==> rows[i] != rows[j])
  }

  /** The chat tables. */
  class ChatDb {
    var conversations: seq<ConversationId>
    var participations: seq<Participation>
    var messages: seq<ChatMessage>

    /** Every participant row refers to a stored conversation. */
    predicate Valid()
      reads this
    {
      forall k :: 0 <= k < |participations| ==> participations[k].conversation in conversations
    }

    constructor ()
      ensures Valid()
      ensures conversations == [] && participations == [] && messages == []
    {
      conversations := [];
      participations := [];
      messages := [];
    }

    /** `Conversation.objects.create()`; `id` is the UUID its default drew. */
    method CreateConversation(id: ConversationId)
      requires Valid()
      modifies this
      ensures Valid()
      ensures conversations == old(conversations) + [id]
      ensures participations == old(participations) && messages == old(messages)
    {
      conversations := conversations + [id];
    }

    /** `ConversationParticipant.objects.bulk_create(rows)`: all rows or none. */
    method BulkCreate(rows: seq<Participation>) returns (ok: bool)
      requires Valid()
      requires forall k :: 0 <= k < |rows| ==> rows[k].conversation in conversations
      modifies this
      ensures Valid()
      ensures ok <==> Insertable(old(participations), rows)
      ensures participations == if ok then old(participations) + rows else old(participations)
      ensures conversations == old(conversations) && messages == old(messages)
    {
      ok := Insertable(participations, rows);
      if ok {
        participations := participations + rows;
      }
    }

    /** `Message.objects.create(...)`. */
    method AddMessage(m: ChatMessage)
      modifies this
      ensures messages == old(messages) + [m]
      ensures conversations == old(conversations) && participations == old(participations)
    {
      messages := messages + [m];
    }
  }

  /**
   * The rows for a conversation nobody is linked to yet can be inserted
   * exactly when no user is listed twice.
   */
  lemma FreshRowsInsertable(table: seq<Participation>, c: ConversationId, users: seq<UserId>)
    requires forall k :: 0 <= k < |table| ==> table[k].conversation != c
    ensures Insertable(table, RowsFor(c, users)) <==> Distinct(users)
  {
    var rows := RowsFor(c, users);
    forall k | 0 <= k < |rows| ensures rows[k] !in table {
    }
  }
}
