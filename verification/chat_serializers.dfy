/**
 * `messaging_app/chats/serializers.py`: the checks on a new conversation's
 * participant ids and on a new message's `sender_id`, and the two `create`
 * methods that write the rows.
 *
 * The user table is the set of user keys; `messaging_app/chats/models.py` is
 * not part of this model, so only keys matter here.
 */
module ChatSerializers {
  import opened Wrappers
  import opened Sequences
  import opened ChatModels

  /** The ways validation of `participant_ids` fails, in the order they are checked. */
  datatype IdsError =
    | TooFewIds          // ListField(min_length=2)
    | TooManyIds         // ListField(max_length=50)
    | DuplicateIds
    | InvalidIds

  /** `User.objects.filter(user_id__in=ids)`: the users whose key is listed. */
  function Matched(ids: seq<UserId>, users: set<UserId>): set<UserId>
  {
    set u | u in users && u in ids
  }

  /** `User.objects.filter(user_id__in=ids).count()`. */
  function MatchedCount(ids: seq<UserId>, users: set<UserId>): nat
  {
    |Matched(ids, users)|
  }

  /** For a list without repeats, every key matches a user exactly when the count equals the length. */
  lemma CountIsLengthIffAllExist(ids: seq<UserId>, users: set<UserId>)
    requires Distinct(ids)
    ensures MatchedCount(ids, users) == |ids| <==> forall i :: 0 <= i < |ids| ==> ids[i] in users
  {
    DistinctIffNoShrink(ids);
    var matched := Matched(ids, users);
    assert matched <= Elements(ids);
    if forall i :: 0 <= i < |ids| ==> ids[i] in users {
      forall x | x in Elements(ids) ensures x in matched {
        var i :| 0 <= i < |ids| && ids[i] == x;
      }
      assert matched == Elements(ids);
    } else {
      var i :| 0 <= i < |ids| && ids[i] !in users;
      assert matched <= Elements(ids) - {ids[i]};
      assert |Elements(ids) - {ids[i]}| == |ids| - 1;
      SubsetNoLarger(matched, Elements(ids) - {ids[i]});
    }
  }

  lemma {:induction false} SubsetNoLarger(a: set<UserId>, b: set<UserId>)
    requires a <= b
    ensures |a| <= |b|
    decreases |b|
  {
    if a != {} {
      var x :| x in a;
      SubsetNoLarger(a - {x}, b - {x});
    }
  }

  /**
   * The `participant_ids` field's length bounds, then
   * `validate_participant_ids`: an accepted list has 2 to 50 keys, none
   * twice, each of an existing user, and is returned as it came.
   */
  function ValidateParticipantIds(ids: seq<UserId>, users: set<UserId>): (r: Result<seq<UserId>, IdsError>)
    ensures r.Success? <==>
              2 <= |ids| <= 50 && Distinct(ids) && forall i :: 0 <= i < |ids| ==> ids[i] in users
    ensures r.Success? ==> r.value == ids
    ensures 2 <= |ids| <= 50 && !Distinct(ids) ==> r == Failure(DuplicateIds)
  {
    DistinctIffNoShrink(ids);
    if |ids| < 2 then Failure(TooFewIds)
    else if |ids| > 50 then Failure(TooManyIds)
    else if |ids| != |Elements(ids)| then Failure(DuplicateIds)
    else
      CountIsLengthIffAllExist(ids, users);
      if MatchedCount(ids, users) != |ids| then Failure(InvalidIds)
      else Success(ids)
  }

  /** The ways `validate_sender_id` fails, in the order they are checked. */
  datatype SenderError =
    | AuthenticationRequired
    | ContextMissing
    | NoSuchConversation
    | NotInConversation

  /**
   * `MessageSerializer.validate_sender_id(value)` with the serializer's
   * context: its request and its `conversation_id`, if given. The first
   * failing check decides the error; a sender who passes is returned as it came.
   */
  function ValidateSenderId(value: UserId, request: Option<Request>, conversationId: Option<ConversationId>,
                            conversations: seq<ConversationId>, rows: seq<Participation>): (r: Result<UserId, SenderError>)
    ensures r == Failure(AuthenticationRequired) <==> request.None? || request.value.user.None?
    ensures r == Failure(ContextMissing) <==> request.Some? && request.value.user.Some? && conversationId.None?
    ensures r == Failure(NoSuchConversation) <==>
              request.Some? && request.value.user.Some? && conversationId.Some? && conversationId.value !in conversations
    ensures r.Success? <==>
              && request.Some? && request.value.user.Some? && conversationId.Some?
              && conversationId.value in conversations && Participates(rows, conversationId.value, value)
    ensures r.Success? ==> r.value == value
  {
    if request.None? || request.value.user.None? then Failure(AuthenticationRequired)
    else if conversationId.None? then Failure(ContextMissing)
    else if conversationId.value !in conversations then Failure(NoSuchConversation)
    else if !Participates(rows, conversationId.value, value) then Failure(NotInConversation)
    else Success(value)
  }

  /**
   * The check is about `sender_id`, not about who sends the request: any
   * two authenticated requesters get the same answer.
   */
  lemma SenderCheckIgnoresRequester(value: UserId, request1: Request, request2: Request, conversationId: Option<ConversationId>,
                                    conversations: seq<ConversationId>, rows: seq<Participation>)
    requires request1.user.Some? && request2.user.Some?
    ensures ValidateSenderId(value, Some(request1), conversationId, conversations, rows)
         == ValidateSenderId(value, Some(request2), conversationId, conversations, rows)
  {
  }

  /** The validated fields of a new message. */
  datatype MessageInput = MessageInput(senderId: UserId, conversation: ConversationId, body: string)

  /**
   * The row `MessageSerializer.create` writes for `requester`. `validated_data`
   * holds `sender` (the requester) and the validated `sender_id`; the model
   * constructor sets `sender` first and then the leftover `sender_id`
   * keyword, so the stored sender is the validated `sender_id`.
   */
  function MessageRow(input: MessageInput, requester: User): (m: ChatMessage)
    ensures m.sender == input.senderId
    ensures m.conversation == input.conversation && m.body == input.body
  {
    ChatMessage(input.senderId, input.conversation, input.body)
  }

  /** `MessageSerializer.create`: one new message row. */
  method CreateMessage(db: ChatDb, input: MessageInput, requester: User) returns (m: ChatMessage)
    modifies db
    ensures m == MessageRow(input, requester)
    ensures db.messages == old(db.messages) + [m]
    ensures db.conversations == old(db.conversations) && db.participations == old(db.participations)
  {
    m := ChatMessage(input.senderId, input.conversation, input.body);
    db.AddMessage(m);
  }

  /**
   * A message whose `sender_id` passed validation against the conversation it
   * is stored in is stored under a participant of that conversation.
   */
  lemma ValidatedSenderParticipates(input: MessageInput, requester: User, request: Option<Request>,
                                    conversations: seq<ConversationId>, rows: seq<Participation>)
    requires ValidateSenderId(input.senderId, request, Some(input.conversation), conversations, rows).Success?
    ensures Participates(rows, input.conversation, MessageRow(input, requester).sender)
    ensures input.conversation in conversations
  {
  }

  /**
   * The view that creates messages sets `sender_id` to the requester's own
   * key and `conversation` to the conversation of the URL: the message is
   * then stored as the requester's, and it is accepted exactly when the
   * requester takes part in that conversation.
   */
  lemma ViewStoresRequesterMessage(body: string, requester: User, verb: string, c: ConversationId,
                                   conversations: seq<ConversationId>, rows: seq<Participation>)
    requires c in conversations
    ensures var input := MessageInput(requester.id, c, body);
            && MessageRow(input, requester) == ChatMessage(requester.id, c, body)
            && (ValidateSenderId(requester.id, Some(Request(verb, Some(requester))), Some(c), conversations, rows).Success?
                <==> Participates(rows, c, requester.id))
  {
  }

  /** The first key, in list order, that is not a user's. */
  function FirstMissing(ids: seq<UserId>, users: set<UserId>): (r: Option<UserId>)
    ensures r.None? <==> forall i :: 0 <= i < |ids| ==> ids[i] in users
    ensures r.Some? ==>
              exists i :: 0 <= i < |ids| && ids[i] == r.value && ids[i] !in users
                          && forall j :: 0 <= j < i ==> ids[j] in users
  {
    if ids == [] then None
    else if ids[0] !in users then Some(ids[0])
    else
      var rest := FirstMissing(ids[1..], users);
      assert forall j :: 0 < j < |ids| ==> ids[j] == ids[1..][j - 1];
      rest
  }

  /** The errors `ConversationCreateSerializer.create` ends with. */
  datatype CreateError =
    | UserDoesNotExist(user: UserId)   // User.DoesNotExist from `User.objects.get`
    | IntegrityError                   // bulk_create broke the unique (conversation, user) pair

  /**
   * `ConversationCreateSerializer.create`; `id` is the UUID the new
   * conversation gets. The conversation row is created first and stays when a
   * key is unknown; otherwise one participant row per key, in list order, is
   * inserted, all together or not at all. The requester is not added.
   */
  method CreateConversation(db: ChatDb, ids: seq<UserId>, users: set<UserId>, id: ConversationId)
    returns (r: Result<ConversationId, CreateError>)
    requires db.Valid() && id !in db.conversations
    modifies db
    ensures db.Valid()
    ensures db.conversations == old(db.conversations) + [id] && db.messages == old(db.messages)
    ensures FirstMissing(ids, users).Some? ==>
              r == Failure(UserDoesNotExist(FirstMissing(ids, users).value)) && db.participations == old(db.participations)
    ensures FirstMissing(ids, users).None? ==>
              && (r.Success? <==> Insertable(old(db.participations), RowsFor(id, ids)))
              && (r.Success? ==> r.value == id && db.participations == old(db.participations) + RowsFor(id, ids))
              && (r.Failure? ==> r.error == IntegrityError && db.participations == old(db.participations))
  {
    db.CreateConversation(id);
    var toAdd := ParticipantRows(id, ids, users);
    if toAdd.Failure? {
      return Failure(toAdd.error);
    }
    var ok := db.BulkCreate(toAdd.value);
    r := if ok then Success(id) else Failure(IntegrityError);
  }

  /** The loop of `create`: one row per key, in order, until a key no user has. */
  method ParticipantRows(id: ConversationId, ids: seq<UserId>, users: set<UserId>)
    returns (r: Result<seq<Participation>, CreateError>)
    ensures FirstMissing(ids, users).Some? ==> r == Failure(UserDoesNotExist(FirstMissing(ids, users).value))
    ensures FirstMissing(ids, users).None? ==> r == Success(RowsFor(id, ids))
  {
    var toAdd := [];
    for i := 0 to |ids|
      invariant forall j :: 0 <= j < i ==> ids[j] in users
      invariant |toAdd| == i && forall k :: 0 <= k < i ==> toAdd[k] == Participation(id, ids[k])
    {
      if ids[i] !in users {
        FirstMissingAt(ids, users, i);
        return Failure(UserDoesNotExist(ids[i]));
      }
      toAdd := toAdd + [Participation(id, ids[i])];
    }
    assert toAdd == RowsFor(id, ids);
    r := Success(toAdd);
  }

  /** The first key no user has is the one at `i` when all keys before it are users'. */
  lemma FirstMissingAt(ids: seq<UserId>, users: set<UserId>, i: nat)
    requires i < |ids| && ids[i] !in users && forall j :: 0 <= j < i ==> ids[j] in users
    ensures FirstMissing(ids, users) == Some(ids[i])
  {
  }

  /** A validated key list always gets its conversation and all its participant rows. */
  lemma ValidatedIdsInsertable(ids: seq<UserId>, users: set<UserId>, table: seq<Participation>, id: ConversationId)
    requires ValidateParticipantIds(ids, users).Success?
    requires forall k :: 0 <= k < |table| ==> table[k].conversation != id
    ensures FirstMissing(ids, users).None?
    ensures Insertable(table, RowsFor(id, ids))
  {
    FreshRowsInsertable(table, id, ids);
  }
}
