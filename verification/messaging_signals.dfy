/**
 * `Django-signals_orm-0x04/messaging/signals.py`: three signal handlers on the
 * messaging tables. After a message is saved for the first time its receiver
 * is notified (unless they sent it to themselves); before a stored message is
 * saved with new content the old content is logged; after a user is deleted
 * their messages, notifications and edit records are deleted.
 *
 * The tables are the fields of one `MessageStore` object; ORM `create`,
 * `get` and `filter(...).delete()` become updates of those fields.
 */
module MessagingSignals {
  import opened Wrappers
  import opened Sequences
  import opened MessagingModels

  /** A `Notification` row: `is_seen` defaults to False. */
  datatype Notification = Notification(user: UserName, message: MsgId, isSeen: bool)

  /** A `MessageHistory` row; `edited_by` is nullable (SET_NULL). */
  datatype History = History(message: MsgId, oldContent: string, editedBy: Option<UserName>)

  /** The notification `create_notification` adds for the message `id` just saved, if any. */
  function NotificationFor(id: MsgId, m: Message, created: bool): (n: Option<Notification>)
    ensures n.Some? <==> created && m.sender != m.receiver
    ensures n.Some? ==> n.value.user == m.receiver && n.value.message == id && !n.value.isSeen
  {
    if created && m.sender != m.receiver then Some(Notification(m.receiver, id, false)) else None
  }

  /**
   * The history row `log_message_edit` adds when `instance` is about to be
   * saved under primary key `pk`, if any: only for a truthy pk (so not for an
   * unsaved message, nor for key 0) that is stored with different content.
   */
  function EditRecord(stored: map<MsgId, Message>, pk: Option<MsgId>, instance: Message): (h: Option<History>)
    ensures h.Some? <==> pk.Some? && pk.value != 0 && pk.value in stored && stored[pk.value].content != instance.content
    ensures h.Some? ==> h.value == History(pk.value, stored[pk.value].content, Some(instance.sender))
  {
    if pk.Some? && pk.value != 0 && pk.value in stored && stored[pk.value].content != instance.content
    then Some(History(pk.value, stored[pk.value].content, Some(instance.sender)))
    else None
  }

  /** The messages left once those sent or received by `user` are deleted. */
  function WithoutUserMessages(messages: map<MsgId, Message>, user: UserName): (r: map<MsgId, Message>)
    ensures forall id :: id in r <==> id in messages && messages[id].sender != user && messages[id].receiver != user
    ensures forall id :: id in r ==> r[id] == messages[id]
  {
    map id | id in messages && messages[id].sender != user && messages[id].receiver != user :: messages[id]
  }

  function AsList<T>(o: Option<T>): seq<T>
  {
    match o
    case Some(x) => [x]
    case None => []
  }

  /** The messaging tables. */
  class MessageStore {
    var messages: map<MsgId, Message>
    var notifications: seq<Notification>
    var histories: seq<History>

    constructor (messages: map<MsgId, Message>)
      ensures this.messages == messages && notifications == [] && histories == []
    {
      this.messages := messages;
      notifications := [];
      histories := [];
    }

    /** `create_notification` on `post_save` of message `id`. */
    method CreateNotification(id: MsgId, instance: Message, created: bool)
      modifies this
      ensures notifications == old(notifications) + AsList(NotificationFor(id, instance, created))
      ensures messages == old(messages) && histories == old(histories)
    {
      if created && instance.sender != instance.receiver {
        notifications := notifications + [Notification(instance.receiver, id, false)];
      }
    }

    /**
     * `log_message_edit` on `pre_save`: `instance` is the object about to be
     * saved, `pk` its primary key (None before its first save); the result is
     * the object as the handler leaves it.
     */
    method LogMessageEdit(pk: Option<MsgId>, instance: Message) returns (saved: Message)
      modifies this
      ensures histories == old(histories) + AsList(EditRecord(old(messages), pk, instance))
      ensures saved == if EditRecord(old(messages), pk, instance).Some? then instance.(edited := true) else instance
      ensures messages == old(messages) && notifications == old(notifications)
    {
      saved := instance;
      if pk.Some? && pk.value != 0 {
        if pk.value in messages {
          var previous := messages[pk.value];
          if previous.content != instance.content {
            histories := histories + [History(pk.value, previous.content, Some(instance.sender))];
            saved := instance.(edited := true);
          }
        }
      }
    }

    /** `delete_user_related_data` on `post_delete` of `user`: four filtered deletes, in order. */
    method DeleteUserRelatedData(user: UserName)
      modifies this
      ensures messages == WithoutUserMessages(old(messages), user)
      ensures notifications == Filter(old(notifications), (n: Notification) => n.user != user)
      ensures histories == Filter(old(histories), (h: History) => h.editedBy != Some(user))
    {
      messages := map id | id in messages && messages[id].sender != user :: messages[id];
      messages := map id | id in messages && messages[id].receiver != user :: messages[id];
      notifications := Filter(notifications, (n: Notification) => n.user != user);
      histories := Filter(histories, (h: History) => h.editedBy != Some(user));
    }
  }

  /**
   * After the handler no message is sent or received by the deleted user, no
   * notification is theirs and no edit record names them; every other row is
   * kept.
   */
  lemma DeletedUserLeavesNoTrace(messages: map<MsgId, Message>, notifications: seq<Notification>,
                                 histories: seq<History>, user: UserName)
    ensures forall id :: id in WithoutUserMessages(messages, user) ==>
              WithoutUserMessages(messages, user)[id].sender != user && WithoutUserMessages(messages, user)[id].receiver != user
    ensures forall n :: n in Filter(notifications, (n: Notification) => n.user != user) <==> n in notifications && n.user != user
    ensures forall h :: h in Filter(histories, (h: History) => h.editedBy != Some(user)) <==>
              h in histories && h.editedBy != Some(user)
  {
  }

  /** Saving a message twice with the same content records nothing the second time. */
  lemma UnchangedContentNotLogged(stored: map<MsgId, Message>, pk: MsgId, instance: Message)
    requires pk in stored && stored[pk].content == instance.content
    ensures EditRecord(stored, Some(pk), instance) == None
  {
  }

  /**
   * The two cases of `messaging/tests.py`: alice writing to bob notifies bob
   * once, with an unseen notification for that message; a note to self
   * notifies nobody.
   */
  lemma NotificationExamples(id: MsgId)
    ensures NotificationFor(id, Message("alice", "bob", "Hello Bob!", None, false, false, 0), true)
            == Some(Notification("bob", id, false))
    ensures NotificationFor(id, Message("alice", "alice", "Note to self", None, false, false, 0), true) == None
  {
  }
}
