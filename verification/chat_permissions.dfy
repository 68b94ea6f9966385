/**
 * `messaging_app/chats/permissions.py`: `IsParticipant` lets a user at a
 * conversation, or at a message, only when they take part in that
 * conversation; `IsMessageSender` lets anyone read and only the sender
 * change or delete a message.
 *
 * As written, `IsParticipant` names `Conversation` without importing it, so
 * every call raises NameError; `IsParticipantAsWritten` is that behaviour
 * and `IsParticipant` the one the class describes.
 */
module ChatPermissions {
  import opened Wrappers
  import opened ChatModels
  import MiddlewarePermissions

  /** DRF's `permissions.SAFE_METHODS`. */
  const SafeMethods := ["GET", "HEAD", "OPTIONS"]

  /** An answer of a permission check, or the NameError the check raises instead. */
  datatype Decision = Decided(allowed: bool) | NameError(name: string)

  /** `IsParticipant.has_object_permission` as written: line 13 looks up the unimported `Conversation`. */
  function IsParticipantAsWritten(request: Request, obj: ChatObject, rows: seq<Participation>): (d: Decision)
    ensures d == NameError("Conversation")
  {
    NameError("Conversation")
  }

  /**
   * `IsParticipant.has_object_permission` with `Conversation` imported: a
   * conversation is granted to its participants, a message to the
   * participants of its conversation, anything else to nobody. An anonymous
   * user has no key, so matches no participant row.
   */
  function IsParticipant(request: Request, obj: ChatObject, rows: seq<Participation>): (r: bool)
    ensures obj.ConversationObject? ==> (r <==> request.user.Some? && Participates(rows, obj.id, request.user.value.id))
    ensures obj.MessageObject? ==>
              (r <==> request.user.Some? && Participates(rows, obj.message.conversation, request.user.value.id))
    ensures obj.OtherObject? ==> !r
  {
    match obj
    case ConversationObject(c) => request.user.Some? && Participates(rows, c, request.user.value.id)
    case MessageObject(m) => request.user.Some? && Participates(rows, m.conversation, request.user.value.id)
    case OtherObject => false
  }

  /**
   * The discrepancy: user 7 takes part in conversation 1, yet asking about
   * that conversation raises instead of granting.
   */
  lemma IsParticipantRaisesForParticipant()
    ensures var request := Request("GET", Some(User(7, "u7@example.com")));
            var rows := [Participation(1, 7)];
            && IsParticipantAsWritten(request, ConversationObject(1), rows).NameError?
            && IsParticipant(request, ConversationObject(1), rows)
  {
  }

  /**
   * On messages the corrected check and the middleware app's
   * `IsParticipantOfConversation` agree for every request.
   */
  lemma ParticipantChecksAgreeOnMessages(request: Request, m: ChatMessage, rows: seq<Participation>)
    ensures IsParticipant(request, MessageObject(m), rows)
         == MiddlewarePermissions.HasObjectPermission(request, MessageObject(m), rows)
  {
  }

  /**
   * `IsMessageSender.has_object_permission`: safe methods always pass;
   * otherwise only the sender of a message passes, and an object without a
   * sender passes for nobody.
   */
  function IsMessageSender(request: Request, obj: ChatObject): (r: bool)
    ensures request.verb in SafeMethods ==> r
    ensures request.verb !in SafeMethods ==>
              (r <==> obj.MessageObject? && request.user.Some? && obj.message.sender == request.user.value.id)
  {
    if request.verb in SafeMethods then true
    else if obj.MessageObject? then request.user.Some? && obj.message.sender == request.user.value.id
    else false
  }

  /**
   * Two users who may both change a message are the same user: writes are
   * granted to at most one user per message.
   */
  lemma OneWriterPerMessage(verb: string, u1: User, u2: User, m: ChatMessage)
    requires verb !in SafeMethods
    requires IsMessageSender(Request(verb, Some(u1)), MessageObject(m))
    requires IsMessageSender(Request(verb, Some(u2)), MessageObject(m))
    ensures u1.id == u2.id
  {
  }
}
