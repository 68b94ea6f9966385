/**
 * `Django-Middleware-0x03/chats/permissions.py`:
 * `IsParticipantOfConversation.has_object_permission` lets an authenticated
 * user at a message only when they take part in its conversation.
 */
module MiddlewarePermissions {
  import opened Wrappers
  import opened ChatModels

  /** The methods the source names before falling back to the same answer. */
  const ListedMethods := ["PUT", "PATCH", "DELETE", "GET"]

  /**
   * `has_object_permission(request, view, obj)`: only objects with a
   * `conversation` attribute (messages) can be granted, and only to an
   * authenticated participant of that conversation.
   */
  function HasObjectPermission(request: Request, obj: ChatObject, rows: seq<Participation>): (r: bool)
    ensures request.user.None? ==> !r
    ensures !obj.MessageObject? ==> !r
    ensures request.user.Some? && obj.MessageObject? ==>
              (r <==> Participates(rows, obj.message.conversation, request.user.value.id))
  {
    if request.user.None? then false
    else if !obj.MessageObject? then false
    else
      var isParticipant := Participates(rows, obj.message.conversation, request.user.value.id);
      if request.verb in ListedMethods then isParticipant else isParticipant
  }

  /** The answer is the same for every HTTP method. */
  lemma MethodIrrelevant(verb1: string, verb2: string, user: Option<User>, obj: ChatObject, rows: seq<Participation>)
    ensures HasObjectPermission(Request(verb1, user), obj, rows) == HasObjectPermission(Request(verb2, user), obj, rows)
  {
  }
}
