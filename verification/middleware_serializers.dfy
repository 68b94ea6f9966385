/**
 * `Django-Middleware-0x03/chats/serializers.py`: `ConversationCreateSerializer`
 * validates the list of emails a user invites to a new conversation, then
 * creates the conversation and links the creator and every invited user to it.
 *
 * The user table is a map from email (unique in the schema) to primary key.
 */
module MiddlewareSerializers {
  import opened Wrappers
  import opened Sequences
  import opened ChatModels

  /** The ways validation of `participant_emails` fails, in the order they are checked. */
  datatype EmailsError =
    | TooFewEmails              // ListField(min_length=1)
    | TooManyEmails             // ListField(max_length=50)
    | DuplicateEmails
    | AuthenticationRequired
    | SelfInvited

  /** There is a request and its user is authenticated. */
  predicate Authenticated(request: Option<Request>)
  {
    request.Some? && request.value.user.Some?
  }

  /**
   * The `participant_emails` field's length bounds, then
   * `validate_participant_emails`: duplicates are reported before the
   * request is looked at, and an accepted list is returned as it came.
   */
  function ValidateParticipantEmails(emails: seq<string>, request: Option<Request>): (r: Result<seq<string>, EmailsError>)
    ensures r.Success? <==>
              && 1 <= |emails| <= 50 && Distinct(emails) && Authenticated(request)
              && request.value.user.value.email !in emails
    ensures r.Success? ==> r.value == emails
    ensures 1 <= |emails| <= 50 && !Distinct(emails) ==> r == Failure(DuplicateEmails)
    ensures 1 <= |emails| <= 50 && Distinct(emails) && !Authenticated(request) ==> r == Failure(AuthenticationRequired)
  {
    DistinctIffNoShrink(emails);
    if |emails| < 1 then Failure(TooFewEmails)
    else if |emails| > 50 then Failure(TooManyEmails)
    else if |Elements(emails)| != |emails| then Failure(DuplicateEmails)
    else if request.None? || request.value.user.None? then Failure(AuthenticationRequired)
    else if request.value.user.value.email in emails then Failure(SelfInvited)
    else Success(emails)
  }

  /** A list with a repeated email is refused the same way whoever asks, even with no request at all. */
  lemma DuplicatesCheckedFirst(emails: seq<string>, request1: Option<Request>, request2: Option<Request>)
    requires 1 <= |emails| <= 50 && !Distinct(emails)
    ensures ValidateParticipantEmails(emails, request1) == ValidateParticipantEmails(emails, request2)
  {
  }

  /**
   * The loop of `create` over `emails`: each email is looked up in order, the
   * first unknown one ends it (the error carries that email), and a user
   * whose key is the creator's is not added again.
   */
  function Invited(creator: UserId, emails: seq<string>, accounts: map<string, UserId>): (r: Result<seq<UserId>, string>)
    ensures r.Success? <==> forall i :: 0 <= i < |emails| ==> emails[i] in accounts
    ensures r.Failure? ==>
              exists i :: 0 <= i < |emails| && emails[i] == r.error && emails[i] !in accounts
                          && forall j :: 0 <= j < i ==> emails[j] in accounts
  {
    if emails == [] then Success([])
    else
      var init := emails[..|emails| - 1];
      var last := emails[|emails| - 1];
      assert forall j :: 0 <= j < |init| ==> init[j] == emails[j];
      match Invited(creator, init, accounts)
      case Failure(e) => Failure(e)
      case Success(s) =>
        if last !in accounts then Failure(last)
        else Success(s + (if accounts[last] != creator then [accounts[last]] else []))
  }

  /** The key of each email's account, in order. */
  function AccountsOf(emails: seq<string>, accounts: map<string, UserId>): (r: seq<UserId>)
    requires forall i :: 0 <= i < |emails| ==> emails[i] in accounts
    ensures |r| == |emails| && forall i :: 0 <= i < |r| ==> r[i] == accounts[emails[i]]
  {
    seq(|emails|, i requires 0 <= i < |emails| => accounts[emails[i]])
  }

  /** When every email is known the invited users are their accounts, in order, without the creator. */
  lemma {:induction false} InvitedInOrder(creator: UserId, emails: seq<string>, accounts: map<string, UserId>)
    requires forall i :: 0 <= i < |emails| ==> emails[i] in accounts
    ensures Invited(creator, emails, accounts) == Success(Filter(AccountsOf(emails, accounts), (u: UserId) => u != creator))
  {
    if emails != [] {
      var init := emails[..|emails| - 1];
      InvitedInOrder(creator, init, accounts);
      assert AccountsOf(emails, accounts) == AccountsOf(init, accounts) + [accounts[emails[|emails| - 1]]];
      FilterSnoc(AccountsOf(init, accounts), accounts[emails[|emails| - 1]], (u: UserId) => u != creator);
    }
  }

  /** Once a prefix of the emails holds an unknown one, the whole loop ends with that error. */
  lemma {:induction false} InvitedFailureSticks(creator: UserId, emails: seq<string>, accounts: map<string, UserId>, k: nat)
    requires k <= |emails| && Invited(creator, emails[..k], accounts).Failure?
    ensures Invited(creator, emails, accounts) == Invited(creator, emails[..k], accounts)
    decreases |emails| - k
  {
    if k < |emails| {
      var init := emails[..|emails| - 1];
      assert init[..k] == emails[..k];
      InvitedFailureSticks(creator, init, accounts, k);
    } else {
      assert emails[..k] == emails;
    }
  }

  /** The errors `create` ends with. */
  datatype CreateError =
    | NoUserWithEmail(email: string)   // the ValidationError raised in the loop
    | IntegrityError                   // bulk_create broke the unique (conversation, user) pair

  /**
   * `ConversationCreateSerializer.create` for the authenticated `creator`;
   * `id` is the UUID the new conversation gets. The conversation row is
   * created first and stays even when an unknown email stops the loop; the
   * participant rows are the creator's, then the invited users', in order,
   * inserted together or not at all.
   */
  method CreateConversation(db: ChatDb, creator: User, emails: seq<string>, accounts: map<string, UserId>, id: ConversationId)
    returns (r: Result<ConversationId, CreateError>)
    requires db.Valid() && id !in db.conversations
    modifies db
    ensures db.Valid()
    ensures db.conversations == old(db.conversations) + [id] && db.messages == old(db.messages)
    ensures Invited(creator.id, emails, accounts).Failure? ==>
              && r == Failure(NoUserWithEmail(Invited(creator.id, emails, accounts).error))
              && db.participations == old(db.participations)
    ensures Invited(creator.id, emails, accounts).Success? ==>
              var rows := RowsFor(id, [creator.id] + Invited(creator.id, emails, accounts).value);
              && (r.Success? <==> Insertable(old(db.participations), rows))
              && (r.Success? ==> r.value == id && db.participations == old(db.participations) + rows)
              && (r.Failure? ==> r.error == IntegrityError && db.participations == old(db.participations))
  {
    db.CreateConversation(id);
    var usersToAdd := [creator.id];
    ghost var invited := [];
    for i := 0 to |emails|
      invariant db.Valid() && id in db.conversations
      invariant db.conversations == old(db.conversations) + [id] && db.messages == old(db.messages)
      invariant db.participations == old(db.participations)
      invariant Invited(creator.id, emails[..i], accounts) == Success(invited) && usersToAdd == [creator.id] + invited
    {
      assert emails[..i + 1][..i] == emails[..i] && emails[..i + 1][i] == emails[i];
      if emails[i] !in accounts {
        InvitedFailureSticks(creator.id, emails, accounts, i + 1);
        return Failure(NoUserWithEmail(emails[i]));
      }
      var user := accounts[emails[i]];
      if user != creator.id {
        usersToAdd := usersToAdd + [user];
      }
      invited := invited + (if user != creator.id then [user] else []);
      assert Invited(creator.id, emails[..i + 1], accounts) == Success(invited);
    }
    assert emails[..|emails|] == emails;
    var ok := db.BulkCreate(RowsFor(id, usersToAdd));
    r := if ok then Success(id) else Failure(IntegrityError);
  }

  /** No two emails of the user table belong to the same account. */
  predicate OneAccountPerEmail(accounts: map<string, UserId>)
  {
    forall e1, e2 :: e1 in accounts && e2 in accounts && accounts[e1] == accounts[e2] ==> e1 == e2
  }

  /**
   * For a list that passed validation, `create` fails only on an unknown
   * email: the creator and the invited users are all different, so the
   * participant rows of the new conversation never break the unique pair.
   */
  lemma ValidatedListInsertable(creator: User, verb: string, emails: seq<string>, accounts: map<string, UserId>,
                                table: seq<Participation>, id: ConversationId)
    requires ValidateParticipantEmails(emails, Some(Request(verb, Some(creator)))).Success?
    requires OneAccountPerEmail(accounts) && forall i :: 0 <= i < |emails| ==> emails[i] in accounts
    requires forall k :: 0 <= k < |table| ==> table[k].conversation != id
    ensures Invited(creator.id, emails, accounts).Success?
    ensures Insertable(table, RowsFor(id, [creator.id] + Invited(creator.id, emails, accounts).value))
  {
    var ids := AccountsOf(emails, accounts);
    AccountsDistinct(emails, accounts);
    InvitedInOrder(creator.id, emails, accounts);
    var keep := (u: UserId) => u != creator.id;
    FilterDistinct(ids, keep);
    ConsDistinct(creator.id, Filter(ids, keep));
    FreshRowsInsertable(table, id, [creator.id] + Filter(ids, keep));
  }

  /** Different emails of the user table belong to different accounts. */
  lemma AccountsDistinct(emails: seq<string>, accounts: map<string, UserId>)
    requires Distinct(emails) && OneAccountPerEmail(accounts)
    requires forall i :: 0 <= i < |emails| ==> emails[i] in accounts
    ensures Distinct(AccountsOf(emails, accounts))
  {
  }
}
