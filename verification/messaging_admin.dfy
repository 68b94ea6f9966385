/**
 * `Django-signals_orm-0x04/messaging/admin.py`: the admin list columns that
 * shorten text. `content_preview` shows a message's content cut to 50
 * characters with "..." when it is longer; `old_content_preview` shows an edit
 * record's old content cut to 70 characters, with "..." when it is longer;
 * `message_sender` shows who sent the message a notification is about.
 */
module MessagingAdmin {
  import opened Wrappers
  import opened Sequences
  import opened MessagingModels
  import opened MessagingSignals

  /** Text cut to `n` characters and marked with "..." when it is longer than `n`. */
  function Truncate(s: string, n: nat): (r: string)
    ensures |s| <= n ==> r == s
    ensures |s| > n ==> r == s[..n] + "..." && |r| == n + 3
    ensures |r| <= n + 3 && r[..(if |s| < n then |s| else n)] == Take(s, n)
  {
    if |s| > n then s[..n] + "..." else s
  }

  /** `MessageAdmin.content_preview`: `content[:50] + '...' if len(content) > 50 else content`. */
  function ContentPreview(content: string): (r: string)
    ensures |r| <= 53
  {
    if |content| > 50 then Take(content, 50) + "..." else content
  }

  /** `MessageHistoryAdmin.old_content_preview`: `old_content[:70] + ('...' if len(old_content) > 70 else '')`. */
  function OldContentPreview(oldContent: string): (r: string)
  {
    Take(oldContent, 70) + (if |oldContent| > 70 then "..." else "")
  }

  /** The message preview is the content when it fits in 50 characters, else its first 50 and "...". */
  lemma ContentPreviewTruncates(content: string)
    ensures ContentPreview(content) == Truncate(content, 50)
  {
  }

  /**
   * The old-content preview always starts with the first 70 characters, ends
   * in "..." exactly when the text is longer, and so is the text itself when
   * it fits.
   */
  lemma OldContentPreviewTruncates(oldContent: string)
    ensures OldContentPreview(oldContent) == Truncate(oldContent, 70)
    ensures OldContentPreview(oldContent)[..|Take(oldContent, 70)|] == Take(oldContent, 70)
  {
    if |oldContent| <= 70 {
      assert Take(oldContent, 70) + "" == oldContent;
    }
  }

  /** `NotificationAdmin.message_sender`: the sender of the notification's message (a stored row). */
  function MessageSender(messages: map<MsgId, Message>, n: Notification): (sender: UserName)
    requires n.message in messages
    ensures sender == messages[n.message].sender
  {
    messages[n.message].sender
  }

  /**
   * For a notification the save handler created, the "From" column shows
   * the message's sender, who is never the notified user.
   */
  lemma NotificationShowsOtherSender(messages: map<MsgId, Message>, id: MsgId, created: bool)
    requires id in messages && NotificationFor(id, messages[id], created).Some?
    ensures var n := NotificationFor(id, messages[id], created).value;
            n.message in messages && MessageSender(messages, n) == messages[id].sender && MessageSender(messages, n) != n.user
  {
  }
}
