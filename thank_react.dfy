/**
  `thank_react_filter` of src/bot/thank_react.rs: the bot reacts to a message
  exactly when that message replies to one of the bot's own messages.
*/
module ThankReact {
  import opened Wrappers
  import opened Telegram

  /** The id of the author of the message `m` replies to, if it is a reply with a known author. */
  function RepliedToAuthor(m: Message): (r: Option<nat>)
    ensures r.Some? <==> m.replyTo.Some? && m.replyTo.value.from.Some?
    ensures r.Some? ==> r.value == m.replyTo.value.from.value.id
  {
    match m.replyTo
    case None => None
    case Some(origin) =>
      match origin.from
      case None => None
      case Some(author) => Some(author.id)
  }

  /** `thank_react_filter`: the replied-to message exists, has an author, and that author is the bot. */
  function ThankReactFilter(me: User, m: Message): (r: bool)
    ensures r <==> RepliedToAuthor(m) == Some(me.id)
  {
    m.replyTo.Some? && m.replyTo.value.from.Some? && m.replyTo.value.from.value.id == me.id
  }

  /** A message that is not a reply is never reacted to. */
  lemma NotAReply(me: User, m: Message)
    requires m.replyTo.None?
    ensures !ThankReactFilter(me, m)
  {
  }

  /** A reply to a message without an author is never reacted to. */
  lemma ReplyToAnonymous(me: User, m: Message)
    requires m.replyTo.Some? && m.replyTo.value.from.None?
    ensures !ThankReactFilter(me, m)
  {
  }

  /** Only the replied-to author matters: text, entities, chat and author of the reply itself do not. */
  lemma OnlyRepliedToAuthorMatters(me: User, m1: Message, m2: Message)
    requires RepliedToAuthor(m1) == RepliedToAuthor(m2)
    ensures ThankReactFilter(me, m1) == ThankReactFilter(me, m2)
  {
  }

  /** Replies to someone else are not reacted to, whoever wrote them. */
  lemma ReplyToSomeoneElse(me: User, m: Message)
    requires m.replyTo.Some? && m.replyTo.value.from.Some? && m.replyTo.value.from.value.id != me.id
    ensures !ThankReactFilter(me, m)
  {
  }
}
