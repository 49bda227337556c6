/**
  The parts of the platform's message type that the handlers read: the chat,
  the text, its entities, the author and the message being replied to.
*/
module Telegram {
  import opened Wrappers
  import opened UrlModel

  /** A user, identified by its numeric id. */
  datatype User = User(id: nat)

  /**
    The kind of an entity. `UrlSpan` marks a plain-text URL inside the text,
    `TextLink` a link whose target the platform attaches as a parsed URL;
    every other kind (mentions, hashtags, formatting, ...) is `OtherKind`.
  */
  datatype EntityKind = UrlSpan | TextLink(url: Url) | OtherKind(name: string)

  /** An entity marks the `length` characters of the text starting at `offset`. */
  datatype Entity = Entity(kind: EntityKind, offset: nat, length: nat)

  datatype Message = Message(
    id: int,
    chatId: Option<int>,
    from: Option<User>,
    text: Option<string>,
    entities: Option<seq<Entity>>,
    replyTo: Option<Message>)
}
