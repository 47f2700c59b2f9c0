/**
  Event classification: `Cantide::handle`. Each incoming message is passed
  over in silence, logged, rejected, or (a channel message with a sender)
  handed to `respond_to`.
 */
module Events {
  import opened Options
  import opened Errors
  import opened Irc
  import opened Router

  /**
    The diagnostic line `handle` prints, by kind. `NoticeFrom` carries the
    NOTICE's first parameter, which is its target; the Rust code binds it as
    `src` and logs it as "Notice from", but the field is named for what it is.
   */
  datatype LogEntry =
    | Joined(channel: string)
    | NoticeFrom(target: string, text: string)
    | NumericReply(code: nat, args: seq<string>, trailing: Option<string>)
    | Unhandled(command: Command)

  /** How `handle` treats one message. */
  datatype Handled =
    | Ignored                                   // no output at all
    | Logged(entry: LogEntry)                   // a diagnostic line, nothing else
    | Rejected(error: Error)                    // an error, before any reply
    | Answered(nick: string, response: Responded)  // logged as `<nick> text`, then `respond_to`

  /** The bootstrap numerics that produce no output. */
  predicate Quiet(code: nat) {
    code == RplIsupport || code == RplMotdStart || code == RplMotd || code == RplEndOfMotd
  }

  /** `handle`: only a PRIVMSG to the configured channel reaches the responder,
      and only when its sender's nickname is known. */
  function Handle(channel: string, msg: Message, world: World): (h: Handled)
    ensures h == Ignored <==> msg.command.Ping? || (msg.command.Numeric? && Quiet(msg.command.code))
    ensures h.Rejected? <==> msg.command.Privmsg? && msg.command.target == channel && msg.sourceNick.None?
    ensures h.Rejected? ==> h.error == NickMissing
    ensures h.Answered? <==> msg.command.Privmsg? && msg.command.target == channel && msg.sourceNick.Some?
    ensures h.Answered? ==> h.nick == msg.sourceNick.value && h.response == RespondTo(channel, msg.command.text, world)
    ensures msg.command.Privmsg? && msg.command.target != channel ==> h == Logged(Unhandled(msg.command))
  {
    match msg.command
    case Join(chan) => Logged(Joined(chan))
    case Notice(target, text) => Logged(NoticeFrom(target, text))
    case Ping(_, _) => Ignored
    case Privmsg(target, text) =>
      if target == channel then
        match msg.sourceNick
        case None => Rejected(NickMissing)
        case Some(nick) => Answered(nick, RespondTo(channel, text, world))
      else
        Logged(Unhandled(msg.command))
    case Numeric(code, args, trailing) =>
      if Quiet(code) then Ignored else Logged(NumericReply(code, args, trailing))
    case Other(_, _) => Logged(Unhandled(msg.command))
  }

  /** What `handle` returns to the event loop. */
  function Status(h: Handled): Outcome<()>
  {
    match h
    case Rejected(e) => Returned(Err(e))
    case Answered(_, resp) => resp.outcome
    case _ => Returned(Ok(()))
  }

  /** Every message other than a channel PRIVMSG returns `Ok`; a channel PRIVMSG
      fails only for a missing nickname, a panicking formatter or a refused
      reply. */
  lemma OnlyChannelMessagesFail(channel: string, msg: Message, world: World)
    ensures Status(Handle(channel, msg, world)) != Returned(Ok(())) ==>
      && msg.command.Privmsg? && msg.command.target == channel
      && (msg.sourceNick.None? || RespondTo(channel, msg.command.text, world).outcome.Panicked? || world.sendFault.Some?)
  {
  }

  /** A message that reaches no responder sends nothing and makes no retrieval. */
  lemma SilentUnlessAnswered(channel: string, msg: Message, world: World)
    requires !(msg.command.Privmsg? && msg.command.target == channel)
    ensures !Handle(channel, msg, world).Answered? && !Handle(channel, msg, world).Rejected?
    ensures Status(Handle(channel, msg, world)) == Returned(Ok(()))
  {
  }
}
