/**
  The part of the chat protocol the bot sees: incoming messages with an
  optional sender nickname, and the commands they carry. Wire parsing and
  the transport are outside the model.
 */
module Irc {
  import opened Options

  /** Numeric replies (by their protocol codes) that the bot passes over in silence. */
  const RplIsupport: nat := 5
  const RplMotd: nat := 372
  const RplMotdStart: nat := 375
  const RplEndOfMotd: nat := 376

  /** The protocol commands the bot distinguishes; `Other` stands for all the rest. */
  datatype Command =
    | Join(channel: string)
    | Notice(target: string, text: string)
    | Ping(server: string, server2: Option<string>)
    | Privmsg(target: string, text: string)
    | Numeric(code: nat, args: seq<string>, trailing: Option<string>)
    | Other(name: string, args: seq<string>)

  /** An incoming message; `sourceNick` is the nickname in its prefix, if any. */
  datatype Message = Message(sourceNick: Option<string>, command: Command)
}
