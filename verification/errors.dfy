/**
  The bot's error taxonomy (the `errors` module of src/main.rs) and how an
  error is turned into the text sent back to the channel.
 */
module Errors {

  /** The error kinds a command or an event can end in. */
  datatype Error =
    | NoIdea                               // the command word is not known
    | NoResult                             // three retrieval attempts found nothing
    | Store(message: string)               // the quote store reported a fault
    | Irc(message: string)                 // the chat transport reported a fault
    | NickMissing                          // a channel message without a sender nickname
    | Chained(context: string, cause: Error)  // `chain_err`: a message over a cause

  /** A Rust `Result`. */
  datatype Result<+T> = Ok(value: T) | Err(error: Error)

  /** What a Rust call does: return a `Result`, or panic and unwind. */
  datatype Outcome<+T> = Returned(result: Result<T>) | Panicked {
    predicate Succeeded() {
      Returned? && result.Ok?
    }
  }

  /** The values of Rust's `usize` on a 64-bit target. */
  type Usize = x: nat | x < 0x1_0000_0000_0000_0000

  /** The stock replies to an unknown command. */
  const Dunno: seq<string> := ["Huh?", "Don't remember that one.", "What's that?", "Hmm...", "Beats me."]

  /** The reply when retrieval found nothing. */
  const Nothin: string := "I got nothin'."

  /** `Display` of an error: its own message (causes are shown only by the log). */
  function Display(e: Error): string {
    match e
    case NoIdea => "NoIdea"
    case NoResult => "NoResult"
    case Store(m) => m
    case Irc(m) => m
    case NickMissing => "nick missing"
    case Chained(c, _) => c
  }

  /** `no_idea`: one of the stock phrases, picked by a random `usize`. */
  function NoIdeaPhrase(dice: Usize): (r: string)
    ensures r in Dunno
  {
    Dunno[dice % |Dunno|]
  }

  /** Every stock phrase is the answer to some roll of the dice. */
  lemma NoIdeaPhraseOnto(i: nat)
    requires i < |Dunno|
    ensures exists dice: Usize :: NoIdeaPhrase(dice) == Dunno[i]
  {
    assert NoIdeaPhrase(i) == Dunno[i];
  }

  /** `have_a_cow`: the text sent to the channel instead of a failed command's reply. */
  function HaveACow(e: Error, dice: Usize): (r: string)
    ensures e == NoIdea ==> r in Dunno
    ensures e == NoResult ==> r == Nothin
    ensures e != NoIdea && e != NoResult ==> r == Display(e)
    ensures e == NoIdea || e == NoResult ==> r != []
  {
    match e
    case NoIdea => NoIdeaPhrase(dice)
    case NoResult => Nothin
    case _ => Display(e)
  }
}
