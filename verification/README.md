# cantide quote bot — a Dafny model of its decision logic

cantide is an IRC bot that sits in one channel and answers two commands with
quotes drawn at random from a Postgres table of "quote grabs". This project
models the bot's pure decision logic from `src/main.rs` and proves properties
about it:

- **Event classification** (`Cantide::handle`, module `Events`). Each message
  is ignored, logged, rejected, or answered. PING and the four bootstrap
  numerics are ignored. Only a PRIVMSG to the configured channel reaches the
  responder. If such a message has no sender nickname, `handle` fails with
  "nick missing".
- **Command parsing and routing** (`respond_to`, `dispatch`, module `Router`).
  The line is trimmed, needs a leading `!`, and is split on single spaces with
  empty tokens dropped. `!rq` makes one retrieval. `!!rq` makes up to three,
  stops at the first that fails, and joins them with single spaces. Any other command word gives `NoIdea`. The
  second word, if present, is the nickname filter.
- **Reply formatting** (the closure in `dispatch`, module `Formatter`).
  `<nick> text` becomes `◇ text`. `* nick action` becomes `💃 action` or
  `🕺 action`, depending on a coin flip. Anything else is said unchanged.
- **Bounded retry** (`rq::random_quote`, module `Recall`). There are at most
  three attempts. The first row found is returned. A store fault is returned
  at once. Three empty answers give `NoResult`.
- **Error rendering** (`errors::have_a_cow` and `no_idea`, module `Errors`).
- **String operations** the code relies on (`trim`, `find`, `split`, module
  `Strings`), with their Rust semantics on sequences of characters.

Everything the bot gets from outside is a parameter, bundled in
`Router.World`:

- The store is an oracle. `store(filter, j, k)` is the store's answer
  (`Found(quote)`, `Empty` or `Fault(message)`) to attempt `k` of the `j`-th
  retrieval of a command.
- `coins(j)` is the coin flip used to format the `j`-th retrieval.
- `dice` is the random `usize` that `no_idea` reduces modulo 5.
- `sendFault` is the transport's error when it refuses the reply.

The formatter's panics are explicit. The formatter returns `None` where the
Rust code panics, and `respond_to`/`dispatch` return `Panicked`. The one other
panic in the core, inside the Postgres row accessor, is listed under
"Left out".

Three behaviours of the Rust code are worth stating outright, because a reader
might expect otherwise:

- Malformed quotes panic. A `<` quote whose first `>` is its last character
  makes the slice at src/main.rs:86-87 start past the end of the string. An
  action quote with no space after the nickname makes the `unwrap` at
  src/main.rs:89 fail. The model has `Formatter.Malformed`, `None` and
  `Panicked` for this case. `Formatter.BareNickPanics` and
  `Formatter.BareActionPanics` show it on `<bob>` and `* bob`.
- Store faults are sent to the channel as the error's display text, through
  `have_a_cow`'s last arm (src/main.rs:122).
- The bot keeps no record of its own nickname. Nickname tracking is left to
  the IRC library. PART and QUIT messages fall into `handle`'s catch-all log
  arm.

## Model

| member | source | states |
|---|---|---|
| `Events.Handle` | src/main.rs:39-64 | A message is ignored exactly when it is a PING or one of RPL_ISUPPORT, RPL_MOTDSTART, RPL_MOTD, RPL_ENDOFMOTD. It is answered exactly when it is a PRIVMSG to the configured channel that has a sender nickname, and the answer is `respond_to` of its text. It is rejected with NickMissing exactly when such a PRIVMSG has no nickname. A PRIVMSG to any other target is only logged by the catch-all arm. |
| `Events.OnlyChannelMessagesFail` | src/main.rs:39-64 | `handle` returns something other than `Ok(())` only for a channel PRIVMSG, and then only for a missing nickname, a panic, or a refused send. |
| `Events.SilentUnlessAnswered` | src/main.rs:40-62 | A message that is not a channel PRIVMSG is neither answered nor rejected, and `handle` returns `Ok(())`. |
| `Router.RespondTo` | src/main.rs:66-80 | A line whose trimmed form does not start with `!` gives `Ok(())` with no retrieval and no send, and only such lines do. A command line that does not panic always sends a PRIVMSG to the configured channel. The only error is the transport's refusal, chained under "couldn't respond to" and the trimmed line. A command line has a non-empty word list whose first word starts with `!`, so `words[0]` is in bounds, and its response is `Deliver` of what `dispatch` returns for those words. |
| `Router.Deliver` | src/main.rs:72-76 | A panic in `dispatch` propagates and nothing is sent. Otherwise the PRIVMSG to the channel carries the reply, or the error rendered by `have_a_cow`. The outcome is `Ok(())`, or the transport's refusal chained under "couldn't respond to" and the line. The retrievals are those of `dispatch`. So a command never looks like a silent non-command. |
| `Router.Dispatch` | src/main.rs:79-102 | Every retrieval uses the second word (if any) as its filter. `!rq` makes exactly one retrieval and `!!rq` makes one to three. The result is NoIdea exactly when the first word is neither command, and NoIdea makes no retrieval. |
| `Router.Chain` | src/main.rs:97-100 | Retrievals run left to right. The result succeeds exactly when every step succeeds, and then it is their replies joined with single spaces and all steps are recorded. Otherwise the steps stop at the first failure or panic, and that step's outcome is the result. |
| `Router.Rq` | src/main.rs:83-96 | A retrieval records its filter and the number of attempts `random_quote` made (1 to 3); a failing `prepare` counts as one attempt, though it returns before any query. An error from `random_quote` is the reply unchanged, so its only errors are NoResult and store faults. It is NoResult exactly when all three attempts are empty. It panics exactly when the quote found is malformed. Otherwise the reply is the found quote formatted under the retrieval's coin flip. |
| `Router.SingleRq` | src/main.rs:98 | `!rq` is one retrieval, number 0, with the second word as filter, and its outcome is the reply. |
| `Router.FirstFailureWins` | src/main.rs:99 | In `!!rq`, the first retrieval that fails or panics, left to right, decides the outcome, and no retrieval after it is made. |
| `Router.ThreeQuotesJoined` | src/main.rs:99 | When each of the three retrievals finds a well-formed quote, on whatever attempt, `!!rq` makes three retrievals and replies with the three formatted quotes joined by single spaces. |
| `Router.ExtraWordsIgnored` | src/main.rs:80-81 | Words after the second do not change what `dispatch` does. |
| `Router.FirstAnswerReplies` | src/main.rs:83-96 | If the first non-empty answer of a retrieval is at attempt `i`, the retrieval makes `i + 1` attempts. A fault is replied as a store error carrying the store's message. A well-formed quote is replied formatted under the retrieval's coin flip. A malformed quote panics. |
| `Router.SaidDispatch` | src/main.rs:83-98 | `!rq` on a store whose first answer is `<nick> text` replies `◇ text`. |
| `Router.SaidScenario` | src/main.rs:66-98 | For the line `!rq` and a store whose first answer is `<nick> text`, the bot sends `◇ text` to the channel after one query and returns `Ok(())`. |
| `Router.UnknownCommand` | src/main.rs:100 | A command line with an unknown first word makes no retrieval and sends one of the five stock phrases. |
| `Router.NothingFound` | src/main.rs:165-170 | When all three attempts of a `!rq` are empty, the bot makes exactly three queries and sends "I got nothin'.". |
| `Recall.Retry` | src/main.rs:165-170 | From attempt `k`, the loop makes between `k` and 3 attempts. The result is NoResult exactly when every remaining attempt is empty, and then all 3 were made. Otherwise the last attempt made is the first non-empty one, and its row or fault is the result. |
| `Recall.RandomQuote` | src/main.rs:143-171 | A retrieval makes 1 to 3 attempts and returns a quote, NoResult or a store fault, nothing else. |
| `Recall.FirstAnswerDecides` | src/main.rs:165-168 | If the first non-empty answer is at attempt `i`, exactly `i + 1` attempts are made, and that answer's row (or fault) is the result. |
| `Recall.NoResultAfterThreeEmpty` | src/main.rs:165-170 | NoResult happens if and only if attempts 0, 1 and 2 are all empty, and then after exactly three attempts. |
| `Formatter.FormatQuote` | src/main.rs:85-94 | The formatter panics exactly on malformed quotes: a `<` quote whose first `>` is its last character, or an action quote with no space after index 2. A quote that is neither shape is returned unchanged. A `<` quote begins with `◇ ` and an action quote begins with the glyph the coin chose and a space. |
| `Formatter.SaidShape` | src/main.rs:85-87 | `<` + nick + `>` + one character + text, with no `>` in nick, becomes `◇ ` + text. |
| `Formatter.SaidDecomposes` | src/main.rs:85-87 | Every `<` quote that does not panic has that shape, so the two lemmas together describe the `<` rule completely. |
| `Formatter.ActionShape` | src/main.rs:88-91 | `* ` + nick + ` ` + text, with no space in nick, becomes the chosen glyph, a space, and text. The `<` rule cannot apply to it. |
| `Formatter.ActionDecomposes` | src/main.rs:88-91 | Every action quote that does not panic has that shape. |
| `Formatter.ActionTwoOutcomes` | src/main.rs:90-91 | An action quote has exactly two possible replies, one per coin value, and they differ. |
| `Formatter.BareNickPanics` | src/main.rs:86-87 | `<bob>` makes `dispatch` slice past the end of the string. |
| `Formatter.BareActionPanics` | src/main.rs:89 | `* bob` makes `dispatch` unwrap a missing space. |
| `Errors.NoIdeaPhrase` | src/main.rs:126-129 | The phrase is one of the five stock phrases, and the index `r % 5` is in bounds. |
| `Errors.NoIdeaPhraseOnto` | src/main.rs:126-129 | Every one of the five phrases can be drawn. |
| `Errors.HaveACow` | src/main.rs:118-124 | NoIdea renders as a stock phrase and NoResult as "I got nothin'.". Both are non-empty. Every other error renders as its display text. |
| `Strings.Trim` | src/main.rs:67 | The trimmed line is an infix of the line with only whitespace around it, and neither of its ends is whitespace. |
| `Strings.TrimUnique` | src/main.rs:67 | That description determines the trimmed line: any whitespace-stripped infix with non-whitespace ends equals `Trim`. |
| `Strings.TrimIdempotent` | src/main.rs:67 | Trimming twice is trimming once. |
| `Strings.TrimStart` | src/main.rs:67 | The result is a suffix of the input, only whitespace was removed, and it does not start with whitespace. |
| `Strings.TrimEnd` | src/main.rs:67 | The result is a prefix of the input, only whitespace was removed, and it does not end with whitespace. |
| `Strings.Find` | src/main.rs:86 | `find` returns the index of the first occurrence of the character, and returns nothing exactly when the character is absent. |
| `Strings.Split` | src/main.rs:71 | `split(' ')` gives at least one piece, no piece contains the separator, and joining the pieces with the separator gives back the line. |
| `Strings.SplitJoin` | src/main.rs:71 | Splitting a join of separator-free pieces gives the pieces back, so splitting and joining are inverse. |
| `Strings.DropEmpty` | src/main.rs:71 | The result has no empty piece, and every non-empty piece occurs in it exactly as often as in the input. |
| `Strings.DropEmptyAppend` | src/main.rs:71 | The filter works piece by piece: filtering a concatenation concatenates the filtered halves, so the order of the pieces is kept. |
| `Strings.Words` | src/main.rs:71 | No token is empty and no token contains a space. Every non-empty piece of `split(' ')` is a token, as often as it occurs there. |
| `Strings.WordsAppend` | src/main.rs:71 | The tokens of a line are the tokens on each side of any one of its spaces, so runs of spaces and leading or trailing spaces yield no tokens. |
| `Strings.WordsOfWord` | src/main.rs:71 | A stretch with no space is a single token, or no token when it is empty. With `WordsAppend`, this determines the tokens of every line. |
| `Strings.SplitAppend` | src/main.rs:71 | Splitting at one separator splits each side on its own and concatenates the pieces. |
| `Strings.WordsJoin` | src/main.rs:71 | Tokenising non-empty, space-free words joined by single spaces gives the words back. |
| `Strings.FirstWord` | src/main.rs:68-80 | A line whose first character is not a space has a first token, and that token starts with the line's first character. |
| `Strings.JoinThree` | src/main.rs:99 | Joining three replies puts exactly one space between neighbours, as `format!("{} {} {}", ..)` does. |

## Left out

- IRC transport: `IrcServer`, `for_each_incoming`, `identify`, `Config` and `main` are network I/O through a library. `send` is a parameter: the transport's error, if any (`World.sendFault`).
- Postgres: `Connection::connect`, `prepare` and `query`, and the SQL text. Each attempt is an oracle answer. A failing `prepare` returns its error before any query. The model gives it the same reply as a fault on the first attempt, and counts it as one attempt although no query was made. The uniform (or non-uniform) random choice of a row happens in the database and is not modelled.
- The `rand` crate: coin flips and the `usize` index are parameters. Whether the coin is fair cannot be stated about one call.
- Startup and logging: `Brain::load`, the environment variables, the `println!`/`stderr` output of `handle`, `serve` and `main`, and `process::exit`. `handle`'s log lines are modelled only by their kind (`Events.LogEntry`), not by their text.
- What a panic does next: the model reports `Panicked` and stops. Unwinding out of the event loop is outside the model.
- error_chain machinery: the chain of causes and the foreign-link conversions. Errors are one closed datatype. NoIdea and NoResult display as their variant names. `have_a_cow` never shows those two.
- Recall.RandomQuote: `row.get(0)` at src/main.rs:162 panics when the quote column is NULL or not convertible to `String`. The oracle's `Found(quote)` assumes a text value, so that panic is not modelled.
- Router.CouldNotRespond: quotes the line with plain double quotes. Rust's `{:?}` also escapes quotes, backslashes and control characters inside it.
- Formatter.FormatQuote: strings are sequences of characters, not UTF-8 bytes. The `+ 2` after `>` skips one character here but one byte in Rust. So Rust also panics when the character after `>` is multi-byte, and this contract does not cover that panic. The `* ` rule is unaffected: `find` and the slice at src/main.rs:89-91 both count bytes, so the slice starts right after the same space as here.
