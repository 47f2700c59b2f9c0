/**
  Command handling: `respond_to` and `dispatch`. A channel line is trimmed;
  unless it starts with `!` nothing happens. Otherwise it is split into
  words, the first word picks the command, the second (if any) filters the
  quotes by nickname, and the reply (or the rendering of the error) is sent
  back to the channel.

  Everything the bot gets from outside is an explicit parameter (`World`):
  the store's answers, the coin flips and the random index, and whether the
  transport accepts the reply.
 */
module Router {
  import opened Options
  import opened Strings
  import opened Errors
  import opened Recall
  import opened Formatter
  import opened Irc

  /** The quote store as an oracle: `store(filter, j, k)` is its answer to
      attempt `k` of the `j`-th retrieval a command makes with that filter. */
  type Store = (Option<string>, nat, nat) -> Attempt

  /** What one event depends on besides its own text. */
  datatype World = World(
    store: Store,
    coins: nat -> bool,        // the coin flip that formats the j-th retrieval's quote
    dice: Usize,               // the random number `no_idea` draws
    sendFault: Option<string>) // the transport's error, if it refuses the reply

  /** A retrieval a command made: its filter and how many attempts it took. */
  datatype Retrieval = Retrieval(filter: Option<string>, attempts: nat)

  /** One formatted retrieval: its outcome and the retrieval itself. */
  datatype Step = Step(reply: Outcome<string>, call: Retrieval)

  /** What `dispatch` does: its outcome and the retrievals, in order. */
  datatype Dispatched = Dispatched(reply: Outcome<string>, retrievals: seq<Retrieval>)

  /** What `respond_to` does: its outcome, the retrievals, and the message it sends. */
  datatype Responded = Responded(outcome: Outcome<()>, retrievals: seq<Retrieval>, sent: Option<Command>)

  /** The store's answers to the `j`-th retrieval with a given filter. */
  function Answers(store: Store, filter: Option<string>, j: nat): nat -> Attempt {
    (k: nat) => store(filter, j, k)
  }

  /** The `rq` closure: one retrieval, then the formatter on the quote found. */
  function Rq(filter: Option<string>, j: nat, world: World): (s: Step)
    ensures s.call.filter == filter && 1 <= s.call.attempts <= MaxAttempts
    ensures s.reply == Returned(Err(NoResult)) <==> EmptyBetween(Answers(world.store, filter, j), 0, MaxAttempts)
    ensures s.reply.Returned? && s.reply.result.Err? ==> s.reply.result.error == NoResult || s.reply.result.error.Store?
    ensures s.reply.Panicked? <==>
      var f := RandomQuote(Answers(world.store, filter, j));
      f.result.Ok? && Malformed(f.result.value)
    ensures
      var f := RandomQuote(Answers(world.store, filter, j));
      && s.call.attempts == f.attempts
      && (f.result.Err? ==> s.reply == Returned(f.result))
      && (f.result.Ok? && !Malformed(f.result.value) ==>
            s.reply == Returned(Ok(FormatQuote(f.result.value, world.coins(j)).value)))
  {
    var f := RandomQuote(Answers(world.store, filter, j));
    var reply :=
      match f.result
      case Err(e) => Returned(Err(e))
      case Ok(q) =>
        match FormatQuote(q, world.coins(j))
        case Some(said) => Returned(Ok(said))
        case None => Panicked;
    Step(reply, Retrieval(filter, f.attempts))
  }

  /** The nickname filter: the second word, if there is one. */
  function SecondWord(words: seq<string>): Option<string> {
    if |words| > 1 then Some(words[1]) else None
  }

  /** The reply text of a successful step. */
  function Text(s: Step): string {
    if s.reply.Succeeded() then s.reply.result.value else ""
  }

  /** The reply texts of a run of steps. */
  function Texts(steps: seq<Step>): (texts: seq<string>)
    ensures |texts| == |steps|
    ensures forall i :: 0 <= i < |steps| ==> texts[i] == Text(steps[i])
  {
    seq(|steps|, i requires 0 <= i < |steps| => Text(steps[i]))
  }

  /** What a run of `steps` produces: the calls made are the steps' calls up to
      the one that ended the run, every call before that one succeeded, the run
      succeeds exactly when every step does, its reply is then the steps'
      texts joined by single spaces, and otherwise it is the reply of the step
      that ended the run. */
  ghost predicate Runs(steps: seq<Step>, d: Dispatched) {
    && 1 <= |d.retrievals| <= |steps|
    && (forall i :: 0 <= i < |d.retrievals| ==> d.retrievals[i] == steps[i].call)
    && (forall i :: 0 <= i < |d.retrievals| - 1 ==> steps[i].reply.Succeeded())
    && (d.reply.Succeeded() <==> forall i :: 0 <= i < |steps| ==> steps[i].reply.Succeeded())
    && (d.reply.Succeeded() ==>
          && |d.retrievals| == |steps|
          && d.reply.result.value == Strings.Join(Texts(steps), ' '))
    && (!d.reply.Succeeded() ==> d.reply == steps[|d.retrievals| - 1].reply)
  }

  /** Runs formatted retrievals left to right as the `?` operators of `dispatch`
      do: the first step that fails or panics ends the run with its outcome,
      and if all succeed their replies are joined by single spaces. */
  function Chain(steps: seq<Step>): (d: Dispatched)
    requires |steps| > 0
    ensures Runs(steps, d)
    decreases |steps|
  {
    var first := steps[0];
    if !first.reply.Succeeded() || |steps| == 1 then
      Dispatched(first.reply, [first.call])
    else
      var rest := Chain(steps[1..]);
      RunsAfter(steps, rest);
      After(first, rest)
  }

  /** A successful step followed by the run of the steps after it. */
  function After(first: Step, rest: Dispatched): Dispatched
    requires first.reply.Succeeded()
  {
    if rest.reply.Succeeded() then
      Dispatched(Returned(Ok(first.reply.result.value + " " + rest.reply.result.value)), [first.call] + rest.retrievals)
    else
      Dispatched(rest.reply, [first.call] + rest.retrievals)
  }

  /** A successful first step extends the run of the remaining steps. */
  lemma RunsAfter(steps: seq<Step>, rest: Dispatched)
    requires |steps| > 1 && steps[0].reply.Succeeded()
    requires Runs(steps[1..], rest)
    ensures Runs(steps, After(steps[0], rest))
  {
    CallsAfter(steps, rest);
    AllSucceedAfter(steps);
    TextsAfter(steps);
  }

  /** The joined texts of a run: the first step's text, a space, the rest's. */
  lemma TextsAfter(steps: seq<Step>)
    requires |steps| > 1
    ensures Strings.Join(Texts(steps), ' ') == Text(steps[0]) + " " + Strings.Join(Texts(steps[1..]), ' ')
  {
    var texts := Texts(steps);
    assert texts[1..] == Texts(steps[1..]);
  }

  /** The calls of a successful first step's run: its own, then the rest's. */
  lemma CallsAfter(steps: seq<Step>, rest: Dispatched)
    requires |steps| > 1 && steps[0].reply.Succeeded()
    requires Runs(steps[1..], rest)
    ensures forall i :: 0 <= i < |rest.retrievals| + 1 ==> After(steps[0], rest).retrievals[i] == steps[i].call
    ensures forall i :: 0 <= i < |rest.retrievals| ==> steps[i].reply.Succeeded()
  {
    var d, tail := After(steps[0], rest), steps[1..];
    forall i | 0 <= i < |d.retrievals|
      ensures d.retrievals[i] == steps[i].call
    {
      if i > 0 {
        assert d.retrievals[i] == rest.retrievals[i - 1];
        assert tail[i - 1] == steps[i];
      }
    }
    forall i | 0 <= i < |rest.retrievals|
      ensures steps[i].reply.Succeeded()
    {
      if i > 0 {
        assert tail[i - 1] == steps[i];
      }
    }
  }

  /** After a successful first step, all steps succeed exactly when the rest do. */
  lemma AllSucceedAfter(steps: seq<Step>)
    requires |steps| > 0 && steps[0].reply.Succeeded()
    ensures (forall i :: 0 <= i < |steps| ==> steps[i].reply.Succeeded())
      <==> (forall i :: 0 <= i < |steps| - 1 ==> steps[1..][i].reply.Succeeded())
  {
    var tail := steps[1..];
    if forall i :: 0 <= i < |tail| ==> tail[i].reply.Succeeded() {
      forall i | 0 <= i < |steps|
        ensures steps[i].reply.Succeeded()
      {
        if i > 0 {
          assert tail[i - 1] == steps[i];
        }
      }
    }
  }

  /** `dispatch`: routes on the first word. Only `!rq` and `!!rq` retrieve,
      always with the second word as filter; anything else is `NoIdea`. */
  function Dispatch(words: seq<string>, world: World): (d: Dispatched)
    requires |words| > 0
    ensures forall i :: 0 <= i < |d.retrievals| ==> d.retrievals[i].filter == SecondWord(words)
    ensures words[0] == "!rq" ==> |d.retrievals| == 1
    ensures words[0] == "!!rq" ==> 1 <= |d.retrievals| <= 3
    ensures words[0] != "!rq" && words[0] != "!!rq" <==> d.reply == Returned(Err(NoIdea))
    ensures d.reply == Returned(Err(NoIdea)) ==> d.retrievals == []
  {
    var filter := SecondWord(words);
    if words[0] == "!rq" then
      var steps := [Rq(filter, 0, world)];
      RunOfRqs(steps, filter);
      Chain(steps)
    else if words[0] == "!!rq" then
      var steps := [Rq(filter, 0, world), Rq(filter, 1, world), Rq(filter, 2, world)];
      RunOfRqs(steps, filter);
      Chain(steps)
    else
      Dispatched(Returned(Err(NoIdea)), [])
  }

  /** A run of retrievals with one filter queries only with that filter, and
      never ends in `NoIdea`, which no retrieval returns. */
  lemma RunOfRqs(steps: seq<Step>, filter: Option<string>)
    requires |steps| > 0
    requires forall i :: 0 <= i < |steps| ==> steps[i].call.filter == filter && steps[i].reply != Returned(Err(NoIdea))
    ensures Chain(steps).reply != Returned(Err(NoIdea))
    ensures forall i :: 0 <= i < |Chain(steps).retrievals| ==> Chain(steps).retrievals[i].filter == filter
  {
    var d := Chain(steps);
    if !d.reply.Succeeded() {
      assert d.reply == steps[|d.retrievals| - 1].reply;
    }
  }

  /** `unwrap_or_else(have_a_cow)`: the reply, or the error rendered as text. */
  function Render(r: Result<string>, dice: Usize): string
  {
    match r
    case Ok(reply) => reply
    case Err(e) => HaveACow(e, dice)
  }

  /** The context `chain_err` puts over a refused reply. */
  function CouldNotRespond(line: string): string {
    "couldn't respond to \"" + line + "\""
  }

  /** `respond_to`: a line that is not a command is a silent success; a command
      line always sends the channel a reply, unless the formatter panics, and
      fails only when the transport refuses that reply. */
  function RespondTo(channel: string, text: string, world: World): (resp: Responded)
    ensures !StartsWith(Trim(text), "!") <==> resp == Responded(Returned(Ok(())), [], None)
    ensures resp.outcome.Panicked? ==> resp.sent.None?
    ensures StartsWith(Trim(text), "!") && resp.outcome.Returned? ==>
      resp.sent.Some? && resp.sent.value.Privmsg? && resp.sent.value.target == channel
    ensures resp.outcome.Returned? && resp.outcome.result.Err? ==>
      world.sendFault.Some? && resp.outcome.result.error == Chained(CouldNotRespond(Trim(text)), Irc(world.sendFault.value))
    ensures resp.sent.Some? && world.sendFault.None? ==> resp.outcome == Returned(Ok(()))
    ensures StartsWith(Trim(text), "!") ==>
      && |Words(Trim(text))| > 0
      && Words(Trim(text))[0][0] == '!'
      && resp == Deliver(channel, Trim(text), Dispatch(Words(Trim(text)), world), world)
  {
    var line := Trim(text);
    if !StartsWith(line, "!") then Responded(Returned(Ok(())), [], None)
    else
      CommandWord(line);
      Deliver(channel, line, Dispatch(Words(line), world), world)
  }

  /** A command line has a first word, and it starts with the `!`. */
  lemma CommandWord(line: string)
    requires StartsWith(line, "!")
    ensures |Words(line)| > 0 && Words(line)[0][0] == '!'
  {
    assert line[0] == line[..1][0] == '!';
    FirstWord(line);
  }

  /** The tail of `respond_to` for the command `line`: a panic propagates with
      nothing sent; otherwise the rendered reply goes to the channel and the
      transport's refusal, if any, is the error. */
  function Deliver(channel: string, line: string, d: Dispatched, world: World): (resp: Responded)
    ensures resp.retrievals == d.retrievals
    ensures resp.outcome.Panicked? <==> d.reply.Panicked?
    ensures resp.sent.None? <==> d.reply.Panicked?
    ensures d.reply.Returned? ==> resp.sent == Some(Privmsg(channel, Render(d.reply.result, world.dice)))
    ensures d.reply.Returned? ==>
      resp.outcome == if world.sendFault.None? then Returned(Ok(()))
                      else Returned(Err(Chained(CouldNotRespond(line), Irc(world.sendFault.value))))
    ensures resp.outcome.Returned? ==>
      resp.sent.Some? && resp.sent.value.Privmsg? && resp.sent.value.target == channel
    ensures resp.outcome.Returned? && resp.outcome.result.Err? ==>
      world.sendFault.Some? && resp.outcome.result.error == Chained(CouldNotRespond(line), Irc(world.sendFault.value))
    ensures resp.sent.Some? && world.sendFault.None? ==> resp.outcome == Returned(Ok(()))
    ensures resp != Responded(Returned(Ok(())), [], None)
  {
    match d.reply
    case Panicked => Responded(Panicked, d.retrievals, None)
    case Returned(r) =>
      var outcome :=
        match world.sendFault
        case None => Returned(Ok(()))
        case Some(m) => Returned(Err(Chained(CouldNotRespond(line), Irc(m))));
      Responded(outcome, d.retrievals, Some(Privmsg(channel, Render(r, world.dice))))
  }

  /** Words after the second are never looked at. */
  lemma ExtraWordsIgnored(words: seq<string>, world: World)
    requires |words| > 2
    ensures Dispatch(words, world) == Dispatch(words[..2], world)
  {
  }

  /** `!rq` makes exactly one retrieval, filtered by the second word, and replies
      with its formatted quote. */
  lemma SingleRq(words: seq<string>, world: World)
    requires |words| > 0 && words[0] == "!rq"
    ensures Dispatch(words, world) == Dispatched(Rq(SecondWord(words), 0, world).reply, [Rq(SecondWord(words), 0, world).call])
  {
  }

  /** `!!rq` stops at the first retrieval, left to right, that does not
      succeed, and ends with that retrieval's failure or panic. */
  lemma FirstFailureWins(words: seq<string>, world: World, i: nat)
    requires |words| > 0 && words[0] == "!!rq" && i < 3
    requires forall j :: 0 <= j < i ==> Rq(SecondWord(words), j, world).reply.Succeeded()
    requires !Rq(SecondWord(words), i, world).reply.Succeeded()
    ensures Dispatch(words, world).reply == Rq(SecondWord(words), i, world).reply
    ensures |Dispatch(words, world).retrievals| == i + 1
  {
    var filter := SecondWord(words);
    var steps := [Rq(filter, 0, world), Rq(filter, 1, world), Rq(filter, 2, world)];
    assert Dispatch(words, world) == Chain(steps);
    StopsAtFirstFailure(steps, i);
  }

  /** A run ends at its first step that does not succeed, with that step's reply. */
  lemma {:induction false} StopsAtFirstFailure(steps: seq<Step>, i: nat)
    requires i < |steps|
    requires forall j :: 0 <= j < i ==> steps[j].reply.Succeeded()
    requires !steps[i].reply.Succeeded()
    ensures Chain(steps).reply == steps[i].reply
    ensures |Chain(steps).retrievals| == i + 1
    decreases i
  {
    if i > 0 {
      var tail := steps[1..];
      assert forall j :: 0 <= j < i - 1 ==> tail[j] == steps[j + 1];
      assert tail[i - 1] == steps[i];
      StopsAtFirstFailure(tail, i - 1);
    }
  }

  /** The first attempt of a retrieval that does not come back empty decides
      its reply: a fault is reported with the store's message, a well-formed
      quote is said formatted under the retrieval's coin flip, and a malformed
      one panics. No attempt after it is made. */
  lemma FirstAnswerReplies(filter: Option<string>, j: nat, world: World, i: nat)
    requires i < MaxAttempts
    requires forall k :: 0 <= k < i ==> world.store(filter, j, k).Empty?
    requires !world.store(filter, j, i).Empty?
    ensures Rq(filter, j, world).call == Retrieval(filter, i + 1)
    ensures world.store(filter, j, i).Fault? ==>
      Rq(filter, j, world).reply == Returned(Err(Store(world.store(filter, j, i).message)))
    ensures world.store(filter, j, i).Found? && !Malformed(world.store(filter, j, i).quote) ==>
      Rq(filter, j, world).reply == Returned(Ok(FormatQuote(world.store(filter, j, i).quote, world.coins(j)).value))
    ensures world.store(filter, j, i).Found? && Malformed(world.store(filter, j, i).quote) ==>
      Rq(filter, j, world).reply == Panicked
  {
    var answers := Answers(world.store, filter, j);
    assert EmptyBetween(answers, 0, i);
    FirstAnswerDecides(answers, i);
  }

  /** When the store finds three well-formed quotes, on whatever attempts, `!!rq`
      replies with the three formatted quotes joined by single spaces. */
  lemma ThreeQuotesJoined(words: seq<string>, world: World, q0: string, q1: string, q2: string)
    requires |words| > 0 && words[0] == "!!rq"
    requires RandomQuote(Answers(world.store, SecondWord(words), 0)).result == Ok(q0) && !Malformed(q0)
    requires RandomQuote(Answers(world.store, SecondWord(words), 1)).result == Ok(q1) && !Malformed(q1)
    requires RandomQuote(Answers(world.store, SecondWord(words), 2)).result == Ok(q2) && !Malformed(q2)
    ensures |Dispatch(words, world).retrievals| == 3
    ensures Dispatch(words, world).reply == Returned(Ok(
      FormatQuote(q0, world.coins(0)).value + " " +
      FormatQuote(q1, world.coins(1)).value + " " +
      FormatQuote(q2, world.coins(2)).value))
  {
    var filter := SecondWord(words);
    var s0, s1, s2 := Rq(filter, 0, world), Rq(filter, 1, world), Rq(filter, 2, world);
    ThreeSuccessesJoined(s0, s1, s2);
    assert Dispatch(words, world) == Chain([s0, s1, s2]);
  }

  /** Three successful steps make `!!rq` reply with their texts, space-joined. */
  lemma ThreeSuccessesJoined(s0: Step, s1: Step, s2: Step)
    requires s0.reply.Succeeded() && s1.reply.Succeeded() && s2.reply.Succeeded()
    ensures |Chain([s0, s1, s2]).retrievals| == 3
    ensures Chain([s0, s1, s2]).reply ==
      Returned(Ok(s0.reply.result.value + " " + s1.reply.result.value + " " + s2.reply.result.value))
  {
    var steps := [s0, s1, s2];
    var d := Chain(steps);
    assert d.reply.Succeeded() by {
      assert forall i :: 0 <= i < |steps| ==> steps[i].reply.Succeeded();
    }
    var texts := Texts(steps);
    assert texts == [Text(s0), Text(s1), Text(s2)];
    JoinThree(Text(s0), Text(s1), Text(s2), ' ');
  }

  /** The line `!rq` is its own single word. */
  lemma PlainRqWords()
    ensures Words("!rq") == ["!rq"]
  {
    assert ' ' !in "!rq";
    WordsJoin(["!rq"]);
    assert Strings.Join(["!rq"], ' ') == "!rq";
  }

  /** The line `!rq` is its own trimmed form. */
  lemma PlainRqTrim()
    ensures Trim("!rq") == "!rq"
  {
    assert StripsAt("!rq", "!rq", 0) by {
      assert "!rq"[0..3] == "!rq" && "!rq"[..0] == [] && "!rq"[3..] == [];
    }
    TrimUnique("!rq", "!rq");
  }

  /** `!rq` on a store whose first answer is a well-formed `<nick> text` quote. */
  lemma SaidDispatch(world: World, nick: string, text: string)
    requires '>' !in nick
    requires world.store(None, 0, 0) == Found("<" + nick + "> " + text)
    ensures Dispatch(["!rq"], world) == Dispatched(Returned(Ok(Said + " " + text)), [Retrieval(None, 1)])
  {
    var q := "<" + nick + "> " + text;
    assert q == "<" + nick + ">" + [' '] + text;
    SaidShape(nick, ' ', text, world.coins(0));
    FirstAnswerReplies(None, 0, world, 0);
    assert Dispatch(["!rq"], world) == Chain([Rq(None, 0, world)]);
  }

  /** A store whose first answer is the quote `<nick> text` makes `!rq` say
      `text` behind the "said" glyph, after one query. */
  lemma SaidScenario(channel: string, world: World, nick: string, text: string)
    requires '>' !in nick
    requires world.store(None, 0, 0) == Found("<" + nick + "> " + text)
    requires world.sendFault.None?
    ensures RespondTo(channel, "!rq", world) ==
      Responded(Returned(Ok(())), [Retrieval(None, 1)], Some(Privmsg(channel, Said + " " + text)))
  {
    PlainRqTrim();
    PlainRqWords();
    SaidDispatch(world, nick, text);
    assert StartsWith("!rq", "!");
  }

  /** A command line with an unknown first word makes no retrieval and sends
      one of the stock "don't know" phrases. */
  lemma UnknownCommand(channel: string, text: string, world: World)
    requires StartsWith(Trim(text), "!")
    requires |Words(Trim(text))| > 0 && Words(Trim(text))[0] != "!rq" && Words(Trim(text))[0] != "!!rq"
    ensures RespondTo(channel, text, world).retrievals == []
    ensures RespondTo(channel, text, world).sent == Some(Privmsg(channel, NoIdeaPhrase(world.dice)))
    ensures NoIdeaPhrase(world.dice) in Dunno
  {
  }

  /** When all three attempts of a `!rq` come back empty, the bot says it got
      nothing, after exactly three queries. */
  lemma NothingFound(channel: string, text: string, world: World)
    requires StartsWith(Trim(text), "!")
    requires |Words(Trim(text))| > 0 && Words(Trim(text))[0] == "!rq"
    requires forall k :: 0 <= k < MaxAttempts ==> world.store(SecondWord(Words(Trim(text))), 0, k).Empty?
    ensures RespondTo(channel, text, world).retrievals == [Retrieval(SecondWord(Words(Trim(text))), 3)]
    ensures RespondTo(channel, text, world).sent == Some(Privmsg(channel, Nothin))
  {
    var words := Words(Trim(text));
    var filter := SecondWord(words);
    assert RespondTo(channel, text, world) == Deliver(channel, Trim(text), Dispatch(words, world), world);
    assert EmptyBetween(Answers(world.store, filter, 0), 0, MaxAttempts);
    var step := Rq(filter, 0, world);
    assert step.reply == Returned(Err(NoResult));
    assert Dispatch(words, world) == Chain([step]);
  }
}
