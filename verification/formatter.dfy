/**
  The reply formatter: the closure inside `dispatch` that turns a stored
  quote into the text the bot says. A quote logged as `<nick> text` becomes
  the "said" glyph and the text; one logged as `* nick action` becomes a
  dancer glyph, picked by a coin flip, and the action; anything else is
  said as stored. On two malformed shapes the Rust code slices past the end
  of the string or unwraps a missing space, and panics: the formatter's
  result is `None` exactly on those quotes.
 */
module Formatter {
  import opened Options
  import opened Strings

  /** The glyph for a quote of the form `<nick> text`. */
  const Said: string := "\U{25C7}"

  /** The two glyphs for a quote of the form `* nick action`. */
  const Dancer: string := "\U{1F483}"
  const ManDancing: string := "\U{1F57A}"

  /** The dancer glyph the coin flip picks. */
  function Actor(coin: bool): string {
    if coin then Dancer else ManDancing
  }

  /** A quote of the form `<nick> text`: starts with `<` and has a `>` somewhere. */
  predicate IsSaid(quote: string) {
    StartsWith(quote, "<") && '>' in quote
  }

  /** A quote of the form `* nick action`. */
  predicate IsAction(quote: string) {
    StartsWith(quote, "* ")
  }

  /** The quotes the Rust slicing cannot handle: a `<` quote whose first
      `>` is its last character, and an action quote with no space after the
      nickname. */
  predicate Malformed(quote: string) {
    || (IsSaid(quote) && '>' !in quote[..|quote| - 1])
    || (!IsSaid(quote) && IsAction(quote) && ' ' !in quote[2..])
  }

  /** The quote as the bot says it, or `None` where the Rust code panics. */
  function FormatQuote(quote: string, coin: bool): (r: Option<string>)
    ensures r.None? <==> Malformed(quote)
    ensures !IsSaid(quote) && !IsAction(quote) ==> r == Some(quote)
    ensures IsSaid(quote) && r.Some? ==> StartsWith(r.value, Said + " ")
    ensures !IsSaid(quote) && IsAction(quote) && r.Some? ==> StartsWith(r.value, Actor(coin) + " ")
  {
    if IsSaid(quote) then
      var p := Find(quote, '>').value;
      assert p + 2 > |quote| <==> '>' !in quote[..|quote| - 1] by {
        if p + 1 < |quote| {
          assert quote[..|quote| - 1][p] == '>';
        } else {
          assert quote[..|quote| - 1] == quote[..p];
        }
      }
      if p + 2 <= |quote| then Some(Said + " " + quote[p + 2..]) else None
    else if IsAction(quote) then
      match Find(quote[2..], ' ')
      case None => None
      case Some(j) => Some(Actor(coin) + " " + quote[j + 3..])
    else
      Some(quote)
  }

  /** A well-formed `<nick>` quote: the nickname and the character after `>` are
      dropped, the rest of the text is kept behind the "said" glyph. */
  lemma SaidShape(nick: string, gap: char, text: string, coin: bool)
    requires '>' !in nick
    ensures FormatQuote("<" + nick + ">" + [gap] + text, coin) == Some(Said + " " + text)
  {
    var q := "<" + nick + ">" + [gap] + text;
    assert q == ("<" + nick) + ['>'] + ([gap] + text);
    FindAfter("<" + nick, '>', [gap] + text);
    assert q[..1] == "<";
    assert q[|nick| + 3..] == text;
  }

  /** Every `<` quote the Rust code does not panic on has that shape. */
  lemma SaidDecomposes(quote: string)
    requires IsSaid(quote) && !Malformed(quote)
    ensures exists nick: string, gap: char, text: string ::
      '>' !in nick && quote == "<" + nick + ">" + [gap] + text
  {
    var p := Find(quote, '>').value;
    assert p != 0 by { assert quote[0] == '<'; }
    assert forall i :: 0 <= i < p ==> quote[i] != '>' by {
      forall i | 0 <= i < p ensures quote[i] != '>' {
        assert quote[..p][i] == quote[i];
      }
    }
    var k :| 0 <= k < |quote| - 1 && quote[..|quote| - 1][k] == '>';
    assert quote[k] == '>';
    var nick, gap, text := quote[1..p], quote[p + 1], quote[p + 2..];
    assert quote[..p] == "<" + nick;
    assert quote == "<" + nick + ">" + [gap] + text;
  }

  /** A well-formed action quote: the `* nick ` part is replaced by the chosen glyph. */
  lemma ActionShape(nick: string, text: string, coin: bool)
    requires ' ' !in nick
    ensures FormatQuote("* " + nick + " " + text, coin) == Some(Actor(coin) + " " + text)
  {
    var q := "* " + nick + " " + text;
    assert q[..2] == "* ";
    assert !IsSaid(q) by {
      assert q[0] != '<';
    }
    assert q[2..] == nick + [' '] + text;
    FindAfter(nick, ' ', text);
    assert Find(q[2..], ' ') == Some(|nick|);
    assert q[|nick| + 3..] == text;
  }

  /** Every action quote the Rust code does not panic on has that shape. */
  lemma ActionDecomposes(quote: string)
    requires !IsSaid(quote) && IsAction(quote) && !Malformed(quote)
    ensures exists nick: string, text: string ::
      ' ' !in nick && quote == "* " + nick + " " + text
  {
    var j := Find(quote[2..], ' ').value;
    var nick, text := quote[2..][..j], quote[j + 3..];
    assert quote[..2] == "* ";
    assert quote == "* " + nick + " " + text;
  }

  /** The coin picks between exactly two different replies to an action quote. */
  lemma ActionTwoOutcomes(quote: string)
    requires !IsSaid(quote) && IsAction(quote) && !Malformed(quote)
    ensures FormatQuote(quote, true) != FormatQuote(quote, false)
    ensures forall coin: bool :: FormatQuote(quote, coin) in {FormatQuote(quote, true), FormatQuote(quote, false)}
  {
    var a, b := FormatQuote(quote, true).value, FormatQuote(quote, false).value;
    assert a[0] == Dancer[0] by { assert StartsWith(a, Dancer + " "); }
    assert b[0] == ManDancing[0] by { assert StartsWith(b, ManDancing + " "); }
  }

  /** A quote that is only `<nick>` makes `dispatch` slice past its end. */
  lemma BareNickPanics(coin: bool)
    ensures FormatQuote("<bob>", coin).None?
  {
    assert IsSaid("<bob>") by { assert "<bob>"[4] == '>'; }
    assert "<bob>"[..4] == "<bob";
  }

  /** An action quote with no space after the nickname makes `dispatch` unwrap nothing. */
  lemma BareActionPanics(coin: bool)
    ensures FormatQuote("* bob", coin).None?
  {
    assert "* bob"[..2] == "* ";
    assert "* bob"[2..] == "bob";
  }
}
