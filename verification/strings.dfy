/**
  The `str` operations the bot's command handling relies on: `trim`,
  `starts_with`, `find`, `split(' ')` and the joining done by `format!`.
  Strings are sequences of Unicode scalar values; Rust's byte offsets are
  replaced by character offsets.
 */
module Strings {
  import opened Options

  /** Rust's `char::is_whitespace`: the Unicode White_Space property. */
  predicate IsWhitespace(c: char) {
    || ('\t' <= c <= '\r')
    || c == ' '
    || c == '\U{0085}'
    || c == '\U{00A0}'
    || c == '\U{1680}'
    || ('\U{2000}' <= c <= '\U{200A}')
    || c == '\U{2028}'
    || c == '\U{2029}'
    || c == '\U{202F}'
    || c == '\U{205F}'
    || c == '\U{3000}'
  }

  ghost predicate AllWhitespace(s: string) {
    forall i :: 0 <= i < |s| ==> IsWhitespace(s[i])
  }

  predicate StartsWith(s: string, prefix: string) {
    |prefix| <= |s| && s[..|prefix|] == prefix
  }

  /** `str::trim_start`: drops the leading whitespace and nothing else. */
  function TrimStart(s: string): (r: string)
    ensures |r| <= |s| && r == s[|s| - |r|..]
    ensures AllWhitespace(s[..|s| - |r|])
    ensures r == [] || !IsWhitespace(r[0])
    decreases |s|
  {
    if |s| > 0 && IsWhitespace(s[0]) then
      var r := TrimStart(s[1..]);
      assert s[..|s| - |r|] == [s[0]] + s[1..][..|s| - 1 - |r|];
      r
    else s
  }

  /** `str::trim_end`: drops the trailing whitespace and nothing else. */
  function TrimEnd(s: string): (r: string)
    ensures |r| <= |s| && r == s[..|r|]
    ensures AllWhitespace(s[|r|..])
    ensures r == [] || !IsWhitespace(r[|r| - 1])
    decreases |s|
  {
    if |s| > 0 && IsWhitespace(s[|s| - 1]) then
      var r := TrimEnd(s[..|s| - 1]);
      assert s[|r|..] == s[..|s| - 1][|r|..] + [s[|s| - 1]];
      r
    else s
  }

  /** `r` sits at index `i` of `s` with only whitespace before and after it. */
  ghost predicate StripsAt(s: string, r: string, i: nat) {
    i + |r| <= |s| && s[i..i + |r|] == r && AllWhitespace(s[..i]) && AllWhitespace(s[i + |r|..])
  }

  /** `r` is `s` with some whitespace removed from each end. */
  ghost predicate Strips(s: string, r: string) {
    exists i: nat :: StripsAt(s, r, i)
  }

  /** `str::trim`: the infix of `s` left after removing whitespace at both ends. */
  function Trim(s: string): (r: string)
    ensures Strips(s, r)
    ensures r == [] || (!IsWhitespace(r[0]) && !IsWhitespace(r[|r| - 1]))
  {
    TrimBothEnds(s);
    TrimEnd(TrimStart(s))
  }

  /** Trimming the front, then the back, leaves an infix with whitespace around it. */
  lemma TrimBothEnds(s: string)
    ensures StripsAt(s, TrimEnd(TrimStart(s)), |s| - |TrimStart(s)|)
  {
    var t := TrimStart(s);
    var r := TrimEnd(t);
    var i := |s| - |t|;
    SuffixSlices(s, t, i, |r|);
    assert s[i..i + |r|] == r;
    assert AllWhitespace(s[..i]);
    assert AllWhitespace(s[i + |r|..]);
    assert StripsAt(s, r, i);
  }

  /** Slices of a suffix `t == s[i..]` are slices of `s` shifted by `i`. */
  lemma SuffixSlices(s: string, t: string, i: nat, n: nat)
    requires i <= |s| && t == s[i..] && n <= |t|
    ensures s[i..i + n] == t[..n] && s[i + n..] == t[n..]
  {
  }

  /** Once the first non-whitespace character is known, `TrimStart` starts there. */
  lemma {:induction false} TrimStartAt(s: string, i: nat)
    requires i <= |s| && AllWhitespace(s[..i])
    requires i == |s| || !IsWhitespace(s[i])
    ensures TrimStart(s) == s[i..]
    decreases i
  {
    if i > 0 {
      assert IsWhitespace(s[..i][0]);
      assert s[1..][..i - 1] == s[1..i];
      TrimStartAt(s[1..], i - 1);
      assert s[1..][i - 1..] == s[i..];
    }
  }

  /** Once the last non-whitespace character is known, `TrimEnd` stops there. */
  lemma {:induction false} TrimEndAt(s: string, n: nat)
    requires n <= |s| && AllWhitespace(s[n..])
    requires n == 0 || !IsWhitespace(s[n - 1])
    ensures TrimEnd(s) == s[..n]
    decreases |s| - n
  {
    if n < |s| {
      assert IsWhitespace(s[n..][|s| - 1 - n]);
      var t := s[..|s| - 1];
      assert t[n..] == s[n..|s| - 1];
      assert t[..n] == s[..n];
      TrimEndAt(t, n);
    }
  }

  /** A string whose two halves are all whitespace is all whitespace. */
  lemma AllWhitespaceJoin(s: string, i: nat)
    requires i <= |s| && AllWhitespace(s[..i]) && AllWhitespace(s[i..])
    ensures AllWhitespace(s)
  {
    forall k | 0 <= k < |s| ensures IsWhitespace(s[k]) {
      if k < i {
        assert s[..i][k] == s[k];
      } else {
        assert s[i..][k - i] == s[k];
      }
    }
  }

  /** `Trim` of a string that is whitespace only is empty. */
  lemma TrimAllWhitespace(s: string)
    requires AllWhitespace(s)
    ensures Trim(s) == []
  {
    assert s[..|s|] == s;
    TrimStartAt(s, |s|);
    TrimEndAt([], 0);
  }

  /** `Trim` recovers a non-empty infix with non-whitespace ends and whitespace around it. */
  lemma TrimInfix(s: string, r: string, i: nat)
    requires StripsAt(s, r, i)
    requires r != [] && !IsWhitespace(r[0]) && !IsWhitespace(r[|r| - 1])
    ensures Trim(s) == r
  {
    assert s[i] == r[0];
    TrimStartAt(s, i);
    var t := s[i..];
    assert t[|r|..] == s[i + |r|..];
    assert t[..|r|] == r;
    assert t[|r| - 1] == r[|r| - 1];
    TrimEndAt(t, |r|);
  }

  /** `Trim` is the only whitespace-stripped infix whose ends are not whitespace. */
  lemma TrimUnique(s: string, r: string)
    requires Strips(s, r)
    requires r == [] || (!IsWhitespace(r[0]) && !IsWhitespace(r[|r| - 1]))
    ensures Trim(s) == r
  {
    var i: nat :| StripsAt(s, r, i);
    if r == [] {
      AllWhitespaceJoin(s, i);
      TrimAllWhitespace(s);
    } else {
      TrimInfix(s, r, i);
    }
  }

  /** Trimming a trimmed string changes nothing. */
  lemma TrimIdempotent(s: string)
    ensures Trim(Trim(s)) == Trim(s)
  {
    var r := Trim(s);
    assert r[0..|r|] == r;
    assert StripsAt(r, r, 0) by {
      assert r[..0] == [] && r[|r|..] == [];
    }
    TrimUnique(r, r);
  }

  /** `str::find` for one character: the index of its first occurrence. */
  function Find(s: string, c: char): (r: Option<nat>)
    ensures r.None? <==> c !in s
    ensures r.Some? ==> r.value < |s| && s[r.value] == c && c !in s[..r.value]
  {
    if |s| == 0 then None
    else if s[0] == c then Some(0)
    else match Find(s[1..], c)
      case None => None
      case Some(i) =>
        assert s[..i + 1] == [s[0]] + s[1..][..i];
        Some(i + 1)
  }

  /** The first `c` in `p + [c] + t` is the one right after `p` when `p` has none. */
  lemma FindAfter(p: string, c: char, t: string)
    requires c !in p
    ensures Find(p + [c] + t, c) == Some(|p|)
  {
    var s := p + [c] + t;
    assert s[|p|] == c;
    assert s[..|p|] == p;
    assert c in s[..|p| + 1];
    var v := Find(s, c).value;
    assert s[..v] + s[v..] == s;
  }

  /** The inverse of `Split`: the parts with one separator between neighbours. */
  function Join(parts: seq<string>, sep: char): string
    decreases |parts|
  {
    if |parts| == 0 then []
    else if |parts| == 1 then parts[0]
    else parts[0] + [sep] + Join(parts[1..], sep)
  }

  /** Three parts joined: what `format!("{} {} {}", a, b, c)` builds for a space. */
  lemma JoinThree(a: string, b: string, c: string, sep: char)
    ensures Join([a, b, c], sep) == a + [sep] + b + [sep] + c
  {
    assert [a, b, c][1..] == [b, c];
    assert [b, c][1..] == [c];
    assert Join([b, c], sep) == b + [sep] + c;
    assert Join([a, b, c], sep) == a + [sep] + (b + [sep] + c);
  }

  /** `str::split` on one character: the pieces between separators, empty pieces kept. */
  function Split(s: string, sep: char): (parts: seq<string>)
    ensures |parts| >= 1
    ensures forall i :: 0 <= i < |parts| ==> sep !in parts[i]
    ensures Join(parts, sep) == s
    decreases |s|
  {
    match Find(s, sep)
    case None => [s]
    case Some(i) =>
      var rest := Split(s[i + 1..], sep);
      var parts := [s[..i]] + rest;
      assert parts[1..] == rest;
      assert s == s[..i] + [sep] + s[i + 1..];
      parts
  }

  /** Splitting a join of separator-free parts gives the parts back. */
  lemma {:induction false} SplitJoin(parts: seq<string>, sep: char)
    requires |parts| >= 1
    requires forall i :: 0 <= i < |parts| ==> sep !in parts[i]
    ensures Split(Join(parts, sep), sep) == parts
    decreases |parts|
  {
    if |parts| > 1 {
      var rest := parts[1..];
      FindAfter(parts[0], sep, Join(rest, sep));
      var s := Join(parts, sep);
      assert s[|parts[0]| + 1..] == Join(rest, sep);
      assert s[..|parts[0]|] == parts[0];
      SplitJoin(rest, sep);
      assert parts == [parts[0]] + rest;
    }
  }

  /** The `filter(|w| !w.is_empty())` step: keeps the non-empty pieces in order. */
  function DropEmpty(parts: seq<string>): (r: seq<string>)
    ensures |r| <= |parts|
    ensures forall i :: 0 <= i < |r| ==> r[i] != []
    ensures forall w :: w != [] ==> multiset(r)[w] == multiset(parts)[w]
    decreases |parts|
  {
    if |parts| == 0 then []
    else
      var rest := DropEmpty(parts[1..]);
      assert parts == [parts[0]] + parts[1..];
      if parts[0] == [] then rest
      else [parts[0]] + rest
  }

  /** The filter works piece by piece, so it keeps the order of the pieces. */
  lemma {:induction false} DropEmptyAppend(a: seq<string>, b: seq<string>)
    ensures DropEmpty(a + b) == DropEmpty(a) + DropEmpty(b)
    decreases |a|
  {
    if |a| > 0 {
      assert (a + b)[1..] == a[1..] + b;
      DropEmptyAppend(a[1..], b);
    } else {
      assert a + b == b;
    }
  }

  /** Nothing is dropped from a list without empty strings. */
  lemma {:induction false} DropEmptyKeeps(parts: seq<string>)
    requires forall i :: 0 <= i < |parts| ==> parts[i] != []
    ensures DropEmpty(parts) == parts
    decreases |parts|
  {
    if |parts| > 0 {
      DropEmptyKeeps(parts[1..]);
      assert parts == [parts[0]] + parts[1..];
    }
  }

  /** The words of a command line: split on single spaces, empty tokens dropped. */
  function Words(s: string): (ws: seq<string>)
    ensures forall i :: 0 <= i < |ws| ==> ws[i] != [] && ' ' !in ws[i]
    ensures forall w :: w != [] ==> multiset(ws)[w] == multiset(Split(s, ' '))[w]
  {
    var parts := Split(s, ' ');
    var ws := DropEmpty(parts);
    assert forall i :: 0 <= i < |ws| ==> ws[i] in multiset(ws);
    assert forall i :: 0 <= i < |ws| ==> ws[i] in multiset(parts);
    ws
  }

  /** Joining two non-empty lists of parts puts one separator between them. */
  lemma {:induction false} JoinAppend(x: seq<string>, y: seq<string>, sep: char)
    requires |x| >= 1 && |y| >= 1
    ensures Join(x + y, sep) == Join(x, sep) + [sep] + Join(y, sep)
    decreases |x|
  {
    if |x| > 1 {
      assert (x + y)[1..] == x[1..] + y;
      JoinAppend(x[1..], y, sep);
    } else {
      assert (x + y)[1..] == y;
    }
  }

  /** Splitting at one separator splits each side separately. */
  lemma SplitAppend(a: string, b: string, sep: char)
    ensures Split(a + [sep] + b, sep) == Split(a, sep) + Split(b, sep)
  {
    var pa, pb := Split(a, sep), Split(b, sep);
    JoinAppend(pa, pb, sep);
    assert forall i :: 0 <= i < |pa + pb| ==> sep !in (pa + pb)[i] by {
      forall i | 0 <= i < |pa + pb|
        ensures sep !in (pa + pb)[i]
      {
        if i >= |pa| {
          assert (pa + pb)[i] == pb[i - |pa|];
        }
      }
    }
    SplitJoin(pa + pb, sep);
  }

  /** The words of a line are the words on each side of any one of its spaces;
      with `WordsOfWord`, this fixes `Words` on every line, whatever its
      spacing. */
  lemma WordsAppend(a: string, b: string)
    ensures Words(a + " " + b) == Words(a) + Words(b)
  {
    SplitAppend(a, b, ' ');
    DropEmptyAppend(Split(a, ' '), Split(b, ' '));
  }

  /** A stretch without spaces is one word, or none when it is empty. */
  lemma WordsOfWord(w: string)
    requires ' ' !in w
    ensures Words(w) == if w == [] then [] else [w]
  {
    assert Find(w, ' ') == None;
    assert Split(w, ' ') == [w];
  }

  /** Tokenising a line made of words and single spaces gives the words back. */
  lemma WordsJoin(ws: seq<string>)
    requires forall i :: 0 <= i < |ws| ==> ws[i] != [] && ' ' !in ws[i]
    ensures Words(Join(ws, ' ')) == ws
  {
    if |ws| == 0 {
      assert Find([], ' ') == None;
    } else {
      SplitJoin(ws, ' ');
      DropEmptyKeeps(ws);
    }
  }

  /** A line whose first character is not a space has a first word, and that
      word starts with the line's first character. */
  lemma FirstWord(s: string)
    requires |s| > 0 && s[0] != ' '
    ensures |Words(s)| > 0 && Words(s)[0] != [] && Words(s)[0][0] == s[0]
  {
    var parts := Split(s, ' ');
    var f := Find(s, ' ');
    var first := if f.Some? then s[..f.value] else s;
    if f.Some? {
      assert f.value != 0;
      assert parts[0] == first;
    }
    assert parts[0] == first && first != [] && first[0] == s[0];
    assert parts == [parts[0]] + parts[1..];
    assert DropEmpty(parts) == [first] + DropEmpty(parts[1..]);
  }
}
