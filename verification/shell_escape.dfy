/**
 * `shell_escape` of pre_commit/util.py: wrap a string in single quotes and
 * turn every embedded single quote into the five characters '"'"' (close
 * the single-quoted run, emit the quote inside double quotes, reopen).
 *
 * Its meaning is given by `Unquote`, a conservative model of POSIX quote
 * removal (sections 2.2.1 to 2.2.3 of the Shell Command Language, IEEE Std
 * 1003.1) for one word: the main lemma is that unquoting the escaped text
 * gives back exactly the original string.
 */
module ShellEscaping {
  import opened Wrappers

  const SingleQuote: char := '\''
  const DoubleQuote: char := '"'
  const Backslash: char := '\\'
  const Nul: char := '\0'

  /** What each embedded single quote becomes.  (pre-commit's `util.py` calls `.strip()`
      on this literal; it holds no white space, so that call changes nothing.) */
  const QuoteEscape: string := "'\"'\"'"

  /** How many times `c` occurs in `s`. */
  function Occurrences(s: string, c: char): (n: nat)
    ensures n <= |s|
    ensures n == 0 <==> c !in s
  {
    if s == [] then 0
    else (if s[0] == c then 1 else 0) + Occurrences(s[1..], c)
  }

  /** Python's `s.replace(from, to)` for a one-character `from`. */
  function ReplaceChar(s: string, from: char, to: string): (r: string)
    ensures |r| == |s| + (|to| - 1) * Occurrences(s, from)
    ensures from !in s ==> r == s
    ensures forall i :: 0 <= i < |r| ==> (r[i] in s && r[i] != from) || r[i] in to
  {
    if s == [] then []
    else
      var head := if s[0] == from then to else [s[0]];
      var tail := ReplaceChar(s[1..], from, to);
      assert forall c :: c in s[1..] ==> c in s;
      var n := Occurrences(s[1..], from);
      MulSucc(|to| - 1, n);
      assert Occurrences(s, from) == if s[0] == from then n + 1 else n;
      head + tail
  }

  /** `k * (n + 1) == k * n + k`, kept apart so that the length proof stays linear. */
  lemma MulSucc(k: int, n: nat)
    ensures k * (n + 1) == k * n + k
  {
  }

  /** Replacement works character by character: replacing in a concatenation
      is concatenating the replacements, and one character becomes `to` exactly
      when it is `from`. */
  lemma {:induction false} ReplaceCharConcat(a: string, b: string, from: char, to: string, c: char)
    ensures ReplaceChar(a + b, from, to) == ReplaceChar(a, from, to) + ReplaceChar(b, from, to)
    ensures ReplaceChar([c], from, to) == if c == from then to else [c]
    decreases |a|
  {
    assert [c][1..] == [];
    if a == [] {
      assert a + b == b;
    } else {
      var head := if a[0] == from then to else [a[0]];
      assert (a + b)[0] == a[0] && (a + b)[1..] == a[1..] + b;
      ReplaceCharConcat(a[1..], b, from, to, c);
      calc {
        ReplaceChar(a + b, from, to);
        head + ReplaceChar(a[1..] + b, from, to);
        head + (ReplaceChar(a[1..], from, to) + ReplaceChar(b, from, to));
        (head + ReplaceChar(a[1..], from, to)) + ReplaceChar(b, from, to);
        ReplaceChar(a, from, to) + ReplaceChar(b, from, to);
      }
    }
  }

  /** Replacing each single quote by the escape loses nothing: different
      strings give different replaced texts. */
  lemma {:induction false} ReplaceQuotesInjective(a: string, b: string)
    ensures ReplaceChar(a, SingleQuote, QuoteEscape) == ReplaceChar(b, SingleQuote, QuoteEscape) ==> a == b
    decreases |a|
  {
    var ra, rb := ReplaceChar(a, SingleQuote, QuoteEscape), ReplaceChar(b, SingleQuote, QuoteEscape);
    if ra == rb && a != [] && b != [] {
      var ta, tb := ReplaceChar(a[1..], SingleQuote, QuoteEscape), ReplaceChar(b[1..], SingleQuote, QuoteEscape);
      var ha := if a[0] == SingleQuote then QuoteEscape else [a[0]];
      var hb := if b[0] == SingleQuote then QuoteEscape else [b[0]];
      assert ra == ha + ta && rb == hb + tb;
      // The first character tells whether the string began with a quote.
      assert ra[0] == ha[0] && rb[0] == hb[0];
      assert (a[0] == SingleQuote) == (b[0] == SingleQuote);
      assert ha == hb;
      assert ta == ra[|ha|..] && tb == rb[|hb|..];
      ReplaceQuotesInjective(a[1..], b[1..]);
      assert a == [a[0]] + a[1..] && b == [b[0]] + b[1..];
    }
  }

  /** `shell_escape(arg)`. */
  function ShellEscape(arg: string): (r: string)
    ensures |r| >= 2 && r[0] == SingleQuote && r[|r| - 1] == SingleQuote
    ensures |r| == |arg| + 2 + 4 * Occurrences(arg, SingleQuote)
    ensures SingleQuote !in arg ==> r == [SingleQuote] + arg + [SingleQuote]
    ensures forall c :: c in r ==> c in arg || c == SingleQuote || c == DoubleQuote
  {
    [SingleQuote] + ReplaceChar(arg, SingleQuote, QuoteEscape) + [SingleQuote]
  }

  // ---------------------------------------------------------------------
  // POSIX quote removal, as the reference meaning of a quoted word
  // ---------------------------------------------------------------------

  /** Where the scanner is: before any character of the word, outside quotes
      within the word, inside '...', or inside "...". */
  datatype QuoteState = Start | Unquoted | InSingle | InDouble

  /** Why a text is not one literal shell word. */
  datatype UnquoteError =
    | Unterminated            // input ends inside quotes or after a lone backslash
    | WordBreak(c: char)      // an unquoted blank or operator character ends the word
    | NeedsQuoting(c: char)   // an unquoted (or double-quoted) character that triggers expansion
    | NulCharacter            // a NUL, which no shell word or argument can carry
    | NoWord                  // the text holds no word at all (it is empty or only line continuations)

  /** Unquoted characters that end a word or start an operator (section 2.2 of IEEE Std 1003.1). */
  predicate IsWordBreak(c: char) {
    c in " \t\n|&;<>()"
  }

  /** Unquoted characters that may trigger an expansion, a pattern or a comment
      (section 2.2 of IEEE Std 1003.1).
      The model refuses them rather than guessing their position-dependent meaning. */
  predicate IsSpecialUnquoted(c: char) {
    c in "$`*?[#~=%"
  }

  /** Characters a backslash escapes inside double quotes (section 2.2.3 of IEEE Std 1003.1). */
  predicate IsDoubleQuoteEscapable(c: char) {
    c in "$`\"\\\n"
  }

  /** Puts `p` in front of a successful result; a failure passes through. */
  function Prepend(p: string, r: Result<string, UnquoteError>): Result<string, UnquoteError>
  {
    match r
    case Success(v) => Success(p + v)
    case Failure(e) => Failure(e)
  }

  /** Quote removal of `s`, scanned from state `st`, as one word.  A whole
      text is scanned from `Start`: a quote or a literal character opens the
      word, so `''` is one empty word while the empty text is no word. */
  function Unquote(s: string, st: QuoteState): (r: Result<string, UnquoteError>)
    ensures r.Success? ==> |r.value| <= |s| && Nul !in r.value
    decreases |s|
  {
    if s == [] then
      match st
      case Start => Failure(NoWord)
      case Unquoted => Success([])
      case _ => Failure(Unterminated)
    else
      var c, rest := s[0], s[1..];
      if c == Nul then Failure(NulCharacter)
      else match st
      case Start | Unquoted =>
        if c == SingleQuote then Unquote(rest, InSingle)
        else if c == DoubleQuote then Unquote(rest, InDouble)
        else if c == Backslash then
          if rest == [] then Failure(Unterminated)
          else if rest[0] == Nul then Failure(NulCharacter)
          else if rest[0] == '\n' then Unquote(rest[1..], st)   // line continuation opens no word
          else Prepend([rest[0]], Unquote(rest[1..], Unquoted))
        else if IsWordBreak(c) then Failure(WordBreak(c))
        else if IsSpecialUnquoted(c) then Failure(NeedsQuoting(c))
        else Prepend([c], Unquote(rest, Unquoted))
      case InSingle =>
        if c == SingleQuote then Unquote(rest, Unquoted)
        else Prepend([c], Unquote(rest, InSingle))
      case InDouble =>
        if c == DoubleQuote then Unquote(rest, Unquoted)
        else if c == Backslash && rest != [] && IsDoubleQuoteEscapable(rest[0]) then
          if rest[0] == '\n' then Unquote(rest[1..], InDouble)
          else Prepend([rest[0]], Unquote(rest[1..], InDouble))
        else if c == '$' || c == '`' then Failure(NeedsQuoting(c))
        else Prepend([c], Unquote(rest, InDouble))
  }

  /** Prepending twice is prepending the concatenation. */
  lemma PrependPrepend(a: string, b: string, r: Result<string, UnquoteError>)
    ensures Prepend(a, Prepend(b, r)) == Prepend(a + b, r)
  {
    if r.Success? {
      assert a + (b + r.value) == (a + b) + r.value;
    }
  }

  /** Inside a single-quoted run, the escape '"'"' stands for one single quote
      and leaves the scanner inside the run. */
  lemma UnquoteQuoteEscape(tail: string)
    ensures Unquote(QuoteEscape + tail, InSingle) == Prepend([SingleQuote], Unquote(tail, InSingle))
  {
    var x := QuoteEscape + tail;
    // ' closes the run, " opens a double-quoted one holding ', " closes it, ' reopens.
    assert x[1..] == ['"', '\'', '"', '\''] + tail;
    assert x[1..][1..] == ['\'', '"', '\''] + tail;
    assert x[1..][1..][1..] == ['"', '\''] + tail;
    assert x[1..][1..][1..][1..] == ['\''] + tail;
    assert x[1..][1..][1..][1..][1..] == tail;
    calc {
      Unquote(x, InSingle);
      Unquote(x[1..], Unquoted);
      Unquote(x[1..][1..], InDouble);
      Prepend([SingleQuote], Unquote(x[1..][1..][1..], InDouble));
      Prepend([SingleQuote], Unquote(x[1..][1..][1..][1..], Unquoted));
      Prepend([SingleQuote], Unquote(tail, InSingle));
    }
  }

  /** Inside a single-quoted run, any character but a quote or NUL stands for itself. */
  lemma UnquoteSingleLiteral(c: char, tail: string)
    requires c != SingleQuote && c != Nul
    ensures Unquote([c] + tail, InSingle) == Prepend([c], Unquote(tail, InSingle))
  {
    assert ([c] + tail)[1..] == tail;
  }

  /** Inside a single-quoted run, the replaced text of `s` yields exactly `s`
      and leaves the scanner inside the run; a NUL in `s` makes it fail. */
  lemma {:induction false} UnquoteReplaced(s: string, t: string)
    ensures Unquote(ReplaceChar(s, SingleQuote, QuoteEscape) + t, InSingle)
         == if Nul in s then Failure(NulCharacter) else Prepend(s, Unquote(t, InSingle))
    decreases |s|
  {
    var x := ReplaceChar(s, SingleQuote, QuoteEscape) + t;
    if s == [] {
      assert x == t;
      match Unquote(t, InSingle)
      case Success(v) => assert [] + v == v;
      case Failure(_) =>
    } else if s[0] == Nul {
      assert x[0] == Nul;
    } else {
      var tail := ReplaceChar(s[1..], SingleQuote, QuoteEscape) + t;
      assert s == [s[0]] + s[1..];
      assert Nul in s <==> Nul in s[1..];
      if s[0] == SingleQuote {
        assert x == QuoteEscape + tail;
        UnquoteQuoteEscape(tail);
      } else {
        assert x == [s[0]] + tail;
        UnquoteSingleLiteral(s[0], tail);
      }
      assert Unquote(x, InSingle) == Prepend([s[0]], Unquote(tail, InSingle));
      UnquoteReplaced(s[1..], t);
      PrependPrepend([s[0]], s[1..], Unquote(t, InSingle));
    }
  }

  /** Round trip: POSIX quote removal of `shell_escape(s)` is one word equal to `s`;
      a string holding a NUL is refused, since no shell word can carry one. */
  lemma {:induction false} UnquoteShellEscape(s: string)
    ensures Unquote(ShellEscape(s), Start) == if Nul in s then Failure(NulCharacter) else Success(s)
  {
    var body := ReplaceChar(s, SingleQuote, QuoteEscape);
    var x := ShellEscape(s);
    assert x == [SingleQuote] + (body + [SingleQuote]);
    assert x[1..] == body + [SingleQuote];
    var closing: string := [SingleQuote];
    assert closing[1..] == [];
    calc {
      Unquote(x, Start);
      Unquote(body + closing, InSingle);
      { UnquoteReplaced(s, closing); }
      if Nul in s then Failure(NulCharacter) else Prepend(s, Unquote(closing, InSingle));
      { assert Unquote(closing, InSingle) == Unquote([], Unquoted); }
      if Nul in s then Failure(NulCharacter) else Prepend(s, Success([]));
    }
    assert s + [] == s;
  }

  /** Different strings escape differently. */
  lemma ShellEscapeInjective(a: string, b: string)
    ensures ShellEscape(a) == ShellEscape(b) ==> a == b
  {
    var ea, eb := ShellEscape(a), ShellEscape(b);
    if ea == eb {
      assert ea[1..|ea| - 1] == ReplaceChar(a, SingleQuote, QuoteEscape);
      assert eb[1..|eb| - 1] == ReplaceChar(b, SingleQuote, QuoteEscape);
      ReplaceQuotesInjective(a, b);
    }
  }

  /** Replacing in `it's` rewrites its one quote and keeps the other characters. */
  lemma ReplaceQuotesIts()
    ensures ReplaceChar("it's", SingleQuote, QuoteEscape) == "it" + QuoteEscape + "s"
  {
    var its := "it's";
    assert its[1..] == "t's" && its[1..][1..] == "'s" && its[1..][1..][1..] == "s";
    assert "s"[1..] == [];
    assert ReplaceChar("s", SingleQuote, QuoteEscape) == "s";
    assert ReplaceChar("'s", SingleQuote, QuoteEscape) == QuoteEscape + "s";
    assert ReplaceChar("t's", SingleQuote, QuoteEscape) == "t" + QuoteEscape + "s";
  }

  /** The example `it's` escapes to 'it'"'"'s'. */
  lemma ItsEscaped()
    ensures ShellEscape("it's") == "'it'\"'\"'s'"
  {
    ReplaceQuotesIts();
  }

  /** ... and 'it'"'"'s' unquotes to `it's`. */
  lemma ItsUnquoted()
    ensures Unquote("'it'\"'\"'s'", Start) == Success("it's")
  {
    ItsEscaped();
    UnquoteShellEscape("it's");
  }

  /** The empty text and a lone line continuation are no word, while `''`,
      which `shell_escape` makes of the empty string, is one empty word. */
  lemma EmptyWord()
    ensures Unquote("", Start) == Failure(NoWord)
    ensures Unquote("\\\n", Start) == Failure(NoWord)
    ensures Unquote(ShellEscape(""), Start) == Success("")
  {
    assert "\\\n"[1..][1..] == [];
    UnquoteShellEscape("");
  }
}
