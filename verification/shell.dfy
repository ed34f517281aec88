/** How a POSIX shell splits a command line into words, restricted to what
    the handler's commands use: blanks separate words, single quotes protect
    everything up to the next single quote, and a backslash outside quotes
    protects the next character. Redirection operators such as `<` or `2>&1`
    are kept as ordinary words here; a real shell interprets them, but they
    still stand apart from their neighbours.

    The lexer is the partner of `Php.EscapeShellArg`: an escaped value always
    reads back as exactly the value, however many quotes, blanks or other
    metacharacters it holds. */
module Shell {
  import opened Php
  import opened Wrappers

  /** Where the lexer stands: between words, inside an unquoted stretch of
      a word, or inside single quotes. */
  datatype LexState = Between | InWord | InQuote

  /** Splits `s` into words. `cur` is the word being read and `acc` the words
      already complete. An unterminated quote or a trailing backslash is a
      syntax error (`None`). */
  function Lex(s: string, st: LexState, cur: string, acc: seq<string>): Option<seq<string>>
    decreases |s|
  {
    if s == [] then
      match st
      case Between => Some(acc)
      case InWord => Some(acc + [cur])
      case InQuote => None
    else
      var ch, t := s[0], s[1..];
      if st == InQuote then
        if ch == '\'' then Lex(t, InWord, cur, acc) else Lex(t, InQuote, cur + [ch], acc)
      else if ch == ' ' then
        Lex(t, Between, [], if st == InWord then acc + [cur] else acc)
      else if ch == '\'' then
        Lex(t, InQuote, cur, acc)
      else if ch == '\\' then
        if t == [] then None else Lex(t[1..], InWord, cur + [t[0]], acc)
      else
        Lex(t, InWord, cur + [ch], acc)
  }

  /** The words of a whole command line. */
  function Words(s: string): Option<seq<string>> {
    Lex(s, Between, [], [])
  }

  /** A character the lexer treats specially outside quotes. */
  predicate IsSpecial(ch: char) {
    ch == ' ' || ch == '\'' || ch == '\\'
  }

  /** Text that can go on a command line unescaped and still read back as
      itself. */
  predicate Plain(s: string) {
    forall i :: 0 <= i < |s| ==> !IsSpecial(s[i])
  }

  /** A lexer state outside quotes, with no partial word when between words. */
  predicate Outside(st: LexState, cur: string) {
    st == InWord || (st == Between && cur == [])
  }

  /** Plain text continues the current word with itself. */
  lemma {:induction false} LexPlain(p: string, rest: string, st: LexState, cur: string, acc: seq<string>)
    requires Plain(p) && Outside(st, cur)
    ensures Lex(p + rest, st, cur, acc) == Lex(rest, if p == [] then st else InWord, cur + p, acc)
    decreases |p|
  {
    if p == [] {
      assert p + rest == rest && cur + p == cur;
    } else {
      assert (p + rest)[1..] == p[1..] + rest;
      assert !IsSpecial(p[0]);
      LexPlain(p[1..], rest, InWord, cur + [p[0]], acc);
      assert cur + [p[0]] + p[1..] == cur + p;
    }
  }

  /** Inside quotes, an ordinary character is added to the word. */
  lemma QuotedCharStep(ch: char, t: string, cur: string, acc: seq<string>)
    requires ch != '\''
    ensures Lex([ch] + t, InQuote, cur, acc) == Lex(t, InQuote, cur + [ch], acc)
  {
    assert ([ch] + t)[0] == ch && ([ch] + t)[1..] == t;
  }

  /** Inside quotes, the four characters `'\''` close the quote, add a
      literal quote to the word and reopen the quote. */
  lemma EscapedQuoteStep(t: string, cur: string, acc: seq<string>)
    ensures Lex("'\\''" + t, InQuote, cur, acc) == Lex(t, InQuote, cur + "'", acc)
  {
    var s, s1, s3 := "'\\''" + t, "\\''" + t, "'" + t;
    assert s[0] == '\'' && s[1..] == s1;
    assert Lex(s, InQuote, cur, acc) == Lex(s1, InWord, cur, acc);
    assert s1[0] == '\\' && s1[1..] == "'" + s3 && s1[1..][0] == '\'' && s1[1..][1..] == s3;
    assert Lex(s1, InWord, cur, acc) == Lex(s3, InWord, cur + "'", acc);
    assert s3[0] == '\'' && s3[1..] == t;
    assert Lex(s3, InWord, cur + "'", acc) == Lex(t, InQuote, cur + "'", acc);
  }

  /** Inside quotes, the escaped body followed by the closing quote reads
      back as exactly the original value and leaves the lexer in the word. */
  lemma {:induction false} LexQuoted(x: string, rest: string, cur: string, acc: seq<string>)
    ensures Lex(EscapeQuotes(x) + "'" + rest, InQuote, cur, acc) == Lex(rest, InWord, cur + x, acc)
    decreases |x|
  {
    if x == [] {
      assert EscapeQuotes(x) + "'" + rest == "'" + rest;
      assert ("'" + rest)[0] == '\'' && ("'" + rest)[1..] == rest;
      assert cur + x == cur;
    } else {
      var e := EscapeQuotes(x[1..]);
      var head := if x[0] == '\'' then "'\\''" else [x[0]];
      assert EscapeQuotes(x) == head + e;
      Regroup(head, e, "'", rest);
      if x[0] == '\'' {
        EscapedQuoteStep(e + "'" + rest, cur, acc);
      } else {
        QuotedCharStep(x[0], e + "'" + rest, cur, acc);
      }
      LexQuoted(x[1..], rest, cur + [x[0]], acc);
      assert cur + [x[0]] + x[1..] == cur + x;
    }
  }

  /** An escaped value continues the current word with exactly the value. */
  lemma LexEscaped(x: string, rest: string, st: LexState, cur: string, acc: seq<string>)
    requires Outside(st, cur)
    ensures Lex(EscapeShellArg(x) + rest, st, cur, acc) == Lex(rest, InWord, cur + x, acc)
  {
    var s := EscapeShellArg(x) + rest;
    assert s == "'" + (EscapeQuotes(x) + "'" + rest);
    assert s[1..] == EscapeQuotes(x) + "'" + rest;
    LexQuoted(x, rest, cur, acc);
  }

  /** One escaped value on its own is one word, whatever it contains. */
  lemma EscapedIsOneWord(x: string)
    ensures Words(EscapeShellArg(x)) == Some([x])
  {
    LexEscaped(x, [], Between, [], []);
    assert EscapeShellArg(x) + [] == EscapeShellArg(x);
    assert [] + x == x;
    var none: seq<string> := [];
    assert none + [x] == [x];
  }

  /** A piece of a command-line argument: literal text written as is, or a
      value passed through `escapeshellarg`. */
  datatype Piece = Lit(text: string) | Quoted(value: string)

  /** How a piece is written on the command line. */
  function RenderPiece(p: Piece): string {
    match p
    case Lit(t) => t
    case Quoted(v) => EscapeShellArg(v)
  }

  /** What the piece contributes to the word the shell passes on. */
  function PieceValue(p: Piece): string {
    match p
    case Lit(t) => t
    case Quoted(v) => v
  }

  /** How an argument made of pieces is written. */
  function Render(a: seq<Piece>): string {
    if a == [] then [] else RenderPiece(a[0]) + Render(a[1..])
  }

  /** The word the argument is meant to become. */
  function ArgValue(a: seq<Piece>): string {
    if a == [] then [] else PieceValue(a[0]) + ArgValue(a[1..])
  }

  /** Every literal piece is plain. */
  predicate PlainPieces(a: seq<Piece>) {
    a == [] || ((a[0].Lit? ==> Plain(a[0].text)) && PlainPieces(a[1..]))
  }

  /** Some piece writes at least one character, so the argument opens a word. */
  predicate OpensWord(a: seq<Piece>) {
    a != [] && (a[0].Quoted? || a[0].text != [] || OpensWord(a[1..]))
  }

  /** An argument the shell reads back as exactly one word. */
  predicate WellFormed(a: seq<Piece>) {
    PlainPieces(a) && OpensWord(a)
  }

  /** One piece continues the current word with its value. */
  lemma LexPiece(p: Piece, rest: string, st: LexState, cur: string, acc: seq<string>)
    requires (p.Lit? ==> Plain(p.text)) && Outside(st, cur)
    ensures Lex(RenderPiece(p) + rest, st, cur, acc)
         == Lex(rest, if p.Quoted? || p.text != [] then InWord else st, cur + PieceValue(p), acc)
  {
    match p {
      case Lit(t) => LexPlain(t, rest, st, cur, acc);
      case Quoted(v) => LexEscaped(v, rest, st, cur, acc);
    }
  }

  /** An argument continues the current word with its value, and opens a
      word when some piece writes a character. */
  lemma {:induction false} LexArg(a: seq<Piece>, rest: string, st: LexState, cur: string, acc: seq<string>)
    requires PlainPieces(a) && Outside(st, cur)
    ensures Lex(Render(a) + rest, st, cur, acc)
         == Lex(rest, if OpensWord(a) then InWord else st, cur + ArgValue(a), acc)
    decreases |a|
  {
    if a == [] {
      assert Render(a) + rest == rest && cur + ArgValue(a) == cur;
    } else {
      var p := a[0];
      var tail := Render(a[1..]) + rest;
      assert Render(a) == RenderPiece(p) + Render(a[1..]);
      Assoc(RenderPiece(p), Render(a[1..]), rest);
      assert Render(a) + rest == RenderPiece(p) + tail;
      assert PlainPieces(a[1..]);
      var st1 := if p.Quoted? || p.text != [] then InWord else st;
      assert OpensWord(a) == (p.Quoted? || p.text != [] || OpensWord(a[1..]));
      LexPiece(p, tail, st, cur, acc);
      LexArg(a[1..], rest, st1, cur + PieceValue(p), acc);
      assert ArgValue(a) == PieceValue(p) + ArgValue(a[1..]);
      Assoc(cur, PieceValue(p), ArgValue(a[1..]));
    }
  }

  /** Arguments written one after another, separated by single blanks. */
  function CommandLine(args: seq<seq<Piece>>): string {
    if |args| == 0 then []
    else if |args| == 1 then Render(args[0])
    else Render(args[0]) + " " + CommandLine(args[1..])
  }

  /** The words the arguments are meant to become. */
  function ArgValues(args: seq<seq<Piece>>): (r: seq<string>)
    ensures |r| == |args|
  {
    if args == [] then [] else [ArgValue(args[0])] + ArgValues(args[1..])
  }

  /** The command line of two lists of arguments is the two command lines
      with one blank between them. */
  lemma {:induction false} CommandLineAppend(xs: seq<seq<Piece>>, ys: seq<seq<Piece>>)
    requires |xs| >= 1 && |ys| >= 1
    ensures CommandLine(xs + ys) == CommandLine(xs) + " " + CommandLine(ys)
    decreases |xs|
  {
    assert (xs + ys)[0] == xs[0];
    if |xs| == 1 {
      assert (xs + ys)[1..] == ys;
    } else {
      assert (xs + ys)[1..] == xs[1..] + ys;
      CommandLineAppend(xs[1..], ys);
    }
  }

  /** A command line of two arguments. */
  lemma CommandLineTwo(a: seq<Piece>, b: seq<Piece>)
    ensures CommandLine([a, b]) == Render(a) + " " + Render(b)
    ensures ArgValues([a, b]) == [ArgValue(a), ArgValue(b)]
    ensures AllWellFormed([a, b]) <==> WellFormed(a) && WellFormed(b)
  {
    assert [a, b][1..] == [b];
    assert [b][1..] == [];
    assert ArgValues([b]) == [ArgValue(b)];
    assert ArgValues([a, b]) == [ArgValue(a)] + [ArgValue(b)];
    assert AllWellFormed([b]) == WellFormed(b);
  }

  /** Values of concatenated argument lists are the concatenated values. */
  lemma {:induction false} ArgValuesAppend(xs: seq<seq<Piece>>, ys: seq<seq<Piece>>)
    ensures ArgValues(xs + ys) == ArgValues(xs) + ArgValues(ys)
    decreases |xs|
  {
    if xs == [] {
      assert xs + ys == ys;
    } else {
      assert (xs + ys)[0] == xs[0] && (xs + ys)[1..] == xs[1..] + ys;
      ArgValuesAppend(xs[1..], ys);
    }
  }

  /** Every argument of the list is well formed. */
  predicate AllWellFormed(args: seq<seq<Piece>>) {
    args == [] || (WellFormed(args[0]) && AllWellFormed(args[1..]))
  }

  lemma {:induction false} AllWellFormedAppend(xs: seq<seq<Piece>>, ys: seq<seq<Piece>>)
    requires AllWellFormed(xs) && AllWellFormed(ys)
    ensures AllWellFormed(xs + ys)
    decreases |xs|
  {
    if xs == [] {
      assert xs + ys == ys;
    } else {
      assert (xs + ys)[0] == xs[0] && (xs + ys)[1..] == xs[1..] + ys;
      AllWellFormedAppend(xs[1..], ys);
    }
  }

  lemma {:induction false} LexCommandLine(args: seq<seq<Piece>>, acc: seq<string>)
    requires |args| >= 1 && AllWellFormed(args)
    ensures Lex(CommandLine(args), Between, [], acc) == Some(acc + ArgValues(args))
    decreases |args|
  {
    var a := args[0];
    if |args| == 1 {
      LexArg(a, [], Between, [], acc);
      assert Render(a) + [] == Render(a);
      assert [] + ArgValue(a) == ArgValue(a);
      assert ArgValues(args) == [ArgValue(a)];
    } else {
      var tail := CommandLine(args[1..]);
      LexArg(a, " " + tail, Between, [], acc);
      assert Render(a) + " " + tail == Render(a) + (" " + tail);
      assert (" " + tail)[1..] == tail;
      assert [] + ArgValue(a) == ArgValue(a);
      LexCommandLine(args[1..], acc + [ArgValue(a)]);
      assert acc + [ArgValue(a)] + ArgValues(args[1..]) == acc + ArgValues(args);
    }
  }

  /** A command line of well-formed arguments splits into exactly the
      intended words: one per argument, in order, each equal to its literal
      text with the escaped values restored verbatim. */
  lemma CommandLineWords(args: seq<seq<Piece>>)
    requires |args| >= 1 && AllWellFormed(args)
    ensures Words(CommandLine(args)) == Some(ArgValues(args))
  {
    LexCommandLine(args, []);
    assert [] + ArgValues(args) == ArgValues(args);
  }
}
