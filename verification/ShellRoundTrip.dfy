/**
  Parsing undoes printing, and everything the parser builds can be printed
  and read back.
 */
module ShellRoundTrip {
  import opened ShellGrammar

  /** What may follow a printed command: the end, or a closing parenthesis. */
  predicate Closes(post: string) {
    post == "" || post[0] == ')'
  }

  lemma SkipsNothing(s: string)
    requires s == "" || !IsSpace(s[0])
    ensures SkipSpace(s) == s
  {
  }

  lemma SymbolToken(c: char, s: string)
    requires IsSymbol(c) && c != '>'
    ensures SkipSpace([c] + s) == [c] + s && GetToken([c] + s).kind == c && GetToken([c] + s).rest == SkipSpace(s)
  {
    assert ([c] + s)[1..] == s;
  }

  lemma {:induction false} WordLengthOf(w: string, s: string)
    requires (forall i | 0 <= i < |w| :: IsWordChar(w[i])) && (s == "" || !IsWordChar(s[0]))
    ensures WordLength(w + s) == |w|
  {
    if w != "" {
      assert (w + s)[1..] == w[1..] + s;
      WordLengthOf(w[1..], s);
    } else {
      assert w + s == s;
    }
  }

  lemma WordToken(w: string, s: string)
    requires Plain(w) && (s == "" || !IsWordChar(s[0]))
    ensures SkipSpace(w + s) == w + s && GetToken(w + s) == Token('a', w, SkipSpace(s))
  {
    WordLengthOf(w, s);
    assert (w + s)[0] == w[0] && IsWordChar(w[0]);
    assert (w + s)[..|w|] == w && (w + s)[|w|..] == s;
  }

  lemma NoRedirs(s: string)
    requires s == "" || (!IsSpace(s[0]) && s[0] != '<' && s[0] != '>')
    ensures Redirs(s) == Found([], s)
  {
  }

  // One turn of each parsing loop, on a rest that starts with no blank.

  lemma RedirsStep(s: string, op: Token, file: Token, rest: string)
    requires s != "" && s[0] in "<>" && !IsSpace(s[0]) && op == GetToken(s) && file == GetToken(op.rest)
    requires file.kind == 'a'
    requires Redirs(file.rest) == Found([], rest)
    ensures Redirs(s) == Found([Target(file.text, if op.kind == '<' then In else Out)], rest)
  {
    hide GetToken;
    SkipsNothing(s);
  }

  lemma ArgsStep(argv: seq<string>, ts: seq<Target>, s: string, t: Token, rest: string)
    requires s != "" && IsWordChar(s[0]) && t == GetToken(s) && t.kind == 'a' && |argv| + 1 < MAXARGS
    requires Redirs(t.rest) == Found([], rest)
    ensures ParseArgs(argv, ts, s) == ParseArgs(argv + [t.text], ts, rest)
  {
    hide GetToken, Redirs;
    SkipsNothing(s);
    assert ts + [] == ts;
  }

  lemma ArgsStop(argv: seq<string>, ts: seq<Target>, post: string)
    requires Closes(post)
    ensures ParseArgs(argv, ts, post) == Ok(Wrap(Exec(argv), ts), post)
  {
    SkipsNothing(post);
  }

  lemma PipeStep(s: string, l: Cmd, tail: string, r: Cmd, post: string)
    requires ParseExec(s) == Ok(l, tail) && tail != "" && tail[0] == '|'
    requires ParsePipe(GetToken(tail).rest) == Ok(r, post)
    ensures ParsePipe(s) == Ok(Pipe(l, r), post)
  {
    hide GetToken, ParseExec;
    SkipsNothing(tail);
  }

  lemma ListStep(s: string, l: Cmd, tail: string, r: Cmd, post: string)
    requires ParsePipe(s) == Ok(l, tail) && tail != "" && tail[0] == ';'
    requires ParseLine(GetToken(tail).rest) == Ok(r, post)
    ensures ParseLine(s) == Ok(List(l, r), post)
  {
    hide GetToken, ParsePipe;
    SkipsNothing(tail);
  }

  lemma BackStep(s: string, c: Cmd, tail: string, post: string)
    requires ParsePipe(s) == Ok(c, tail) && tail != "" && tail[0] == '&' && GetToken(tail).rest == post && Closes(post)
    ensures ParseLine(s) == Ok(Back(c), post)
  {
    hide GetToken, ParsePipe;
    SkipsNothing(tail);
    SkipsNothing(post);
    assert Backs(Back(c), post) == Ok(Back(c), post);
    assert Backs(c, tail) == Backs(Back(c), post);
  }

  lemma RedirToken(mode: Mode, s: string)
    requires s != "" && IsWordChar(s[0])
    ensures var op := if mode.In? then "<" else ">";
      GetToken(op + s) == Token(op[0], op, s)
  {
    var op := if mode.In? then "<" else ">";
    assert (op + s)[1..] == s && (op + s)[0] == op[0] && (op + s)[..1] == op && (op + s)[1] == s[0];
    SkipsNothing(op + s);
    SkipsNothing(s);
  }

  lemma OneRedir(mode: Mode, file: string, post: string)
    requires Plain(file) && Closes(post)
    ensures Redirs((if mode.In? then "<" else ">") + file + post) == Found([Target(file, mode)], post)
  {
    hide GetToken, Redirs;
    var op := if mode.In? then "<" else ">";
    assert op + file + post == op + (file + post);
    assert (file + post)[0] == file[0];
    RedirToken(mode, file + post);
    WordToken(file, post);
    SkipsNothing(post);
    NoRedirs(post);
    RedirsStep(op + (file + post), GetToken(op + (file + post)), GetToken(file + post), post);
  }

  /** The loop of parseexec reads the words and stops where they end. */
  lemma {:induction false} ArgsRead(argv: seq<string>, ws: seq<string>, post: string)
    requires |argv| + |ws| < MAXARGS && (forall i | 0 <= i < |ws| :: Plain(ws[i])) && Closes(post)
    ensures ParseArgs(argv, [], Words(ws) + post) == Ok(Exec(argv + ws), post)
    decreases |ws|
  {
    hide GetToken, Redirs, ParseArgs, Words;
    WordsUnfold(ws, post);
    if ws == [] {
      assert argv + ws == argv;
      ArgsStop(argv, [], post);
    } else {
      var w, more := ws[0], Words(ws[1..]) + post;
      var s := Words(ws) + post;
      WordToken(w, " " + more);
      SkipOne(more);
      WordsBegin(ws[1..], post);
      SkipsNothing(more);
      NoRedirs(more);
      assert s[0] == w[0];
      ArgsStep(argv, [], s, GetToken(s), more);
      ArgsRead(argv + [w], ws[1..], post);
      assert argv + ws == argv + [w] + ws[1..];
    }
  }

  lemma WordsUnfold(ws: seq<string>, post: string)
    ensures ws == [] ==> Words(ws) + post == post
    ensures ws != [] ==> Words(ws) + post == ws[0] + (" " + (Words(ws[1..]) + post))
  {
  }

  lemma SkipOne(s: string)
    ensures SkipSpace(" " + s) == SkipSpace(s)
  {
    assert (" " + s)[1..] == s;
  }

  lemma WordsBegin(ws: seq<string>, post: string)
    requires (forall i | 0 <= i < |ws| :: Plain(ws[i])) && Closes(post)
    ensures var s := Words(ws) + post; s == "" || (!IsSpace(s[0]) && s[0] != '<' && s[0] != '>' && s[0] != '(')
  {
    if ws != [] {
      assert (Words(ws) + post)[0] == ws[0][0] && IsWordChar(ws[0][0]);
    }
  }

  lemma ExecReads(ws: seq<string>, post: string)
    requires Readable(Exec(ws)) && Closes(post)
    ensures ParseExec(Words(ws) + post) == Ok(Exec(ws), post)
  {
    var s := Words(ws) + post;
    WordsBegin(ws, post);
    SkipsNothing(s);
    NoRedirs(s);
    ArgsRead([], ws, post);
    assert [] + ws == ws;
  }

  lemma BlockStep(s: string, inside: string, c: Cmd, close: string)
    requires s != "" && s[0] == '(' && GetToken(s).rest == inside && ParseLine(inside) == Ok(c, close)
    requires close != "" && close[0] == ')'
    ensures ParseExec(s) == ParseRedirs(c, GetToken(close).rest)
  {
    hide GetToken, ParseLine;
    SkipsNothing(s);
    SkipsNothing(close);
  }

  /** A parenthesised line, once its inside is known to read back. */
  lemma BlockReads(c: Cmd, tail: string)
    requires ParseLine(Print(c) + ")" + tail) == Ok(c, ")" + tail)
    ensures ParseExec(Paren(Print(c)) + tail) == ParseRedirs(c, SkipSpace(tail))
  {
    hide GetToken, ParseLine, ParseExec, Print;
    var inside := Print(c) + ")" + tail;
    var s := Paren(Print(c)) + tail;
    assert s == ['('] + inside;
    SymbolToken('(', inside);
    assert ")" + tail == [')'] + tail;
    SymbolToken(')', tail);
    LineSkipsFirst(inside);
    BlockStep(s, SkipSpace(inside), c, ")" + tail);
  }

  /** Every parse function begins by skipping blanks. */
  lemma LineSkipsFirst(s: string)
    ensures ParseLine(SkipSpace(s)) == ParseLine(s)
  {
    assert SkipSpace(SkipSpace(s)) == SkipSpace(s) by { SkipsNothing(SkipSpace(s)); }
    assert ParseExec(SkipSpace(s)) == ParseExec(s);
    assert ParsePipe(SkipSpace(s)) == ParsePipe(s);
  }

  /** After a command nothing more of the line follows. */
  lemma LineEnds(s: string, c: Cmd, post: string)
    requires ParsePipe(s) == Ok(c, post) && Closes(post)
    ensures ParseLine(s) == Ok(c, post)
  {
    SkipsNothing(post);
  }

  lemma PipeEnds(s: string, c: Cmd, post: string)
    requires ParseExec(s) == Ok(c, post) && (Closes(post) || post[0] == '&' || post[0] == ';')
    ensures ParsePipe(s) == Ok(c, post)
  {
    SkipsNothing(post);
  }

  lemma BlockAlone(c: Cmd, tail: string)
    requires ParseLine(Print(c) + ")" + tail) == Ok(c, ")" + tail)
    requires tail == "" || (IsSymbol(tail[0]) && tail[0] != '<' && tail[0] != '>')
    ensures ParseExec(Paren(Print(c)) + tail) == Ok(c, tail)
  {
    hide ParseLine, ParseExec, Print;
    BlockReads(c, tail);
    SkipsNothing(tail);
    NoRedirs(tail);
  }

  /** parse(print(t)) == t, in front of anything that closes a command. */
  lemma {:induction false} LineReads(t: Cmd, post: string)
    requires Readable(t) && Closes(post)
    ensures ParseLine(Print(t) + post) == Ok(t, post)
    decreases t, 1
  {
    hide ParseLine, ParsePipe, ParseExec;
    match t
    case Exec(argv) =>
      ExecReads(argv, post);
      PipeEnds(Print(t) + post, t, post);
      LineEnds(Print(t) + post, t, post);
    case Redir(c, file, mode) =>
      RedirReads(c, file, mode, post);
    case Pipe(l, r) =>
      PipeReads(l, r, post);
    case List(l, r) =>
      ListReads(l, r, post);
    case Back(c) =>
      BackReads(c, post);
  }

  lemma {:induction false} RedirReads(c: Cmd, file: string, mode: Mode, post: string)
    requires Readable(Redir(c, file, mode)) && Closes(post)
    ensures ParseLine(Print(Redir(c, file, mode)) + post) == Ok(Redir(c, file, mode), post)
    decreases Redir(c, file, mode), 0
  {
    hide ParseLine, ParsePipe, ParseExec, Redirs, GetToken;
    var op := if mode.In? then "<" else ">";
    var tail := op + file + post;
    var s := Print(Redir(c, file, mode)) + post;
    assert s == Paren(Print(c)) + tail;
    Inside(c, tail);
    BlockReads(c, tail);
    SkipsNothing(tail);
    OneRedir(mode, file, post);
    assert Wrap(c, [Target(file, mode)]) == Redir(c, file, mode);
    PipeEnds(s, Redir(c, file, mode), post);
    LineEnds(s, Redir(c, file, mode), post);
  }

  lemma {:induction false} Inside(c: Cmd, tail: string)
    requires Readable(c)
    ensures ParseLine(Print(c) + ")" + tail) == Ok(c, ")" + tail)
    decreases c, 2
  {
    hide ParseLine, Print, Readable;
    LineReads(c, ")" + tail);
    assert Print(c) + (")" + tail) == Print(c) + ")" + tail;
  }

  lemma {:induction false} PipeReads(l: Cmd, r: Cmd, post: string)
    requires Readable(Pipe(l, r)) && Closes(post)
    ensures ParseLine(Print(Pipe(l, r)) + post) == Ok(Pipe(l, r), post)
    decreases Pipe(l, r), 0
  {
    hide ParseLine, ParsePipe, ParseExec, GetToken;
    var right := Paren(Print(r)) + post;
    var s := Print(Pipe(l, r)) + post;
    assert s == Paren(Print(l)) + ("|" + right);
    Inside(l, "|" + right);
    Inside(r, post);
    BlockAlone(l, "|" + right);
    BlockAlone(r, post);
    PipeEnds(right, r, post);
    assert "|" + right == ['|'] + right;
    SymbolToken('|', right);
    SkipsNothing(right);
    PipeStep(s, l, "|" + right, r, post);
    LineEnds(s, Pipe(l, r), post);
  }

  lemma {:induction false} ListReads(l: Cmd, r: Cmd, post: string)
    requires Readable(List(l, r)) && Closes(post)
    ensures ParseLine(Print(List(l, r)) + post) == Ok(List(l, r), post)
    decreases List(l, r), 0
  {
    hide ParseLine, ParsePipe, ParseExec, GetToken;
    var right := Paren(Print(r)) + post;
    var s := Print(List(l, r)) + post;
    assert s == Paren(Print(l)) + (";" + right);
    Inside(l, ";" + right);
    Inside(r, post);
    BlockAlone(l, ";" + right);
    PipeEnds(s, l, ";" + right);
    BlockAlone(r, post);
    PipeEnds(right, r, post);
    LineEnds(right, r, post);
    assert ";" + right == [';'] + right;
    SymbolToken(';', right);
    SkipsNothing(right);
    ListStep(s, l, ";" + right, r, post);
  }

  lemma {:induction false} BackReads(c: Cmd, post: string)
    requires Readable(Back(c)) && Closes(post)
    ensures ParseLine(Print(Back(c)) + post) == Ok(Back(c), post)
    decreases Back(c), 0
  {
    hide ParseLine, ParsePipe, ParseExec, GetToken;
    var s := Print(Back(c)) + post;
    assert s == Paren(Print(c)) + ("&" + post);
    Inside(c, "&" + post);
    BlockAlone(c, "&" + post);
    PipeEnds(s, c, "&" + post);
    assert "&" + post == ['&'] + post;
    SymbolToken('&', post);
    SkipsNothing(post);
    BackStep(s, c, "&" + post, post);
  }

  /** Printing a readable tree and parsing it gives the tree back, with no leftovers. */
  lemma RoundTrip(t: Cmd)
    requires Readable(t)
    ensures ParseCmd(Print(t)) == Ok(t, "")
  {
    assert Print(t) + "" == Print(t);
    LineReads(t, "");
  }

  // ------------------------------------------ what the parser can build

  predicate NulFree(s: string) {
    forall i | 0 <= i < |s| :: s[i] != NUL
  }

  lemma {:induction false} SkipKeepsNulFree(s: string)
    requires NulFree(s)
    ensures NulFree(SkipSpace(s))
  {
    if s != "" && IsSpace(s[0]) { SkipKeepsNulFree(s[1..]); }
  }

  lemma TokenIsNulFree(s: string)
    requires NulFree(s)
    ensures NulFree(GetToken(s).rest) && (GetToken(s).kind == 'a' ==> Plain(GetToken(s).text))
  {
    SkipKeepsNulFree(s);
    var s1 := SkipSpace(s);
    if s1 != "" {
      var n := if s1[0] == '>' then (if |s1| > 1 && s1[1] == '>' then 2 else 1)
               else if IsSymbol(s1[0]) then 1 else WordLength(s1);
      assert NulFree(s1[n..]);
      SkipKeepsNulFree(s1[n..]);
    }
  }

  predicate PlainTargets(ts: seq<Target>) {
    forall i | 0 <= i < |ts| :: Plain(ts[i].file)
  }

  lemma {:induction false} RedirsArePlain(s: string)
    requires NulFree(s)
    ensures Redirs(s).Found? ==> NulFree(Redirs(s).rest) && PlainTargets(Redirs(s).list)
    decreases |s|
  {
    hide GetToken;
    SkipKeepsNulFree(s);
    if Peek(s, "<>") {
      var op := GetToken(SkipSpace(s));
      TokenIsNulFree(SkipSpace(s));
      var file := GetToken(op.rest);
      TokenIsNulFree(op.rest);
      if file.kind == 'a' { RedirsArePlain(file.rest); }
    }
  }

  lemma {:induction false} WrapIsReadable(c: Cmd, ts: seq<Target>)
    requires Readable(c) && PlainTargets(ts)
    ensures Readable(Wrap(c, ts))
  {
    if ts != [] { WrapIsReadable(c, ts[..|ts| - 1]); }
  }

  ghost predicate Good(r: Parsed) {
    r.Ok? ==> Readable(r.cmd) && NulFree(r.rest)
  }

  lemma {:induction false} ArgsAreReadable(argv: seq<string>, ts: seq<Target>, s: string)
    requires NulFree(s) && Readable(Exec(argv)) && PlainTargets(ts)
    ensures Good(ParseArgs(argv, ts, s))
    decreases |s|
  {
    hide GetToken, Redirs;
    SkipKeepsNulFree(s);
    WrapIsReadable(Exec(argv), ts);
    if !Peek(s, "|)&;") {
      var t := GetToken(SkipSpace(s));
      TokenIsNulFree(SkipSpace(s));
      RedirsArePlain(t.rest);
      if t.kind == 'a' && |argv| + 1 < MAXARGS && Redirs(t.rest).Found? {
        ArgsAreReadable(argv + [t.text], ts + Redirs(t.rest).list, Redirs(t.rest).rest);
      }
    }
  }

  lemma {:induction false} ExecIsReadable(s: string)
    requires NulFree(s)
    ensures Good(ParseExec(s))
    decreases |s|, 1
  {
    hide GetToken, Redirs, ParseArgs;
    SkipKeepsNulFree(s);
    if Peek(s, "(") {
      BlockIsReadable(SkipSpace(s));
    } else {
      RedirsArePlain(SkipSpace(s));
      if Redirs(SkipSpace(s)).Found? {
        ArgsAreReadable([], Redirs(SkipSpace(s)).list, Redirs(SkipSpace(s)).rest);
      }
    }
  }

  lemma {:induction false} BlockIsReadable(s: string)
    requires NulFree(s)
    ensures Good(ParseBlock(s))
    decreases |s|, 0
  {
    hide GetToken, Redirs;
    SkipKeepsNulFree(s);
    if Peek(s, "(") {
      TokenIsNulFree(SkipSpace(s));
      LineIsReadable(GetToken(SkipSpace(s)).rest);
      var inner := ParseLine(GetToken(SkipSpace(s)).rest);
      if inner.Ok? {
        SkipKeepsNulFree(inner.rest);
        TokenIsNulFree(SkipSpace(inner.rest));
        var after := GetToken(SkipSpace(inner.rest)).rest;
        RedirsArePlain(after);
        if Redirs(after).Found? { WrapIsReadable(inner.cmd, Redirs(after).list); }
      }
    }
  }

  lemma {:induction false} PipeIsReadable(s: string)
    requires NulFree(s)
    ensures Good(ParsePipe(s))
    decreases |s|, 2
  {
    hide GetToken, ParseExec;
    ExecIsReadable(s);
    var left := ParseExec(s);
    if left.Ok? {
      SkipKeepsNulFree(left.rest);
      TokenIsNulFree(SkipSpace(left.rest));
      if Peek(left.rest, "|") { PipeIsReadable(GetToken(SkipSpace(left.rest)).rest); }
    }
  }

  lemma {:induction false} BacksAreReadable(c: Cmd, s: string)
    requires NulFree(s) && Readable(c)
    ensures Good(Backs(c, s))
    decreases |s|
  {
    hide GetToken;
    SkipKeepsNulFree(s);
    if Peek(s, "&") {
      TokenIsNulFree(SkipSpace(s));
      BacksAreReadable(Back(c), GetToken(SkipSpace(s)).rest);
    }
  }

  lemma {:induction false} LineIsReadable(s: string)
    requires NulFree(s)
    ensures Good(ParseLine(s))
    decreases |s|, 3
  {
    hide GetToken, ParsePipe, Backs;
    PipeIsReadable(s);
    var first := ParsePipe(s);
    if first.Ok? {
      BacksAreReadable(first.cmd, first.rest);
      var backed := Backs(first.cmd, first.rest);
      SkipKeepsNulFree(backed.rest);
      TokenIsNulFree(SkipSpace(backed.rest));
      if Peek(backed.rest, ";") { LineIsReadable(GetToken(SkipSpace(backed.rest)).rest); }
    }
  }

  /**
    Whatever the shell accepts, printing the tree it built and reading that
    gives the same tree: the parser's image is exactly the readable trees.
   */
  lemma AcceptedReadsBack(s: string)
    requires NulFree(s) && ParseCmd(s).Ok?
    ensures Readable(ParseCmd(s).cmd) && ParseCmd(Print(ParseCmd(s).cmd)) == ParseCmd(s)
  {
    hide ParseLine, Print;
    LineIsReadable(s);
    RoundTrip(ParseCmd(s).cmd);
  }
}
