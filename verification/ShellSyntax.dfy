/**
  The language of the shell as a grammar over tokens, apart from any parser:
  syntax trees that keep every token, the tokens they stand for and the commands they
  mean.  A line is accepted exactly if it is the tokens of such a tree, and the result
  is what the tree means.
 */
module ShellSyntax {
  import opened ShellGrammar

  // ----------------------------------------------------------------- tokens

  /** Twice is >>. */
  datatype Tok = Sym(c: char) | Twice | Word(text: string)

  /** The tokens of a line: blanks separate, >> is one token, words are as long as can be. */
  function Lex(s: string): seq<Tok> {
    if s == "" then []
    else if IsSpace(s[0]) then Lex(s[1..])
    else if |s| > 1 && s[..2] == ">>" then [Twice] + Lex(s[2..])
    else if IsSymbol(s[0]) then [Sym(s[0])] + Lex(s[1..])
    else [Word(s[..WordLength(s)])] + Lex(s[WordLength(s)..])
  }

  function TokText(t: Tok): string {
    match t
    case Sym(c) => [c]
    case Twice => ">>"
    case Word(w) => w
  }

  function Text(ts: seq<Tok>): string {
    if ts == [] then "" else TokText(ts[0]) + Text(ts[1..])
  }

  function NoBlanks(s: string): string {
    if s == "" then "" else (if IsSpace(s[0]) then "" else [s[0]]) + NoBlanks(s[1..])
  }

  lemma {:induction false} WordHasNoBlanks(s: string, n: nat)
    requires n <= |s| && forall i | 0 <= i < n :: !IsSpace(s[i])
    ensures NoBlanks(s) == s[..n] + NoBlanks(s[n..])
  {
    if n > 0 {
      WordHasNoBlanks(s[1..], n - 1);
      assert s[1..][n - 1..] == s[n..] && s[..n] == [s[0]] + s[1..][..n - 1];
    }
  }

  /** The tokens are all of the line but its blanks. */
  lemma {:induction false} LexKeepsAll(s: string)
    ensures Text(Lex(s)) == NoBlanks(s)
    decreases |s|
  {
    if s == "" {
    } else if IsSpace(s[0]) {
      LexKeepsAll(s[1..]);
    } else {
      var n := if |s| > 1 && s[..2] == ">>" then 2 else if IsSymbol(s[0]) then 1 else WordLength(s);
      LexKeepsAll(s[n..]);
      WordHasNoBlanks(s, n);
      assert Lex(s)[1..] == Lex(s[n..]);
    }
  }

  // ---------------------------------------------------------------- the grammar

  /** op file */
  datatype Redirection = Redirection(op: Tok, file: string)

  /** word redirection* */
  datatype Arg = Arg(word: string, redirs: seq<Redirection>)

  /** redirection* arg*, or ( line ) redirection* */
  datatype Command = Simple(front: seq<Redirection>, args: seq<Arg>) | Block(line: Line, redirs: seq<Redirection>)

  /** command, or command | pipeline */
  datatype Pipeline = One(cmd: Command) | Piped(cmd: Command, more: Pipeline)

  /** pipeline &*, or pipeline &* ; line */
  datatype Line = Last(pipe: Pipeline, amps: nat) | Then(pipe: Pipeline, amps: nat, more: Line)

  predicate IsRedirOp(t: Tok) {
    t == Sym('<') || t == Sym('>') || t == Twice
  }

  predicate FineRedirs(rs: seq<Redirection>) {
    forall i | 0 <= i < |rs| :: IsRedirOp(rs[i].op)
  }

  /** Redirections have their operators, and commands fewer than MAXARGS words. */
  predicate FineCmd(c: Command) {
    match c
    case Simple(front, args) =>
      FineRedirs(front) && |args| < MAXARGS && forall i | 0 <= i < |args| :: FineRedirs(args[i].redirs)
    case Block(line, redirs) => FineLine(line) && FineRedirs(redirs)
  }

  predicate FinePipe(p: Pipeline) {
    FineCmd(p.cmd) && (p.Piped? ==> FinePipe(p.more))
  }

  predicate FineLine(l: Line) {
    FinePipe(l.pipe) && (l.Then? ==> FineLine(l.more))
  }

  // ------------------------------------------------------- the tokens of a tree

  function RedirToks(rs: seq<Redirection>): seq<Tok> {
    if rs == [] then [] else [rs[0].op, Word(rs[0].file)] + RedirToks(rs[1..])
  }

  function ArgToks(args: seq<Arg>): seq<Tok> {
    if args == [] then [] else [Word(args[0].word)] + RedirToks(args[0].redirs) + ArgToks(args[1..])
  }

  function CmdToks(c: Command): seq<Tok> {
    match c
    case Simple(front, args) => RedirToks(front) + ArgToks(args)
    case Block(line, redirs) => [Sym('(')] + LineToks(line) + [Sym(')')] + RedirToks(redirs)
  }

  function PipeToks(p: Pipeline): seq<Tok> {
    CmdToks(p.cmd) + if p.Piped? then [Sym('|')] + PipeToks(p.more) else []
  }

  function Amps(n: nat): seq<Tok> {
    seq(n, _ => Sym('&'))
  }

  function LineToks(l: Line): seq<Tok> {
    PipeToks(l.pipe) + Amps(l.amps) + if l.Then? then [Sym(';')] + LineToks(l.more) else []
  }

  // ------------------------------------------------------- what a tree means

  /** Redirections from left to right, each around what stands before it. */
  function Applied(c: Cmd, rs: seq<Redirection>): Cmd
    decreases |rs|
  {
    if rs == [] then c
    else Applied(Redir(c, rs[0].file, if rs[0].op == Sym('<') then In else Out), rs[1..])
  }

  function ArgRedirs(args: seq<Arg>): seq<Redirection> {
    if args == [] then [] else args[0].redirs + ArgRedirs(args[1..])
  }

  function ArgWords(args: seq<Arg>): seq<string> {
    seq(|args|, i requires 0 <= i < |args| => args[i].word)
  }

  function CmdMeaning(c: Command): Cmd {
    match c
    case Simple(front, args) => Applied(Exec(ArgWords(args)), front + ArgRedirs(args))
    case Block(line, redirs) => Applied(LineMeaning(line), redirs)
  }

  function PipeMeaning(p: Pipeline): Cmd {
    if p.Piped? then Pipe(CmdMeaning(p.cmd), PipeMeaning(p.more)) else CmdMeaning(p.cmd)
  }

  function InBackground(c: Cmd, n: nat): Cmd {
    if n == 0 then c else Back(InBackground(c, n - 1))
  }

  function LineMeaning(l: Line): Cmd {
    var c := InBackground(PipeMeaning(l.pipe), l.amps);
    if l.Then? then List(c, LineMeaning(l.more)) else c
  }

  // --------------------------------------------------------- lexer and tokens

  /** gettoken's answer as a token. */
  function TokOf(t: Token): Tok {
    if t.kind == 'a' then Word(t.text) else if t.kind == '+' then Twice else Sym(t.kind)
  }

  lemma {:induction false} LexSkips(s: string)
    ensures Lex(SkipSpace(s)) == Lex(s)
  {
    if s != "" && IsSpace(s[0]) { LexSkips(s[1..]); }
  }

  lemma LexEmpty(s: string)
    ensures Lex(s) == [] <==> SkipSpace(s) == ""
    ensures GetToken(s).kind == NUL && GetToken(s).rest == "" <== Lex(s) == []
  {
    LexSkips(s);
  }

  /** gettoken takes the first token of the rest, and leaves the others. */
  lemma TokenIsFirst(s: string)
    requires Lex(s) != []
    ensures Lex(s) == [TokOf(GetToken(s))] + Lex(GetToken(s).rest)
    ensures Lex(s)[0] == TokOf(GetToken(s)) && Lex(s)[1..] == Lex(GetToken(s).rest)
    ensures GetToken(s).kind != NUL && |GetToken(s).rest| < |s|
    ensures GetToken(s).kind == 'a' <==> Lex(s)[0].Word?
  {
    LexSkips(s);
    var s1 := SkipSpace(s);
    LexEmpty(s);
    var n := if |s1| > 1 && s1[..2] == ">>" then 2 else if IsSymbol(s1[0]) then 1 else WordLength(s1);
    LexSkips(s1[n..]);
  }

  /** peek looks at the first token. */
  lemma PeekIs(s: string)
    ensures Peek(s, "<>") <==> Lex(s) != [] && IsRedirOp(Lex(s)[0])
    ensures Peek(s, "(") <==> Lex(s) != [] && Lex(s)[0] == Sym('(')
    ensures Peek(s, ")") <==> Lex(s) != [] && Lex(s)[0] == Sym(')')
    ensures Peek(s, "|") <==> Lex(s) != [] && Lex(s)[0] == Sym('|')
    ensures Peek(s, "&") <==> Lex(s) != [] && Lex(s)[0] == Sym('&')
    ensures Peek(s, ";") <==> Lex(s) != [] && Lex(s)[0] == Sym(';')
    ensures Peek(s, "|)&;") <==> Lex(s) != [] && StopsArgs(Lex(s)[0])
    ensures Lex(SkipSpace(s)) == Lex(s) && SkipSpace(SkipSpace(s)) == SkipSpace(s)
  {
    LexSkips(s);
  }

  predicate StopsArgs(t: Tok) {
    t == Sym('|') || t == Sym(')') || t == Sym('&') || t == Sym(';')
  }

  // ------------------------------------------------------------- redirections

  function ModeOf(op: Tok): Mode {
    if op == Sym('<') then In else Out
  }

  function Targets(rs: seq<Redirection>): seq<Target> {
    seq(|rs|, i requires 0 <= i < |rs| => Target(rs[i].file, ModeOf(rs[i].op)))
  }

  lemma {:induction false} WrapFirst(c: Cmd, t: Target, ts: seq<Target>)
    ensures Wrap(c, [t] + ts) == Wrap(Redir(c, t.file, t.mode), ts)
    decreases |ts|
  {
    var n := |ts|;
    if n == 0 {
      assert [t] + ts == [t] && Wrap(c, [t]) == Redir(Wrap(c, [t][..0]), t.file, t.mode);
    } else {
      assert ([t] + ts)[..n] == [t] + ts[..n - 1];
      WrapFirst(c, t, ts[..n - 1]);
    }
  }

  lemma {:induction false} WrapIsApplied(c: Cmd, rs: seq<Redirection>)
    ensures Wrap(c, Targets(rs)) == Applied(c, rs)
    decreases |rs|
  {
    if rs != [] {
      var t := Target(rs[0].file, ModeOf(rs[0].op));
      assert Targets(rs) == [t] + Targets(rs[1..]);
      WrapFirst(c, t, Targets(rs[1..]));
      WrapIsApplied(Redir(c, t.file, t.mode), rs[1..]);
    }
  }

  /** What stands behind the redirections is no further one. */
  predicate NoMore(post: seq<Tok>) {
    post == [] || !IsRedirOp(post[0])
  }

  lemma {:induction false} RedirsSound(s: string) returns (rs: seq<Redirection>)
    requires Redirs(s).Found?
    ensures FineRedirs(rs) && Redirs(s).list == Targets(rs) && Lex(s) == RedirToks(rs) + Lex(Redirs(s).rest)
    ensures NoMore(Lex(Redirs(s).rest))
    decreases |s|
  {
    hide GetToken, Lex, SkipSpace;
    PeekIs(s);
    rs := [];
    if Peek(s, "<>") {
      var s1 := SkipSpace(s);
      var op := GetToken(s1);
      TokenIsFirst(s1);
      var file := GetToken(op.rest);
      LexEmpty(op.rest);
      TokenIsFirst(op.rest);
      var more := RedirsSound(file.rest);
      rs := [Redirection(TokOf(op), file.text)] + more;
      OpKind(op);
      assert rs[1..] == more;
      assert Targets(rs) == [Target(file.text, if op.kind == '<' then In else Out)] + Targets(more);
      assert Lex(s) == [TokOf(op), Word(file.text)] + Lex(file.rest);
    }
  }

  lemma FirstAndRest(t: Tok, ts: seq<Tok>)
    ensures ([t] + ts)[0] == t && ([t] + ts)[1..] == ts
  {
  }

  lemma OpKind(op: Token)
    requires IsRedirOp(TokOf(op)) && op.kind != 'a'
    ensures op.kind == '<' <==> TokOf(op) == Sym('<')
  {
  }

  lemma {:induction false} RedirsComplete(s: string, rs: seq<Redirection>, post: seq<Tok>)
    requires FineRedirs(rs) && Lex(s) == RedirToks(rs) + post && NoMore(post)
    ensures Redirs(s).Found? && Redirs(s).list == Targets(rs) && Lex(Redirs(s).rest) == post
    decreases |rs|
  {
    hide GetToken, Lex, SkipSpace, Peek;
    PeekIs(s);
    if rs == [] {
      assert RedirToks(rs) + post == post;
    } else {
      var s1 := SkipSpace(s);
      var op := GetToken(s1);
      TokenIsFirst(s1);
      var behind := RedirToks(rs[1..]) + post;
      assert Lex(s) == [rs[0].op] + ([Word(rs[0].file)] + behind);
      FirstAndRest(rs[0].op, [Word(rs[0].file)] + behind);
      FirstAndRest(Word(rs[0].file), behind);
      var file := GetToken(op.rest);
      TokenIsFirst(op.rest);
      RedirsComplete(file.rest, rs[1..], post);
      OpKind(op);
      assert Targets(rs) == [Target(file.text, if op.kind == '<' then In else Out)] + Targets(rs[1..]);
    }
  }

  // -------------------------------------------------------------------- words

  /** What may stand behind the words of a command. */
  predicate AfterArgs(post: seq<Tok>) {
    post == [] || StopsArgs(post[0])
  }

  predicate FineArgs(args: seq<Arg>) {
    forall i | 0 <= i < |args| :: FineRedirs(args[i].redirs)
  }

  /** What the loop of parseexec makes of the rest of the words. */
  function ArgsMeaning(argv: seq<string>, ts: seq<Target>, args: seq<Arg>): Cmd {
    Wrap(Exec(argv + ArgWords(args)), ts + Targets(ArgRedirs(args)))
  }

  lemma ArgsFirst(argv: seq<string>, ts: seq<Target>, arg: Arg, more: seq<Arg>)
    ensures ArgsMeaning(argv + [arg.word], ts + Targets(arg.redirs), more) == ArgsMeaning(argv, ts, [arg] + more)
    ensures ArgToks([arg] + more) == [Word(arg.word)] + RedirToks(arg.redirs) + ArgToks(more)
  {
    var args := [arg] + more;
    assert args[1..] == more;
    assert argv + ArgWords(args) == argv + [arg.word] + ArgWords(more);
    assert ArgRedirs(args) == arg.redirs + ArgRedirs(more);
    assert ts + Targets(arg.redirs + ArgRedirs(more)) == ts + Targets(arg.redirs) + Targets(ArgRedirs(more));
  }

  lemma NoArgs(argv: seq<string>, ts: seq<Target>)
    ensures ArgsMeaning(argv, ts, []) == Wrap(Exec(argv), ts)
  {
    assert argv + ArgWords([]) == argv && ts + Targets([]) == ts;
  }

  lemma {:induction false} ArgsSound(argv: seq<string>, ts: seq<Target>, s: string) returns (args: seq<Arg>)
    requires ParseArgs(argv, ts, s).Ok? && |argv| < MAXARGS
    ensures FineArgs(args) && |argv| + |args| < MAXARGS && ParseArgs(argv, ts, s).cmd == ArgsMeaning(argv, ts, args)
    ensures Lex(s) == ArgToks(args) + Lex(ParseArgs(argv, ts, s).rest) && AfterArgs(Lex(ParseArgs(argv, ts, s).rest))
    decreases |s|
  {
    hide GetToken, Lex, SkipSpace, Redirs, ArgsMeaning;
    PeekIs(s);
    LexEmpty(SkipSpace(s));
    NoArgs(argv, ts);
    args := [];
    if !Peek(s, "|)&;") && Lex(s) != [] {
      var s1 := SkipSpace(s);
      var t := GetToken(s1);
      TokenIsFirst(s1);
      var rs := RedirsSound(t.rest);
      var rest := Redirs(t.rest).rest;
      var more := ArgsSound(argv + [t.text], ts + Targets(rs), rest);
      args := [Arg(t.text, rs)] + more;
      ArgsFirst(argv, ts, Arg(t.text, rs), more);
      assert Lex(s) == [Word(t.text)] + (RedirToks(rs) + Lex(rest));
    } else {
      EmptyLex();
    }
  }

  lemma EmptyLex()
    ensures Lex("") == []
  {
  }

  lemma BehindArgs(args: seq<Arg>, post: seq<Tok>)
    requires AfterArgs(post)
    ensures NoMore(ArgToks(args) + post)
  {
    if args == [] { assert ArgToks(args) + post == post; }
  }

  lemma {:induction false} ArgsComplete(argv: seq<string>, ts: seq<Target>, s: string, args: seq<Arg>, post: seq<Tok>)
    requires FineArgs(args) && |argv| + |args| < MAXARGS && Lex(s) == ArgToks(args) + post && AfterArgs(post)
    ensures ParseArgs(argv, ts, s).Ok? && ParseArgs(argv, ts, s).cmd == ArgsMeaning(argv, ts, args)
    ensures Lex(ParseArgs(argv, ts, s).rest) == post
    decreases |args|
  {
    hide GetToken, Lex, SkipSpace, Peek, Redirs, ArgsMeaning, RedirToks, FineRedirs, NoMore;
    PeekIs(s);
    LexEmpty(SkipSpace(s));
    if args == [] {
      assert ArgToks(args) + post == post;
      NoArgs(argv, ts);
      EmptyLex();
    } else {
      var arg, more := args[0], args[1..];
      assert args == [arg] + more;
      ArgsFirst(argv, ts, arg, more);
      var behind := ArgToks(more) + post;
      assert Lex(s) == [Word(arg.word)] + (RedirToks(arg.redirs) + behind);
      FirstAndRest(Word(arg.word), RedirToks(arg.redirs) + behind);
      var s1 := SkipSpace(s);
      var t := GetToken(s1);
      TokenIsFirst(s1);
      assert NoMore(behind) by { BehindArgs(more, post); }
      RedirsComplete(t.rest, arg.redirs, behind);
      ArgsComplete(argv + [t.text], ts + Targets(arg.redirs), Redirs(t.rest).rest, more, post);
    }
  }

  // ---------------------------------------------------------------- the whole

  lemma SimpleMeaning(front: seq<Redirection>, args: seq<Arg>)
    ensures ArgsMeaning([], Targets(front), args) == CmdMeaning(Simple(front, args))
  {
    assert [] + ArgWords(args) == ArgWords(args);
    assert Targets(front) + Targets(ArgRedirs(args)) == Targets(front + ArgRedirs(args));
    WrapIsApplied(Exec(ArgWords(args)), front + ArgRedirs(args));
  }

  lemma {:induction false} InBackgroundOf(c: Cmd, n: nat)
    ensures InBackground(Back(c), n) == Back(InBackground(c, n))
  {
    if n > 0 { InBackgroundOf(c, n - 1); }
  }

  lemma OneMoreAmp(n: nat, post: seq<Tok>)
    ensures [Sym('&')] + (Amps(n) + post) == Amps(n + 1) + post
  {
  }

  // The parser builds what some tree means, out of exactly its tokens.

  lemma {:induction false} BacksSound(c: Cmd, s: string) returns (n: nat)
    ensures Backs(c, s).cmd == InBackground(c, n) && Lex(s) == Amps(n) + Lex(Backs(c, s).rest)
    decreases |s|
  {
    hide GetToken, Lex, SkipSpace;
    PeekIs(s);
    n := 0;
    assert Amps(0) + Lex(s) == Lex(s);
    if Peek(s, "&") {
      var s1 := SkipSpace(s);
      TokenIsFirst(s1);
      n := BacksSound(Back(c), GetToken(s1).rest);
      InBackgroundOf(c, n);
      OneMoreAmp(n, Lex(Backs(c, s).rest));
      n := n + 1;
    }
  }

  ghost predicate IsLine(l: Line, s: string, r: Parsed) {
    r.Ok? && FineLine(l) && r.cmd == LineMeaning(l) && Lex(s) == LineToks(l) + Lex(r.rest)
  }

  ghost predicate IsPipe(p: Pipeline, s: string, r: Parsed) {
    r.Ok? && FinePipe(p) && r.cmd == PipeMeaning(p) && Lex(s) == PipeToks(p) + Lex(r.rest)
  }

  ghost predicate IsCmd(c: Command, s: string, r: Parsed) {
    r.Ok? && FineCmd(c) && r.cmd == CmdMeaning(c) && Lex(s) == CmdToks(c) + Lex(r.rest)
  }

  lemma {:induction false} ExecSound(s: string) returns (c: Command)
    requires ParseExec(s).Ok?
    ensures IsCmd(c, s, ParseExec(s))
    decreases |s|, 1
  {
    hide GetToken, Lex, SkipSpace, Peek, Redirs, ParseArgs, ParseBlock, CmdMeaning, CmdToks, FineCmd;
    PeekIs(s);
    if Peek(s, "(") {
      c := BlockSound(SkipSpace(s));
    } else {
      c := SimpleSound(s);
    }
  }

  lemma SimpleSound(s: string) returns (c: Command)
    requires ParseExec(s).Ok? && !Peek(s, "(")
    ensures IsCmd(c, s, ParseExec(s))
  {
    hide GetToken, Lex, SkipSpace, Peek, Redirs, ParseArgs, ArgsMeaning, CmdMeaning;
    hide RedirToks, ArgToks, FineRedirs, AfterArgs, NoMore;
    PeekIs(s);
    var s1 := SkipSpace(s);
    var front := RedirsSound(s1);
    var rest := Redirs(s1).rest;
    var args := ArgsSound([], Targets(front), rest);
    c := Simple(front, args);
    SimpleMeaning(front, args);
    assert Lex(s) == RedirToks(front) + (ArgToks(args) + Lex(ParseExec(s).rest));
  }

  lemma {:induction false} BlockSound(s: string) returns (c: Command)
    requires ParseBlock(s).Ok?
    ensures IsCmd(c, s, ParseBlock(s))
    decreases |s|, 0
  {
    hide GetToken, Lex, SkipSpace, Redirs, ParseLine, LineMeaning, FineLine, LineToks;
    PeekIs(s);
    var s1 := SkipSpace(s);
    TokenIsFirst(s1);
    var inside := GetToken(s1).rest;
    var inner := ParseLine(inside);
    var l := LineSound(inside);
    PeekIs(inner.rest);
    var s2 := SkipSpace(inner.rest);
    TokenIsFirst(s2);
    var after := GetToken(s2).rest;
    var rs := RedirsSound(after);
    c := Block(l, rs);
    WrapIsApplied(inner.cmd, rs);
    hide Applied, Wrap;
    assert Lex(s) == [Sym('(')] + (LineToks(l) + ([Sym(')')] + (RedirToks(rs) + Lex(Redirs(after).rest))));
  }

  lemma {:induction false} PipeSound(s: string) returns (p: Pipeline)
    requires ParsePipe(s).Ok?
    ensures IsPipe(p, s, ParsePipe(s))
    decreases |s|, 2
  {
    hide GetToken, Lex, SkipSpace, ParseExec, CmdMeaning, FineCmd, CmdToks;
    var left := ParseExec(s);
    var c := ExecSound(s);
    PeekIs(left.rest);
    p := One(c);
    assert CmdToks(c) + [] == CmdToks(c);
    if Peek(left.rest, "|") {
      var s1 := SkipSpace(left.rest);
      TokenIsFirst(s1);
      var more := PipeSound(GetToken(s1).rest);
      p := Piped(c, more);
      assert Lex(s) == CmdToks(c) + ([Sym('|')] + (PipeToks(more) + Lex(ParsePipe(s).rest)));
    }
  }

  lemma {:induction false} LineSound(s: string) returns (l: Line)
    requires ParseLine(s).Ok?
    ensures IsLine(l, s, ParseLine(s))
    decreases |s|, 3
  {
    hide GetToken, Lex, SkipSpace, ParsePipe, Backs, PipeMeaning, FinePipe, PipeToks, Amps, InBackground;
    var first := ParsePipe(s);
    var p := PipeSound(s);
    var backed := Backs(first.cmd, first.rest);
    var n := BacksSound(first.cmd, first.rest);
    PeekIs(backed.rest);
    l := Last(p, n);
    assert PipeToks(p) + Amps(n) + [] == PipeToks(p) + Amps(n);
    assert Lex(s) == PipeToks(p) + Amps(n) + Lex(backed.rest);
    if Peek(backed.rest, ";") {
      var s1 := SkipSpace(backed.rest);
      TokenIsFirst(s1);
      var more := LineSound(GetToken(s1).rest);
      l := Then(p, n, more);
      assert Lex(s) == PipeToks(p) + Amps(n) + ([Sym(';')] + (LineToks(more) + Lex(ParseLine(s).rest)));
    }
  }

  // And what a tree means is what the parser builds of its tokens.

  predicate Closed(post: seq<Tok>) {
    post == [] || post[0] == Sym(')')
  }

  predicate AfterPipe(post: seq<Tok>) {
    post == [] || post[0] == Sym(')') || post[0] == Sym('&') || post[0] == Sym(';')
  }

  ghost predicate Reads(r: Parsed, c: Cmd, post: seq<Tok>) {
    r.Ok? && r.cmd == c && Lex(r.rest) == post
  }

  lemma {:induction false} BacksComplete(c: Cmd, s: string, n: nat, post: seq<Tok>)
    requires Lex(s) == Amps(n) + post && (post == [] || post[0] != Sym('&'))
    ensures Reads(Backs(c, s), InBackground(c, n), post)
    decreases n
  {
    hide GetToken, Lex, SkipSpace;
    PeekIs(s);
    if n == 0 {
      assert Amps(0) + post == post;
    } else {
      OneMoreAmp(n - 1, post);
      FirstAndRest(Sym('&'), Amps(n - 1) + post);
      var s1 := SkipSpace(s);
      TokenIsFirst(s1);
      BacksComplete(Back(c), GetToken(s1).rest, n - 1, post);
      InBackgroundOf(c, n - 1);
    }
  }

  lemma {:induction false} CmdComplete(s: string, c: Command, post: seq<Tok>)
    requires FineCmd(c) && Lex(s) == CmdToks(c) + post && AfterArgs(post)
    ensures Reads(ParseExec(s), CmdMeaning(c), post)
    decreases c, 0
  {
    match c
    case Simple(front, args) => SimpleComplete(s, front, args, post);
    case Block(line, redirs) => BlockComplete(s, line, redirs, post);
  }

  lemma SimpleComplete(s: string, front: seq<Redirection>, args: seq<Arg>, post: seq<Tok>)
    requires FineCmd(Simple(front, args)) && Lex(s) == RedirToks(front) + ArgToks(args) + post && AfterArgs(post)
    ensures Reads(ParseExec(s), CmdMeaning(Simple(front, args)), post)
  {
    hide GetToken, Lex, SkipSpace, Peek, Redirs, ParseArgs, ArgsMeaning, CmdMeaning;
    hide RedirToks, ArgToks, FineRedirs, AfterArgs, NoMore;
    PeekIs(s);
    var s1 := SkipSpace(s);
    var behind := ArgToks(args) + post;
    assert Lex(s) == RedirToks(front) + behind;
    BehindArgs(args, post);
    NotParen(front, args, post);
    RedirsComplete(s1, front, behind);
    ArgsComplete([], Targets(front), Redirs(s1).rest, args, post);
    SimpleMeaning(front, args);
  }

  lemma NotParen(front: seq<Redirection>, args: seq<Arg>, post: seq<Tok>)
    requires FineRedirs(front) && AfterArgs(post)
    ensures var ts := RedirToks(front) + (ArgToks(args) + post); ts == [] || ts[0] != Sym('(')
  {
  }

  lemma {:induction false} BlockComplete(s: string, line: Line, redirs: seq<Redirection>, post: seq<Tok>)
    requires FineCmd(Block(line, redirs)) && Lex(s) == CmdToks(Block(line, redirs)) + post && AfterArgs(post)
    ensures Reads(ParseExec(s), CmdMeaning(Block(line, redirs)), post)
    decreases line, 1
  {
    hide GetToken, Lex, SkipSpace, Redirs, ParseLine, LineMeaning, LineToks, FineLine;
    PeekIs(s);
    var s1 := SkipSpace(s);
    PeekIs(s1);
    var close := [Sym(')')] + (RedirToks(redirs) + post);
    assert Lex(s) == [Sym('(')] + (LineToks(line) + close);
    FirstAndRest(Sym('('), LineToks(line) + close);
    TokenIsFirst(s1);
    var inside := GetToken(s1).rest;
    LineComplete(inside, line, close);
    var inner := ParseLine(inside);
    PeekIs(inner.rest);
    FirstAndRest(Sym(')'), RedirToks(redirs) + post);
    var s2 := SkipSpace(inner.rest);
    TokenIsFirst(s2);
    RedirsComplete(GetToken(s2).rest, redirs, post);
    WrapIsApplied(inner.cmd, redirs);
  }

  lemma {:induction false} PipeComplete(s: string, p: Pipeline, post: seq<Tok>)
    requires FinePipe(p) && Lex(s) == PipeToks(p) + post && AfterPipe(post)
    ensures Reads(ParsePipe(s), PipeMeaning(p), post)
    decreases p, 0
  {
    hide GetToken, Lex, SkipSpace, ParseExec, CmdMeaning, CmdToks, FineCmd;
    var behind := if p.Piped? then [Sym('|')] + (PipeToks(p.more) + post) else post;
    assert Lex(s) == CmdToks(p.cmd) + behind;
    CmdComplete(s, p.cmd, behind);
    var left := ParseExec(s);
    PeekIs(left.rest);
    if p.Piped? {
      FirstAndRest(Sym('|'), PipeToks(p.more) + post);
      var s1 := SkipSpace(left.rest);
      TokenIsFirst(s1);
      PipeComplete(GetToken(s1).rest, p.more, post);
    }
  }

  lemma {:induction false} LineComplete(s: string, l: Line, post: seq<Tok>)
    requires FineLine(l) && Lex(s) == LineToks(l) + post && Closed(post)
    ensures Reads(ParseLine(s), LineMeaning(l), post)
    decreases l, 0
  {
    hide GetToken, Lex, SkipSpace, ParsePipe, Backs, PipeMeaning, PipeToks, FinePipe, InBackground;
    var behind := if l.Then? then [Sym(';')] + (LineToks(l.more) + post) else post;
    var amps := Amps(l.amps) + behind;
    assert Lex(s) == PipeToks(l.pipe) + amps;
    assert AfterPipe(amps) by { if l.amps == 0 { assert amps == behind; } }
    PipeComplete(s, l.pipe, amps);
    hide Amps;
    var first := ParsePipe(s);
    BacksComplete(first.cmd, first.rest, l.amps, behind);
    var backed := Backs(first.cmd, first.rest);
    PeekIs(backed.rest);
    if l.Then? {
      FirstAndRest(Sym(';'), LineToks(l.more) + post);
      var s1 := SkipSpace(backed.rest);
      TokenIsFirst(s1);
      LineComplete(GetToken(s1).rest, l.more, post);
    }
  }

  // ------------------------------------------------------------------ theorem

  /** The line is these tokens, and they mean this command. */
  ghost predicate Says(s: string, c: Cmd) {
    exists l: Line :: FineLine(l) && LineToks(l) == Lex(s) && LineMeaning(l) == c
  }

  /**
    The shell accepts a line, and makes this command of it, exactly if the grammar
    derives the line's tokens with this meaning: no word, file or operator is lost,
    added or moved, and nothing the grammar allows is refused.
   */
  lemma AcceptsIff(s: string, c: Cmd)
    ensures ParseCmd(s) == Ok(c, "") <==> Says(s, c)
  {
    hide ParseLine, Lex, SkipSpace, LineToks, LineMeaning, FineLine;
    if ParseCmd(s) == Ok(c, "") {
      var l := LineSound(s);
      LexEmpty(ParseLine(s).rest);
      assert LineToks(l) + [] == LineToks(l);
    }
    if Says(s, c) {
      var l :| FineLine(l) && LineToks(l) == Lex(s) && LineMeaning(l) == c;
      assert LineToks(l) + [] == LineToks(l);
      LineComplete(s, l, []);
      LexEmpty(ParseLine(s).rest);
    }
  }

  /** The grammar is unambiguous: trees with the same tokens mean the same. */
  lemma Unambiguous(s: string, c: Cmd, d: Cmd)
    requires Says(s, c) && Says(s, d)
    ensures c == d
  {
    hide Says, ParseCmd;
    AcceptsIff(s, c);
    AcceptsIff(s, d);
  }

  /** Only the tokens matter, not the blanks around them. */
  lemma BlanksDoNotMatter(s: string, r: string)
    requires Lex(s) == Lex(r)
    ensures ParseCmd(s).Ok? <==> ParseCmd(r).Ok?
    ensures ParseCmd(s).Ok? ==> ParseCmd(s) == ParseCmd(r)
  {
    hide Lex, ParseLine, SkipSpace;
    if ParseCmd(s).Ok? {
      AcceptsIff(s, ParseCmd(s).cmd);
      AcceptsIff(r, ParseCmd(s).cmd);
    }
    if ParseCmd(r).Ok? {
      AcceptsIff(r, ParseCmd(r).cmd);
      AcceptsIff(s, ParseCmd(r).cmd);
    }
  }
}
