/**
  The parser of sh.c as functions from the rest of the input to a command and
  the new rest; and a printer for command trees.

  Input is a C string without its terminating NUL, so "s points at the NUL" is
  "the rest is empty".
 */
module ShellGrammar {
  const MAXARGS := 10
  const NUL := '\0'

  predicate IsSpace(c: char) {
    c == ' ' || c == '\t' || c == '\r' || c == '\n' || c == '\U{B}'
  }

  predicate IsSymbol(c: char) {
    c == '<' || c == '|' || c == '>' || c == '&' || c == ';' || c == '(' || c == ')'
  }

  predicate IsWordChar(c: char) {
    !IsSpace(c) && !IsSymbol(c)
  }

  // ------------------------------------------------------------- the lexer

  function SkipSpace(s: string): (r: string)
    ensures |r| <= |s|
    ensures r != "" ==> !IsSpace(r[0])
  {
    if s != "" && IsSpace(s[0]) then SkipSpace(s[1..]) else s
  }

  /** The length of the word that s begins with. */
  function WordLength(s: string): (n: nat)
    ensures n <= |s| && forall i | 0 <= i < n :: IsWordChar(s[i])
    ensures n < |s| ==> !IsWordChar(s[n])
  {
    if s != "" && IsWordChar(s[0]) then 1 + WordLength(s[1..]) else 0
  }

  /** gettoken's answer: the kind, the text q..eq, and what is left. */
  datatype Token = Token(kind: char, text: string, rest: string)

  function GetToken(s: string): (t: Token)
    ensures |t.rest| <= |s|
    ensures SkipSpace(s) != "" ==> |t.rest| < |s|
    ensures t.kind != NUL ==> |t.rest| < |s|
    ensures t.kind == 'a' ==> t.text != "" && forall i | 0 <= i < |t.text| :: IsWordChar(t.text[i])
  {
    var s1 := SkipSpace(s);
    if s1 == "" then Token(NUL, "", "")
    else if s1[0] == '>' then
      if |s1| > 1 && s1[1] == '>' then Token('+', s1[..2], SkipSpace(s1[2..]))
      else Token('>', s1[..1], SkipSpace(s1[1..]))
    else if IsSymbol(s1[0]) then Token(s1[0], s1[..1], SkipSpace(s1[1..]))
    else Token('a', s1[..WordLength(s1)], SkipSpace(s1[WordLength(s1)..]))
  }

  /** peek: is the next character one of toks? */
  predicate Peek(s: string, toks: string) {
    SkipSpace(s) != "" && SkipSpace(s)[0] in toks
  }

  // ------------------------------------------------------------ the parser

  datatype Mode = In | Out  // O_RDONLY on fd 0, O_WRONLY|O_CREATE on fd 1

  datatype Cmd =
    | Exec(argv: seq<string>)
    | Redir(cmd: Cmd, file: string, mode: Mode)
    | Pipe(left: Cmd, right: Cmd)
    | List(left: Cmd, right: Cmd)
    | Back(cmd: Cmd)

  datatype Parsed = Ok(cmd: Cmd, rest: string) | Panic(msg: string)

  datatype Target = Target(file: string, mode: Mode)

  datatype Targets = Found(list: seq<Target>, rest: string) | Missing

  /** The loop of parseredirs. */
  function Redirs(s: string): (r: Targets)
    ensures r.Found? ==> |r.rest| <= |s|
    decreases |s|
  {
    if !Peek(s, "<>") then Found([], SkipSpace(s))
    else
      var op := GetToken(SkipSpace(s));
      var file := GetToken(op.rest);
      if file.kind != 'a' then Missing
      else
        var more := Redirs(file.rest);
        if more.Missing? then Missing
        else Found([Target(file.text, if op.kind == '<' then In else Out)] + more.list, more.rest)
  }

  /** redircmd around cmd, first redirection innermost. */
  function Wrap(cmd: Cmd, ts: seq<Target>): Cmd {
    if ts == [] then cmd else Redir(Wrap(cmd, ts[..|ts| - 1]), ts[|ts| - 1].file, ts[|ts| - 1].mode)
  }

  const MISSING := "missing file for redirection"

  function ParseRedirs(cmd: Cmd, s: string): (r: Parsed)
    ensures r.Ok? ==> |r.rest| <= |s|
  {
    match Redirs(s)
    case Missing => Panic(MISSING)
    case Found(ts, rest) => Ok(Wrap(cmd, ts), rest)
  }

  /** The loop of parseexec, with argv and the redirections met so far. */
  function ParseArgs(argv: seq<string>, ts: seq<Target>, s: string): (r: Parsed)
    ensures r.Ok? ==> |r.rest| <= |s|
    decreases |s|
  {
    if Peek(s, "|)&;") then Ok(Wrap(Exec(argv), ts), SkipSpace(s))
    else
      var t := GetToken(SkipSpace(s));
      if t.kind == NUL then Ok(Wrap(Exec(argv), ts), t.rest)
      else if t.kind != 'a' then Panic("syntax")
      else if |argv| + 1 >= MAXARGS then Panic("too many args")
      else
        match Redirs(t.rest)
        case Missing => Panic(MISSING)
        case Found(more, rest) => ParseArgs(argv + [t.text], ts + more, rest)
  }

  function ParseExec(s: string): (r: Parsed)
    ensures r.Ok? ==> |r.rest| <= |s|
    decreases |s|, 1
  {
    if Peek(s, "(") then ParseBlock(SkipSpace(s))
    else
      match Redirs(SkipSpace(s))
      case Missing => Panic(MISSING)
      case Found(ts, rest) => ParseArgs([], ts, rest)
  }

  function ParseBlock(s: string): (r: Parsed)
    ensures r.Ok? ==> |r.rest| <= |s|
    decreases |s|, 0
  {
    if !Peek(s, "(") then Panic("parseblock")
    else
      var inner := ParseLine(GetToken(SkipSpace(s)).rest);
      if inner.Panic? then inner
      else if !Peek(inner.rest, ")") then Panic("syntax - missing )")
      else ParseRedirs(inner.cmd, GetToken(SkipSpace(inner.rest)).rest)
  }

  function ParsePipe(s: string): (r: Parsed)
    ensures r.Ok? ==> |r.rest| <= |s|
    decreases |s|, 2
  {
    var left := ParseExec(s);
    if left.Panic? then left
    else if !Peek(left.rest, "|") then Ok(left.cmd, SkipSpace(left.rest))
    else
      var right := ParsePipe(GetToken(SkipSpace(left.rest)).rest);
      if right.Panic? then right else Ok(Pipe(left.cmd, right.cmd), right.rest)
  }

  /** The & loop of parseline. */
  function Backs(cmd: Cmd, s: string): (r: Parsed)
    ensures r.Ok? && |r.rest| <= |s|
    decreases |s|
  {
    if Peek(s, "&") then Backs(Back(cmd), GetToken(SkipSpace(s)).rest) else Ok(cmd, SkipSpace(s))
  }

  function ParseLine(s: string): (r: Parsed)
    ensures r.Ok? ==> |r.rest| <= |s|
    decreases |s|, 3
  {
    var first := ParsePipe(s);
    if first.Panic? then first
    else
      var backed := Backs(first.cmd, first.rest);
      if !Peek(backed.rest, ";") then Ok(backed.cmd, SkipSpace(backed.rest))
      else
        var more := ParseLine(GetToken(SkipSpace(backed.rest)).rest);
        if more.Panic? then more else Ok(List(backed.cmd, more.cmd), more.rest)
  }

  /** parsecmd: the tree, or a panic; leftovers are a syntax error. */
  function ParseCmd(s: string): Parsed {
    var line := ParseLine(s);
    if line.Panic? then line
    else if SkipSpace(line.rest) != "" then Panic("syntax") else Ok(line.cmd, "")
  }

  // ----------------------------------------------------------- the printer

  /** Each word followed by a space. */
  function Words(ws: seq<string>): string {
    if ws == [] then "" else ws[0] + " " + Words(ws[1..])
  }

  function Print(c: Cmd): string {
    match c
    case Exec(argv) => Words(argv)
    case Redir(cmd, file, mode) => Paren(Print(cmd)) + (if mode.In? then "<" else ">") + file
    case Pipe(l, r) => Paren(Print(l)) + "|" + Paren(Print(r))
    case List(l, r) => Paren(Print(l)) + ";" + Paren(Print(r))
    case Back(cmd) => Paren(Print(cmd)) + "&"
  }

  function Paren(s: string): string {
    "(" + s + ")"
  }

  predicate Plain(w: string) {
    w != "" && forall i | 0 <= i < |w| :: IsWordChar(w[i]) && w[i] != NUL
  }

  /** The trees the shell can read: at most MAXARGS - 1 plain words per command. */
  predicate Readable(c: Cmd) {
    match c
    case Exec(argv) => |argv| < MAXARGS && forall i | 0 <= i < |argv| :: Plain(argv[i])
    case Redir(cmd, file, _) => Readable(cmd) && Plain(file)
    case Pipe(l, r) => Readable(l) && Readable(r)
    case List(l, r) => Readable(l) && Readable(r)
    case Back(cmd) => Readable(cmd)
  }
}
