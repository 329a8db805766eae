/**
  The parser of sh.c as it is written: a cursor into the command line, loops
  over characters, words and redirections, and mutual recursion.
 */
module Shell {
  import opened ShellGrammar

  /** The cursor stands where the function version has `rest` left. */
  ghost predicate Agrees(s: string, spec: Parsed, r: Parsed, ps: nat) {
    && ps <= |s|
    && match spec
       case Ok(cmd, rest) => r.Ok? && r.cmd == cmd && rest == s[ps..]
       case Panic(msg) => r == spec
  }

  method SkipBlanks(s: string, ps: nat) returns (p: nat)
    requires ps <= |s|
    ensures ps <= p <= |s| && s[p..] == SkipSpace(s[ps..])
  {
    p := ps;
    while p < |s| && IsSpace(s[p])
      invariant ps <= p <= |s| && SkipSpace(s[ps..]) == SkipSpace(s[p..])
    {
      p := p + 1;
    }
  }

  method WordEnd(s: string, q: nat) returns (p: nat)
    requires q <= |s|
    ensures q <= p <= |s| && p - q == WordLength(s[q..])
  {
    p := q;
    while p < |s| && IsWordChar(s[p])
      invariant q <= p <= |s| && WordLength(s[q..]) == p - q + WordLength(s[p..])
    {
      p := p + 1;
    }
  }

  /** gettoken(): kind, and the bounds q..eq of its text. */
  method NextToken(s: string, ps: nat) returns (kind: char, q: nat, eq: nat, p: nat)
    requires ps <= |s|
    ensures ps <= q <= eq <= p <= |s|
    ensures GetToken(s[ps..]) == Token(kind, s[q..eq], s[p..])
  {
    hide WordLength, SkipSpace;
    q := SkipBlanks(s, ps);
    if q == |s| {
      kind, eq := NUL, q;
    } else if s[q] == '|' || s[q] == '(' || s[q] == ')' || s[q] == ';' || s[q] == '&' || s[q] == '<' {
      kind, eq := s[q], q + 1;
    } else if s[q] == '>' {
      kind, eq := '>', q + 1;
      if eq < |s| && s[eq] == '>' {
        kind, eq := '+', eq + 1;
      }
    } else {
      kind := 'a';
      eq := WordEnd(s, q);
    }
    p := SkipBlanks(s, eq);
    var s1 := s[q..];
    assert s1[..eq - q] == s[q..eq] && s1[eq - q..] == s[eq..];
  }

  method PeekAt(s: string, ps: nat, toks: string) returns (yes: bool, p: nat)
    requires ps <= |s|
    ensures ps <= p <= |s| && s[p..] == SkipSpace(s[ps..]) && yes == Peek(s[ps..], toks)
  {
    p := SkipBlanks(s, ps);
    yes := p < |s| && s[p] in toks;
  }

  /** The loop of parseredirs; `ts` are the redirections in the order met. */
  method RedirLoop(s: string, ps: nat) returns (ts: seq<Target>, missing: bool, p: nat)
    requires ps <= |s|
    ensures ps <= p <= |s|
    ensures Redirs(s[ps..]) == if missing then Missing else Found(ts, s[p..])
  {
    hide GetToken, SkipSpace;
    ts, missing, p := [], false, ps;
    while true
      invariant ps <= p <= |s|
      invariant Redirs(s[ps..]) == Prefixed(ts, Redirs(s[p..]))
      decreases |s| - p
    {
      var more, p1 := PeekAt(s, p, "<>");
      assert SkipSpace(s[p1..]) == s[p1..] by { SkipTwice(s[p..]); }
      if !more {
        p := p1;
        assert ts + [] == ts;
        return;
      }
      var tok, q0, eq0, p2 := NextToken(s, p1);
      var kind, q, eq, p3 := NextToken(s, p2);
      assert p3 > p1 by { TokenConsumes(s, p1, p2); }
      if kind != 'a' {
        missing := true;
        p := p3;
        return;
      }
      PrefixedStep(s[p..], s[p1..], ts);
      ts := ts + [Target(s[q..eq], if tok == '<' then In else Out)];
      p := p3;
    }
  }

  function Prefixed(ts: seq<Target>, r: Targets): Targets {
    match r
    case Missing => Missing
    case Found(more, rest) => Found(ts + more, rest)
  }

  lemma SkipTwice(s: string)
    ensures SkipSpace(SkipSpace(s)) == SkipSpace(s)
  {
  }

  lemma TokenConsumes(s: string, p1: nat, p2: nat)
    requires p1 <= p2 <= |s| && GetToken(s[p1..]).rest == s[p2..] && SkipSpace(s[p1..]) != ""
    ensures p2 > p1
  {
    assert |s[p2..]| < |s[p1..]|;
  }

  lemma PrefixedStep(s: string, s1: string, ts: seq<Target>)
    requires Peek(s, "<>") && s1 == SkipSpace(s) && GetToken(GetToken(s1).rest).kind == 'a'
    ensures var op, file := GetToken(s1), GetToken(GetToken(s1).rest);
      Prefixed(ts, Redirs(s)) ==
        Prefixed(ts + [Target(file.text, if op.kind == '<' then In else Out)], Redirs(file.rest))
  {
    hide GetToken;
    var op, file := GetToken(s1), GetToken(GetToken(s1).rest);
    var t := Target(file.text, if op.kind == '<' then In else Out);
    var more := Redirs(file.rest);
    if more.Found? {
      assert ts + ([t] + more.list) == ts + [t] + more.list;
    }
  }

  /** The loop of parseexec. */
  method ArgLoop(s: string, ps: nat, ts0: seq<Target>) returns (r: Parsed, p: nat)
    requires ps <= |s|
    ensures Agrees(s, ParseArgs([], ts0, s[ps..]), r, p)
  {
    hide GetToken, SkipSpace, Redirs;
    var argv, ts := [], ts0;
    p := ps;
    while true
      invariant ps <= p <= |s| && |argv| < MAXARGS
      invariant ParseArgs([], ts0, s[ps..]) == ParseArgs(argv, ts, s[p..])
      decreases |s| - p
    {
      var stop, p1 := PeekAt(s, p, "|)&;");
      if stop {
        p := p1;
        r := Ok(Wrap(Exec(argv), ts), s[p..]);
        return;
      }
      var kind, q, eq, p2 := NextToken(s, p1);
      if kind == NUL {
        p := p2;
        r := Ok(Wrap(Exec(argv), ts), s[p..]);
        return;
      }
      assert p2 > p1 by { WordConsumes(s, p1, p2); }
      if kind != 'a' {
        return Panic("syntax"), p2;
      }
      argv := argv + [s[q..eq]];
      if |argv| >= MAXARGS {
        return Panic("too many args"), p2;
      }
      var more, missing, p3 := RedirLoop(s, p2);
      if missing {
        return Panic(MISSING), p3;
      }
      ts := ts + more;
      p := p3;
    }
  }

  lemma WordConsumes(s: string, p1: nat, p2: nat)
    requires p1 <= p2 <= |s| && GetToken(s[p1..]).rest == s[p2..] && GetToken(s[p1..]).kind != NUL
    ensures p2 > p1
  {
    assert |s[p2..]| < |s[p1..]|;
  }

  method ParseExecAt(s: string, ps: nat) returns (r: Parsed, p: nat)
    requires ps <= |s|
    ensures Agrees(s, ParseExec(s[ps..]), r, p) && (r.Ok? ==> ps <= p)
    decreases |s| - ps, 1
  {
    hide GetToken, SkipSpace, Redirs, ParseArgs, ParseLine;
    var block, p1 := PeekAt(s, ps, "(");
    if block {
      r, p := ParseBlockAt(s, p1);
      return;
    }
    var ts, missing, p2 := RedirLoop(s, p1);
    if missing {
      return Panic(MISSING), p2;
    }
    r, p := ArgLoop(s, p2, ts);
    assert r.Ok? ==> |s[p..]| <= |s[p2..]|;
  }

  method ParseBlockAt(s: string, ps: nat) returns (r: Parsed, p: nat)
    requires ps <= |s|
    ensures Agrees(s, ParseBlock(s[ps..]), r, p) && (r.Ok? ==> ps <= p)
    decreases |s| - ps, 0
  {
    hide GetToken, SkipSpace, Redirs, ParseLine;
    var open, p1 := PeekAt(s, ps, "(");
    if !open {
      return Panic("parseblock"), p1;
    }
    assert SkipSpace(s[p1..]) == s[p1..] by { SkipTwice(s[ps..]); }
    var k, q, e, p2 := NextToken(s, p1);
    TokenConsumes(s, p1, p2);
    r, p := ParseLineAt(s, p2);
    if r.Panic? {
      return;
    }
    var cmd := r.cmd;
    var close, p3 := PeekAt(s, p, ")");
    if !close {
      return Panic("syntax - missing )"), p3;
    }
    k, q, e, p := NextToken(s, p3);
    var ts, missing, p4 := RedirLoop(s, p);
    if missing {
      return Panic(MISSING), p4;
    }
    return Ok(Wrap(cmd, ts), s[p4..]), p4;
  }

  method ParsePipeAt(s: string, ps: nat) returns (r: Parsed, p: nat)
    requires ps <= |s|
    ensures Agrees(s, ParsePipe(s[ps..]), r, p) && (r.Ok? ==> ps <= p)
    decreases |s| - ps, 2
  {
    hide GetToken, SkipSpace, ParseExec;
    r, p := ParseExecAt(s, ps);
    if r.Panic? {
      return;
    }
    var cmd := r.cmd;
    var bar, p1 := PeekAt(s, p, "|");
    if bar {
      assert SkipSpace(s[p1..]) == s[p1..] by { SkipTwice(s[p..]); }
      var k, q, e, p2 := NextToken(s, p1);
      TokenConsumes(s, p1, p2);
      r, p := ParsePipeAt(s, p2);
      if r.Ok? {
        r := Ok(Pipe(cmd, r.cmd), r.rest);
      }
    } else {
      return Ok(cmd, s[p1..]), p1;
    }
  }

  method ParseLineAt(s: string, ps: nat) returns (r: Parsed, p: nat)
    requires ps <= |s|
    ensures Agrees(s, ParseLine(s[ps..]), r, p) && (r.Ok? ==> ps <= p)
    decreases |s| - ps, 3
  {
    hide GetToken, SkipSpace, ParsePipe;
    r, p := ParsePipeAt(s, ps);
    if r.Panic? {
      return;
    }
    ghost var first := r;
    var cmd := r.cmd;
    var start := p;
    while true
      invariant start <= p <= |s| && Backs(first.cmd, s[start..]) == Backs(cmd, s[p..])
      decreases |s| - p
    {
      var amp, p1 := PeekAt(s, p, "&");
      if !amp {
        p := p1;
        break;
      }
      assert SkipSpace(s[p1..]) == s[p1..] by { SkipTwice(s[p..]); }
      var k, q, e, p2 := NextToken(s, p1);
      TokenConsumes(s, p1, p2);
      cmd := Back(cmd);
      p := p2;
    }
    assert Backs(first.cmd, s[start..]) == Ok(cmd, s[p..]);
    var semi, p3 := PeekAt(s, p, ";");
    if semi {
      assert SkipSpace(s[p3..]) == s[p3..] by { SkipTwice(s[p..]); }
      var k, q, e, p4 := NextToken(s, p3);
      TokenConsumes(s, p3, p4);
      r, p := ParseLineAt(s, p4);
      if r.Ok? {
        r := Ok(List(cmd, r.cmd), r.rest);
      }
    } else {
      return Ok(cmd, s[p3..]), p3;
    }
  }

  /** parsecmd(), up to the NUL-termination of the words. */
  method ParseCommand(s: string) returns (r: Parsed)
    ensures r == ParseCmd(s)
  {
    hide SkipSpace, ParseLine;
    assert s[0..] == s;
    var p;
    r, p := ParseLineAt(s, 0);
    if r.Panic? {
      return;
    }
    var any, p1 := PeekAt(s, p, "");
    if p1 != |s| {
      return Panic("syntax");
    }
    return Ok(r.cmd, "");
  }
}
