/**
 The shell's parser (sh.c).  It walks the line by position, records words as pointers into the
 line and only then writes a NUL behind each of them, all in the one buffer.
 */
module Shell {
  import opened Common
  import opened ShellGrammar
  import opened ShellOrder

  /** The token gettoken reports as tok, with the range it covers. */
  function Reported(tok: char, w: Range): Token {
    if tok == 'a' then Word(w) else if tok == '+' then Append else Symbol(tok)
  }

  method SkipSpace(line: string, s: nat) returns (t: nat)
    requires s <= |line|
    ensures t == Skip(line, s)
  {
    t := s;
    while t < |line| && IsSpace(line[t])
      invariant s <= t <= |line| && Skip(line, t) == Skip(line, s)
    {
      t := t + 1;
    }
  }

  /** Skip space; is the next character one of toks? */
  method Peek(line: string, ps: nat, toks: string) returns (found: bool, s: nat)
    requires ps <= |line| && forall i :: 0 <= i < |toks| ==> IsSymbol(toks[i])
    ensures ps <= s <= |line| && Tokens(line, s) == Tokens(line, ps) && (Tokens(line, ps) == [] <==> s == |line|)
    ensures found <==> Starts(Tokens(line, ps), toks)
  {
    s := SkipSpace(line, ps);
    found := s < |line| && line[s] in toks;
    SkipTwice(line, ps);
  }

  /** The loop of gettoken over a word. */
  method WordFrom(line: string, q: nat) returns (t: nat)
    requires q < |line| && IsWordChar(line[q])
    ensures t == WordEnd(line, q)
  {
    t := q;
    while t < |line| && !IsSpace(line[t]) && !IsSymbol(line[t])
      invariant q <= t <= |line| && WordEnd(line, t) == WordEnd(line, q)
    {
      t := t + 1;
    }
  }

  /** The kind of the token at q, and where it ends: a symbol, '+' for >>, 'a' for a word. */
  method TokenFrom(line: string, q: nat) returns (tok: char, t: nat)
    requires q < |line| && !IsSpace(line[q]) && '\0' !in line
    ensures tok != '\0' && (Reported(tok, Range(q, t)), t) == TokenAt(line, q)
  {
    hide WordEnd, IsSpace;
    if IsSymbol(line[q]) {
      tok, t := line[q], q + 1;
      assert tok in line;
      if line[q] == '>' && At(line, t) == '>' {
        tok, t := '+', t + 1;
      }
    } else {
      tok := 'a';
      t := WordFrom(line, q);
    }
  }

  /** gettoken: the next token, NUL at the end of the line, and where the one behind it begins. */
  method GetToken(line: string, ps: nat) returns (tok: char, w: Range, s: nat)
    requires ps <= |line| && '\0' !in line
    ensures ps <= s <= |line| && (tok == '\0' <==> Tokens(line, ps) == [])
    ensures tok == '\0' ==> Tokens(line, s) == []
    ensures tok != '\0' ==> ps < s && Tokens(line, ps) == [Reported(tok, w)] + Tokens(line, s)
  {
    hide WordEnd, IsSpace, IsSymbol, Reported, TokenAt;
    var q := SkipSpace(line, ps);
    var t := q;
    if q == |line| {
      tok := '\0';
    } else {
      tok, t := TokenFrom(line, q);
    }
    w := Range(q, t);
    s := SkipSpace(line, t);
    SkipTwice(line, t);
  }

  // ---------------------------------------------------------------- the recursive descent

  function Before<T>(front: seq<T>, g: Option<(seq<T>, seq<Token>)>): Option<(seq<T>, seq<Token>)> {
    if g.None? then None else Some((front + g.value.0, g.value.1))
  }

  lemma NothingBefore<T>(g: Option<(seq<T>, seq<Token>)>)
    ensures Before([], g) == g
  {
    assert g.Some? ==> [] + g.value.0 == g.value.0;
  }

  lemma RedirsEnd(rs: seq<Redirection>, ts: seq<Token>)
    requires !Starts(ts, "<>")
    ensures Before(rs, GetRedirs(ts)) == Some((rs, ts))
  {
    assert rs + [] == rs;
  }

  lemma NextRedir(rs: seq<Redirection>, ts: seq<Token>, t: Token, rest: seq<Token>)
    requires Starts(ts, "<>") && ts == [t] + rest
    ensures rest == [] || !rest[0].Word? ==> GetRedirs(ts).None?
    ensures rest != [] && rest[0].Word? ==>
      Before(rs, GetRedirs(ts)) == Before(rs + [Redirection(OpOf(t), rest[0].w)], GetRedirs(rest[1..]))
  {
    if rest != [] && rest[0].Word? {
      assert ts[2..] == rest[1..];
      var g, red := GetRedirs(rest[1..]), Redirection(OpOf(t), rest[0].w);
      assert g.Some? ==> rs + ([red] + g.value.0) == (rs + [red]) + g.value.0;
    }
  }

  /** parseredirs; the redirections are wrapped round the command by the caller.  None: "missing file for redirection". */
  method ParseRedirs(line: string, ps: nat) returns (r: Option<seq<Redirection>>, s: nat)
    requires ps <= |line| && '\0' !in line
    ensures ps <= s <= |line| && (r.None? <==> GetRedirs(Tokens(line, ps)).None?)
    ensures r.Some? ==> GetRedirs(Tokens(line, ps)) == Some((r.value, Tokens(line, s)))
  {
    hide Tokens, GetRedirs, Starts;
    var rs := [];
    var more;
    more, s := Peek(line, ps, "<>");
    NothingBefore(GetRedirs(Tokens(line, ps)));
    while more
      invariant ps <= s <= |line| && more == Starts(Tokens(line, s), "<>")
      invariant GetRedirs(Tokens(line, ps)) == Before(rs, GetRedirs(Tokens(line, s)))
      decreases |line| - s, more
    {
      ghost var ts := Tokens(line, s);
      StartsSome(ts, "<>");
      var tok, sym, s1 := GetToken(line, s);
      NextRedir(rs, ts, Reported(tok, sym), Tokens(line, s1));
      var kind, w, s2 := GetToken(line, s1);
      if kind != 'a' {
        return None, s2;
      }
      rs := rs + [Redirection(if tok == '<' then Input else if tok == '+' then OutputToo else Output, w)];
      more, s := Peek(line, s2, "<>");
    }
    RedirsEnd(rs, Tokens(line, s));
    return Some(rs), s;
  }

  lemma StartsSome(ts: seq<Token>, toks: string)
    requires Starts(ts, toks)
    ensures ts != []
  {
  }

  // ---------------------------------------------------------------- arguments

  lemma {:induction false} ArgsAppend(args: seq<Arg>, x: Arg)
    ensures ArgWords(args + [x]) == ArgWords(args) + [x.word] && ArgRedirs(args + [x]) == ArgRedirs(args) + x.redirs
  {
    if args == [] {
      assert args + [x] == [x];
      LastArg(x);
    } else {
      var rest := args[1..];
      ArgsAppend(rest, x);
      ArgsFirst(args + [x]);
      ArgsFirst(args);
      assert (args + [x])[1..] == rest + [x] && (args + [x])[0] == args[0];
      assert [args[0].word] + (ArgWords(rest) + [x.word]) == [args[0].word] + ArgWords(rest) + [x.word];
      assert args[0].redirs + (ArgRedirs(rest) + x.redirs) == args[0].redirs + ArgRedirs(rest) + x.redirs;
    }
  }

  lemma LastArg(x: Arg)
    ensures ArgWords([x]) == [] + [x.word] && ArgRedirs([x]) == [] + x.redirs
  {
    assert [x][1..] == [];
    assert x.redirs + [] == x.redirs;
  }

  lemma ArgsFirst(args: seq<Arg>)
    requires args != []
    ensures ArgWords(args) == [args[0].word] + ArgWords(args[1..])
    ensures ArgRedirs(args) == args[0].redirs + ArgRedirs(args[1..])
  {
  }

  lemma ArgsEnd(args: seq<Arg>, ts: seq<Token>)
    requires ts == [] || Starts(ts, "|)&;")
    ensures Before(args, GetArgs(ts, |args|)) == Some((args, ts))
  {
    assert args + [] == args;
  }

  lemma NextArg(args: seq<Arg>, ts: seq<Token>, rest: seq<Token>)
    requires ts != [] && !Starts(ts, "|)&;") && ts == [ts[0]] + rest
    ensures !ts[0].Word? || |args| + 1 >= MAXARGS || GetRedirs(rest).None? ==> GetArgs(ts, |args|).None?
    ensures ts[0].Word? && |args| + 1 < MAXARGS && GetRedirs(rest).Some? ==>
      Before(args, GetArgs(ts, |args|)) == Before(args + [Arg(ts[0].w, GetRedirs(rest).value.0)], GetArgs(GetRedirs(rest).value.1, |args| + 1))
  {
    assert ts[1..] == rest;
    if ts[0].Word? && GetRedirs(rest).Some? {
      var g, x := GetArgs(GetRedirs(rest).value.1, |args| + 1), Arg(ts[0].w, GetRedirs(rest).value.0);
      assert g.Some? ==> args + ([x] + g.value.0) == (args + [x]) + g.value.0;
    }
  }

  /** The argument loop of parseexec: argv and the redirections met on the way. */
  method ParseArgs(line: string, ps: nat) returns (r: Option<(seq<Range>, seq<Redirection>)>, s: nat)
    requires ps <= |line| && '\0' !in line
    ensures ps <= s <= |line| && (r.None? <==> GetArgs(Tokens(line, ps), 0).None?)
    ensures r.Some? ==> GetArgs(Tokens(line, ps), 0).value.1 == Tokens(line, s)
    ensures r.Some? ==> r.value == (ArgWords(GetArgs(Tokens(line, ps), 0).value.0), ArgRedirs(GetArgs(Tokens(line, ps), 0).value.0))
  {
    hide Tokens, GetRedirs, GetArgs, Starts, ArgWords, ArgRedirs;
    var argv: seq<Range>, redirs: seq<Redirection> := [], [];
    ghost var args: seq<Arg> := [];
    NoArgs();
    NothingBefore(GetArgs(Tokens(line, ps), 0));
    var stop;
    stop, s := Peek(line, ps, "|)&;");
    while !stop
      invariant ps <= s <= |line| && stop == Starts(Tokens(line, s), "|)&;")
      invariant GetArgs(Tokens(line, ps), 0) == Before(args, GetArgs(Tokens(line, s), |args|))
      invariant argv == ArgWords(args) && redirs == ArgRedirs(args) && |argv| == |args| < MAXARGS
      decreases |line| - s, !stop
    {
      ghost var ts := Tokens(line, s);
      var tok, w, s1 := GetToken(line, s);
      if tok == '\0' {
        s := s1;
        break;
      }
      NextArg(args, ts, Tokens(line, s1));
      if tok != 'a' {
        return None, s1;
      }
      argv := argv + [w];
      if |argv| >= MAXARGS {
        return None, s1;
      }
      var rs, s2 := ParseRedirs(line, s1);
      if rs.None? {
        return None, s2;
      }
      redirs := redirs + rs.value;
      ArgsAppend(args, Arg(w, rs.value));
      args := args + [Arg(w, rs.value)];
      stop, s := Peek(line, s2, "|)&;");
    }
    ArgsEnd(args, Tokens(line, s));
    return Some((argv, redirs)), s;
  }

  lemma NoArgs()
    ensures ArgWords([]) == [] && ArgRedirs([]) == []
  {
  }

  // ---------------------------------------------------------------- the recursive descent

  method WrapAll(cmd: Cmd, rs: seq<Redirection>) returns (r: Cmd)
    ensures r == Wrap(cmd, rs)
  {
    r := cmd;
    for i := 0 to |rs|
      invariant Wrap(r, rs[i..]) == Wrap(cmd, rs)
    {
      r := Redir(r, rs[i].file, if rs[i].op == Input then 0 else 1);
      assert rs[i..][1..] == rs[i + 1..];
    }
    assert rs[|rs|..] == [];
  }

  method ParseExec(line: string, ps: nat) returns (r: Option<Cmd>, s: nat)
    requires ps <= |line| && '\0' !in line
    ensures ps <= s <= |line| && (r.None? <==> GetCommand(Tokens(line, ps)).None?)
    ensures r.Some? ==> GetCommand(Tokens(line, ps)).value.1 == Tokens(line, s)
    ensures r.Some? ==> r.value == MeansCommand(GetCommand(Tokens(line, ps)).value.0) && InOrder(line, r.value)
    decreases |line| - ps, 1
  {
    hide Tokens, GetRedirs, GetArgs, GetLine, GetPipe, Starts, Wrap, InOrder;
    ParsedInOrder(line, ps);
    var block, s0 := Peek(line, ps, "(");
    if block {
      r, s := ParseBlock(line, s0);
      return;
    }
    var rs, s1 := ParseRedirs(line, s0);
    if rs.None? {
      return None, s1;
    }
    var args, s2 := ParseArgs(line, s1);
    if args.None? {
      return None, s2;
    }
    var cmd := WrapAll(Exec(args.value.0), rs.value + args.value.1);
    return Some(cmd), s2;
  }

  method ParseBlock(line: string, ps: nat) returns (r: Option<Cmd>, s: nat)
    requires ps <= |line| && '\0' !in line
    ensures ps <= s <= |line| && (r.None? <==> !Starts(Tokens(line, ps), "(") || GetCommand(Tokens(line, ps)).None?)
    ensures r.Some? ==> GetCommand(Tokens(line, ps)).value.1 == Tokens(line, s)
    ensures r.Some? ==> r.value == MeansCommand(GetCommand(Tokens(line, ps)).value.0) && InOrder(line, r.value)
    decreases |line| - ps, 0
  {
    hide Tokens, GetRedirs, GetArgs, GetLine, GetPipe, Starts, Wrap, InOrder;
    ParsedInOrder(line, ps);
    var open, s0 := Peek(line, ps, "(");
    if !open {
      return None, s0;
    }
    StartsSome(Tokens(line, s0), "(");
    var _, _, s1 := GetToken(line, s0);
    assert Tokens(line, ps)[1..] == Tokens(line, s1);
    var cmd, s2 := ParseLine(line, s1);
    if cmd.None? {
      return None, s2;
    }
    var close, s3 := Peek(line, s2, ")");
    if !close {
      return None, s3;
    }
    StartsSome(Tokens(line, s3), ")");
    var _, _, s4 := GetToken(line, s3);
    assert Tokens(line, s2)[1..] == Tokens(line, s4);
    var rs, s5 := ParseRedirs(line, s4);
    if rs.None? {
      return None, s5;
    }
    var whole := WrapAll(cmd.value, rs.value);
    return Some(whole), s5;
  }

  method ParsePipe(line: string, ps: nat) returns (r: Option<Cmd>, s: nat)
    requires ps <= |line| && '\0' !in line
    ensures ps <= s <= |line| && (r.None? <==> GetPipe(Tokens(line, ps)).None?)
    ensures r.Some? ==> GetPipe(Tokens(line, ps)).value.1 == Tokens(line, s)
    ensures r.Some? ==> r.value == MeansPipe(GetPipe(Tokens(line, ps)).value.0) && InOrder(line, r.value)
    decreases |line| - ps, 2
  {
    hide Tokens, GetLine, GetCommand, Starts, InOrder;
    ParsedInOrder(line, ps);
    var left, s0 := ParseExec(line, ps);
    if left.None? {
      return None, s0;
    }
    var more, s1 := Peek(line, s0, "|");
    if !more {
      return left, s1;
    }
    StartsSome(Tokens(line, s1), "|");
    var _, _, s2 := GetToken(line, s1);
    assert Tokens(line, s0)[1..] == Tokens(line, s2);
    var right, s3 := ParsePipe(line, s2);
    if right.None? {
      return None, s3;
    }
    return Some(Piped(left.value, right.value)), s3;
  }

  /** The loop of parseline over '&'. */
  method ParseAmps(line: string, ps: nat, cmd: Cmd) returns (r: Cmd, s: nat)
    requires ps <= |line| && '\0' !in line
    ensures ps <= s <= |line| && Tokens(line, s) == GetAmps(Tokens(line, ps)).1
    ensures r == Backs(cmd, GetAmps(Tokens(line, ps)).0)
  {
    hide Tokens, Starts;
    r := cmd;
    var more;
    more, s := Peek(line, ps, "&");
    while more
      invariant ps <= s <= |line| && more == Starts(Tokens(line, s), "&")
      invariant GetAmps(Tokens(line, s)).1 == GetAmps(Tokens(line, ps)).1
      invariant Backs(r, GetAmps(Tokens(line, s)).0) == Backs(cmd, GetAmps(Tokens(line, ps)).0)
      decreases |line| - s, more
    {
      StartsSome(Tokens(line, s), "&");
      var _, _, s1 := GetToken(line, s);
      assert Tokens(line, s)[1..] == Tokens(line, s1);
      r := Back(r);
      more, s := Peek(line, s1, "&");
    }
  }

  method ParseLine(line: string, ps: nat) returns (r: Option<Cmd>, s: nat)
    requires ps <= |line| && '\0' !in line
    ensures ps <= s <= |line| && (r.None? <==> GetLine(Tokens(line, ps)).None?)
    ensures r.Some? ==> GetLine(Tokens(line, ps)).value.1 == Tokens(line, s)
    ensures r.Some? ==> r.value == Means(GetLine(Tokens(line, ps)).value.0) && InOrder(line, r.value)
    decreases |line| - ps, 3
  {
    hide Tokens, GetPipe, GetAmps, Starts, Backs, InOrder;
    ParsedInOrder(line, ps);
    var left, s0 := ParsePipe(line, ps);
    if left.None? {
      return None, s0;
    }
    var cmd, s1 := ParseAmps(line, s0, left.value);
    var more, s2 := Peek(line, s1, ";");
    if !more {
      return Some(cmd), s2;
    }
    StartsSome(Tokens(line, s2), ";");
    var _, _, s3 := GetToken(line, s2);
    assert Tokens(line, s1)[1..] == Tokens(line, s3);
    var right, s4 := ParseLine(line, s3);
    if right.None? {
      return None, s4;
    }
    return Some(List(cmd, right.value)), s4;
  }

  // ---------------------------------------------------------------- NUL termination

  /** nulterminate: a NUL where each word ends, nothing else. */
  method NulTerminate(buf: array<char>, cmd: Cmd)
    requires forall w :: w in WordList(cmd) ==> w.eq < buf.Length
    modifies buf
    ensures forall i :: 0 <= i < buf.Length ==> buf[i] == if EndsWord(cmd, i) then '\0' else old(buf[i])
    decreases cmd
  {
    match cmd
    case Exec(argv) =>
      for i := 0 to |argv|
        invariant forall k :: 0 <= k < buf.Length ==> buf[k] == if EndsOne(argv[..i], k) then '\0' else old(buf[k])
      {
        assert argv[i] in WordList(cmd);
        buf[argv[i].eq] := '\0';
        assert argv[..i + 1] == argv[..i] + [argv[i]];
      }
      assert argv[..|argv|] == argv;
    case Redir(c, file, _) =>
      NulTerminate(buf, c);
      buf[file.eq] := '\0';
    case Piped(l, r) =>
      NulTerminate(buf, l);
      NulTerminate(buf, r);
    case List(l, r) =>
      NulTerminate(buf, l);
      NulTerminate(buf, r);
    case Back(c) =>
      NulTerminate(buf, c);
  }

  ghost predicate EndsOne(ws: seq<Range>, i: nat) { exists w :: w in ws && w.eq == i }
  ghost predicate EndsWord(cmd: Cmd, i: nat) { EndsOne(WordList(cmd), i) }

  /** What a C string that starts at q reads: up to the first NUL. */
  function CString(buf: seq<char>, q: nat): string
    requires q <= |buf|
    decreases |buf| - q
  {
    if q == |buf| || buf[q] == '\0' then [] else [buf[q]] + CString(buf, q + 1)
  }

  lemma {:induction false} ReadsRange(buf: seq<char>, q: nat, eq: nat)
    requires q <= eq < |buf| && buf[eq] == '\0' && forall i :: q <= i < eq ==> buf[i] != '\0'
    ensures CString(buf, q) == buf[q..eq]
    decreases eq - q
  {
    if q < eq {
      ReadsRange(buf, q + 1, eq);
    }
  }

  /** The C string at w is the word w of the line. */
  predicate Reads(buf: seq<char>, line: string, w: Range) {
    w.q <= w.eq <= |line| <= |buf| && CString(buf, w.q) == line[w.q..w.eq]
  }

  lemma NotInside(line: string, v: Range, w: Range, i: nat)
    requires IsWord(line, v) && IsWord(line, w) && w.q <= i < w.eq
    ensures v.eq != i
  {
    assert IsWordChar(line[i]);
  }

  /** No word ends inside another one: the NULs do not cut words short. */
  lemma WordSurvives(line: string, cmd: Cmd, was: seq<char>, now: seq<char>, w: Range)
    requires |was| == |now| > |line| && was[..|line|] == line && '\0' !in line && w in WordList(cmd)
    requires forall v :: v in WordList(cmd) ==> IsWord(line, v)
    requires forall i :: 0 <= i < |now| ==> now[i] == if EndsWord(cmd, i) then '\0' else was[i]
    ensures Reads(now, line, w)
  {
    assert EndsWord(cmd, w.eq);
    forall i | w.q <= i < w.eq
      ensures now[i] == line[i] && line[i] != '\0'
    {
      assert line[i] in line && was[i] == was[..|line|][i];
      forall v | v in WordList(cmd)
        ensures v.eq != i
      {
        NotInside(line, v, w, i);
      }
    }
    ReadsRange(now, w.q, w.eq);
    assert now[w.q..w.eq] == line[w.q..w.eq];
  }

  /**
   parsecmd: the line in buf up to its NUL is parsed exactly if it is a line of the grammar; the
   structure is the one the line stands for and lies in it in order, and each pointer in it reads
   as its own word.
   */
  method ParseCmd(buf: array<char>, n: nat) returns (r: Option<Cmd>)
    requires n < buf.Length && buf[n] == '\0' && '\0' !in buf[..n]
    modifies buf
    ensures r.Some? <==> exists t: Line :: FewArgs(t) && PrintLine(t) == Tokens(old(buf[..n]), 0)
    ensures r.Some? ==> forall t: Line :: FewArgs(t) && PrintLine(t) == Tokens(old(buf[..n]), 0) ==> r.value == Means(t)
    ensures r.Some? ==> forall w :: w in multiset(WordList(r.value)) <==> IsWord(old(buf[..n]), w)
    ensures r.Some? ==> forall w :: multiset(WordList(r.value))[w] <= 1
    ensures r.Some? ==> InOrder(old(buf[..n]), r.value)
    ensures r.Some? ==> forall w :: w in WordList(r.value) ==> Reads(buf[..], old(buf[..n]), w)
    ensures r.None? ==> buf[..] == old(buf[..])
  {
    hide Tokens, GetLine, InOrder;
    var line := buf[..n];
    var cmd, s := ParseLine(line, 0);
    ghost var ts := Tokens(line, 0);
    forall t: Line
      ensures GetLine(ts) == Some((t, [])) <==> FewArgs(t) && PrintLine(t) == ts
    {
      ParsesExactly(ts, t);
    }
    if cmd.None? {
      return None;
    }
    var _, end := Peek(line, s, "");
    if end != |line| {
      return None;
    }
    ghost var t := GetLine(ts).value.0;
    assert GetLine(ts) == Some((t, []));
    LineWords(t);
    forall w: Range
      ensures multiset(WordList(cmd.value))[w] == if IsWord(line, w) then 1 else 0
    {
      TokenWords(line, 0, w);
    }
    ghost var was := buf[..];
    assert forall w :: w in WordList(cmd.value) ==> w in multiset(WordList(cmd.value));
    NulTerminate(buf, cmd.value);
    forall w | w in WordList(cmd.value)
      ensures Reads(buf[..], line, w)
    {
      WordSurvives(line, cmd.value, was, buf[..], w);
    }
    return cmd;
  }
}
