/**
 The language the shell accepts (sh.c): its tokens, its grammar as syntax trees that print to
 tokens, the command structure each tree stands for, and a parser on token lists that accepts
 exactly what prints.
 */
module ShellGrammar {
  import opened Common

  const MAXARGS: nat := 10

  /** The characters from q up to, not including, eq. */
  datatype Range = Range(q: nat, eq: nat)

  /** struct cmd and its variants. */
  datatype Cmd =
    | Exec(argv: seq<Range>)
    | Redir(cmd: Cmd, file: Range, fd: nat)     // fd 0 is opened to read, fd 1 to write
    | Piped(left: Cmd, right: Cmd)
    | List(left: Cmd, right: Cmd)
    | Back(cmd: Cmd)

  // ---------------------------------------------------------------- tokens of a line

  datatype Token = Symbol(c: char) | Append | Word(w: Range)

  predicate IsSpace(c: char) { c in " \t\r\n\U{0B}" }
  predicate IsSymbol(c: char) { c in "<|>&;()" }
  predicate IsWordChar(c: char) { !IsSpace(c) && !IsSymbol(c) }

  /** *s, with the terminating NUL at the end of the line. */
  function At(line: string, s: nat): char { if s < |line| then line[s] else '\0' }

  function Skip(line: string, s: nat): (t: nat)
    requires s <= |line|
    ensures s <= t <= |line| && (t < |line| ==> !IsSpace(line[t]))
    decreases |line| - s
  {
    if s < |line| && IsSpace(line[s]) then Skip(line, s + 1) else s
  }

  function WordEnd(line: string, s: nat): (t: nat)
    requires s <= |line|
    ensures s <= t <= |line| && (t < |line| ==> !IsWordChar(line[t]))
    ensures forall i :: s <= i < t ==> IsWordChar(line[i])
    decreases |line| - s
  {
    if s < |line| && IsWordChar(line[s]) then WordEnd(line, s + 1) else s
  }

  /** The token that starts at q, and where it ends. */
  function TokenAt(line: string, q: nat): (r: (Token, nat))
    requires q < |line| && !IsSpace(line[q])
    ensures q < r.1 <= |line|
  {
    if !IsSymbol(line[q]) then (Word(Range(q, WordEnd(line, q))), WordEnd(line, q))
    else if line[q] == '>' && At(line, q + 1) == '>' then (Append, q + 2)
    else (Symbol(line[q]), q + 1)
  }

  function Tokens(line: string, s: nat): seq<Token>
    requires s <= |line|
    decreases |line| - s
  {
    var q := Skip(line, s);
    if q == |line| then [] else [TokenAt(line, q).0] + Tokens(line, TokenAt(line, q).1)
  }

  lemma {:induction false} SkipTwice(line: string, s: nat)
    requires s <= |line|
    ensures Skip(line, Skip(line, s)) == Skip(line, s) && Tokens(line, Skip(line, s)) == Tokens(line, s)
    decreases |line| - s
  {
    if s < |line| && IsSpace(line[s]) {
      SkipTwice(line, s + 1);
    }
  }

  // ---------------------------------------------------------------- syntax trees

  datatype Operator = Input | Output | OutputToo
  datatype Redirection = Redirection(op: Operator, file: Range)
  datatype Arg = Arg(word: Range, redirs: seq<Redirection>)

  datatype Line = Last(pipe: Pipeline, amps: nat) | Then(pipe: Pipeline, amps: nat, rest: Line)
  datatype Pipeline = One(command: Command) | Into(command: Command, rest: Pipeline)
  datatype Command = Simple(redirs: seq<Redirection>, args: seq<Arg>) | Block(line: Line, redirs: seq<Redirection>)

  function OpToken(op: Operator): Token {
    match op case Input => Symbol('<') case Output => Symbol('>') case OutputToo => Append
  }

  function PrintRedirs(rs: seq<Redirection>): seq<Token> {
    if rs == [] then [] else [OpToken(rs[0].op), Word(rs[0].file)] + PrintRedirs(rs[1..])
  }

  function PrintArgs(args: seq<Arg>): seq<Token> {
    if args == [] then [] else [Word(args[0].word)] + PrintRedirs(args[0].redirs) + PrintArgs(args[1..])
  }

  function Amps(n: nat): seq<Token> { if n == 0 then [] else [Symbol('&')] + Amps(n - 1) }

  function PrintLine(t: Line): seq<Token> {
    match t
    case Last(p, n) => PrintPipe(p) + Amps(n)
    case Then(p, n, rest) => PrintPipe(p) + Amps(n) + [Symbol(';')] + PrintLine(rest)
  }

  function PrintPipe(t: Pipeline): seq<Token> {
    match t
    case One(c) => PrintCommand(c)
    case Into(c, rest) => PrintCommand(c) + [Symbol('|')] + PrintPipe(rest)
  }

  function PrintCommand(t: Command): seq<Token> {
    match t
    case Simple(rs, args) => PrintRedirs(rs) + PrintArgs(args)
    case Block(l, rs) => [Symbol('(')] + PrintLine(l) + [Symbol(')')] + PrintRedirs(rs)
  }

  /** Every simple command has fewer than MAXARGS arguments. */
  predicate FewArgs(t: Line) {
    FewArgsPipe(t.pipe) && (t.Then? ==> FewArgs(t.rest))
  }

  predicate FewArgsPipe(t: Pipeline) {
    FewArgsCommand(t.command) && (t.Into? ==> FewArgsPipe(t.rest))
  }

  predicate FewArgsCommand(t: Command) {
    match t case Simple(_, args) => |args| < MAXARGS case Block(l, _) => FewArgs(l)
  }

  // ---------------------------------------------------------------- what a syntax tree stands for

  /** Redirections wrapped round a command, the last one outermost. */
  function Wrap(cmd: Cmd, rs: seq<Redirection>): Cmd
    decreases |rs|
  {
    if rs == [] then cmd else Wrap(Redir(cmd, rs[0].file, if rs[0].op == Input then 0 else 1), rs[1..])
  }

  function Backs(cmd: Cmd, n: nat): Cmd
    decreases n
  {
    if n == 0 then cmd else Backs(Back(cmd), n - 1)
  }

  function ArgWords(args: seq<Arg>): (ws: seq<Range>)
    ensures |ws| == |args|
  {
    if args == [] then [] else [args[0].word] + ArgWords(args[1..])
  }

  function ArgRedirs(args: seq<Arg>): seq<Redirection> {
    if args == [] then [] else args[0].redirs + ArgRedirs(args[1..])
  }

  function Means(t: Line): Cmd {
    match t
    case Last(p, n) => Backs(MeansPipe(p), n)
    case Then(p, n, rest) => List(Backs(MeansPipe(p), n), Means(rest))
  }

  function MeansPipe(t: Pipeline): Cmd {
    match t
    case One(c) => MeansCommand(c)
    case Into(c, rest) => Piped(MeansCommand(c), MeansPipe(rest))
  }

  function MeansCommand(t: Command): Cmd {
    match t
    case Simple(rs, args) => Wrap(Exec(ArgWords(args)), rs + ArgRedirs(args))
    case Block(l, rs) => Wrap(Means(l), rs)
  }

  // ---------------------------------------------------------------- the parser on tokens

  predicate Starts(ts: seq<Token>, toks: string) {
    ts != [] && !ts[0].Word? && (if ts[0].Append? then '>' else ts[0].c) in toks
  }

  function OpOf(t: Token): Operator { if t == Symbol('<') then Input else if t == Append then OutputToo else Output }

  function GetRedirs(ts: seq<Token>): (r: Option<(seq<Redirection>, seq<Token>)>)
    ensures r.Some? ==> |r.value.1| <= |ts|
    decreases |ts|
  {
    if !Starts(ts, "<>") then Some(([], ts))
    else if |ts| < 2 || !ts[1].Word? then None
    else
      var r := GetRedirs(ts[2..]);
      if r.None? then None else Some(([Redirection(OpOf(ts[0]), ts[1].w)] + r.value.0, r.value.1))
  }

  /** The arguments of a simple command that has n of them already. */
  function GetArgs(ts: seq<Token>, n: nat): (r: Option<(seq<Arg>, seq<Token>)>)
    ensures r.Some? ==> |r.value.1| <= |ts|
    decreases |ts|
  {
    if ts == [] || Starts(ts, "|)&;") then Some(([], ts))
    else if !ts[0].Word? || n + 1 >= MAXARGS then None
    else
      var rs := GetRedirs(ts[1..]);
      if rs.None? then None else
        var r := GetArgs(rs.value.1, n + 1);
        if r.None? then None else Some(([Arg(ts[0].w, rs.value.0)] + r.value.0, r.value.1))
  }

  function GetAmps(ts: seq<Token>): (r: (nat, seq<Token>))
    ensures |r.1| <= |ts| && !Starts(r.1, "&")
  {
    if Starts(ts, "&") then var r := GetAmps(ts[1..]); (r.0 + 1, r.1) else (0, ts)
  }

  function GetLine(ts: seq<Token>): (r: Option<(Line, seq<Token>)>)
    ensures r.Some? ==> |r.value.1| <= |ts|
    decreases |ts|, 2
  {
    var p := GetPipe(ts);
    if p.None? then None else
      var a := GetAmps(p.value.1);
      if !Starts(a.1, ";") then Some((Last(p.value.0, a.0), a.1)) else
        var r := GetLine(a.1[1..]);
        if r.None? then None else Some((Then(p.value.0, a.0, r.value.0), r.value.1))
  }

  function GetPipe(ts: seq<Token>): (r: Option<(Pipeline, seq<Token>)>)
    ensures r.Some? ==> |r.value.1| <= |ts|
    decreases |ts|, 1
  {
    var c := GetCommand(ts);
    if c.None? then None
    else if !Starts(c.value.1, "|") then Some((One(c.value.0), c.value.1))
    else
      var r := GetPipe(c.value.1[1..]);
      if r.None? then None else Some((Into(c.value.0, r.value.0), r.value.1))
  }

  function GetCommand(ts: seq<Token>): (r: Option<(Command, seq<Token>)>)
    ensures r.Some? ==> |r.value.1| <= |ts|
    decreases |ts|, 0
  {
    if Starts(ts, "(") then
      var l := GetLine(ts[1..]);
      if l.None? || !Starts(l.value.1, ")") then None else
        var rs := GetRedirs(l.value.1[1..]);
        if rs.None? then None else Some((Block(l.value.0, rs.value.0), rs.value.1))
    else
      var rs := GetRedirs(ts);
      if rs.None? then None else
        var args := GetArgs(rs.value.1, 0);
        if args.None? then None else Some((Simple(rs.value.0, args.value.0), args.value.1))
  }

  // ---------------------------------------------------------------- it accepts only what prints

  lemma Regroup(a: seq<Token>, b: seq<Token>, c: seq<Token>, d: seq<Token>, e: seq<Token>)
    ensures a + (b + (c + (d + e))) == (a + b + c + d) + e
    ensures a + (b + (c + d)) == (a + b + c) + d && a + (b + c) == (a + b) + c
  {
  }

  lemma {:induction false} RedirsPrint(ts: seq<Token>)
    ensures GetRedirs(ts).Some? ==> ts == PrintRedirs(GetRedirs(ts).value.0) + GetRedirs(ts).value.1
    decreases |ts|
  {
    if Starts(ts, "<>") && |ts| >= 2 && ts[1].Word? && GetRedirs(ts[2..]).Some? {
      RedirsPrint(ts[2..]);
      var rs := GetRedirs(ts).value.0;
      assert rs[1..] == GetRedirs(ts[2..]).value.0;
      assert ts == [ts[0], ts[1]] + ts[2..];
    }
  }

  /** The first argument GetArgs finds, and the rest. */
  lemma ArgsHead(ts: seq<Token>, n: nat)
    requires ts != [] && !Starts(ts, "|)&;") && GetArgs(ts, n).Some?
    ensures n + 1 < MAXARGS && ts[0].Word? && GetRedirs(ts[1..]).Some?
    ensures var rs := GetRedirs(ts[1..]).value; var r := GetArgs(rs.1, n + 1);
            && |rs.1| < |ts| && r.Some? && GetArgs(ts, n).value == ([Arg(ts[0].w, rs.0)] + r.value.0, r.value.1)
  {
    hide GetRedirs, Starts;
  }

  lemma ArgsJoin(ts: seq<Token>, redirs: seq<Redirection>, mid: seq<Token>, args: seq<Arg>, rest: seq<Token>)
    requires ts != [] && ts[0].Word? && ts[1..] == PrintRedirs(redirs) + mid && mid == PrintArgs(args) + rest
    ensures ts == PrintArgs([Arg(ts[0].w, redirs)] + args) + rest
  {
    hide PrintRedirs, PrintArgs;
    var all := [Arg(ts[0].w, redirs)] + args;
    assert all[0] == Arg(ts[0].w, redirs) && all[1..] == args;
    PrintCons(all, rest);
    assert ts == [ts[0]] + ts[1..];
  }

  lemma {:induction false} ArgsPrint(ts: seq<Token>, n: nat)
    ensures GetArgs(ts, n).Some? ==> ts == PrintArgs(GetArgs(ts, n).value.0) + GetArgs(ts, n).value.1
    ensures GetArgs(ts, n).Some? && GetArgs(ts, n).value.0 != [] ==> n + |GetArgs(ts, n).value.0| < MAXARGS
    decreases |ts|
  {
    if ts != [] && !Starts(ts, "|)&;") {
      if GetArgs(ts, n).Some? {
        ArgsPrintMore(ts, n);
      }
    }
  }

  lemma {:induction false} ArgsPrintMore(ts: seq<Token>, n: nat)
    requires ts != [] && !Starts(ts, "|)&;") && GetArgs(ts, n).Some?
    ensures ts == PrintArgs(GetArgs(ts, n).value.0) + GetArgs(ts, n).value.1
    ensures n + |GetArgs(ts, n).value.0| < MAXARGS
    decreases |ts|, 0
  {
    hide GetRedirs, PrintRedirs, PrintArgs, Starts, GetArgs;
    ArgsHead(ts, n);
    RedirsPrint(ts[1..]);
    var rs := GetRedirs(ts[1..]).value;
    ArgsPrint(rs.1, n + 1);
    ArgsJoin(ts, rs.0, rs.1, GetArgs(rs.1, n + 1).value.0, GetArgs(rs.1, n + 1).value.1);
  }

  lemma {:induction false} AmpsPrint(ts: seq<Token>)
    ensures ts == Amps(GetAmps(ts).0) + GetAmps(ts).1
  {
    if Starts(ts, "&") {
      AmpsPrint(ts[1..]);
      assert ts == [ts[0]] + ts[1..];
    }
  }

  lemma {:induction false} LinePrints(ts: seq<Token>)
    ensures GetLine(ts).Some? ==> ts == PrintLine(GetLine(ts).value.0) + GetLine(ts).value.1
    ensures GetLine(ts).Some? ==> FewArgs(GetLine(ts).value.0)
    decreases |ts|, 2
  {
    PipePrints(ts);
    if GetLine(ts).Some? {
      var p := GetPipe(ts).value;
      var a := GetAmps(p.1);
      AmpsPrint(p.1);
      if Starts(a.1, ";") {
        LinePrints(a.1[1..]);
        assert a.1 == [Symbol(';')] + a.1[1..];
        var r := GetLine(a.1[1..]).value;
        Regroup(PrintPipe(p.0), Amps(a.0), [Symbol(';')], PrintLine(r.0), r.1);
      } else {
        Regroup(PrintPipe(p.0), Amps(a.0), a.1, [], []);
      }
    }
  }

  lemma {:induction false} PipePrints(ts: seq<Token>)
    ensures GetPipe(ts).Some? ==> ts == PrintPipe(GetPipe(ts).value.0) + GetPipe(ts).value.1
    ensures GetPipe(ts).Some? ==> FewArgsPipe(GetPipe(ts).value.0)
    decreases |ts|, 1
  {
    CommandPrints(ts);
    if GetPipe(ts).Some? {
      var c := GetCommand(ts).value;
      if Starts(c.1, "|") {
        PipePrints(c.1[1..]);
        assert c.1 == [Symbol('|')] + c.1[1..];
        var r := GetPipe(c.1[1..]).value;
        Regroup(PrintCommand(c.0), [Symbol('|')], PrintPipe(r.0), r.1, []);
      }
    }
  }

  lemma {:induction false} CommandPrints(ts: seq<Token>)
    ensures GetCommand(ts).Some? ==> ts == PrintCommand(GetCommand(ts).value.0) + GetCommand(ts).value.1
    ensures GetCommand(ts).Some? ==> FewArgsCommand(GetCommand(ts).value.0)
    decreases |ts|, 0
  {
    if GetCommand(ts).Some? {
      if Starts(ts, "(") {
        LinePrints(ts[1..]);
        var l := GetLine(ts[1..]).value;
        RedirsPrint(l.1[1..]);
        assert ts == [Symbol('(')] + ts[1..];
        assert l.1 == [Symbol(')')] + l.1[1..];
        var rs := GetRedirs(l.1[1..]).value;
        Regroup([Symbol('(')], PrintLine(l.0), [Symbol(')')], PrintRedirs(rs.0), rs.1);
      } else {
        RedirsPrint(ts);
        var rs := GetRedirs(ts).value;
        ArgsPrint(rs.1, 0);
        var args := GetArgs(rs.1, 0).value;
        Regroup(PrintRedirs(rs.0), PrintArgs(args.0), args.1, [], []);
      }
    }
  }

  // ---------------------------------------------------------------- it accepts all that prints

  lemma RedirsCons(op: Token, w: Range, mid: seq<Token>, rs: seq<Redirection>, rest: seq<Token>)
    requires Starts([op], "<>") && GetRedirs(mid) == Some((rs, rest))
    ensures GetRedirs([op, Word(w)] + mid) == Some(([Redirection(OpOf(op), w)] + rs, rest))
  {
    var ts := [op, Word(w)] + mid;
    assert ts[0] == op && ts[1] == Word(w) && ts[2..] == mid;
  }

  lemma PrintRedirsFirst(rs: seq<Redirection>)
    requires rs != []
    ensures PrintRedirs(rs) == [OpToken(rs[0].op), Word(rs[0].file)] + PrintRedirs(rs[1..])
    ensures Starts([OpToken(rs[0].op)], "<>") && OpOf(OpToken(rs[0].op)) == rs[0].op
  {
  }

  lemma Assoc(a: seq<Token>, b: seq<Token>, c: seq<Token>)
    ensures a + (b + c) == a + b + c
  {
  }

  lemma PrintRedirsCons(rs: seq<Redirection>, rest: seq<Token>)
    requires rs != []
    ensures PrintRedirs(rs) + rest == [OpToken(rs[0].op), Word(rs[0].file)] + (PrintRedirs(rs[1..]) + rest)
    ensures Starts([OpToken(rs[0].op)], "<>") && [Redirection(OpOf(OpToken(rs[0].op)), rs[0].file)] + rs[1..] == rs
  {
    hide PrintRedirs, Starts, OpOf, OpToken;
    PrintRedirsFirst(rs);
    Assoc([OpToken(rs[0].op), Word(rs[0].file)], PrintRedirs(rs[1..]), rest);
  }

  lemma NoRedirs(rest: seq<Token>)
    requires !Starts(rest, "<>")
    ensures PrintRedirs([]) + rest == rest && GetRedirs(rest) == Some(([], rest))
  {
  }

  lemma {:induction false} PrintedRedirs(rs: seq<Redirection>, rest: seq<Token>)
    requires !Starts(rest, "<>")
    ensures GetRedirs(PrintRedirs(rs) + rest) == Some((rs, rest))
  {
    hide GetRedirs, PrintRedirs, Starts;
    if rs == [] {
      NoRedirs(rest);
    } else {
      PrintedRedirs(rs[1..], rest);
      RedirsCons(OpToken(rs[0].op), rs[0].file, PrintRedirs(rs[1..]) + rest, rs[1..], rest);
      PrintRedirsCons(rs, rest);
    }
  }

  /** What follows redirections is no redirection, and no '(' either. */
  lemma ArgsStart(args: seq<Arg>, rest: seq<Token>)
    requires rest == [] || Starts(rest, "|)&;")
    ensures !Starts(PrintArgs(args) + rest, "<>") && !Starts(PrintArgs(args) + rest, "(")
  {
    if args == [] {
      assert PrintArgs(args) + rest == rest;
    } else {
      assert (PrintArgs(args) + rest)[0] == Word(args[0].word);
    }
  }

  lemma RedirsStart(rs: seq<Redirection>, rest: seq<Token>)
    requires !Starts(rest, "(")
    ensures !Starts(PrintRedirs(rs) + rest, "(")
  {
    if rs == [] {
      assert PrintRedirs(rs) + rest == rest;
    } else {
      assert (PrintRedirs(rs) + rest)[0] == OpToken(rs[0].op);
    }
  }

  lemma AmpsStart(n: nat, rest: seq<Token>)
    requires rest == [] || Starts(rest, ");")
    ensures Amps(n) + rest == [] || Starts(Amps(n) + rest, ")&;")
  {
    if n == 0 {
      assert Amps(n) + rest == rest;
    } else {
      assert (Amps(n) + rest)[0] == Symbol('&');
    }
  }

  lemma ArgsCons(w: Range, mid: seq<Token>, rs: seq<Redirection>, tail: seq<Token>, args: seq<Arg>, rest: seq<Token>, n: nat)
    requires n + 1 < MAXARGS && GetRedirs(mid) == Some((rs, tail)) && GetArgs(tail, n + 1) == Some((args, rest))
    ensures GetArgs([Word(w)] + mid, n) == Some(([Arg(w, rs)] + args, rest))
  {
    hide GetRedirs;
    var ts := [Word(w)] + mid;
    assert ts[0] == Word(w) && ts[1..] == mid;
  }

  lemma PrintCons(args: seq<Arg>, rest: seq<Token>)
    requires args != []
    ensures PrintArgs(args) + rest == [Word(args[0].word)] + (PrintRedirs(args[0].redirs) + (PrintArgs(args[1..]) + rest))
  {
    hide PrintRedirs;
    Regroup([Word(args[0].word)], PrintRedirs(args[0].redirs), PrintArgs(args[1..]), rest, []);
  }

  lemma PrintedArg(args: seq<Arg>, n: nat, rest: seq<Token>, tail: seq<Token>)
    requires args != [] && n + 1 < MAXARGS && tail == PrintArgs(args[1..]) + rest
    requires GetArgs(tail, n + 1) == Some((args[1..], rest)) && GetRedirs(PrintRedirs(args[0].redirs) + tail) == Some((args[0].redirs, tail))
    ensures GetArgs(PrintArgs(args) + rest, n) == Some((args, rest))
  {
    hide GetArgs, PrintArgs, GetRedirs, PrintRedirs;
    PrintCons(args, rest);
    ArgsCons(args[0].word, PrintRedirs(args[0].redirs) + tail, args[0].redirs, tail, args[1..], rest, n);
    WholeArgs(args);
  }

  lemma WholeArgs(args: seq<Arg>)
    requires args != []
    ensures [Arg(args[0].word, args[0].redirs)] + args[1..] == args
  {
  }

  lemma NoArgs(rest: seq<Token>, n: nat)
    requires rest == [] || Starts(rest, "|)&;")
    ensures PrintArgs([]) + rest == rest && GetArgs(rest, n) == Some(([], rest))
  {
  }

  lemma {:induction false} PrintedArgs(args: seq<Arg>, n: nat, rest: seq<Token>)
    requires (rest == [] || Starts(rest, "|)&;")) && (args != [] ==> n + |args| < MAXARGS)
    ensures GetArgs(PrintArgs(args) + rest, n) == Some((args, rest))
    decreases |args|
  {
    hide GetArgs, PrintArgs, GetRedirs, PrintRedirs, Starts;
    if args == [] {
      NoArgs(rest, n);
    } else {
      var tail := PrintArgs(args[1..]) + rest;
      ArgsStart(args[1..], rest);
      PrintedRedirs(args[0].redirs, tail);
      PrintedArgs(args[1..], n + 1, rest);
      PrintedArg(args, n, rest, tail);
    }
  }

  lemma {:induction false} PrintedAmps(n: nat, rest: seq<Token>)
    requires !Starts(rest, "&")
    ensures GetAmps(Amps(n) + rest) == (n, rest)
  {
    if n == 0 {
      assert Amps(n) + rest == rest;
    } else {
      assert (Amps(n) + rest)[1..] == Amps(n - 1) + rest;
      PrintedAmps(n - 1, rest);
    }
  }

  lemma {:induction false} PrintedLine(t: Line, rest: seq<Token>)
    requires FewArgs(t) && (rest == [] || Starts(rest, ")"))
    ensures GetLine(PrintLine(t) + rest) == Some((t, rest))
    decreases t
  {
    var tail := if t.Last? then rest else [Symbol(';')] + PrintLine(t.rest) + rest;
    if t.Then? {
      Regroup(PrintPipe(t.pipe), Amps(t.amps), [Symbol(';')], PrintLine(t.rest), rest);
      Regroup([Symbol(';')], PrintLine(t.rest), rest, [], []);
    } else {
      Regroup(PrintPipe(t.pipe), Amps(t.amps), rest, [], []);
    }
    assert PrintLine(t) + rest == PrintPipe(t.pipe) + (Amps(t.amps) + tail);
    AmpsStart(t.amps, tail);
    PrintedAmps(t.amps, tail);
    PrintedPipe(t.pipe, Amps(t.amps) + tail);
    if t.Then? {
      assert tail[1..] == PrintLine(t.rest) + rest;
      PrintedLine(t.rest, rest);
    }
  }

  lemma {:induction false} PrintedPipe(t: Pipeline, rest: seq<Token>)
    requires FewArgsPipe(t) && (rest == [] || Starts(rest, ")&;"))
    ensures GetPipe(PrintPipe(t) + rest) == Some((t, rest))
    decreases t
  {
    var tail := if t.One? then rest else [Symbol('|')] + PrintPipe(t.rest) + rest;
    if t.Into? {
      Regroup(PrintCommand(t.command), [Symbol('|')], PrintPipe(t.rest), rest, []);
      Regroup([Symbol('|')], PrintPipe(t.rest), rest, [], []);
    }
    assert PrintPipe(t) + rest == PrintCommand(t.command) + tail;
    PrintedCommand(t.command, tail);
    if t.Into? {
      assert tail[1..] == PrintPipe(t.rest) + rest;
      PrintedPipe(t.rest, rest);
    }
  }

  lemma {:induction false} PrintedCommand(t: Command, rest: seq<Token>)
    requires FewArgsCommand(t) && (rest == [] || Starts(rest, "|)&;"))
    ensures GetCommand(PrintCommand(t) + rest) == Some((t, rest))
    decreases t
  {
    var ts := PrintCommand(t) + rest;
    match t
    case Simple(rs, args) =>
      Regroup(PrintRedirs(rs), PrintArgs(args), rest, [], []);
      ArgsStart(args, rest);
      RedirsStart(rs, PrintArgs(args) + rest);
      PrintedRedirs(rs, PrintArgs(args) + rest);
      PrintedArgs(args, 0, rest);
    case Block(l, rs) =>
      var tail := [Symbol(')')] + (PrintRedirs(rs) + rest);
      Regroup([Symbol('(')], PrintLine(l), [Symbol(')')], PrintRedirs(rs), rest);
      assert ts == [Symbol('(')] + (PrintLine(l) + tail);
      assert ts[1..] == PrintLine(l) + tail;
      PrintedLine(l, tail);
      assert tail[1..] == PrintRedirs(rs) + rest;
      PrintedRedirs(rs, rest);
  }

  /** The parser consumes a token list exactly if it prints a line of the grammar, and then finds that line. */
  lemma ParsesExactly(ts: seq<Token>, t: Line)
    ensures GetLine(ts) == Some((t, [])) <==> FewArgs(t) && PrintLine(t) == ts
  {
    LinePrints(ts);
    if GetLine(ts) == Some((t, [])) {
      assert PrintLine(t) + [] == PrintLine(t);
    }
    if FewArgs(t) && PrintLine(t) == ts {
      PrintedLine(t, []);
      assert PrintLine(t) + [] == ts;
    }
  }

  // ---------------------------------------------------------------- every word, once

  /** The words of a command structure. */
  function WordList(cmd: Cmd): seq<Range> {
    match cmd
    case Exec(argv) => argv
    case Redir(c, file, _) => WordList(c) + [file]
    case Piped(l, r) => WordList(l) + WordList(r)
    case List(l, r) => WordList(l) + WordList(r)
    case Back(c) => WordList(c)
  }

  function WordsOf(ts: seq<Token>): multiset<Range> {
    if ts == [] then multiset{} else (if ts[0].Word? then multiset{ts[0].w} else multiset{}) + WordsOf(ts[1..])
  }

  function FilesOf(rs: seq<Redirection>): multiset<Range> {
    if rs == [] then multiset{} else multiset{rs[0].file} + FilesOf(rs[1..])
  }

  lemma {:induction false} WordsConcat(a: seq<Token>, b: seq<Token>)
    ensures WordsOf(a + b) == WordsOf(a) + WordsOf(b)
  {
    if a == [] {
      assert a + b == b;
    } else {
      assert (a + b)[1..] == a[1..] + b;
      WordsConcat(a[1..], b);
    }
  }

  lemma {:induction false} FilesConcat(a: seq<Redirection>, b: seq<Redirection>)
    ensures FilesOf(a + b) == FilesOf(a) + FilesOf(b)
  {
    if a == [] {
      assert a + b == b;
    } else {
      assert (a + b)[1..] == a[1..] + b;
      FilesConcat(a[1..], b);
    }
  }

  lemma {:induction false} WrapWords(cmd: Cmd, rs: seq<Redirection>)
    ensures multiset(WordList(Wrap(cmd, rs))) == multiset(WordList(cmd)) + FilesOf(rs)
    decreases |rs|
  {
    if rs != [] {
      WrapWords(Redir(cmd, rs[0].file, if rs[0].op == Input then 0 else 1), rs[1..]);
    }
  }

  lemma {:induction false} BacksWords(cmd: Cmd, n: nat)
    ensures WordList(Backs(cmd, n)) == WordList(cmd)
    decreases n
  {
    if n > 0 {
      BacksWords(Back(cmd), n - 1);
    }
  }

  lemma {:induction false} AmpsWords(n: nat)
    ensures WordsOf(Amps(n)) == multiset{}
  {
    if n > 0 {
      AmpsWords(n - 1);
      assert Amps(n)[1..] == Amps(n - 1);
    }
  }

  lemma {:induction false} RedirsWords(rs: seq<Redirection>)
    ensures WordsOf(PrintRedirs(rs)) == FilesOf(rs)
  {
    if rs != [] {
      RedirsWords(rs[1..]);
      var ts := PrintRedirs(rs);
      assert ts[1..][1..] == PrintRedirs(rs[1..]);
    }
  }

  lemma {:induction false} ArgsWords(args: seq<Arg>)
    ensures WordsOf(PrintArgs(args)) == multiset(ArgWords(args)) + FilesOf(ArgRedirs(args))
  {
    if args != [] {
      ArgsWords(args[1..]);
      RedirsWords(args[0].redirs);
      WordsConcat([Word(args[0].word)] + PrintRedirs(args[0].redirs), PrintArgs(args[1..]));
      WordsConcat([Word(args[0].word)], PrintRedirs(args[0].redirs));
      FilesConcat(args[0].redirs, ArgRedirs(args[1..]));
    }
  }

  /** A command structure holds each word of the line it was parsed from exactly once. */
  lemma {:induction false} LineWords(t: Line)
    ensures multiset(WordList(Means(t))) == WordsOf(PrintLine(t))
    decreases t
  {
    PipeWords(t.pipe);
    AmpsWords(t.amps);
    BacksWords(MeansPipe(t.pipe), t.amps);
    var front := PrintPipe(t.pipe) + Amps(t.amps);
    WordsConcat(PrintPipe(t.pipe), Amps(t.amps));
    if t.Then? {
      LineWords(t.rest);
      WordsConcat(front, [Symbol(';')]);
      WordsConcat(front + [Symbol(';')], PrintLine(t.rest));
    }
  }

  lemma {:induction false} PipeWords(t: Pipeline)
    ensures multiset(WordList(MeansPipe(t))) == WordsOf(PrintPipe(t))
    decreases t
  {
    CommandWords(t.command);
    if t.Into? {
      PipeWords(t.rest);
      WordsConcat(PrintCommand(t.command), [Symbol('|')]);
      WordsConcat(PrintCommand(t.command) + [Symbol('|')], PrintPipe(t.rest));
    }
  }

  lemma {:induction false} CommandWords(t: Command)
    ensures multiset(WordList(MeansCommand(t))) == WordsOf(PrintCommand(t))
    decreases t
  {
    match t
    case Simple(rs, args) =>
      ArgsWords(args);
      RedirsWords(rs);
      WordsConcat(PrintRedirs(rs), PrintArgs(args));
      FilesConcat(rs, ArgRedirs(args));
      WrapWords(Exec(ArgWords(args)), rs + ArgRedirs(args));
    case Block(l, rs) =>
      LineWords(l);
      RedirsWords(rs);
      WrapWords(Means(l), rs);
      var open, close := [Symbol('(')], [Symbol(')')];
      WordsConcat(open, PrintLine(l));
      WordsConcat(open + PrintLine(l), close);
      WordsConcat(open + PrintLine(l) + close, PrintRedirs(rs));
  }

  /** A maximal run of word characters. */
  predicate IsWord(line: string, w: Range) {
    && w.q < w.eq <= |line|
    && (forall i :: w.q <= i < w.eq ==> IsWordChar(line[i]))
    && (w.q > 0 ==> !IsWordChar(line[w.q - 1]))
    && (w.eq < |line| ==> !IsWordChar(line[w.eq]))
  }

  /** Not in the middle of a word. */
  predicate Boundary(line: string, s: nat) {
    s <= |line| && (0 < s < |line| ==> !(IsWordChar(line[s - 1]) && IsWordChar(line[s])))
  }

  lemma {:induction false} SkipKeeps(line: string, s: nat)
    requires Boundary(line, s)
    ensures Boundary(line, Skip(line, s)) && forall i :: s <= i < Skip(line, s) ==> IsSpace(line[i])
    decreases |line| - s
  {
    if s < |line| && IsSpace(line[s]) {
      SkipKeeps(line, s + 1);
    }
  }

  lemma TokenKeeps(line: string, q: nat)
    requires Boundary(line, q) && q < |line| && !IsSpace(line[q])
    ensures Boundary(line, TokenAt(line, q).1)
    ensures TokenAt(line, q).0.Word? ==> TokenAt(line, q).0.w == Range(q, TokenAt(line, q).1)
    ensures TokenAt(line, q).0.Word? ==> IsWord(line, TokenAt(line, q).0.w)
    ensures !TokenAt(line, q).0.Word? ==> forall i :: q <= i < TokenAt(line, q).1 ==> !IsWordChar(line[i])
  {
    assert TokenAt(line, q).0.Append? ==> line[q + 1] == '>';
  }

  /** The word tokens are the words of the line, each once. */
  lemma {:induction false} TokenWords(line: string, s: nat, w: Range)
    requires Boundary(line, s)
    ensures WordsOf(Tokens(line, s))[w] == if s <= w.q && IsWord(line, w) then 1 else 0
    decreases |line| - s
  {
    SkipKeeps(line, s);
    var q := Skip(line, s);
    assert s <= w.q < q && IsWord(line, w) ==> IsWordChar(line[w.q]);
    if q < |line| {
      var t := TokenAt(line, q);
      TokenKeeps(line, q);
      TokenWords(line, t.1, w);
      assert Tokens(line, s)[1..] == Tokens(line, t.1);
      if q <= w.q < t.1 && IsWord(line, w) {
        assert IsWordChar(line[w.q]);
        assert w == t.0.w;
      }
    }
  }
}
