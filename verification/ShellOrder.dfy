/**
 How a command structure lies in its line (sh.c): the two sides of a pipe or list on the two
 sides of its symbol, arguments and redirections in order, a redirection to read behind '<'; and
 that every command structure can be written.
 */
module ShellOrder {
  import opened Common
  import opened ShellGrammar

  // ---------------------------------------------------------------- positions in the line

  predicate Within(ws: seq<Range>, lo: nat, hi: nat) { forall w :: w in ws ==> lo <= w.q <= w.eq <= hi }

  /** Between '<' and q there is nothing but space. */
  predicate ReadsFrom(line: string, q: nat) { Behind(line, q, '<') }

  predicate Behind(line: string, q: nat, c: char) {
    exists k :: 0 <= k < q <= |line| && line[k] == c && forall i :: k < i < q ==> IsSpace(line[i])
  }

  /** A symbol with all words of l in front of it and all words of r behind it. */
  predicate Parted(line: string, l: seq<Range>, r: seq<Range>, c: char) {
    exists k :: 0 <= k < |line| && line[k] == c && Within(l, 0, k) && Within(r, k + 1, |line|)
  }

  /** The command below the redirections. */
  function Core(cmd: Cmd): Cmd { if cmd.Redir? then Core(cmd.cmd) else cmd }

  /** A further redirection can stand at x: behind those before it, and behind a whole block. */
  predicate Open(cmd: Cmd, x: nat) {
    (cmd.Redir? ==> cmd.file.eq <= x) && (Core(cmd).Exec? || Within(WordList(cmd), 0, x))
  }

  predicate InOrder(line: string, cmd: Cmd) {
    match cmd
    case Exec(argv) => forall i, j :: 0 <= i < j < |argv| ==> argv[i].eq <= argv[j].q
    case Redir(c, file, fd) => InOrder(line, c) && Open(c, file.q) && fd == if ReadsFrom(line, file.q) then 0 else 1
    case Piped(l, r) => InOrder(line, l) && InOrder(line, r) && Parted(line, WordList(l), WordList(r), '|')
    case List(l, r) => InOrder(line, l) && InOrder(line, r) && Parted(line, WordList(l), WordList(r), ';')
    case Back(c) => InOrder(line, c) && Parted(line, WordList(c), [], '&')
  }

  // ---------------------------------------------------------------- one token

  /** The first token lies at p, behind space. */
  lemma HeadToken(line: string, lo: nat, t: Token, rest: seq<Token>) returns (p: nat, hi: nat)
    requires lo <= |line| && Tokens(line, lo) == [t] + rest
    ensures lo <= p < hi <= |line| && (forall i :: lo <= i < p ==> IsSpace(line[i])) && Tokens(line, hi) == rest
    ensures t.Word? ==> t.w == Range(p, hi)
    ensures t.Symbol? ==> line[p] == t.c && hi == p + 1
    ensures t.Append? ==> line[p] == '>' && hi == p + 2 && line[p + 1] == '>'
  {
    p := Skip(line, lo);
    Skipped(line, lo);
    var r := TokenAt(line, p);
    hi := r.1;
    assert Tokens(line, lo) == [r.0] + Tokens(line, r.1);
    assert ([t] + rest)[0] == t && ([t] + rest)[1..] == rest;
    assert ([r.0] + Tokens(line, r.1))[1..] == Tokens(line, r.1);
  }

  lemma {:induction false} Skipped(line: string, s: nat)
    requires s <= |line|
    ensures forall i :: s <= i < Skip(line, s) ==> IsSpace(line[i])
    decreases |line| - s
  {
    if s < |line| && IsSpace(line[s]) {
      Skipped(line, s + 1);
    }
  }

  // ---------------------------------------------------------------- redirections

  /** Redirections in order, each read or written as its operator says. */
  predicate RedirsLie(line: string, rs: seq<Redirection>, lo: nat, hi: nat) {
    && (forall i :: 0 <= i < |rs| ==> lo <= rs[i].file.q <= rs[i].file.eq <= hi)
    && (forall i, j :: 0 <= i < j < |rs| ==> rs[i].file.eq <= rs[j].file.q)
    && (forall i :: 0 <= i < |rs| ==> (rs[i].op == Input <==> ReadsFrom(line, rs[i].file.q)))
  }

  lemma NotBoth(line: string, q: nat)
    requires Behind(line, q, '>')
    ensures !ReadsFrom(line, q)
  {
  }

  lemma OneRedir(line: string, lo: nat, r: Redirection, rest: seq<Token>) returns (hi: nat)
    requires lo <= |line| && Tokens(line, lo) == [OpToken(r.op), Word(r.file)] + rest
    ensures lo <= r.file.q <= r.file.eq == hi <= |line| && Tokens(line, hi) == rest
    ensures r.op == Input <==> ReadsFrom(line, r.file.q)
  {
    hide Tokens;
    assert [OpToken(r.op), Word(r.file)] + rest == [OpToken(r.op)] + ([Word(r.file)] + rest);
    var p, e := HeadToken(line, lo, OpToken(r.op), [Word(r.file)] + rest);
    var q, e2 := HeadToken(line, e, Word(r.file), rest);
    hi := e2;
    if r.op == Input {
      assert line[p] == '<';
    } else {
      assert line[e - 1] == '>';
      NotBoth(line, q);
    }
  }

  lemma {:induction false} RedirsOrder(line: string, lo: nat, rs: seq<Redirection>, rest: seq<Token>) returns (hi: nat)
    requires lo <= |line| && Tokens(line, lo) == PrintRedirs(rs) + rest
    ensures lo <= hi <= |line| && Tokens(line, hi) == rest && RedirsLie(line, rs, lo, hi)
    decreases |rs|
  {
    hide Tokens, ReadsFrom;
    if rs == [] {
      hi := lo;
      assert PrintRedirs(rs) + rest == rest;
    } else {
      PrintRedirsCons(rs, rest);
      var mid := OneRedir(line, lo, rs[0], PrintRedirs(rs[1..]) + rest);
      hi := RedirsOrder(line, mid, rs[1..], rest);
      assert forall i :: 0 < i < |rs| ==> rs[i] == rs[1..][i - 1];
    }
  }

  lemma RedirsJoin(line: string, a: seq<Redirection>, b: seq<Redirection>, lo: nat, mid: nat, hi: nat)
    requires RedirsLie(line, a, lo, mid) && RedirsLie(line, b, mid, hi) && lo <= mid <= hi
    ensures RedirsLie(line, a + b, lo, hi)
  {
    hide ReadsFrom;
  }

  // ---------------------------------------------------------------- arguments

  predicate WordsLie(ws: seq<Range>, lo: nat, hi: nat) {
    && (forall i :: 0 <= i < |ws| ==> lo <= ws[i].q <= ws[i].eq <= hi)
    && (forall i, j :: 0 <= i < j < |ws| ==> ws[i].eq <= ws[j].q)
  }

  lemma {:induction false} ArgsOrder(line: string, lo: nat, args: seq<Arg>, rest: seq<Token>) returns (hi: nat)
    requires lo <= |line| && Tokens(line, lo) == PrintArgs(args) + rest
    ensures lo <= hi <= |line| && Tokens(line, hi) == rest
    ensures WordsLie(ArgWords(args), lo, hi) && RedirsLie(line, ArgRedirs(args), lo, hi)
    decreases |args|
  {
    hide Tokens, ReadsFrom, PrintRedirs;
    if args == [] {
      hi := lo;
      assert PrintArgs(args) + rest == rest;
    } else {
      var a, more := args[0], PrintArgs(args[1..]) + rest;
      PrintCons(args, rest);
      var p, e := HeadToken(line, lo, Word(a.word), PrintRedirs(a.redirs) + more);
      var mid := RedirsOrder(line, e, a.redirs, more);
      hi := ArgsOrder(line, mid, args[1..], rest);
      FirstArg(line, args, lo, e, mid, hi);
    }
  }

  lemma FirstArg(line: string, args: seq<Arg>, lo: nat, e: nat, mid: nat, hi: nat)
    requires args != [] && lo <= args[0].word.q <= args[0].word.eq <= e <= mid <= hi
    requires RedirsLie(line, args[0].redirs, e, mid)
    requires WordsLie(ArgWords(args[1..]), mid, hi) && RedirsLie(line, ArgRedirs(args[1..]), mid, hi)
    ensures WordsLie(ArgWords(args), lo, hi) && RedirsLie(line, ArgRedirs(args), lo, hi)
  {
    hide ReadsFrom;
    var ws := ArgWords(args[1..]);
    assert ArgWords(args) == [args[0].word] + ws;
    RedirsJoin(line, args[0].redirs, ArgRedirs(args[1..]), e, mid, hi);
    assert ArgRedirs(args) == args[0].redirs + ArgRedirs(args[1..]);
  }

  // ---------------------------------------------------------------- redirections round a command

  lemma {:induction false} WrapOrder(line: string, cmd: Cmd, rs: seq<Redirection>, from: nat, lo: nat, hi: nat)
    requires InOrder(line, cmd) && Within(WordList(cmd), from, hi) && Open(cmd, lo) && from <= lo <= hi
    requires RedirsLie(line, rs, lo, hi)
    ensures InOrder(line, Wrap(cmd, rs)) && Within(WordList(Wrap(cmd, rs)), from, hi)
    decreases |rs|
  {
    if rs != [] {
      var r := rs[0];
      var cmd1 := Redir(cmd, r.file, if r.op == Input then 0 else 1);
      assert Open(cmd, r.file.q);
      assert InOrder(line, cmd1);
      assert forall i :: 0 < i < |rs| ==> rs[i] == rs[1..][i - 1];
      TailLies(line, rs, lo, hi);
      WrapOrder(line, cmd1, rs[1..], from, r.file.eq, hi);
    }
  }

  lemma TailLies(line: string, rs: seq<Redirection>, lo: nat, hi: nat)
    requires RedirsLie(line, rs, lo, hi) && rs != []
    ensures RedirsLie(line, rs[1..], rs[0].file.eq, hi)
  {
    hide ReadsFrom;
    assert forall i :: 0 <= i < |rs[1..]| ==> rs[1..][i] == rs[i + 1];
  }

  lemma {:induction false} BacksOrder(line: string, cmd: Cmd, n: nat, from: nat, lo: nat, rest: seq<Token>) returns (hi: nat)
    requires InOrder(line, cmd) && Within(WordList(cmd), from, lo) && from <= lo <= |line| && Tokens(line, lo) == Amps(n) + rest
    ensures lo <= hi <= |line| && Tokens(line, hi) == rest
    ensures InOrder(line, Backs(cmd, n)) && Within(WordList(Backs(cmd, n)), from, hi)
    decreases n
  {
    hide Tokens;
    if n == 0 {
      hi := lo;
      assert Amps(n) + rest == rest;
    } else {
      assert Amps(n) + rest == [Symbol('&')] + (Amps(n - 1) + rest);
      var p, e := HeadToken(line, lo, Symbol('&'), Amps(n - 1) + rest);
      assert Within(WordList(cmd), 0, p) && Within([], p + 1, |line|);
      hi := BacksOrder(line, Back(cmd), n - 1, from, e, rest);
    }
  }

  // ---------------------------------------------------------------- lines

  lemma {:induction false} LineOrder(line: string, lo: nat, t: Line, rest: seq<Token>) returns (hi: nat)
    requires lo <= |line| && Tokens(line, lo) == PrintLine(t) + rest
    ensures lo <= hi <= |line| && Tokens(line, hi) == rest
    ensures InOrder(line, Means(t)) && Within(WordList(Means(t)), lo, hi)
    decreases t
  {
    hide Tokens, InOrder, PrintPipe, Amps, Backs;
    var tail := if t.Last? then rest else [Symbol(';')] + (PrintLine(t.rest) + rest);
    if t.Then? {
      Regroup(PrintPipe(t.pipe), Amps(t.amps), [Symbol(';')], PrintLine(t.rest), rest);
    } else {
      Regroup(PrintPipe(t.pipe), Amps(t.amps), rest, [], []);
    }
    assert PrintLine(t) + rest == PrintPipe(t.pipe) + (Amps(t.amps) + tail);
    var mid := PipeOrder(line, lo, t.pipe, Amps(t.amps) + tail);
    hi := BacksOrder(line, MeansPipe(t.pipe), t.amps, lo, mid, tail);
    if t.Then? {
      var p, e := HeadToken(line, hi, Symbol(';'), PrintLine(t.rest) + rest);
      var l := Backs(MeansPipe(t.pipe), t.amps);
      hi := LineOrder(line, e, t.rest, rest);
      Part(line, l, Means(t.rest), lo, p, hi, ';');
    }
  }

  /** Two commands on the two sides of a symbol. */
  lemma Part(line: string, l: Cmd, r: Cmd, lo: nat, p: nat, hi: nat, c: char)
    requires InOrder(line, l) && InOrder(line, r) && lo <= p < hi <= |line| && line[p] == c && (c == '|' || c == ';')
    requires Within(WordList(l), lo, p) && Within(WordList(r), p + 1, hi)
    ensures var cmd := if c == '|' then Piped(l, r) else List(l, r); InOrder(line, cmd) && Within(WordList(cmd), lo, hi)
  {
    assert Within(WordList(l), 0, p) && Within(WordList(r), p + 1, |line|);
    assert Parted(line, WordList(l), WordList(r), c);
  }

  lemma {:induction false} PipeOrder(line: string, lo: nat, t: Pipeline, rest: seq<Token>) returns (hi: nat)
    requires lo <= |line| && Tokens(line, lo) == PrintPipe(t) + rest
    ensures lo <= hi <= |line| && Tokens(line, hi) == rest
    ensures InOrder(line, MeansPipe(t)) && Within(WordList(MeansPipe(t)), lo, hi)
    decreases t
  {
    hide Tokens, InOrder, PrintCommand;
    if t.One? {
      hi := CommandOrder(line, lo, t.command, rest);
    } else {
      var tail := [Symbol('|')] + (PrintPipe(t.rest) + rest);
      Regroup(PrintCommand(t.command), [Symbol('|')], PrintPipe(t.rest), rest, []);
      hi := CommandOrder(line, lo, t.command, tail);
      var p, e := HeadToken(line, hi, Symbol('|'), PrintPipe(t.rest) + rest);
      hi := PipeOrder(line, e, t.rest, rest);
      Part(line, MeansCommand(t.command), MeansPipe(t.rest), lo, p, hi, '|');
    }
  }

  lemma {:induction false} CommandOrder(line: string, lo: nat, t: Command, rest: seq<Token>) returns (hi: nat)
    requires lo <= |line| && Tokens(line, lo) == PrintCommand(t) + rest
    ensures lo <= hi <= |line| && Tokens(line, hi) == rest
    ensures InOrder(line, MeansCommand(t)) && Within(WordList(MeansCommand(t)), lo, hi)
    decreases t
  {
    hide Tokens, PrintRedirs, PrintArgs, PrintLine, ReadsFrom;
    match t
    case Simple(rs, args) =>
      Regroup(PrintRedirs(rs), PrintArgs(args), rest, [], []);
      var mid := RedirsOrder(line, lo, rs, PrintArgs(args) + rest);
      hi := ArgsOrder(line, mid, args, rest);
      SimpleOrder(line, rs, args, lo, mid, hi);
    case Block(l, rs) =>
      Regroup([Symbol('(')], PrintLine(l), [Symbol(')')], PrintRedirs(rs), rest);
      var tail := [Symbol(')')] + (PrintRedirs(rs) + rest);
      var p, e := HeadToken(line, lo, Symbol('('), PrintLine(l) + tail);
      var mid := LineOrder(line, e, l, tail);
      var q, e2 := HeadToken(line, mid, Symbol(')'), PrintRedirs(rs) + rest);
      hi := RedirsOrder(line, e2, rs, rest);
      BlockOrder(line, Means(l), rs, lo, mid, e2, hi);
  }

  lemma SimpleOrder(line: string, rs: seq<Redirection>, args: seq<Arg>, lo: nat, mid: nat, hi: nat)
    requires RedirsLie(line, rs, lo, mid) && lo <= mid <= hi
    requires WordsLie(ArgWords(args), mid, hi) && RedirsLie(line, ArgRedirs(args), mid, hi)
    ensures var cmd := Wrap(Exec(ArgWords(args)), rs + ArgRedirs(args)); InOrder(line, cmd) && Within(WordList(cmd), lo, hi)
  {
    hide ReadsFrom;
    RedirsJoin(line, rs, ArgRedirs(args), lo, mid, hi);
    WrapOrder(line, Exec(ArgWords(args)), rs + ArgRedirs(args), lo, lo, hi);
  }

  lemma BlockOrder(line: string, cmd: Cmd, rs: seq<Redirection>, lo: nat, mid: nat, e: nat, hi: nat)
    requires InOrder(line, cmd) && Within(WordList(cmd), lo, mid) && lo <= mid <= e <= hi && RedirsLie(line, rs, e, hi)
    ensures InOrder(line, Wrap(cmd, rs)) && Within(WordList(Wrap(cmd, rs)), lo, hi)
  {
    hide ReadsFrom, InOrder;
    if cmd.Redir? {
      assert cmd.file in WordList(cmd);
    }
    WrapOrder(line, cmd, rs, lo, e, hi);
  }

  /** Whatever the parser makes of the tokens from ps on lies in the line in order. */
  lemma ParsedInOrder(line: string, ps: nat)
    requires ps <= |line|
    ensures var r := GetCommand(Tokens(line, ps)); r.Some? ==> InOrder(line, MeansCommand(r.value.0))
    ensures var r := GetPipe(Tokens(line, ps)); r.Some? ==> InOrder(line, MeansPipe(r.value.0))
    ensures var r := GetLine(Tokens(line, ps)); r.Some? ==> InOrder(line, Means(r.value.0))
  {
    hide Tokens, GetCommand, GetPipe, GetLine, InOrder;
    var ts := Tokens(line, ps);
    CommandPrints(ts);
    PipePrints(ts);
    LinePrints(ts);
    if GetCommand(ts).Some? { var _ := CommandOrder(line, ps, GetCommand(ts).value.0, GetCommand(ts).value.1); }
    if GetPipe(ts).Some? { var _ := PipeOrder(line, ps, GetPipe(ts).value.0, GetPipe(ts).value.1); }
    if GetLine(ts).Some? { var _ := LineOrder(line, ps, GetLine(ts).value.0, GetLine(ts).value.1); }
  }

  // ---------------------------------------------------------------- every command can be written

  /** File descriptors 0 and 1, and fewer than MAXARGS arguments. */
  predicate Plain(cmd: Cmd) {
    match cmd
    case Exec(argv) => |argv| < MAXARGS
    case Redir(c, _, fd) => fd <= 1 && Plain(c)
    case Piped(l, r) => Plain(l) && Plain(r)
    case List(l, r) => Plain(l) && Plain(r)
    case Back(c) => Plain(c)
  }

  predicate Basic(cmd: Cmd) { cmd.Exec? || cmd.Redir? }

  /** A line that stands for cmd: l ; r, c &, l | r, and parentheses where they are needed. */
  function LineOf(cmd: Cmd): Line
    decreases cmd, if Basic(cmd) then 5 else 3
  {
    match cmd
    case List(l, r) => Then(BackedOf(l).0, BackedOf(l).1, LineOf(r))
    case _ => Last(BackedOf(cmd).0, BackedOf(cmd).1)
  }

  function BackedOf(cmd: Cmd): (Pipeline, nat)
    decreases cmd, if Basic(cmd) then 4 else if cmd.List? then 6 else 2
  {
    match cmd
    case Back(c) => (BackedOf(c).0, BackedOf(c).1 + 1)
    case _ => (PipeOf(cmd), 0)
  }

  function PipeOf(cmd: Cmd): Pipeline
    decreases cmd, if Basic(cmd) then 3 else if cmd.Piped? then 1 else 5
  {
    match cmd
    case Piped(l, r) => Into(CommandOf(l), PipeOf(r))
    case _ => One(CommandOf(cmd))
  }

  function CommandOf(cmd: Cmd): Command
    decreases cmd, if Basic(cmd) then 2 else 4
  {
    match cmd
    case Exec(argv) => Simple([], Bare(argv))
    case Redir(c, file, fd) =>
      var more := [Redirection(if fd == 0 then Input else Output, file)];
      (match CommandOf(c)
       case Simple(rs, args) => Simple(rs + more, args)
       case Block(l, rs) => Block(l, rs + more))
    case _ => Block(LineOf(cmd), [])
  }

  function Bare(argv: seq<Range>): seq<Arg> { if argv == [] then [] else [Arg(argv[0], [])] + Bare(argv[1..]) }

  lemma {:induction false} BareWords(argv: seq<Range>)
    ensures ArgWords(Bare(argv)) == argv && ArgRedirs(Bare(argv)) == [] && |Bare(argv)| == |argv|
  {
    if argv != [] {
      BareWords(argv[1..]);
      assert Bare(argv)[1..] == Bare(argv[1..]);
    }
  }

  lemma {:induction false} WrapLast(cmd: Cmd, rs: seq<Redirection>, r: Redirection)
    ensures Wrap(cmd, rs + [r]) == Redir(Wrap(cmd, rs), r.file, if r.op == Input then 0 else 1)
    decreases |rs|
  {
    if rs == [] {
      assert [] + [r] == [r] && [r][1..] == [];
    } else {
      assert (rs + [r])[1..] == rs[1..] + [r];
      WrapLast(Redir(cmd, rs[0].file, if rs[0].op == Input then 0 else 1), rs[1..], r);
    }
  }

  lemma {:induction false} BacksLast(cmd: Cmd, n: nat)
    ensures Backs(cmd, n + 1) == Back(Backs(cmd, n))
    decreases n
  {
    if n > 0 {
      BacksLast(Back(cmd), n - 1);
    }
  }

  lemma {:induction false} LineStands(cmd: Cmd)
    requires Plain(cmd)
    ensures FewArgs(LineOf(cmd)) && Means(LineOf(cmd)) == cmd
    decreases cmd, if Basic(cmd) then 5 else 3
  {
    match cmd
    case List(l, r) =>
      BackedStands(l);
      LineStands(r);
    case _ =>
      BackedStands(cmd);
  }

  lemma {:induction false} BackedStands(cmd: Cmd)
    requires Plain(cmd)
    ensures FewArgsPipe(BackedOf(cmd).0) && Backs(MeansPipe(BackedOf(cmd).0), BackedOf(cmd).1) == cmd
    decreases cmd, if Basic(cmd) then 4 else if cmd.List? then 6 else 2
  {
    match cmd
    case Back(c) =>
      BackedStands(c);
      BacksLast(MeansPipe(BackedOf(c).0), BackedOf(c).1);
    case _ =>
      PipeStands(cmd);
  }

  lemma {:induction false} PipeStands(cmd: Cmd)
    requires Plain(cmd)
    ensures FewArgsPipe(PipeOf(cmd)) && MeansPipe(PipeOf(cmd)) == cmd
    decreases cmd, if Basic(cmd) then 3 else if cmd.Piped? then 1 else 5
  {
    match cmd
    case Piped(l, r) =>
      CommandStands(l);
      PipeStands(r);
    case _ =>
      CommandStands(cmd);
  }

  lemma {:induction false} CommandStands(cmd: Cmd)
    requires Plain(cmd)
    ensures FewArgsCommand(CommandOf(cmd)) && MeansCommand(CommandOf(cmd)) == cmd
    ensures CommandOf(cmd).Simple? ==> Basic(cmd) && ArgRedirs(CommandOf(cmd).args) == []
    decreases cmd, if Basic(cmd) then 2 else 4
  {
    match cmd
    case Exec(argv) =>
      BareWords(argv);
      assert [] + ArgRedirs(Bare(argv)) == [];
    case Redir(c, file, fd) =>
      CommandStands(c);
      var r := Redirection(if fd == 0 then Input else Output, file);
      match CommandOf(c) {
        case Simple(rs, args) =>
          assert rs + ArgRedirs(args) == rs && rs + [r] + ArgRedirs(args) == rs + [r];
          WrapLast(Exec(ArgWords(args)), rs, r);
        case Block(l, rs) =>
          WrapLast(Means(l), rs, r);
      }
    case _ =>
      LineStands(cmd);
  }

  /** Every command structure is what the parser makes of a line: pipes, lists and & as they are written. */
  lemma EveryCommandParses(cmd: Cmd)
    requires Plain(cmd)
    ensures GetLine(PrintLine(LineOf(cmd))) == Some((LineOf(cmd), [])) && Means(LineOf(cmd)) == cmd
  {
    LineStands(cmd);
    ParsesExactly(PrintLine(LineOf(cmd)), LineOf(cmd));
  }
}
