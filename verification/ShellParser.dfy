/**
 The parser of the shell (HW/HW_shell/sh.c).

 A line is a sequence of tokens, and a grammar on tokens says what command it stands for;
 the recursive-descent parser, which works on character positions, is proved against it.
 Printing a command and parsing it again gives the command back exactly if it is one the
 parser can produce.  A program that gives up with exit(-1) is an error value here.
 */
module ShellParser {

  const MAXARGS := 10

  datatype Cmd =
    | Exec(argv: seq<string>)
    | Redir(cmd: Cmd, file: string, kind: char)
    | Pipe(left: Cmd, right: Cmd)

  datatype Token = Word(w: string) | Sym(c: char)

  datatype Error = MissingFile | SyntaxError | TooManyArgs | Leftovers

  datatype Parsed<T> = Ok(v: T, rest: seq<Token>) | Fail(e: Error)

  predicate IsSpace(c: char) { c == ' ' || c == '\t' || c == '\r' || c == '\n' || c == '\U{00000B}' }

  predicate IsSymbol(c: char) { c == '<' || c == '|' || c == '>' }

  // ------------------------------------------------------------------
  // Tokens
  // ------------------------------------------------------------------

  // A C string ends at its first NUL.
  function CString(s: string): (r: string)
    ensures '\0' !in r && r <= s
    ensures if '\0' in s then |r| < |s| && s[|r|] == '\0' else r == s
  {
    if s == "" || s[0] == '\0' then "" else [s[0]] + CString(s[1..])
  }

  function Skip(s: string, i: nat): (j: nat)
    requires i <= |s|
    ensures i <= j <= |s| && (j < |s| ==> !IsSpace(s[j]))
    decreases |s| - i
  {
    if i < |s| && IsSpace(s[i]) then Skip(s, i + 1) else i
  }

  predicate InWord(c: char) { !IsSpace(c) && !IsSymbol(c) }

  function WordEnd(s: string, i: nat): (j: nat)
    requires i <= |s|
    ensures i <= j <= |s| && (forall k :: i <= k < j ==> InWord(s[k])) && (j < |s| ==> !InWord(s[j]))
    decreases |s| - i
  {
    if i < |s| && InWord(s[i]) then WordEnd(s, i + 1) else i
  }

  // The end of the token at `j`.
  function TokenEnd(s: string, j: nat): (k: nat)
    requires j < |s| && !IsSpace(s[j])
    ensures j < k <= |s|
  {
    if IsSymbol(s[j]) then j + 1 else WordEnd(s, j)
  }

  function TokenAt(s: string, j: nat): Token
    requires j < |s| && !IsSpace(s[j])
  {
    if IsSymbol(s[j]) then Sym(s[j]) else Word(s[j..WordEnd(s, j)])
  }

  function Tokens(s: string, i: nat): seq<Token>
    requires i <= |s|
    decreases |s| - i
  {
    var j := Skip(s, i);
    if j == |s| then [] else [TokenAt(s, j)] + Tokens(s, TokenEnd(s, j))
  }

  // The same without scanning ahead: a character that is part of a word joins the word
  // that the next character starts.
  function Lex(s: string, i: nat): seq<Token>
    requires i <= |s|
    decreases |s| - i
  {
    if i == |s| then []
    else
      var rest := Lex(s, i + 1);
      if IsSpace(s[i]) then rest
      else if IsSymbol(s[i]) then [Sym(s[i])] + rest
      else if i + 1 < |s| && InWord(s[i + 1]) && rest != [] && rest[0].Word? then [Word([s[i]] + rest[0].w)] + rest[1..]
      else [Word([s[i]])] + rest
  }

  lemma WordIsLonger(s: string, i: nat)
    requires i < |s| && InWord(s[i])
    ensures var rest := Tokens(s, i + 1);
            if i + 1 < |s| && InWord(s[i + 1])
            then rest != [] && rest[0].Word? && Tokens(s, i) == [Word([s[i]] + rest[0].w)] + rest[1..]
            else Tokens(s, i) == [Word([s[i]])] + rest
  {
    var e := WordEnd(s, i);
    assert Tokens(s, i) == [Word(s[i..e])] + Tokens(s, e);
    if i + 1 < |s| && InWord(s[i + 1]) {
      assert Tokens(s, i + 1) == [Word(s[i + 1..e])] + Tokens(s, e);
      assert s[i..e] == [s[i]] + s[i + 1..e];
    } else {
      assert e == i + 1 && s[i..e] == [s[i]];
    }
  }

  lemma {:induction false} ScanIsLex(s: string, i: nat)
    requires i <= |s|
    ensures Tokens(s, i) == Lex(s, i)
    decreases |s| - i
  {
    if i < |s| {
      ScanIsLex(s, i + 1);
      if InWord(s[i]) {
        WordIsLonger(s, i);
      }
    }
  }

  // ------------------------------------------------------------------
  // The grammar
  // ------------------------------------------------------------------

  datatype Rd = Rd(file: string, kind: char)

  // Later redirections are further out.
  function Build(args: seq<string>, rds: seq<Rd>): Cmd
    decreases |rds|
  {
    if rds == [] then Exec(args)
    else var last := rds[|rds| - 1]; Redir(Build(args, rds[..|rds| - 1]), last.file, last.kind)
  }

  predicate StartsWith(ts: seq<Token>, syms: string) {
    ts != [] && ts[0].Sym? && ts[0].c in syms
  }

  function Redirs(rds: seq<Rd>, ts: seq<Token>): (r: Parsed<seq<Rd>>)
    ensures r.Ok? ==> |r.rest| <= |ts| && !StartsWith(r.rest, "<>")
    ensures r.Fail? ==> r.e == MissingFile
    decreases |ts|
  {
    if !StartsWith(ts, "<>") then Ok(rds, ts)
    else if |ts| < 2 || !ts[1].Word? then Fail(MissingFile)
    else Redirs(rds + [Rd(ts[1].w, ts[0].c)], ts[2..])
  }

  // The rest of a simple command: words, with redirections anywhere between them.
  function Args(args: seq<string>, rds: seq<Rd>, ts: seq<Token>): (r: Parsed<Cmd>)
    ensures r.Ok? ==> |r.rest| <= |ts| && (r.rest == [] || StartsWith(r.rest, "|"))
    decreases |ts|
  {
    if ts == [] || StartsWith(ts, "|") then Ok(Build(args, rds), ts)
    else if !ts[0].Word? then Fail(SyntaxError)
    else if |args| + 1 >= MAXARGS then Fail(TooManyArgs)
    else match Redirs(rds, ts[1..])
      case Ok(rds', rest) => Args(args + [ts[0].w], rds', rest)
      case Fail(e) => Fail(e)
  }

  function Simple(ts: seq<Token>): (r: Parsed<Cmd>)
    ensures r.Ok? ==> |r.rest| <= |ts| && (r.rest == [] || StartsWith(r.rest, "|"))
  {
    match Redirs([], ts)
    case Ok(rds, rest) => Args([], rds, rest)
    case Fail(e) => Fail(e)
  }

  function Pipeline(ts: seq<Token>): Parsed<Cmd>
    decreases |ts|
  {
    match Simple(ts)
    case Fail(e) => Fail(e)
    case Ok(left, rest) =>
      if !StartsWith(rest, "|") then Ok(left, rest)
      else match Pipeline(rest[1..])
        case Ok(right, rest') => Ok(Pipe(left, right), rest')
        case Fail(e) => Fail(e)
  }

  function Line(ts: seq<Token>): Parsed<Cmd> {
    match Pipeline(ts)
    case Ok(c, rest) => if rest == [] then Ok(c, rest) else Fail(Leftovers)
    case Fail(e) => Fail(e)
  }

  // What parsecmd() makes of a line.
  function Parse(line: string): Parsed<Cmd> {
    var s := CString(line);
    Line(Tokens(s, 0))
  }

  predicate Symbols(ts: seq<Token>) {
    forall i :: 0 <= i < |ts| && ts[i].Sym? ==> IsSymbol(ts[i].c)
  }

  // ------------------------------------------------------------------
  // What a line means, without parsing it
  // ------------------------------------------------------------------

  predicate IsRedir(t: Token) { t.Sym? && (t.c == '<' || t.c == '>') }

  // The arguments: the words that do not follow `<` or `>`.
  function ArgsIn(ts: seq<Token>): seq<string> {
    if ts == [] then []
    else
      var n := |ts| - 1;
      ArgsIn(ts[..n]) + if ts[n].Word? && (n == 0 || !IsRedir(ts[n - 1])) then [ts[n].w] else []
  }

  // The redirections: the words that do.
  function RdsIn(ts: seq<Token>): seq<Rd> {
    if ts == [] then []
    else
      var n := |ts| - 1;
      RdsIn(ts[..n]) + if ts[n].Word? && n > 0 && IsRedir(ts[n - 1]) then [Rd(ts[n].w, ts[n - 1].c)] else []
  }

  predicate Followed(ts: seq<Token>, i: nat)
    requires i < |ts|
  {
    IsRedir(ts[i]) ==> i + 1 < |ts| && ts[i + 1].Word?
  }

  // Every `<` and `>` is followed by a word, and there are not too many arguments.
  predicate Fits(ts: seq<Token>) {
    |ArgsIn(ts)| < MAXARGS && forall i {:trigger Followed(ts, i)} :: 0 <= i < |ts| ==> Followed(ts, i)
  }

  // What is wrong with tokens that do not fit.
  predicate Blamed(ts: seq<Token>, e: Error) {
    match e
    case MissingFile => exists i {:trigger Followed(ts, i)} :: 0 <= i < |ts| && !Followed(ts, i)
    case TooManyArgs => |ArgsIn(ts)| >= MAXARGS
    case _ => false
  }

  // Where the first command ends.
  function Bar(ts: seq<Token>): (k: nat)
    ensures k <= |ts| && (forall i :: 0 <= i < k ==> ts[i] != Sym('|')) && (k < |ts| ==> ts[k] == Sym('|'))
  {
    if ts == [] || ts[0] == Sym('|') then 0 else 1 + Bar(ts[1..])
  }

  // The tokens of each command of the line.
  function Segments(ts: seq<Token>): (segs: seq<seq<Token>>)
    ensures segs != []
    decreases |ts|
  {
    if Bar(ts) == |ts| then [ts] else [ts[..Bar(ts)]] + Segments(ts[Bar(ts) + 1..])
  }

  predicate PipeFree(c: Cmd) {
    match c case Exec(_) => true case Redir(d, _, _) => PipeFree(d) case Pipe(_, _) => false
  }

  function ArgsOf(c: Cmd): seq<string> {
    match c case Exec(argv) => argv case Redir(d, _, _) => ArgsOf(d) case Pipe(_, _) => []
  }

  // From the inside out.
  function RdsOf(c: Cmd): seq<Rd> {
    match c case Exec(_) => [] case Redir(d, file, kind) => RdsOf(d) + [Rd(file, kind)] case Pipe(_, _) => []
  }

  // The commands of a pipeline, from left to right.
  function Stages(c: Cmd): seq<Cmd> {
    match c case Pipe(l, r) => [l] + Stages(r) case _ => [c]
  }

  predicate Runs(c: Cmd, seg: seq<Token>) {
    PipeFree(c) && ArgsOf(c) == ArgsIn(seg) && RdsOf(c) == RdsIn(seg)
  }

  // Tokens that fit, and the commands they stand for.
  ghost predicate Matches(stages: seq<Cmd>, segs: seq<seq<Token>>) {
    |stages| == |segs| && forall i :: 0 <= i < |segs| ==> Fits(segs[i]) && Runs(stages[i], segs[i])
  }

  // The first command that does not fit is to blame.
  ghost predicate FirstBlamed(segs: seq<seq<Token>>, e: Error, i: nat) {
    i < |segs| && Blamed(segs[i], e) && forall j :: 0 <= j < i ==> Fits(segs[j])
  }

  // A line parses exactly if each command between the bars fits, and then to those
  // commands, from left to right.
  ghost predicate Obeys(ts: seq<Token>, r: Parsed<Cmd>) {
    if r.Ok? then Matches(Stages(r.v), Segments(ts)) else exists i :: FirstBlamed(Segments(ts), r.e, i)
  }

  lemma {:induction false} BuildRuns(args: seq<string>, rds: seq<Rd>)
    ensures PipeFree(Build(args, rds)) && ArgsOf(Build(args, rds)) == args && RdsOf(Build(args, rds)) == rds
    decreases |rds|
  {
    if rds != [] { BuildRuns(args, rds[..|rds| - 1]); }
  }

  lemma ReadNext(ts: seq<Token>, k: nat)
    requires k < |ts|
    ensures var follows := k > 0 && IsRedir(ts[k - 1]);
            && ArgsIn(ts[..k + 1]) == ArgsIn(ts[..k]) + (if ts[k].Word? && !follows then [ts[k].w] else [])
            && RdsIn(ts[..k + 1]) == RdsIn(ts[..k]) + (if ts[k].Word? && follows then [Rd(ts[k].w, ts[k - 1].c)] else [])
  {
    assert ts[..k + 1][..k] == ts[..k];
  }

  lemma {:induction false} ArgsGrow(ts: seq<Token>, a: nat, b: nat)
    requires a <= b <= |ts|
    ensures |ArgsIn(ts[..a])| <= |ArgsIn(ts[..b])|
    decreases b - a
  {
    if a < b {
      ReadNext(ts, b - 1);
      ArgsGrow(ts, a, b - 1);
    }
  }

  // The first k tokens have been read, and are in order.
  predicate Read(ts: seq<Token>, k: nat) {
    k <= Bar(ts) && Fits(ts[..k])
  }

  // A redirection and its file.
  lemma ReadRedir(ts: seq<Token>, k: nat)
    requires Read(ts, k) && k + 1 < |ts| && IsRedir(ts[k]) && ts[k + 1].Word?
    ensures Read(ts, k + 2) && ArgsIn(ts[..k + 2]) == ArgsIn(ts[..k])
    ensures RdsIn(ts[..k + 2]) == RdsIn(ts[..k]) + [Rd(ts[k + 1].w, ts[k].c)]
  {
    ReadNext(ts, k);
    ReadNext(ts, k + 1);
    var ts2 := ts[..k + 2];
    forall i | 0 <= i < |ts2|
      ensures Followed(ts2, i)
    {
      if i < k { assert Followed(ts[..k], i); }
    }
  }

  // A word that is an argument.
  lemma ReadArg(ts: seq<Token>, k: nat)
    requires Read(ts, k) && k < |ts| && ts[k].Word? && |ArgsIn(ts[..k])| + 1 < MAXARGS
    ensures Read(ts, k + 1) && ArgsIn(ts[..k + 1]) == ArgsIn(ts[..k]) + [ts[k].w] && RdsIn(ts[..k + 1]) == RdsIn(ts[..k])
  {
    ReadNext(ts, k);
    assert k > 0 ==> Followed(ts[..k], k - 1);
    var ts1 := ts[..k + 1];
    forall i | 0 <= i < |ts1|
      ensures Followed(ts1, i)
    {
      if i < k { assert Followed(ts[..k], i); }
    }
  }

  lemma TooMany(ts: seq<Token>, k: nat)
    requires Read(ts, k) && k < |ts| && ts[k].Word? && |ArgsIn(ts[..k])| + 1 >= MAXARGS
    ensures Blamed(ts[..Bar(ts)], TooManyArgs)
  {
    ReadNext(ts, k);
    assert k > 0 ==> Followed(ts[..k], k - 1);
    ArgsGrow(ts, k + 1, Bar(ts));
  }

  lemma NoFile(ts: seq<Token>, k: nat)
    requires Read(ts, k) && k < |ts| && IsRedir(ts[k]) && (k + 1 < |ts| ==> !ts[k + 1].Word?)
    ensures Blamed(ts[..Bar(ts)], MissingFile)
  {
    var b := Bar(ts);
    assert k < b;
    var seg := ts[..b];
    assert seg[k] == ts[k];
    assert k + 1 < b ==> seg[k + 1] == ts[k + 1];
    assert !Followed(seg, k);
  }

  // Redirs() read on from token k to token k', or gave up.
  ghost predicate ReadsRedirs(ts: seq<Token>, k: nat, k': nat, r: Parsed<seq<Rd>>) {
    match r
    case Ok(rds, rest) =>
      && k <= k' <= |ts| && rest == ts[k'..] && Read(ts, k')
      && rds == RdsIn(ts[..k']) && ArgsIn(ts[..k']) == ArgsIn(ts[..k])
    case Fail(e) => e == MissingFile && Blamed(ts[..Bar(ts)], e)
  }

  ghost predicate ReadsCommand(ts: seq<Token>, r: Parsed<Cmd>) {
    var seg := ts[..Bar(ts)];
    match r
    case Ok(c, rest) => rest == ts[Bar(ts)..] && Fits(seg) && Runs(c, seg)
    case Fail(e) => Blamed(seg, e)
  }

  lemma {:induction false} RedirsMean(ts: seq<Token>, k: nat) returns (k': nat)
    requires Symbols(ts) && Read(ts, k)
    ensures ReadsRedirs(ts, k, k', Redirs(RdsIn(ts[..k]), ts[k..]))
    decreases |ts| - k
  {
    k' := k;
    var rds, more := RdsIn(ts[..k]), ts[k..];
    if StartsWith(more, "<>") {
      assert more[0] == ts[k] && IsRedir(ts[k]);
      if k + 1 < |ts| && ts[k + 1].Word? {
        assert more[1] == ts[k + 1] && more[2..] == ts[k + 2..];
        ReadRedir(ts, k);
        k' := RedirsMean(ts, k + 2);
      } else {
        NoFile(ts, k);
      }
    }
  }

  lemma ArgsEnd(ts: seq<Token>, k: nat)
    requires Read(ts, k) && k == Bar(ts)
    ensures ReadsCommand(ts, Args(ArgsIn(ts[..k]), RdsIn(ts[..k]), ts[k..]))
  {
    BuildRuns(ArgsIn(ts[..k]), RdsIn(ts[..k]));
  }

  lemma ArgsNext(args: seq<string>, rds: seq<Rd>, ts: seq<Token>, k: nat)
    requires k < |ts| && ts[k].Word? && |args| + 1 < MAXARGS
    ensures Args(args, rds, ts[k..]) == match Redirs(rds, ts[k + 1..])
                                        case Ok(rds', rest) => Args(args + [ts[k].w], rds', rest)
                                        case Fail(e) => Fail(e)
  {
    var more := ts[k..];
    assert more[0] == ts[k] && more[1..] == ts[k + 1..];
  }

  lemma {:induction false} ArgsMean(ts: seq<Token>, k: nat)
    requires Symbols(ts) && Read(ts, k) && (k < |ts| ==> !IsRedir(ts[k]))
    ensures ReadsCommand(ts, Args(ArgsIn(ts[..k]), RdsIn(ts[..k]), ts[k..]))
    decreases |ts| - k
  {
    var args, rds := ArgsIn(ts[..k]), RdsIn(ts[..k]);
    if k == |ts| || ts[k] == Sym('|') {
      assert k == Bar(ts);
      ArgsEnd(ts, k);
    } else if |args| + 1 >= MAXARGS {
      assert ts[k..][0] == ts[k];
      TooMany(ts, k);
    } else {
      ArgsNext(args, rds, ts, k);
      ReadArg(ts, k);
      var k' := RedirsMean(ts, k + 1);
      var r := Redirs(rds, ts[k + 1..]);
      if r.Ok? {
        assert k' < |ts| ==> r.rest[0] == ts[k'];
        ArgsMean(ts, k');
      }
    }
  }

  // A command parses exactly if its tokens fit, and then runs what they say.
  lemma SimpleMeans(ts: seq<Token>)
    requires Symbols(ts)
    ensures ReadsCommand(ts, Simple(ts))
  {
    assert ts[..0] == [] && ts[0..] == ts;
    var k := RedirsMean(ts, 0);
    var r := Redirs([], ts);
    if r.Ok? {
      assert k < |ts| ==> r.rest[0] == ts[k];
      ArgsMean(ts, k);
    }
  }

  lemma {:induction false} PipelineMeans(ts: seq<Token>)
    requires Symbols(ts)
    ensures Obeys(ts, Pipeline(ts)) && (Pipeline(ts).Ok? ==> Pipeline(ts).rest == [])
    decreases |ts|
  {
    SimpleMeans(ts);
    var segs := Segments(ts);
    if Bar(ts) == |ts| {
      assert ts[..Bar(ts)] == ts && segs == [ts];
      assert Simple(ts).Fail? ==> FirstBlamed(segs, Simple(ts).e, 0);
    } else {
      assert segs[0] == ts[..Bar(ts)];
      if Simple(ts).Fail? {
        assert FirstBlamed(segs, Simple(ts).e, 0);
      } else {
        var more := ts[Bar(ts) + 1..];
        assert ts[Bar(ts)..][1..] == more;
        PipelineMeans(more);
        assert segs == [segs[0]] + Segments(more);
        var r := Pipeline(more);
        if r.Ok? {
          OneMore(Simple(ts).v, segs[0], Stages(r.v), Segments(more));
          assert Stages(Pipeline(ts).v) == [Simple(ts).v] + Stages(r.v);
        } else {
          var i: nat :| FirstBlamed(Segments(more), r.e, i);
          BlamedLater(segs[0], Segments(more), r.e, i);
        }
      }
    }
  }

  lemma OneMore(c: Cmd, seg: seq<Token>, stages: seq<Cmd>, segs: seq<seq<Token>>)
    requires Fits(seg) && Runs(c, seg) && Matches(stages, segs)
    ensures Matches([c] + stages, [seg] + segs)
  {
    var stages', segs' := [c] + stages, [seg] + segs;
    forall i | 0 <= i < |segs'| ensures Fits(segs'[i]) && Runs(stages'[i], segs'[i]) {
      if i > 0 { assert segs'[i] == segs[i - 1] && stages'[i] == stages[i - 1]; }
    }
  }

  lemma BlamedLater(seg: seq<Token>, segs: seq<seq<Token>>, e: Error, i: nat)
    requires Fits(seg) && FirstBlamed(segs, e, i)
    ensures FirstBlamed([seg] + segs, e, i + 1)
  {
    var segs' := [seg] + segs;
    assert segs'[i + 1] == segs[i];
    forall j | 0 <= j < i + 1 ensures Fits(segs'[j]) {
      if j > 0 { assert segs'[j] == segs[j - 1]; }
    }
  }

  // ------------------------------------------------------------------
  // Two errors never happen
  // ------------------------------------------------------------------

  lemma {:induction false} RedirsSymbols(rds: seq<Rd>, ts: seq<Token>)
    requires Symbols(ts) && Redirs(rds, ts).Ok?
    ensures Symbols(Redirs(rds, ts).rest)
    decreases |ts|
  {
    if StartsWith(ts, "<>") {
      RedirsSymbols(rds + [Rd(ts[1].w, ts[0].c)], ts[2..]);
    }
  }

  // Only the symbols that Redirs() takes could be a syntax error.
  lemma {:induction false} ArgsErrors(args: seq<string>, rds: seq<Rd>, ts: seq<Token>)
    requires !StartsWith(ts, "<>") && Symbols(ts)
    ensures match Args(args, rds, ts) case Ok(_, rest) => Symbols(rest) case Fail(e) => e in {MissingFile, TooManyArgs}
    decreases |ts|
  {
    if ts != [] && ts[0].Word? && |args| + 1 < MAXARGS {
      var r := Redirs(rds, ts[1..]);
      if r.Ok? {
        RedirsSymbols(rds, ts[1..]);
        ArgsErrors(args + [ts[0].w], r.v, r.rest);
      }
    }
  }

  lemma {:induction false} PipelineErrors(ts: seq<Token>)
    requires Symbols(ts)
    ensures match Pipeline(ts) case Ok(_, rest) => rest == [] case Fail(e) => e in {MissingFile, TooManyArgs}
    decreases |ts|
  {
    var r := Redirs([], ts);
    if r.Ok? {
      RedirsSymbols([], ts);
      ArgsErrors([], r.v, r.rest);
      var a := Args([], r.v, r.rest);
      if a.Ok? && StartsWith(a.rest, "|") {
        PipelineErrors(a.rest[1..]);
      }
    }
  }

  lemma {:induction false} TokensAreSymbols(s: string, i: nat)
    requires i <= |s|
    ensures Symbols(Tokens(s, i))
    decreases |s| - i
  {
    var j := Skip(s, i);
    if j < |s| {
      TokensAreSymbols(s, TokenEnd(s, j));
    }
  }

  // "leftovers" and "syntax error" are not reported for any line.
  lemma NeverLeftovers(line: string)
    ensures Parse(line).Fail? ==> Parse(line).e in {MissingFile, TooManyArgs}
  {
    TokensAreSymbols(CString(line), 0);
    PipelineErrors(Tokens(CString(line), 0));
  }

  // ------------------------------------------------------------------
  // Printing
  // ------------------------------------------------------------------

  function Words(args: seq<string>): seq<Token>
  {
    if args == [] then [] else [Word(args[0])] + Words(args[1..])
  }

  // The tokens of a command.
  function Spell(c: Cmd): seq<Token> {
    match c
    case Exec(argv) => Words(argv)
    case Redir(d, file, kind) => Spell(d) + [Sym(kind), Word(file)]
    case Pipe(l, r) => Spell(l) + [Sym('|')] + Spell(r)
  }

  // A blank after each token.
  function Text(ts: seq<Token>): string {
    if ts == [] then ""
    else Spelling(ts[0]) + " " + Text(ts[1..])
  }

  function Print(c: Cmd): string { Text(Spell(c)) }

  // ------------------------------------------------------------------
  // The commands the parser can produce
  // ------------------------------------------------------------------

  predicate ValidWord(w: string) {
    w != "" && forall k :: 0 <= k < |w| ==> InWord(w[k]) && w[k] != '\0'
  }

  predicate IsSimple(c: Cmd) {
    match c
    case Exec(argv) => |argv| < MAXARGS && forall i :: 0 <= i < |argv| ==> ValidWord(argv[i])
    case Redir(d, file, kind) => kind in "<>" && ValidWord(file) && IsSimple(d)
    case Pipe(_, _) => false
  }

  // Redirections apply to single commands, and pipes nest to the right.
  predicate Canonical(c: Cmd) {
    match c
    case Pipe(l, r) => IsSimple(l) && Canonical(r)
    case _ => IsSimple(c)
  }

  predicate ValidTokens(ts: seq<Token>) {
    forall i :: 0 <= i < |ts| ==> match ts[i] case Word(w) => ValidWord(w) case Sym(c) => IsSymbol(c)
  }

  predicate ValidArgs(args: seq<string>, rds: seq<Rd>) {
    && |args| < MAXARGS && (forall i :: 0 <= i < |args| ==> ValidWord(args[i]))
    && forall i :: 0 <= i < |rds| ==> ValidWord(rds[i].file) && rds[i].kind in "<>"
  }

  lemma {:induction false} BuildSimple(args: seq<string>, rds: seq<Rd>)
    requires ValidArgs(args, rds)
    ensures IsSimple(Build(args, rds))
    decreases |rds|
  {
    if rds != [] { BuildSimple(args, rds[..|rds| - 1]); }
  }

  lemma {:induction false} RedirsValid(args: seq<string>, rds: seq<Rd>, ts: seq<Token>)
    requires ValidTokens(ts) && ValidArgs(args, rds) && Redirs(rds, ts).Ok?
    ensures ValidArgs(args, Redirs(rds, ts).v) && ValidTokens(Redirs(rds, ts).rest)
    decreases |ts|
  {
    if StartsWith(ts, "<>") {
      RedirsValid(args, rds + [Rd(ts[1].w, ts[0].c)], ts[2..]);
    }
  }

  lemma {:induction false} ArgsSimple(args: seq<string>, rds: seq<Rd>, ts: seq<Token>)
    requires ValidTokens(ts) && ValidArgs(args, rds) && Args(args, rds, ts).Ok?
    ensures IsSimple(Args(args, rds, ts).v) && ValidTokens(Args(args, rds, ts).rest)
    decreases |ts|
  {
    if ts == [] || StartsWith(ts, "|") {
      BuildSimple(args, rds);
    } else {
      var r := Redirs(rds, ts[1..]);
      RedirsValid(args + [ts[0].w], rds, ts[1..]);
      ArgsSimple(args + [ts[0].w], r.v, r.rest);
    }
  }

  lemma {:induction false} PipelineCanonical(ts: seq<Token>)
    requires ValidTokens(ts) && Pipeline(ts).Ok?
    ensures Canonical(Pipeline(ts).v)
    decreases |ts|
  {
    var r := Redirs([], ts);
    RedirsValid([], [], ts);
    ArgsSimple([], r.v, r.rest);
    var a := Args([], r.v, r.rest);
    if StartsWith(a.rest, "|") {
      PipelineCanonical(a.rest[1..]);
    }
  }

  lemma {:induction false} TokensValid(s: string, i: nat)
    requires i <= |s| && '\0' !in s
    ensures ValidTokens(Tokens(s, i))
    decreases |s| - i
  {
    var j := Skip(s, i);
    if j < |s| {
      TokensValid(s, TokenEnd(s, j));
    }
  }

  // Whatever line is parsed, the command is canonical.
  lemma ParsesToCanonical(line: string)
    requires Parse(line).Ok?
    ensures Canonical(Parse(line).v)
  {
    TokensValid(CString(line), 0);
    PipelineCanonical(Tokens(CString(line), 0));
  }

  // ------------------------------------------------------------------
  // Printing and parsing again
  // ------------------------------------------------------------------

  function RdTokens(rds: seq<Rd>): seq<Token> {
    if rds == [] then [] else [Sym(rds[0].kind), Word(rds[0].file)] + RdTokens(rds[1..])
  }

  lemma {:induction false} RdTokensSnoc(rds: seq<Rd>, r: Rd)
    ensures RdTokens(rds + [r]) == RdTokens(rds) + [Sym(r.kind), Word(r.file)]
  {
    if rds == [] {
      assert rds + [r] == [r];
    } else {
      RdTokensSnoc(rds[1..], r);
      assert (rds + [r])[1..] == rds[1..] + [r];
    }
  }

  lemma Assoc<T>(a: seq<T>, b: seq<T>, c: seq<T>)
    ensures (a + b) + c == a + (b + c)
  {
  }

  lemma {:induction false} SimpleBuild(c: Cmd)
    requires IsSimple(c)
    ensures c == Build(ArgsOf(c), RdsOf(c)) && ValidArgs(ArgsOf(c), RdsOf(c))
  {
    match c
    case Exec(argv) =>
    case Redir(d, file, kind) =>
      SimpleBuild(d);
      assert RdsOf(c)[..|RdsOf(c)| - 1] == RdsOf(d);
  }

  lemma {:induction false} SimpleSpell(c: Cmd)
    requires IsSimple(c)
    ensures Spell(c) == Words(ArgsOf(c)) + RdTokens(RdsOf(c))
  {
    match c
    case Exec(argv) =>
    case Redir(d, file, kind) =>
      SimpleSpell(d);
      RdTokensSnoc(RdsOf(d), Rd(file, kind));
      Assoc(Words(ArgsOf(d)), RdTokens(RdsOf(d)), [Sym(kind), Word(file)]);
  }

  predicate EndsSimple(tail: seq<Token>) { tail == [] || StartsWith(tail, "|") }

  lemma {:induction false} RedirsReads(done: seq<Rd>, rds: seq<Rd>, tail: seq<Token>)
    requires EndsSimple(tail) && forall i :: 0 <= i < |rds| ==> rds[i].kind in "<>"
    ensures Redirs(done, RdTokens(rds) + tail) == Ok(done + rds, tail)
    decreases |rds|
  {
    if rds == [] {
      assert RdTokens(rds) + tail == tail && done + rds == done;
    } else {
      var ts := RdTokens(rds) + tail;
      assert ts[2..] == RdTokens(rds[1..]) + tail;
      RedirsReads(done + [rds[0]], rds[1..], tail);
      assert done + [rds[0]] + rds[1..] == done + rds;
    }
  }

  lemma {:induction false} WordsHead(args: seq<string>, more: seq<Token>)
    requires args != []
    ensures var ts := Words(args) + more; |ts| > 0 && ts[0] == Word(args[0]) && ts[1..] == Words(args[1..]) + more
  {
    Shift(Word(args[0]), Words(args[1..]), more);
  }

  lemma Shift(t: Token, a: seq<Token>, b: seq<Token>)
    ensures [t] + a + b == [t] + (a + b) && ([t] + (a + b))[1..] == a + b
  {
  }

  // `more` is where the words end.
  lemma {:induction false} ArgsReads(done: seq<string>, args: seq<string>, rds: seq<Rd>, more: seq<Token>, tail: seq<Token>)
    requires EndsSimple(tail) && |done| + |args| < MAXARGS && args != []
    requires Redirs([], more) == Ok(rds, tail)
    ensures Args(done, [], Words(args) + more) == Ok(Build(done + args, rds), tail)
    decreases |args|
  {
    var ts := Words(args) + more;
    WordsHead(args, more);
    assert done + [args[0]] + args[1..] == done + args;
    if |args| == 1 {
      assert ts[1..] == more && args == [args[0]];
      assert Args(done + [args[0]], rds, tail) == Ok(Build(done + args, rds), tail);
    } else {
      WordsHead(args[1..], more);
      assert Redirs([], ts[1..]) == Ok([], ts[1..]);
      ArgsReads(done + [args[0]], args[1..], rds, more, tail);
    }
  }

  lemma {:induction false} SimpleReads(c: Cmd, tail: seq<Token>)
    requires IsSimple(c) && EndsSimple(tail)
    ensures Simple(Spell(c) + tail) == Ok(c, tail)
  {
    SimpleBuild(c);
    SimpleSpell(c);
    var args, rds := ArgsOf(c), RdsOf(c);
    var more := RdTokens(rds) + tail;
    Assoc(Words(args), RdTokens(rds), tail);
    RedirsReads([], rds, tail);
    assert [] + rds == rds;
    if args == [] {
      assert Words(args) + more == more;
    } else {
      WordsHead(args, more);
      ArgsReads([], args, rds, more, tail);
      assert [] + args == args;
    }
  }

  lemma {:induction false} PipelineReads(c: Cmd)
    requires Canonical(c)
    ensures Pipeline(Spell(c)) == Ok(c, [])
    decreases c
  {
    match c {
      case Pipe(l, r) =>
        var tail := [Sym('|')] + Spell(r);
        assert Spell(c) == Spell(l) + tail && tail[1..] == Spell(r);
        SimpleReads(l, tail);
        PipelineReads(r);
      case _ =>
        assert Spell(c) + [] == Spell(c);
        SimpleReads(c, []);
    }
  }

  // Scanning depends on what is ahead only.
  lemma {:induction false} SkipAhead(a: string, b: string, i: nat)
    requires i <= |b|
    ensures Skip(a + b, |a| + i) == |a| + Skip(b, i)
    decreases |b| - i
  {
    if i < |b| && IsSpace(b[i]) { SkipAhead(a, b, i + 1); }
  }

  lemma {:induction false} WordAhead(a: string, b: string, i: nat)
    requires i <= |b|
    ensures WordEnd(a + b, |a| + i) == |a| + WordEnd(b, i)
    decreases |b| - i
  {
    if i < |b| && InWord(b[i]) { WordAhead(a, b, i + 1); }
  }

  lemma TokenAhead(a: string, b: string, j: nat)
    requires j < |b| && !IsSpace(b[j])
    ensures TokenAt(a + b, |a| + j) == TokenAt(b, j) && TokenEnd(a + b, |a| + j) == |a| + TokenEnd(b, j)
  {
    WordAhead(a, b, j);
    assert (a + b)[|a| + j..|a| + WordEnd(b, j)] == b[j..WordEnd(b, j)];
  }

  lemma {:induction false} TokensAhead(a: string, b: string, i: nat)
    requires i <= |b|
    ensures Tokens(a + b, |a| + i) == Tokens(b, i)
    decreases |b| - i
  {
    SkipAhead(a, b, i);
    var j := Skip(b, i);
    if j < |b| {
      TokenAhead(a, b, j);
      TokensAhead(a, b, TokenEnd(b, j));
    }
  }

  lemma {:induction false} WordScans(w: string, rest: string, i: nat)
    requires ValidWord(w) && i <= |w|
    ensures WordEnd(w + " " + rest, i) == |w|
    decreases |w| - i
  {
    if i < |w| { WordScans(w, rest, i + 1); }
  }

  function Spelling(t: Token): string {
    match t case Word(w) => w case Sym(c) => [c]
  }

  // A token and a blank are scanned as that token.
  lemma OneScans(t: Token, rest: string)
    requires ValidTokens([t])
    ensures Tokens(Spelling(t) + " " + rest, 0) == [t] + Tokens(rest, 0)
  {
    assert [t][0] == t;
    var a := Spelling(t);
    var s := a + " " + rest;
    assert s[0] == a[0];
    if t.Word? {
      WordScans(a, rest, 0);
      assert s[0..|a|] == a;
    }
    assert TokenAt(s, 0) == t && TokenEnd(s, 0) == |a|;
    assert s[|a|] == ' ';
    assert Tokens(s, |a|) == Tokens(s, |a| + 1);
    assert s == (a + " ") + rest;
    TokensAhead(a + " ", rest, 0);
  }

  lemma {:induction false} TextScans(ts: seq<Token>)
    requires ValidTokens(ts)
    ensures Tokens(Text(ts), 0) == ts && '\0' !in Text(ts)
  {
    if ts != [] {
      TextScans(ts[1..]);
      assert ValidTokens([ts[0]]);
      OneScans(ts[0], Text(ts[1..]));
      assert ts == [ts[0]] + ts[1..];
    }
  }

  lemma {:induction false} SpellValid(c: Cmd)
    requires Canonical(c)
    ensures ValidTokens(Spell(c))
    decreases c
  {
    match c {
      case Exec(argv) => WordsValid(argv);
      case Redir(d, _, _) => SpellValid(d);
      case Pipe(l, r) => SpellValid(l); SpellValid(r);
    }
  }

  lemma {:induction false} WordsValid(args: seq<string>)
    requires forall i :: 0 <= i < |args| ==> ValidWord(args[i])
    ensures ValidTokens(Words(args))
  {
    if args != [] { WordsValid(args[1..]); }
  }

  // Printing a command and parsing the line gives it back if and only if it is canonical.
  lemma PrintParse(c: Cmd)
    ensures Parse(Print(c)) == Ok(c, []) <==> Canonical(c)
  {
    if Canonical(c) {
      SpellValid(c);
      TextScans(Spell(c));
      PipelineReads(c);
    }
    if Parse(Print(c)) == Ok(c, []) {
      ParsesToCanonical(Print(c));
    }
  }

  // A line that parses can be replaced by what its command prints.
  lemma ReprintParses(line: string)
    requires Parse(line).Ok?
    ensures Parse(Print(Parse(line).v)) == Parse(line)
  {
    ParsesToCanonical(line);
    PrintParse(Parse(line).v);
  }

  // ------------------------------------------------------------------
  // The parser
  // ------------------------------------------------------------------

  datatype Outcome<T> = Done(v: T) | Exit(e: Error)

  lemma ExecMeans(s: string, ps: nat)
    requires ps <= |s|
    ensures var r, seg := Simple(Tokens(s, ps)), Segments(Lex(s, ps))[0];
            if r.Ok? then Matches([r.v], [seg]) else Blamed(seg, r.e)
  {
    ScanIsLex(s, ps);
    TokensAreSymbols(s, ps);
    var ts := Tokens(s, ps);
    SimpleMeans(ts);
    assert Segments(ts)[0] == ts[..Bar(ts)];
  }

  lemma ParseMeans(line: string)
    ensures Obeys(Lex(CString(line), 0), Parse(line))
  {
    var s := CString(line);
    ScanIsLex(s, 0);
    TokensAreSymbols(s, 0);
    PipelineMeans(Tokens(s, 0));
  }

  // `q` and `eq` delimit the token; 'a' stands for a word and NUL for the end.
  method GetToken(s: string, ps: nat) returns (ret: char, q: nat, eq: nat, ps': nat)
    requires ps <= |s| && '\0' !in s
    ensures ps <= q <= eq <= ps' <= |s| && (ret != '\0' ==> ps < ps')
    ensures ret == '\0' <==> Tokens(s, ps) == []
    ensures ret == '\0' ==> Tokens(s, ps') == []
    ensures ret != '\0' ==> Tokens(s, ps) == [if ret == 'a' then Word(s[q..eq]) else Sym(ret)] + Tokens(s, ps')
  {
    var i := SkipSpace(s, ps);
    q := i;
    if i == |s| {
      ret := '\0';
    } else {
      ret := s[i];
      if IsSymbol(s[i]) {
        i := i + 1;
      } else {
        ret := 'a';
        while i < |s| && !IsSpace(s[i]) && !IsSymbol(s[i])
          invariant q <= i <= |s| && WordEnd(s, i) == WordEnd(s, q)
        {
          i := i + 1;
        }
      }
      assert i == TokenEnd(s, q);
    }
    eq := i;
    ps' := SkipSpace(s, i);
  }

  method SkipSpace(s: string, ps: nat) returns (i: nat)
    requires ps <= |s|
    ensures i == Skip(s, ps) && Skip(s, i) == i && Tokens(s, i) == Tokens(s, ps)
  {
    i := ps;
    while i < |s| && IsSpace(s[i])
      invariant ps <= i <= |s| && Skip(s, i) == Skip(s, ps)
    {
      i := i + 1;
    }
  }

  method Peek(s: string, ps: nat, toks: string) returns (b: bool, ps': nat)
    requires ps <= |s| && '\0' !in s && forall k :: 0 <= k < |toks| ==> IsSymbol(toks[k])
    ensures ps <= ps' <= |s| && Tokens(s, ps') == Tokens(s, ps)
    ensures b <==> StartsWith(Tokens(s, ps), toks)
    ensures ps' == |s| <==> Tokens(s, ps) == []
  {
    ps' := SkipSpace(s, ps);
    b := ps' < |s| && s[ps'] in toks;
  }

  method ParseRedirs(s: string, ps: nat, rds0: seq<Rd>) returns (r: Outcome<seq<Rd>>, ps': nat)
    requires ps <= |s| && '\0' !in s
    ensures ps <= ps' <= |s|
    ensures match Redirs(rds0, Tokens(s, ps))
            case Ok(rds, rest) => r == Done(rds) && Tokens(s, ps') == rest
            case Fail(e) => r == Exit(e)
  {
    var rds := rds0;
    ps' := ps;
    while true
      invariant ps <= ps' <= |s| && Redirs(rds, Tokens(s, ps')) == Redirs(rds0, Tokens(s, ps))
      decreases |s| - ps'
    {
      var more, p := Peek(s, ps', "<>");
      if !more {
        return Done(rds), p;
      }
      var rd, p2 := ParseRedir(s, p);
      if rd.Exit? {
        return Exit(rd.e), p2;
      }
      rds := rds + [rd.v];
      ps' := p2;
    }
  }

  // One of them.
  method ParseRedir(s: string, ps: nat) returns (r: Outcome<Rd>, ps': nat)
    requires ps <= |s| && '\0' !in s && StartsWith(Tokens(s, ps), "<>")
    ensures ps < ps' <= |s|
    ensures var ts := Tokens(s, ps);
            if |ts| >= 2 && ts[1].Word? then r == Done(Rd(ts[1].w, ts[0].c)) && Tokens(s, ps') == ts[2..]
            else r == Exit(MissingFile)
  {
    ghost var ts := Tokens(s, ps);
    var tok, _, _, p1 := GetToken(s, ps);
    assert ts[1..] == Tokens(s, p1);
    var file, q, eq, p2 := GetToken(s, p1);
    if file != 'a' {
      return Exit(MissingFile), p2;
    }
    assert ts[2..] == Tokens(s, p2);
    return Done(Rd(s[q..eq], tok)), p2;
  }

  method ParseExec(s: string, ps: nat) returns (r: Outcome<Cmd>, ps': nat)
    requires ps <= |s| && '\0' !in s
    ensures ps <= ps' <= |s|
    ensures match Simple(Tokens(s, ps))
            case Ok(c, rest) => r == Done(c) && Tokens(s, ps') == rest
            case Fail(e) => r == Exit(e)
    // the words and redirections up to the next bar
    ensures r.Done? ==> Matches([r.v], [Segments(Lex(s, ps))[0]])
    ensures r.Exit? ==> Blamed(Segments(Lex(s, ps))[0], r.e)
  {
    var first, p := ParseRedirs(s, ps, []);
    if first.Exit? {
      r, ps' := Exit(first.e), p;
    } else {
      r, ps' := ParseArgs(s, p, first.v);
    }
    ExecMeans(s, ps);
  }

  // The loop of parseexec().
  method ParseArgs(s: string, ps: nat, rds0: seq<Rd>) returns (r: Outcome<Cmd>, ps': nat)
    requires ps <= |s| && '\0' !in s
    ensures ps <= ps' <= |s|
    ensures match Args([], rds0, Tokens(s, ps))
            case Ok(c, rest) => r == Done(c) && Tokens(s, ps') == rest
            case Fail(e) => r == Exit(e)
  {
    var argv: seq<string>, rds := [], rds0;
    ps' := ps;
    while true
      invariant ps <= ps' <= |s| && |argv| < MAXARGS
      invariant Args(argv, rds, Tokens(s, ps')) == Args([], rds0, Tokens(s, ps))
      decreases |s| - ps'
    {
      var bar, p0 := Peek(s, ps', "|");
      if bar {
        return Done(Build(argv, rds)), p0;
      }
      ghost var ts := Tokens(s, p0);
      var tok, q, eq, p1 := GetToken(s, p0);
      if tok == '\0' {
        return Done(Build(argv, rds)), p1;
      }
      if tok != 'a' {
        return Exit(SyntaxError), p1;
      }
      argv := argv + [s[q..eq]];
      if |argv| >= MAXARGS {
        return Exit(TooManyArgs), p1;
      }
      assert ts[1..] == Tokens(s, p1);
      var next, p2 := ParseRedirs(s, p1, rds);
      if next.Exit? {
        return Exit(next.e), p2;
      }
      rds := next.v;
      ps' := p2;
    }
  }

  method ParsePipe(s: string, ps: nat) returns (r: Outcome<Cmd>, ps': nat)
    requires ps <= |s| && '\0' !in s
    ensures ps <= ps' <= |s|
    ensures match Pipeline(Tokens(s, ps))
            case Ok(c, rest) => r == Done(c) && Tokens(s, ps') == rest
            case Fail(e) => r == Exit(e)
    decreases |s| - ps
  {
    var left, p := ParseExec(s, ps);
    if left.Exit? {
      return left, p;
    }
    var bar, p0 := Peek(s, p, "|");
    if !bar {
      return left, p0;
    }
    ghost var ts := Tokens(s, p0);
    var _, _, _, p1 := GetToken(s, p0);
    assert ts[1..] == Tokens(s, p1);
    var right, p2 := ParsePipe(s, p1);
    if right.Exit? {
      return right, p2;
    }
    return Done(Pipe(left.v, right.v)), p2;
  }

  // `line` is a buffer whose string ends at the first NUL; NULL is never returned.
  method ParseCmd(line: string) returns (r: Outcome<Cmd>)
    ensures r == match Parse(line) case Ok(c, _) => Done(c) case Fail(e) => Exit(e)
    // each command between the bars runs its words, with its redirections
    ensures r.Done? ==> Matches(Stages(r.v), Segments(Lex(CString(line), 0)))
    ensures r.Exit? ==> exists i :: FirstBlamed(Segments(Lex(CString(line), 0)), r.e, i)
  {
    ParseMeans(line);
    var s := CString(line);
    var cmd, p := ParsePipe(s, 0);
    if cmd.Exit? {
      return cmd;
    }
    var _, p' := Peek(s, p, "");
    if p' != |s| {
      return Exit(Leftovers);
    }
    return cmd;
  }
}
