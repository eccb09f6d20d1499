/** The language that the shell's parser accepts, as a grammar over the tokens of a line, and what
    each of its sentences means.  The parser of ShellParser accepts exactly this language. */
module ShellGrammar {
  import opened ShellParser

  // ----- tokens

  /** The tokens of a line, without the space between them. */
  function Tokens(s: string): seq<string>
    decreases |s|
  {
    var t := NextToken(s);
    if t.kind == '\0' then [] else [t.text] + Tokens(t.rest)
  }

  /** The first token, and the others as those of the rest. */
  lemma FirstToken(s: CString)
    ensures var t := NextToken(s);
            && '\0' !in t.rest && (t.kind == '\0' <==> Skip(s) == "") && (t.kind == '\0' <==> Tokens(s) == [])
            && (t.kind != '\0' ==> t.text != "" && t.text == Tokens(s)[0] && Tokens(t.rest) == Tokens(s)[1..])
            && (t.kind == '\0' ==> t.rest == "") && (t.kind == 'a' ==> IsWord(t.text))
            && (t.kind == '+' ==> t.text == ">>")
            && (t.kind != '\0' && t.kind != 'a' && t.kind != '+' ==> IsSymbol(t.kind) && t.text == [t.kind])
  {
    SkipKeeps(s);
    var u := Skip(s);
    if u != "" {
      SkipKeeps(u[1..]);
      if |u| > 1 {
        SkipKeeps(u[2..]);
      }
      SkipKeeps(u[WordLength(u)..]);
    }
  }

  lemma {:induction false} SkipKeeps(s: string)
    ensures '\0' !in s ==> '\0' !in Skip(s)
  {
    if s != "" && IsSpace(s[0]) {
      SkipKeeps(s[1..]);
    }
  }

  /** Looking ahead sees the first character of the next token. */
  lemma NextStarts(s: CString, toks: string)
    ensures Tokens(s) != [] ==> Tokens(s)[0] != ""
    ensures NextIn(s, toks) <==> Tokens(s) != [] && Tokens(s)[0][0] in toks
  {
    FirstToken(s);
    SkipKeeps(s);
  }

  lemma SkipTokens(s: CString)
    ensures '\0' !in Skip(s) && Tokens(Skip(s)) == Tokens(s)
  {
    SkipKeeps(s);
    SkipTwice(s);
  }

  // ----- the grammar

  datatype Part = Word(text: string) | To(op: string, file: string)

  /** A command with its redirections, or a block with those after it. */
  datatype Term = Plain(parts: seq<Part>) | Group(inner: Sentence, redirs: seq<Part>)

  datatype Pipes = Only(term: Term) | Into(term: Term, pipes: Pipes)

  /** Pipelines with `amps` times "&" after each, separated by ";". */
  datatype Sentence = Last(pipes: Pipes, amps: nat) | Then(pipes: Pipes, amps: nat, rest: Sentence)

  predicate PartOk(p: Part) {
    match p
    case Word(w) => IsWord(w)
    case To(op, file) => op in {"<", ">", ">>"} && IsWord(file)
  }

  predicate PartsOk(ps: seq<Part>) {
    forall i :: 0 <= i < |ps| ==> PartOk(ps[i])
  }

  predicate OnlyRedirs(ps: seq<Part>) {
    forall i :: 0 <= i < |ps| ==> ps[i].To?
  }

  predicate TermOk(t: Term) {
    match t
    case Plain(ps) => PartsOk(ps) && |Argv(ps)| < 10
    case Group(inner, ps) => SentenceOk(inner) && PartsOk(ps) && OnlyRedirs(ps)
  }

  predicate PipesOk(p: Pipes) {
    match p
    case Only(t) => TermOk(t)
    case Into(t, rest) => TermOk(t) && PipesOk(rest)
  }

  predicate SentenceOk(l: Sentence) {
    match l
    case Last(p, _) => PipesOk(p)
    case Then(p, _, rest) => PipesOk(p) && SentenceOk(rest)
  }

  // ----- what it looks like

  function PartTokens(p: Part): seq<string> {
    match p
    case Word(w) => [w]
    case To(op, file) => [op, file]
  }

  function PartsTokens(ps: seq<Part>): seq<string> {
    if ps == [] then [] else PartTokens(ps[0]) + PartsTokens(ps[1..])
  }

  function Amps(n: nat): seq<string> {
    if n == 0 then [] else ["&"] + Amps(n - 1)
  }

  function TermTokens(t: Term): seq<string> {
    match t
    case Plain(ps) => PartsTokens(ps)
    case Group(inner, ps) => ["("] + (SentenceTokens(inner) + ([")"] + PartsTokens(ps)))
  }

  function PipesTokens(p: Pipes): seq<string> {
    match p
    case Only(t) => TermTokens(t)
    case Into(t, rest) => TermTokens(t) + (["|"] + PipesTokens(rest))
  }

  function SentenceTokens(l: Sentence): seq<string> {
    match l
    case Last(p, n) => PipesTokens(p) + Amps(n)
    case Then(p, n, rest) => PipesTokens(p) + (Amps(n) + ([";"] + SentenceTokens(rest)))
  }

  // ----- what it means

  function Argv(ps: seq<Part>): seq<string> {
    if ps == [] then [] else (if ps[0].Word? then [ps[0].text] else []) + Argv(ps[1..])
  }

  /** "<" reads the file as standard input; ">" and ">>" both write it as standard output. */
  function Opened(op: string, file: string): Redirection {
    if op == "<" then Redirection(file, 0x000, 0) else Redirection(file, 0x201, 1)
  }

  /** The redirections among the parts wrap the command, the first one innermost. */
  function Wrapped(cmd: Cmd, ps: seq<Part>): Cmd
    decreases |ps|
  {
    if ps == [] then cmd
    else Wrapped(if ps[0].To? then Redir(cmd, Opened(ps[0].op, ps[0].file)) else cmd, ps[1..])
  }

  function InBack(cmd: Cmd, n: nat): Cmd
    decreases n
  {
    if n == 0 then cmd else InBack(Back(cmd), n - 1)
  }

  function TermMeaning(t: Term): Cmd {
    match t
    case Plain(ps) => Wrapped(Exec(Argv(ps)), ps)
    case Group(inner, ps) => Wrapped(Meaning(inner), ps)
  }

  function PipesMeaning(p: Pipes): Cmd {
    match p
    case Only(t) => TermMeaning(t)
    case Into(t, rest) => Cmd.Pipe(TermMeaning(t), PipesMeaning(rest))
  }

  function Meaning(l: Sentence): Cmd {
    match l
    case Last(p, n) => InBack(PipesMeaning(p), n)
    case Then(p, n, rest) => List(InBack(PipesMeaning(p), n), Meaning(rest))
  }

  // ----- sequences of parts

  lemma {:induction false} TokensAppend(ps: seq<Part>, qs: seq<Part>)
    ensures PartsTokens(ps + qs) == PartsTokens(ps) + PartsTokens(qs)
    decreases |ps|
  {
    hide PartTokens;
    if ps == [] {
      assert ps + qs == qs;
    } else {
      assert (ps + qs)[1..] == ps[1..] + qs;
      TokensAppend(ps[1..], qs);
    }
  }

  lemma {:induction false} ArgvAppend(ps: seq<Part>, qs: seq<Part>)
    ensures Argv(ps + qs) == Argv(ps) + Argv(qs)
    decreases |ps|
  {
    if ps == [] {
      assert ps + qs == qs;
    } else {
      assert (ps + qs)[1..] == ps[1..] + qs;
      ArgvAppend(ps[1..], qs);
    }
  }

  lemma {:induction false} WrappedAppend(cmd: Cmd, ps: seq<Part>, qs: seq<Part>)
    ensures Wrapped(cmd, ps + qs) == Wrapped(Wrapped(cmd, ps), qs)
    decreases |ps|
  {
    hide Opened;
    if ps == [] {
      assert ps + qs == qs;
    } else {
      assert (ps + qs)[1..] == ps[1..] + qs;
      WrappedAppend(if ps[0].To? then Redir(cmd, Opened(ps[0].op, ps[0].file)) else cmd, ps[1..], qs);
    }
  }

  /** One more redirection at the end goes around all the others. */
  lemma LastIsOutermost(cmd: Cmd, ps: seq<Part>, op: string, file: string)
    ensures Wrapped(cmd, ps + [To(op, file)]) == Redir(Wrapped(cmd, ps), Opened(op, file))
  {
    WrappedAppend(cmd, ps, [To(op, file)]);
    assert [To(op, file)][1..] == [];
    var c := Wrapped(cmd, ps);
    assert Wrapped(c, [To(op, file)]) == Wrapped(Redir(c, Opened(op, file)), []);
  }

  lemma {:induction false} RedirectedMore(cmd: Cmd, rs: seq<Redirection>, r: Redirection)
    ensures Redirected(cmd, rs + [r]) == Redir(Redirected(cmd, rs), r)
    decreases |rs|
  {
    if rs == [] {
      assert rs + [r] == [r] && [r][1..] == [];
      assert Redirected(Redir(cmd, r), []) == Redir(cmd, r);
    } else {
      assert (rs + [r])[1..] == rs[1..] + [r];
      RedirectedMore(Redir(cmd, rs[0]), rs[1..], r);
    }
  }

  /** The redirections that some parts stand for. */
  function Opens(ps: seq<Part>): seq<Redirection> {
    if ps == [] then [] else (if ps[0].To? then [Opened(ps[0].op, ps[0].file)] else []) + Opens(ps[1..])
  }

  lemma {:induction false} RedirectedOpens(cmd: Cmd, rs: seq<Redirection>, ps: seq<Part>)
    ensures Redirected(cmd, rs + Opens(ps)) == Wrapped(Redirected(cmd, rs), ps)
    decreases |ps|
  {
    if ps == [] {
      assert rs + Opens(ps) == rs;
    } else if ps[0].To? {
      var r := Opened(ps[0].op, ps[0].file);
      assert rs + Opens(ps) == (rs + [r]) + Opens(ps[1..]);
      RedirectedMore(cmd, rs, r);
      RedirectedOpens(cmd, rs + [r], ps[1..]);
    } else {
      assert Opens(ps) == Opens(ps[1..]);
      RedirectedOpens(cmd, rs, ps[1..]);
    }
  }

  // ----- every sentence is accepted, with its meaning

  predicate StartsIn(ts: seq<string>, firsts: string) {
    ts != [] && ts[0] != "" && ts[0][0] in firsts
  }

  /** Where a term, a list of pipes or a sentence may end. */
  predicate EndsAt(ts: seq<string>, firsts: string) {
    ts == [] || StartsIn(ts, firsts)
  }

  lemma WordIsNext(s: CString, w: string, ts: seq<string>)
    requires Tokens(s) == [w] + ts && IsWord(w)
    ensures var t := NextToken(s); t.kind == 'a' && t.text == w && '\0' !in t.rest && Tokens(t.rest) == ts
    ensures !NextIn(s, "|)&;") && !NextIn(s, "<>") && !NextIn(s, "(")
  {
    FirstToken(s);
    NextStarts(s, "|)&;");
    NextStarts(s, "<>");
    NextStarts(s, "(");
    assert ([w] + ts)[1..] == ts;
  }

  lemma OpIsNext(s: CString, op: string, file: string, ts: seq<string>)
    requires Tokens(s) == [op, file] + ts && PartOk(To(op, file))
    ensures NextIn(s, "<>") && !NextIn(s, "(") && '\0' !in NextToken(s).rest
    ensures var f := NextToken(NextToken(s).rest);
            && f.kind == 'a' && f.text == file && '\0' !in f.rest && Tokens(f.rest) == ts
            && RedirectionFor(NextToken(s).kind, file) == Opened(op, file)
  {
    FirstToken(s);
    NextStarts(s, "<>");
    NextStarts(s, "(");
    assert ([op, file] + ts)[1..] == [file] + ts;
    WordIsNext(NextToken(s).rest, file, ts);
  }

  lemma RedirsEnd(rs: seq<Redirection>, s: CString)
    requires !StartsIn(Tokens(s), "<>")
    ensures var p := Redirs(rs, s); p.Ok? && p.value == rs && '\0' !in p.rest && Tokens(p.rest) == Tokens(s)
  {
    NextStarts(s, "<>");
    SkipTokens(s);
  }

  lemma RedirsStep(rs: seq<Redirection>, s: CString, op: string, file: string, ts: seq<string>)
    requires Tokens(s) == [op, file] + ts && PartOk(To(op, file))
    ensures Redirs(rs, s) == Redirs(rs + [Opened(op, file)], NextToken(NextToken(s).rest).rest)
  {
    OpIsNext(s, op, file, ts);
  }

  lemma FirstTo(ps: seq<Part>, rs: seq<Redirection>, ts: seq<string>)
    requires ps != [] && PartsOk(ps) && OnlyRedirs(ps)
    ensures PartOk(ps[0]) && ps[0].To? && PartsOk(ps[1..]) && OnlyRedirs(ps[1..])
    ensures PartsTokens(ps) + ts == [ps[0].op, ps[0].file] + (PartsTokens(ps[1..]) + ts)
    ensures rs + Opens(ps) == (rs + [Opened(ps[0].op, ps[0].file)]) + Opens(ps[1..])
  {
  }

  lemma {:induction false} RedirsParse(rs: seq<Redirection>, ps: seq<Part>, s: CString, ts: seq<string>)
    requires PartsOk(ps) && OnlyRedirs(ps) && Tokens(s) == PartsTokens(ps) + ts && !StartsIn(ts, "<>")
    ensures var p := Redirs(rs, s); p.Ok? && p.value == rs + Opens(ps) && '\0' !in p.rest && Tokens(p.rest) == ts
    decreases |ps|
  {
    hide Redirs, Tokens, NextToken, NextIn, Skip, IsWord, Opened, PartOk;
    if ps == [] {
      assert Tokens(s) == ts && rs + Opens(ps) == rs;
      RedirsEnd(rs, s);
    } else {
      hide PartsTokens, Opens;
      FirstTo(ps, rs, ts);
      var op, file, more := ps[0].op, ps[0].file, PartsTokens(ps[1..]) + ts;
      OpIsNext(s, op, file, more);
      RedirsStep(rs, s, op, file, more);
      RedirsParse(rs + [Opened(op, file)], ps[1..], NextToken(NextToken(s).rest).rest, ts);
    }
  }

  /** What parseexec makes of the rest of a command: redirections and words in any order. */
  function Rest(argv: seq<string>, rs: seq<Redirection>, s: string): Parsed<Cmd> {
    match Redirs(rs, s)
    case Panic(e) => Panic(e)
    case Ok(rs', rest) => Args(argv, rs', rest)
  }

  lemma RestEnds(argv: seq<string>, rs: seq<Redirection>, s: CString)
    requires EndsAt(Tokens(s), "|)&;")
    ensures var p := Rest(argv, rs, s);
            p.Ok? && p.value == Redirected(Exec(argv), rs) && '\0' !in p.rest && Tokens(p.rest) == Tokens(s)
  {
    NextStarts(s, "<>");
    SkipTokens(s);
    NextStarts(Skip(s), "|)&;");
    FirstToken(Skip(s));
    SkipTokens(Skip(s));
  }

  lemma RestWord(argv: seq<string>, rs: seq<Redirection>, s: CString, w: string, ts: seq<string>)
    requires Tokens(s) == [w] + ts && IsWord(w)
    ensures '\0' !in NextToken(s).rest && Tokens(NextToken(s).rest) == ts
    ensures Rest(argv, rs, s) ==
              if |argv| + 1 >= 10 then Panic(TooManyArgs) else Rest(argv + [w], rs, NextToken(s).rest)
  {
    WordIsNext(s, w, ts);
    SkipTokens(s);
    WordIsNext(Skip(s), w, ts);
    SkipTwice(s);
  }

  lemma RestRedir(argv: seq<string>, rs: seq<Redirection>, s: CString, op: string, file: string, ts: seq<string>)
    requires Tokens(s) == [op, file] + ts && PartOk(To(op, file))
    ensures Rest(argv, rs, s) == Rest(argv, rs + [Opened(op, file)], NextToken(NextToken(s).rest).rest)
  {
    RedirsStep(rs, s, op, file, ts);
  }

  lemma {:induction false} RestParses(argv: seq<string>, rs: seq<Redirection>, ps: seq<Part>, s: CString,
                                      ts: seq<string>)
    requires |argv| < 10 && PartsOk(ps) && Tokens(s) == PartsTokens(ps) + ts && EndsAt(ts, "|)&;")
    ensures var p := Rest(argv, rs, s);
            if |argv| + |Argv(ps)| >= 10 then p == Panic(TooManyArgs)
            else
              && p.Ok? && p.value == Wrapped(Redirected(Exec(argv + Argv(ps)), rs), ps)
              && '\0' !in p.rest && Tokens(p.rest) == ts
    decreases |ps|
  {
    hide Redirs, Args, Rest, Tokens, NextToken, IsWord;
    if ps == [] {
      assert Tokens(s) == ts && argv + Argv(ps) == argv;
      RestEnds(argv, rs, s);
    } else {
      var more := PartsTokens(ps[1..]) + ts;
      assert Tokens(s) == PartTokens(ps[0]) + more;
      match ps[0]
      case Word(w) =>
        RestWord(argv, rs, s, w, more);
        assert argv + Argv(ps) == (argv + [w]) + Argv(ps[1..]);
        if |argv| + 1 < 10 {
          RestParses(argv + [w], rs, ps[1..], NextToken(s).rest, ts);
        }
      case To(op, file) =>
        OpIsNext(s, op, file, more);
        RestRedir(argv, rs, s, op, file, more);
        RestParses(argv, rs + [Opened(op, file)], ps[1..], NextToken(NextToken(s).rest).rest, ts);
        assert Argv(ps) == Argv(ps[1..]);
        RedirectedMore(Exec(argv + Argv(ps)), rs, Opened(op, file));
    }
  }

  lemma {:induction false} BacksParse(cmd: Cmd, n: nat, s: CString, ts: seq<string>)
    requires Tokens(s) == Amps(n) + ts && !StartsIn(ts, "&")
    ensures var p := Backs(cmd, s);
            p.Ok? && p.value == InBack(cmd, n) && '\0' !in p.rest && Tokens(p.rest) == ts
    decreases n
  {
    hide Tokens, NextToken, NextIn, Skip, IsWord;
    NextStarts(s, "&");
    if n == 0 {
      assert Tokens(s) == ts;
      SkipTokens(s);
    } else {
      FirstToken(s);
      assert Tokens(s) == ["&"] + (Amps(n - 1) + ts);
      assert Tokens(s)[1..] == Amps(n - 1) + ts;
      BacksParse(Back(cmd), n - 1, NextToken(s).rest, ts);
    }
  }

  /** A symbol that is the next token, and what comes after it. */
  lemma SymbolIsNext(s: CString, c: char, ts: seq<string>)
    requires Tokens(s) == [[c]] + ts
    ensures NextIn(s, [c]) && '\0' !in NextToken(s).rest && Tokens(NextToken(s).rest) == ts
  {
    FirstToken(s);
    NextStarts(s, [c]);
    assert ([[c]] + ts)[1..] == ts;
  }

  lemma PartsStart(ps: seq<Part>, ts: seq<string>)
    requires PartsOk(ps) && !StartsIn(ts, "(")
    ensures !StartsIn(PartsTokens(ps) + ts, "(")
  {
  }

  lemma {:induction false} TermParses(t: Term, s: CString, ts: seq<string>)
    requires TermOk(t) && Tokens(s) == TermTokens(t) + ts && EndsAt(ts, "|)&;")
    ensures var p := Simple(s); p.Ok? && p.value == TermMeaning(t) && '\0' !in p.rest && Tokens(p.rest) == ts
    decreases t, 0
  {
    hide Tokens, NextToken, NextIn, Skip, IsWord;
    match t
    case Plain(ps) =>
      PartsStart(ps, ts);
      NextStarts(s, "(");
      RestParses([], [], ps, s, ts);
      assert [] + Argv(ps) == Argv(ps);
    case Group(inner, ps) =>
      var after := PartsTokens(ps) + ts;
      var close := [")"] + after;
      assert Tokens(s) == ["("] + (SentenceTokens(inner) + close);
      SymbolIsNext(s, '(', SentenceTokens(inner) + close);
      SentenceParses(inner, NextToken(s).rest, close);
      var rest := Line(NextToken(s).rest).rest;
      SymbolIsNext(rest, ')', after);
      RedirsParse([], ps, NextToken(rest).rest, ts);
      RedirectedOpens(Meaning(inner), [], ps);
      assert [] + Opens(ps) == Opens(ps);
  }

  lemma {:induction false} PipesParse(p: Pipes, s: CString, ts: seq<string>)
    requires PipesOk(p) && Tokens(s) == PipesTokens(p) + ts && EndsAt(ts, ")&;")
    ensures var q := Pipeline(s); q.Ok? && q.value == PipesMeaning(p) && '\0' !in q.rest && Tokens(q.rest) == ts
    decreases p, 0
  {
    hide Tokens, NextToken, NextIn, Skip, IsWord;
    match p
    case Only(t) =>
      TermParses(t, s, ts);
      var rest := Simple(s).rest;
      NextStarts(rest, "|");
      SkipTokens(rest);
    case Into(t, more) =>
      var after := ["|"] + (PipesTokens(more) + ts);
      assert Tokens(s) == TermTokens(t) + after;
      TermParses(t, s, after);
      var rest := Simple(s).rest;
      SymbolIsNext(rest, '|', PipesTokens(more) + ts);
      PipesParse(more, NextToken(rest).rest, ts);
  }

  lemma {:induction false} SentenceParses(l: Sentence, s: CString, ts: seq<string>)
    requires SentenceOk(l) && Tokens(s) == SentenceTokens(l) + ts && EndsAt(ts, ")")
    ensures var p := Line(s); p.Ok? && p.value == Meaning(l) && '\0' !in p.rest && Tokens(p.rest) == ts
    decreases l, 0
  {
    hide Tokens, NextToken, NextIn, Skip, IsWord;
    match l
    case Last(p, n) =>
      assert Tokens(s) == PipesTokens(p) + (Amps(n) + ts);
      PipesParse(p, s, Amps(n) + ts);
      var rest := Pipeline(s).rest;
      BacksParse(PipesMeaning(p), n, rest, ts);
      var rest' := Backs(PipesMeaning(p), rest).rest;
      NextStarts(rest', ";");
      SkipTokens(rest');
    case Then(p, n, more) =>
      var after := [";"] + (SentenceTokens(more) + ts);
      assert Tokens(s) == PipesTokens(p) + (Amps(n) + after);
      PipesParse(p, s, Amps(n) + after);
      var rest := Pipeline(s).rest;
      BacksParse(PipesMeaning(p), n, rest, after);
      var rest' := Backs(PipesMeaning(p), rest).rest;
      SymbolIsNext(rest', ';', SentenceTokens(more) + ts);
      SentenceParses(more, NextToken(rest').rest, ts);
  }

  /** Whatever its spacing, a line whose tokens are a sentence means what the sentence means. */
  lemma SentenceIsAccepted(l: Sentence, s: CString)
    requires SentenceOk(l) && Tokens(s) == SentenceTokens(l)
    ensures Command(s) == Ok(Meaning(l), "")
  {
    assert Tokens(s) == SentenceTokens(l) + [];
    SentenceParses(l, s, []);
    FirstToken(Line(s).rest);
  }

  // ----- nothing else is accepted

  lemma {:induction false} RedirsAre(rs: seq<Redirection>, s: CString) returns (ps: seq<Part>)
    requires Redirs(rs, s).Ok?
    ensures PartsOk(ps) && OnlyRedirs(ps)
    ensures var p := Redirs(rs, s);
            && p.value == rs + Opens(ps) && '\0' !in p.rest && Tokens(s) == PartsTokens(ps) + Tokens(p.rest)
            && !StartsIn(Tokens(p.rest), "<>")
    decreases |s|
  {
    NextStarts(s, "<>");
    if !NextIn(s, "<>") {
      RedirsEnd(rs, s);
      return [];
    }
    FirstToken(s);
    var tok := NextToken(s);
    FirstToken(tok.rest);
    var file := NextToken(tok.rest);
    var to := To(tok.text, file.text);
    assert Tokens(s) == PartTokens(to) + Tokens(file.rest);
    assert PartOk(to) && RedirectionFor(tok.kind, file.text) == Opened(to.op, to.file);
    var more := RedirsAre(rs + [Opened(to.op, to.file)], file.rest);
    ps := [to] + more;
    assert ps[1..] == more;
    FirstTo(ps, rs, Tokens(Redirs(rs, s).rest));
  }

  lemma {:induction false} NoWords(ps: seq<Part>)
    requires OnlyRedirs(ps)
    ensures Argv(ps) == []
    decreases |ps|
  {
    if ps != [] {
      NoWords(ps[1..]);
    }
  }

  lemma WordFirst(w: string, more: seq<Part>)
    ensures PartsTokens([Word(w)] + more) == [w] + PartsTokens(more) && Argv([Word(w)] + more) == [w] + Argv(more)
  {
    assert ([Word(w)] + more)[1..] == more;
  }

  lemma Regroup(a: seq<string>, b: seq<string>, c: seq<string>, d: seq<string>)
    ensures (a + (b + c)) + d == a + (b + (c + d))
  {
  }

  /** Redirections, a word and more parts are parts. */
  lemma PartsJoin(argv: seq<string>, ps: seq<Part>, w: string, more: seq<Part>, ts: seq<string>)
    requires OnlyRedirs(ps)
    ensures var all := ps + ([Word(w)] + more);
            && (PartsOk(ps) && IsWord(w) && PartsOk(more) ==> PartsOk(all))
            && PartsTokens(all) + ts == PartsTokens(ps) + ([w] + (PartsTokens(more) + ts))
            && argv + Argv(all) == (argv + [w]) + Argv(more)
  {
    hide PartsTokens, Argv, IsWord;
    NoWords(ps);
    TokensAppend(ps, [Word(w)] + more);
    ArgvAppend(ps, [Word(w)] + more);
    WordFirst(w, more);
    Regroup(PartsTokens(ps), [w], PartsTokens(more), ts);
    Regroup(argv, [w], Argv(more), []);
  }

  lemma WrappedJoin(cmd: Cmd, rs: seq<Redirection>, ps: seq<Part>, w: string, more: seq<Part>)
    ensures Wrapped(Redirected(cmd, rs + Opens(ps)), more) == Wrapped(Redirected(cmd, rs), ps + ([Word(w)] + more))
  {
    var tail := [Word(w)] + more;
    assert tail[1..] == more;
    RedirectedOpens(cmd, rs, ps);
    WrappedAppend(Redirected(cmd, rs), ps, tail);
  }

  lemma {:induction false} RestIs(argv: seq<string>, rs: seq<Redirection>, s: CString) returns (ps: seq<Part>)
    requires Rest(argv, rs, s).Ok? && |argv| < 10
    ensures PartsOk(ps) && |argv| + |Argv(ps)| < 10
    ensures var p := Rest(argv, rs, s);
            && p.value == Wrapped(Redirected(Exec(argv + Argv(ps)), rs), ps) && '\0' !in p.rest
            && Tokens(s) == PartsTokens(ps) + Tokens(p.rest) && EndsAt(Tokens(p.rest), "|)&;")
    decreases |s|
  {
    hide IsWord, NextToken, Skip, PartsOk, OnlyRedirs;
    ps := RedirsAre(rs, s);
    var rs', rest := Redirs(rs, s).value, Redirs(rs, s).rest;
    NextStarts(rest, "|)&;");
    FirstToken(rest);
    SkipTokens(rest);
    if NextIn(rest, "|)&;") || NextToken(rest).kind == '\0' {
      NoWords(ps);
      assert argv + Argv(ps) == argv;
      RedirectedOpens(Exec(argv), rs, ps);
    } else {
      var w, after := NextToken(rest).text, NextToken(rest).rest;
      assert Rest(argv, rs, s) == Rest(argv + [w], rs', after);
      var more := RestIs(argv + [w], rs', after);
      PartsJoin(argv, ps, w, more, Tokens(Rest(argv, rs, s).rest));
      WrappedJoin(Exec((argv + [w]) + Argv(more)), rs, ps, w, more);
      assert Tokens(rest) == [w] + Tokens(after);
      ps := ps + ([Word(w)] + more);
    }
  }

  lemma {:induction false} BacksAre(cmd: Cmd, s: CString) returns (n: nat)
    ensures var p := Backs(cmd, s);
            && p.value == InBack(cmd, n) && '\0' !in p.rest && Tokens(s) == Amps(n) + Tokens(p.rest)
    decreases |s|
  {
    hide IsWord, NextToken, Skip, Tokens, NextIn;
    if NextIn(s, "&") {
      SeenSymbol(s, '&');
      n := BacksAre(Back(cmd), NextToken(s).rest);
      return n + 1;
    }
    SkipTokens(s);
    return 0;
  }

  /** A symbol that is seen ahead is the next token. */
  lemma SeenSymbol(s: CString, c: char)
    requires IsSymbol(c) && c != '>' && NextIn(s, [c])
    ensures '\0' !in NextToken(s).rest && |NextToken(s).rest| < |s|
    ensures Tokens(s) == [[c]] + Tokens(NextToken(s).rest)
  {
    FirstToken(s);
  }

  lemma {:induction false} SimpleIs(s: CString) returns (t: Term)
    requires Simple(s).Ok?
    ensures TermOk(t)
    ensures var p := Simple(s);
            p.value == TermMeaning(t) && '\0' !in p.rest && Tokens(s) == TermTokens(t) + Tokens(p.rest)
    decreases |s|, 1
  {
    hide IsWord, NextToken, Skip, Tokens, NextIn;
    if NextIn(s, "(") {
      SeenSymbol(s, '(');
      var inner := LineIs(NextToken(s).rest);
      var rest := Line(NextToken(s).rest).rest;
      SeenSymbol(rest, ')');
      var after := NextToken(rest).rest;
      var ps := RedirsAre([], after);
      RedirectedOpens(Meaning(inner), [], ps);
      assert [] + Opens(ps) == Opens(ps);
      t := Group(inner, ps);
      var close := [")"] + PartsTokens(ps);
      Regroup(["("], SentenceTokens(inner), close, Tokens(Simple(s).rest));
    } else {
      var ps := RestIs([], [], s);
      assert [] + Argv(ps) == Argv(ps);
      t := Plain(ps);
    }
  }

  lemma {:induction false} PipelineIs(s: CString) returns (p: Pipes)
    requires Pipeline(s).Ok?
    ensures PipesOk(p)
    ensures var q := Pipeline(s);
            q.value == PipesMeaning(p) && '\0' !in q.rest && Tokens(s) == PipesTokens(p) + Tokens(q.rest)
    decreases |s|, 2
  {
    hide IsWord, NextToken, Skip, Tokens, NextIn;
    var t := SimpleIs(s);
    var rest := Simple(s).rest;
    if NextIn(rest, "|") {
      SeenSymbol(rest, '|');
      var more := PipelineIs(NextToken(rest).rest);
      p := Into(t, more);
    } else {
      SkipTokens(rest);
      p := Only(t);
    }
  }

  lemma {:induction false} LineIs(s: CString) returns (l: Sentence)
    requires Line(s).Ok?
    ensures SentenceOk(l)
    ensures var p := Line(s);
            p.value == Meaning(l) && '\0' !in p.rest && Tokens(s) == SentenceTokens(l) + Tokens(p.rest)
    decreases |s|, 3
  {
    hide IsWord, NextToken, Skip, Tokens, NextIn;
    var p := PipelineIs(s);
    var rest0 := Pipeline(s).rest;
    var n := BacksAre(PipesMeaning(p), rest0);
    var rest := Backs(PipesMeaning(p), rest0).rest;
    if NextIn(rest, ";") {
      SeenSymbol(rest, ';');
      var more := LineIs(NextToken(rest).rest);
      l := Then(p, n, more);
    } else {
      SkipTokens(rest);
      l := Last(p, n);
    }
  }

  /** A line is accepted exactly if its tokens are a sentence, and then means what it means. */
  lemma AcceptsExactlySentences(s: CString, c: Cmd)
    ensures Command(s) == Ok(c, "") <==>
            exists l :: SentenceOk(l) && SentenceTokens(l) == Tokens(s) && Meaning(l) == c
  {
    if l :| SentenceOk(l) && SentenceTokens(l) == Tokens(s) && Meaning(l) == c {
      SentenceIsAccepted(l, s);
    }
    if Command(s) == Ok(c, "") {
      var l := LineIs(s);
      FirstToken(Line(s).rest);
      assert SentenceTokens(l) + [] == SentenceTokens(l);
    }
  }

  // ----- some sentences

  lemma NoneOrOneAmp(cmd: Cmd)
    ensures Amps(0) == [] && Amps(1) == ["&"] && InBack(cmd, 0) == cmd && InBack(cmd, 1) == Back(cmd)
  {
    assert Amps(1) == ["&"] + Amps(0);
    assert InBack(cmd, 1) == InBack(Back(cmd), 0);
  }

  lemma JustTerm(t: Term)
    ensures var p := Only(t);
            && (TermOk(t) ==> PipesOk(p)) && PipesTokens(p) == TermTokens(t) && PipesMeaning(p) == TermMeaning(t)
  {
  }

  lemma PlainIsAccepted(ps: seq<Part>, s: CString)
    requires PartsOk(ps) && |Argv(ps)| < 10 && Tokens(s) == PartsTokens(ps)
    ensures Command(s) == Ok(Wrapped(Exec(Argv(ps)), ps), "")
  {
    hide Tokens, Command, PartsOk, Argv, PartsTokens, Wrapped;
    var p := Only(Plain(ps));
    JustTerm(Plain(ps));
    NoneOrOneAmp(PipesMeaning(p));
    assert PartsTokens(ps) + [] == PartsTokens(ps);
    SentenceIsAccepted(Last(p, 0), s);
  }

  /** Ten words are too many, whatever redirections are among them. */
  lemma TenWordsAreTooMany(ps: seq<Part>, s: CString)
    requires PartsOk(ps) && |Argv(ps)| >= 10 && Tokens(s) == PartsTokens(ps)
    ensures Command(s) == Panic(TooManyArgs)
  {
    hide Tokens, NextToken, NextIn, IsWord;
    PartsStart(ps, []);
    assert PartsTokens(ps) + [] == PartsTokens(ps);
    NextStarts(s, "(");
    RestParses([], [], ps, s, []);
    assert Simple(s) == Panic(TooManyArgs);
    assert Pipeline(s) == Panic(TooManyArgs);
    assert Line(s) == Panic(TooManyArgs);
  }

  lemma OneTo(op: string, file: string)
    ensures PartsTokens([To(op, file)]) == [op, file] && Argv([To(op, file)]) == []
  {
    assert [To(op, file)][1..] == [];
    assert PartsTokens([To(op, file)]) == [op, file] + [];
  }

  lemma PlainAndMore(ps: seq<Part>, op: string, file: string, s: CString)
    requires PartsOk(ps) && |Argv(ps)| < 10 && PartOk(To(op, file)) && Tokens(s) == PartsTokens(ps) + [op, file]
    ensures Command(s) == Ok(Redir(Wrapped(Exec(Argv(ps)), ps), Opened(op, file)), "")
  {
    hide Tokens, Command, PartOk, Argv, PartsTokens, Wrapped, Opened;
    OneTo(op, file);
    TokensAppend(ps, [To(op, file)]);
    ArgvAppend(ps, [To(op, file)]);
    assert Argv(ps) + [] == Argv(ps);
    LastIsOutermost(Exec(Argv(ps)), ps, op, file);
    PlainIsAccepted(ps + [To(op, file)], s);
  }

  /** A redirection that is added at the end goes around the command as it was. */
  lemma OneMoreRedirection(ps: seq<Part>, s: CString, op: string, file: string, t: CString)
    requires PartsOk(ps) && |Argv(ps)| < 10 && Tokens(s) == PartsTokens(ps)
    requires op in {"<", ">", ">>"} && IsWord(file) && Tokens(t) == Tokens(s) + [op, file]
    ensures Command(s).Ok?
    ensures var to := Redirection(file, if op == "<" then 0x000 else 0x201, if op == "<" then 0 else 1);
            Command(t) == Ok(Redir(Command(s).value, to), "")
  {
    hide Tokens, Command, IsWord, PartsOk, Argv, PartsTokens, Wrapped;
    PlainIsAccepted(ps, s);
    PlainAndMore(ps, op, file, t);
  }

  function WordParts(argv: seq<string>): seq<Part> {
    if argv == [] then [] else [Word(argv[0])] + WordParts(argv[1..])
  }

  lemma {:induction false} JustWords(argv: seq<string>, cmd: Cmd)
    requires AllWords(argv)
    ensures var ps := WordParts(argv); PartsOk(ps) && PartsTokens(ps) == Argv(ps) == argv && Wrapped(cmd, ps) == cmd
    decreases |argv|
  {
    hide IsWord, PartsTokens, Argv;
    if argv == [] {
      NoParts();
    } else {
      JustWords(argv[1..], cmd);
      assert WordParts(argv)[1..] == WordParts(argv[1..]);
      WordFirst(argv[0], WordParts(argv[1..]));
      assert [argv[0]] + argv[1..] == argv;
    }
  }

  lemma NoParts()
    ensures PartsTokens([]) == [] && Argv([]) == []
  {
  }

  /** The three redirections of a command. */
  lemma Redirections(argv: seq<string>, file: string, s: CString)
    requires AllWords(argv) && |argv| < 10 && IsWord(file)
    ensures Tokens(s) == argv + ["<", file] ==> Command(s) == Ok(Redir(Exec(argv), Redirection(file, 0x000, 0)), "")
    ensures Tokens(s) == argv + [">", file] ==> Command(s) == Ok(Redir(Exec(argv), Redirection(file, 0x201, 1)), "")
    ensures Tokens(s) == argv + [">>", file] ==> Command(s) == Ok(Redir(Exec(argv), Redirection(file, 0x201, 1)), "")
  {
    hide Tokens, Command, IsWord, PartsOk, Argv, PartsTokens, Wrapped, WordParts;
    JustWords(argv, Exec(argv));
    if Tokens(s) == argv + ["<", file] {
      PlainAndMore(WordParts(argv), "<", file, s);
    }
    if Tokens(s) == argv + [">", file] {
      PlainAndMore(WordParts(argv), ">", file, s);
    }
    if Tokens(s) == argv + [">>", file] {
      PlainAndMore(WordParts(argv), ">>", file, s);
    }
  }

  lemma {:induction false} TextTokens(argv: seq<string>, t: CString)
    requires AllWords(argv)
    ensures '\0' !in Words(argv) + t && Tokens(Words(argv) + t) == argv + Tokens(t)
    decreases |argv|
  {
    hide IsWord, NextToken, Tokens;
    if argv == [] {
      assert Words(argv) + t == t && argv + Tokens(t) == Tokens(t);
    } else {
      var w, u := argv[0], Words(argv[1..]) + t;
      TextTokens(argv[1..], t);
      assert Words(argv) + t == w + (" " + u);
      WordTokens(w, u);
      assert [w] + (argv[1..] + Tokens(t)) == argv + Tokens(t);
    }
  }

  lemma WordTokens(w: string, u: CString)
    requires IsWord(w)
    ensures '\0' !in w + (" " + u) && Tokens(w + (" " + u)) == [w] + Tokens(u)
  {
    WordToken(w, " " + u);
    assert (" " + u)[1..] == u;
    SkipTokens(u);
  }

  lemma OpTokens(op: string, file: string)
    requires op in {"<", ">", ">>"} && IsWord(file)
    ensures '\0' !in op + file && Tokens(op + file) == [op, file]
  {
    var s := op + file;
    assert s[..|op|] == op && s[|op|..] == file && s[|op|] == file[0];
    assert file + "" == file;
    WordToken(file, "");
    assert Tokens("") == [] && Tokens(file) == [file] + Tokens("");
    assert NextToken(s) == Token(if op == ">>" then '+' else op[0], op, file);
  }

  /** The same of the text of a command, a redirection and a file name. */
  lemma RedirectionText(argv: seq<string>, file: string)
    requires AllWords(argv) && |argv| < 10 && IsWord(file)
    ensures Command(Words(argv) + "<" + file) == Ok(Redir(Exec(argv), Redirection(file, 0x000, 0)), "")
    ensures Command(Words(argv) + ">" + file) == Ok(Redir(Exec(argv), Redirection(file, 0x201, 1)), "")
    ensures Command(Words(argv) + ">>" + file) == Ok(Redir(Exec(argv), Redirection(file, 0x201, 1)), "")
  {
    hide IsWord, Tokens, Command, Words;
    forall op | op in {"<", ">", ">>"}
      ensures '\0' !in Words(argv) + op + file && Tokens(Words(argv) + op + file) == argv + [op, file]
    {
      OpTokens(op, file);
      TextTokens(argv, op + file);
      assert Words(argv) + op + file == Words(argv) + (op + file);
    }
    Redirections(argv, file, Words(argv) + "<" + file);
    Redirections(argv, file, Words(argv) + ">" + file);
    Redirections(argv, file, Words(argv) + ">>" + file);
  }

  function WordsTerm(argv: seq<string>): Term {
    Plain(WordParts(argv))
  }

  /** A pipeline of one command that is just words, and of one more. */
  lemma JustOne(a: seq<string>)
    requires AllWords(a) && |a| < 10
    ensures var p := Only(WordsTerm(a)); PipesOk(p) && PipesTokens(p) == a && PipesMeaning(p) == Exec(a)
  {
    hide IsWord, PartsOk, Argv, PartsTokens, Wrapped, WordParts;
    JustWords(a, Exec(a));
  }

  lemma OneMore(a: seq<string>, p: Pipes)
    requires AllWords(a) && |a| < 10 && PipesOk(p)
    ensures var q := Into(WordsTerm(a), p);
            && PipesOk(q) && PipesTokens(q) == a + (["|"] + PipesTokens(p))
            && PipesMeaning(q) == Cmd.Pipe(Exec(a), PipesMeaning(p))
  {
    hide IsWord, PartsOk, Argv, PartsTokens, Wrapped, WordParts;
    JustWords(a, Exec(a));
  }

  /** "|" groups to the right. */
  lemma PipesGroup(a: seq<string>, b: seq<string>, c: seq<string>, s: CString)
    requires AllWords(a) && AllWords(b) && AllWords(c) && |a| < 10 && |b| < 10 && |c| < 10
    requires Tokens(s) == a + ["|"] + b + ["|"] + c
    ensures Command(s) == Ok(Cmd.Pipe(Exec(a), Cmd.Pipe(Exec(b), Exec(c))), "")
  {
    hide Tokens, Command, IsWord, WordsTerm, PipesOk, PipesTokens, PipesMeaning;
    JustOne(c);
    OneMore(b, Only(WordsTerm(c)));
    OneMore(a, Into(WordsTerm(b), Only(WordsTerm(c))));
    var l := Last(Into(WordsTerm(a), Into(WordsTerm(b), Only(WordsTerm(c)))), 0);
    NoneOrOneAmp(PipesMeaning(l.pipes));
    assert SentenceTokens(l) == a + (["|"] + (b + (["|"] + c))) + [];
    SentenceIsAccepted(l, s);
  }

  /** ";" groups to the right. */
  lemma ListsGroup(a: seq<string>, b: seq<string>, c: seq<string>, s: CString)
    requires AllWords(a) && AllWords(b) && AllWords(c) && |a| < 10 && |b| < 10 && |c| < 10
    requires Tokens(s) == a + [";"] + b + [";"] + c
    ensures Command(s) == Ok(List(Exec(a), List(Exec(b), Exec(c))), "")
  {
    hide Tokens, Command, IsWord, WordsTerm, PipesOk, PipesTokens, PipesMeaning;
    JustOne(a);
    JustOne(b);
    JustOne(c);
    NoneOrOneAmp(Exec(a));
    NoneOrOneAmp(Exec(b));
    NoneOrOneAmp(Exec(c));
    var last := Last(Only(WordsTerm(c)), 0);
    var more := Then(Only(WordsTerm(b)), 0, last);
    assert SentenceTokens(last) == c + [] && SentenceTokens(more) == b + ([] + ([";"] + (c + [])));
    assert Meaning(more) == List(Exec(b), Exec(c));
    SentenceIsAccepted(Then(Only(WordsTerm(a)), 0, more), s);
  }

  /** "|" binds more closely than "&", and "&" than ";". */
  lemma AmpIsForThePipeline(a: seq<string>, b: seq<string>, c: seq<string>, s: CString)
    requires AllWords(a) && AllWords(b) && AllWords(c) && |a| < 10 && |b| < 10 && |c| < 10
    requires Tokens(s) == a + ["|"] + b + ["&"] + [";"] + c
    ensures Command(s) == Ok(List(Back(Cmd.Pipe(Exec(a), Exec(b))), Exec(c)), "")
  {
    hide Tokens, Command, IsWord, WordsTerm, PipesOk, PipesTokens, PipesMeaning;
    JustOne(b);
    OneMore(a, Only(WordsTerm(b)));
    JustOne(c);
    NoneOrOneAmp(Cmd.Pipe(Exec(a), Exec(b)));
    NoneOrOneAmp(Exec(c));
    var last := Last(Only(WordsTerm(c)), 0);
    var l := Then(Into(WordsTerm(a), Only(WordsTerm(b))), 1, last);
    assert SentenceTokens(last) == c + [] && Meaning(last) == Exec(c);
    assert SentenceTokens(l) == (a + (["|"] + b)) + (["&"] + ([";"] + (c + [])));
    SentenceIsAccepted(l, s);
  }
}
