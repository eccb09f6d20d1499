/** The command parser of user/sh.c.

    The first half defines, by recursion on what is left of the line, the command a line
    means; the class at the end is the parser, which moves a position along the line. */
module ShellParser {

  const MAXARGS := 10
  const O_RDONLY := 0x000
  const O_WRONLY := 0x001
  const O_CREATE := 0x200

  type CString = s: string | '\0' !in s witness ""

  datatype Redirection = Redirection(file: string, mode: int, fd: int)

  datatype Cmd =
    | Exec(argv: seq<string>)
    | Redir(cmd: Cmd, to: Redirection)
    | Pipe(left: Cmd, right: Cmd)
    | List(left: Cmd, right: Cmd)
    | Back(cmd: Cmd)

  datatype Error = Leftovers | MissingFile | MissingParen | BadToken | TooManyArgs

  /** What a parsing function makes of the rest of the line: a value and a new rest, or a panic. */
  datatype Parsed<T> = Ok(value: T, rest: string) | Panic(error: Error)

  // ----- tokens

  predicate IsSpace(c: char) {
    c == ' ' || c == '\t' || c == '\r' || c == '\n' || c == 11 as char
  }

  predicate IsSymbol(c: char) {
    c == '<' || c == '|' || c == '>' || c == '&' || c == ';' || c == '(' || c == ')'
  }

  predicate IsWordChar(c: char) {
    !IsSpace(c) && !IsSymbol(c) && c != '\0'
  }

  function Skip(s: string): (t: string)
    ensures |t| <= |s| && (t != "" ==> !IsSpace(t[0]))
  {
    if s != "" && IsSpace(s[0]) then Skip(s[1..]) else s
  }

  function WordLength(s: string): (n: nat)
    ensures n <= |s| && (n == |s| || !IsWordChar(s[n])) && forall i :: 0 <= i < n ==> IsWordChar(s[i])
  {
    if s != "" && IsWordChar(s[0]) then 1 + WordLength(s[1..]) else 0
  }

  /** The next character that is not space is one of `toks`. */
  predicate NextIn(s: string, toks: string) {
    Skip(s) != "" && Skip(s)[0] in toks
  }

  /** A token: '\0' at the end, 'a' for a word, '+' for >>, else the symbol itself. */
  datatype Token = Token(kind: char, text: string, rest: string)

  function NextToken(s: string): (t: Token)
    ensures |t.rest| <= |s| && (t.kind != '\0' ==> |t.rest| < |s|)
    ensures t.kind == 'a' ==> IsWord(t.text)
  {
    var u := Skip(s);
    if u == "" then Token('\0', "", "")
    else if u[0] == '>' then
      if |u| > 1 && u[1] == '>' then Token('+', u[..2], Skip(u[2..])) else Token('>', u[..1], Skip(u[1..]))
    else if u[0] == '\0' then Token('\0', "", Skip(u))
    else if IsSymbol(u[0]) then Token(u[0], u[..1], Skip(u[1..]))
    else
      var n := WordLength(u);
      Token('a', u[..n], Skip(u[n..]))
  }

  predicate IsWord(w: string) {
    w != "" && forall i :: 0 <= i < |w| ==> IsWordChar(w[i])
  }

  // ----- the grammar

  /** The redirections that follow, added to `rs`. */
  function Redirs(rs: seq<Redirection>, s: string): (p: Parsed<seq<Redirection>>)
    ensures p.Ok? ==> |p.rest| <= |s|
    decreases |s|
  {
    if !NextIn(s, "<>") then Ok(rs, Skip(s))
    else
      var tok := NextToken(s);
      var file := NextToken(tok.rest);
      if file.kind != 'a' then Panic(MissingFile)
      else Redirs(rs + [RedirectionFor(tok.kind, file.text)], file.rest)
  }

  function RedirectionFor(kind: char, file: string): Redirection {
    if kind == '<' then Redirection(file, O_RDONLY, 0) else Redirection(file, O_WRONLY + O_CREATE, 1)
  }

  /** The first redirection is the innermost. */
  function Redirected(cmd: Cmd, rs: seq<Redirection>): Cmd
    decreases |rs|
  {
    if rs == [] then cmd else Redirected(Redir(cmd, rs[0]), rs[1..])
  }

  function AllRedirected(cmd: Cmd, p: Parsed<seq<Redirection>>): Parsed<Cmd> {
    match p
    case Panic(e) => Panic(e)
    case Ok(rs, rest) => Ok(Redirected(cmd, rs), rest)
  }

  /** The words and redirections that follow. */
  function Args(argv: seq<string>, rs: seq<Redirection>, s: string): (p: Parsed<Cmd>)
    ensures p.Ok? ==> |p.rest| <= |s|
    decreases |s|
  {
    if NextIn(s, "|)&;") then Ok(Redirected(Exec(argv), rs), Skip(s))
    else
      var tok := NextToken(s);
      if tok.kind == '\0' then Ok(Redirected(Exec(argv), rs), tok.rest)
      else if tok.kind != 'a' then Panic(BadToken)
      else if |argv| + 1 >= MAXARGS then Panic(TooManyArgs)
      else match Redirs(rs, tok.rest)
        case Panic(e) => Panic(e)
        case Ok(rs', rest) => Args(argv + [tok.text], rs', rest)
  }

  function Simple(s: string): (p: Parsed<Cmd>)
    ensures p.Ok? ==> |p.rest| <= |s|
    decreases |s|, 1
  {
    if NextIn(s, "(") then Block(s)
    else match Redirs([], s)
      case Panic(e) => Panic(e)
      case Ok(rs, rest) => Args([], rs, rest)
  }

  function Block(s: string): (p: Parsed<Cmd>)
    requires NextIn(s, "(")
    ensures p.Ok? ==> |p.rest| <= |s|
    decreases |s|, 0
  {
    match Line(NextToken(s).rest)
    case Panic(e) => Panic(e)
    case Ok(cmd, rest) =>
      if !NextIn(rest, ")") then Panic(MissingParen)
      else AllRedirected(cmd, Redirs([], NextToken(rest).rest))
  }

  function Pipeline(s: string): (p: Parsed<Cmd>)
    ensures p.Ok? ==> |p.rest| <= |s|
    decreases |s|, 2
  {
    match Simple(s)
    case Panic(e) => Panic(e)
    case Ok(cmd, rest) =>
      if !NextIn(rest, "|") then Ok(cmd, Skip(rest))
      else match Pipeline(NextToken(rest).rest)
        case Panic(e) => Panic(e)
        case Ok(right, rest') => Ok(Pipe(cmd, right), rest')
  }

  function Backs(cmd: Cmd, s: string): (p: Parsed<Cmd>)
    ensures p.Ok? && |p.rest| <= |s|
    decreases |s|
  {
    if NextIn(s, "&") then Backs(Back(cmd), NextToken(s).rest) else Ok(cmd, Skip(s))
  }

  function Line(s: string): (p: Parsed<Cmd>)
    ensures p.Ok? ==> |p.rest| <= |s|
    decreases |s|, 3
  {
    match Pipeline(s)
    case Panic(e) => Panic(e)
    case Ok(first, rest0) =>
      var backs := Backs(first, rest0);
      var cmd, rest := backs.value, backs.rest;
      if !NextIn(rest, ";") then Ok(cmd, Skip(rest))
      else match Line(NextToken(rest).rest)
        case Panic(e) => Panic(e)
        case Ok(right, rest') => Ok(List(cmd, right), rest')
  }

  /** The command that a line means. */
  function Command(s: string): Parsed<Cmd> {
    match Line(s)
    case Panic(e) => Panic(e)
    case Ok(cmd, rest) => if Skip(rest) != "" then Panic(Leftovers) else Ok(cmd, "")
  }

  // ----- which commands there are

  predicate WellFormed(c: Cmd) {
    match c
    case Exec(argv) => |argv| < MAXARGS && AllWords(argv)
    case Redir(cmd, to) => WellFormed(cmd) && RedirOk(to)
    case Pipe(l, r) => WellFormed(l) && WellFormed(r)
    case List(l, r) => WellFormed(l) && WellFormed(r)
    case Back(cmd) => WellFormed(cmd)
  }

  predicate AllWords(argv: seq<string>) {
    forall i :: 0 <= i < |argv| ==> IsWord(argv[i])
  }

  predicate RedirOk(to: Redirection) {
    IsWord(to.file) && (to == RedirectionFor('<', to.file) || to == RedirectionFor('>', to.file))
  }

  predicate AllRedirsOk(rs: seq<Redirection>) {
    forall i :: 0 <= i < |rs| ==> RedirOk(rs[i])
  }

  lemma {:induction false} RedirectedOk(cmd: Cmd, rs: seq<Redirection>)
    requires WellFormed(cmd) && AllRedirsOk(rs)
    ensures WellFormed(Redirected(cmd, rs))
    decreases |rs|
  {
    if rs != [] {
      RedirectedOk(Redir(cmd, rs[0]), rs[1..]);
    }
  }

  lemma {:induction false} RedirsOk(rs: seq<Redirection>, s: string)
    requires AllRedirsOk(rs)
    ensures Redirs(rs, s).Ok? ==> AllRedirsOk(Redirs(rs, s).value)
    decreases |s|
  {
    if NextIn(s, "<>") {
      var tok := NextToken(s);
      var file := NextToken(tok.rest);
      if file.kind == 'a' {
        RedirsOk(rs + [RedirectionFor(tok.kind, file.text)], file.rest);
      }
    }
  }

  lemma {:induction false} ArgsOk(argv: seq<string>, rs: seq<Redirection>, s: string)
    requires WellFormed(Exec(argv)) && AllRedirsOk(rs)
    ensures Args(argv, rs, s).Ok? ==> WellFormed(Args(argv, rs, s).value)
    decreases |s|
  {
    RedirectedOk(Exec(argv), rs);
    var tok := NextToken(s);
    if !NextIn(s, "|)&;") && tok.kind == 'a' && |argv| + 1 < MAXARGS {
      RedirsOk(rs, tok.rest);
      var p := Redirs(rs, tok.rest);
      if p.Ok? {
        ArgsOk(argv + [tok.text], p.value, p.rest);
      }
    }
  }

  lemma {:induction false} BacksOk(cmd: Cmd, s: string)
    requires WellFormed(cmd)
    ensures WellFormed(Backs(cmd, s).value)
    decreases |s|
  {
    if NextIn(s, "&") {
      BacksOk(Back(cmd), NextToken(s).rest);
    }
  }

  lemma {:induction false} SimpleOk(s: string)
    ensures Simple(s).Ok? ==> WellFormed(Simple(s).value)
    decreases |s|, 1
  {
    if NextIn(s, "(") {
      var p := Line(NextToken(s).rest);
      LineOk(NextToken(s).rest);
      if p.Ok? && NextIn(p.rest, ")") {
        var q := Redirs([], NextToken(p.rest).rest);
        RedirsOk([], NextToken(p.rest).rest);
        if q.Ok? {
          RedirectedOk(p.value, q.value);
        }
      }
    } else {
      var p := Redirs([], s);
      RedirsOk([], s);
      if p.Ok? {
        ArgsOk([], p.value, p.rest);
      }
    }
  }

  lemma {:induction false} PipelineOk(s: string)
    ensures Pipeline(s).Ok? ==> WellFormed(Pipeline(s).value)
    decreases |s|, 2
  {
    SimpleOk(s);
    var p := Simple(s);
    if p.Ok? && NextIn(p.rest, "|") {
      PipelineOk(NextToken(p.rest).rest);
    }
  }

  /** Whatever the parser builds is a well-formed command. */
  lemma {:induction false} LineOk(s: string)
    ensures Line(s).Ok? ==> WellFormed(Line(s).value)
    decreases |s|, 3
  {
    PipelineOk(s);
    var p := Pipeline(s);
    if p.Ok? {
      BacksOk(p.value, p.rest);
      var rest := Backs(p.value, p.rest).rest;
      if NextIn(rest, ";") {
        LineOk(NextToken(rest).rest);
      }
    }
  }

  // ----- printing

  function Words(argv: seq<string>): string {
    if argv == [] then "" else argv[0] + " " + Words(argv[1..])
  }

  /** A command with every part in parentheses. */
  function Print(c: Cmd): string
    decreases c, 0
  {
    match c
    case Exec(argv) => Words(argv)
    case Redir(cmd, to) => Paren(cmd) + (if to.fd == 0 then "<" else ">") + to.file
    case Pipe(l, r) => Paren(l) + "|" + Paren(r)
    case List(l, r) => Paren(l) + ";" + Paren(r)
    case Back(cmd) => Paren(cmd) + "&"
  }

  function Paren(c: Cmd): string
    decreases c, 1
  {
    "(" + Print(c) + ")"
  }

  // ----- parsing what was printed

  /** What may follow a command: the end of the line or of a block. */
  predicate Stops(t: string) {
    t == "" || t[0] == ')'
  }

  predicate NoSpaceFirst(t: string) {
    t == "" || !IsSpace(t[0])
  }

  lemma SymbolToken(c: char, t: string)
    requires IsSymbol(c) && NoSpaceFirst(t) && (c == '>' ==> t == "" || t[0] != '>')
    ensures NextToken([c] + t) == Token(c, [c], t)
  {
  }

  lemma WordToken(w: string, t: string)
    requires IsWord(w) && (t == "" || !IsWordChar(t[0]))
    ensures NextToken(w + t) == Token('a', w, Skip(t))
  {
    var s := w + t;
    assert forall i :: 0 <= i < |w| ==> s[i] == w[i];
    assert |w| < |s| ==> s[|w|] == t[0];
    var n := WordLength(s);
    assert n == |w|;
    assert s[..n] == w && s[n..] == t;
  }

  lemma NoRedirs(rs: seq<Redirection>, t: string)
    requires NoSpaceFirst(t) && (t == "" || t[0] !in "<>")
    ensures Redirs(rs, t) == Ok(rs, t)
  {
  }

  lemma OneRedir(to: Redirection, t: string)
    requires RedirOk(to) && Stops(t)
    ensures Redirs([], (if to.fd == 0 then "<" else ">") + (to.file + t)) == Ok([to], t)
  {
    var c := if to.fd == 0 then '<' else '>';
    var u := to.file + t;
    assert u[0] == to.file[0];
    SymbolToken(c, u);
    WordToken(to.file, t);
    NoRedirs([to], t);
    assert NextIn([c] + u, "<>");
    assert [] + [RedirectionFor(c, to.file)] == [to];
  }

  /** A printed word list starts with a word. */
  lemma WordsStart(argv: seq<string>, t: string)
    requires AllWords(argv) && Stops(t)
    ensures var s := Words(argv) + t; s == "" || IsWordChar(s[0]) || (s[0] == ')' && argv == [])
  {
  }

  lemma ArgsStep(argv: seq<string>, w: string, rest: string)
    requires IsWord(w) && NoSpaceFirst(rest) && (rest == "" || rest[0] !in "<>") && |argv| + 1 < MAXARGS
    ensures Args(argv, [], w + (" " + rest)) == Args(argv + [w], [], rest)
  {
    var s := w + (" " + rest);
    assert s[0] == w[0];
    WordToken(w, " " + rest);
    assert (" " + rest)[1..] == rest;
    NoRedirs([], rest);
  }

  /** Words that were printed are collected again. */
  lemma {:induction false} ArgsParse(argv: seq<string>, more: seq<string>, t: string)
    requires |argv| + |more| < MAXARGS && AllWords(more) && Stops(t)
    ensures Args(argv, [], Words(more) + t) == Ok(Exec(argv + more), t)
    decreases |more|
  {
    if more == [] {
      assert Words(more) + t == t && argv + more == argv;
      ArgsEnd(argv, t);
    } else {
      var rest := Words(more[1..]) + t;
      WordsSplit(more, t);
      ArgsStep(argv, more[0], rest);
      ArgsParse(argv + [more[0]], more[1..], t);
      Append(argv, more);
    }
  }

  lemma Append(argv: seq<string>, more: seq<string>)
    requires more != []
    ensures argv + [more[0]] + more[1..] == argv + more
  {
  }

  lemma Joined(a: string, b: string, c: string, d: string)
    ensures a + b + c + d == a + (b + (c + d))
  {
  }

  lemma WordsSplit(argv: seq<string>, t: string)
    requires argv != [] && AllWords(argv) && Stops(t)
    ensures IsWord(argv[0]) && AllWords(argv[1..])
    ensures Words(argv) + t == argv[0] + (" " + (Words(argv[1..]) + t))
    ensures var rest := Words(argv[1..]) + t; NoSpaceFirst(rest) && (rest == "" || rest[0] !in "<>")
  {
    Joined(argv[0], " ", Words(argv[1..]), t);
    WordsStart(argv[1..], t);
  }

  lemma ArgsEnd(argv: seq<string>, t: string)
    requires Stops(t)
    ensures Args(argv, [], t) == Ok(Exec(argv), t)
  {
  }

  /** A block that was printed is parsed again, given that its inside is. */
  lemma ParenParses(c: Cmd, u: string)
    requires Line(Print(c) + (")" + u)) == Ok(c, ")" + u) && NoSpaceFirst(u) && NoSpaceFirst(Print(c) + (")" + u))
    ensures Simple(Paren(c) + u) ==
              AllRedirected(c, Redirs([], u))
  {
    var inner := Print(c) + (")" + u);
    assert Paren(c) + u == "(" + inner;
    SymbolToken('(', inner);
    SymbolToken(')', u);
    assert NextIn("(" + inner, "(") && NextIn(")" + u, ")");
  }

  /** A simple command that is followed by a stop is a whole line. */
  lemma LineEnds(s: string, c: Cmd, t: string)
    requires Simple(s) == Ok(c, t) && Stops(t)
    ensures Pipeline(s) == Ok(c, t) && Line(s) == Ok(c, t)
  {
  }

  lemma PipeEnds(s: string, l: Cmd, x: string, r: Cmd, t: string)
    requires Simple(s) == Ok(l, "|" + x) && NoSpaceFirst(x) && Simple(x) == Ok(r, t) && Stops(t)
    ensures Line(s) == Ok(Pipe(l, r), t)
  {
    SymbolToken('|', x);
    LineEnds(x, r, t);
  }

  lemma ListEnds(s: string, l: Cmd, x: string, r: Cmd, t: string)
    requires Simple(s) == Ok(l, ";" + x) && NoSpaceFirst(x) && Simple(x) == Ok(r, t) && Stops(t)
    ensures Line(s) == Ok(List(l, r), t)
  {
    SymbolToken(';', x);
    LineEnds(x, r, t);
  }

  lemma BackEnds(s: string, c: Cmd, t: string)
    requires Simple(s) == Ok(c, "&" + t) && Stops(t)
    ensures Line(s) == Ok(Back(c), t)
  {
    SymbolToken('&', t);
    assert Backs(Back(c), t) == Ok(Back(c), t);
  }

  lemma ExecParses(argv: seq<string>, t: string)
    requires WellFormed(Exec(argv)) && Stops(t)
    ensures Simple(Words(argv) + t) == Ok(Exec(argv), t)
  {
    WordsStart(argv, t);
    NoRedirs([], Words(argv) + t);
    ArgsParse([], argv, t);
    assert [] + argv == argv;
  }

  lemma PrintStart(c: Cmd, t: string)
    requires WellFormed(c) && Stops(t)
    ensures NoSpaceFirst(Print(c) + t)
  {
  }

  /** Parsing a command's printing, followed by a stop, yields the command. */
  lemma {:induction false} LineParses(c: Cmd, t: string)
    requires WellFormed(c) && Stops(t)
    ensures Line(Print(c) + t) == Ok(c, t)
    decreases c, 0
  {
    hide Line, Simple, Pipeline, Redirs, IsWord;
    var s := Print(c) + t;
    match c
    case Exec(argv) =>
      ExecParses(argv, t);
      LineEnds(s, c, t);
    case Redir(cmd, to) =>
      var u := (if to.fd == 0 then "<" else ">") + (to.file + t);
      assert s == Paren(cmd) + u;
      InParens(cmd, u);
      OneRedir(to, t);
      assert Redirected(cmd, [to]) == c;
      LineEnds(s, c, t);
    case Pipe(l, r) =>
      var x := Paren(r) + t;
      assert s == Paren(l) + ("|" + x);
      InParens(l, "|" + x);
      InParens(r, t);
      NoRedirs([], "|" + x);
      NoRedirs([], t);
      PipeEnds(s, l, x, r, t);
    case List(l, r) =>
      var x := Paren(r) + t;
      assert s == Paren(l) + (";" + x);
      InParens(l, ";" + x);
      InParens(r, t);
      NoRedirs([], ";" + x);
      NoRedirs([], t);
      ListEnds(s, l, x, r, t);
    case Back(cmd) =>
      assert s == Paren(cmd) + ("&" + t);
      InParens(cmd, "&" + t);
      NoRedirs([], "&" + t);
      BackEnds(s, cmd, t);
  }

  lemma {:induction false} InParens(c: Cmd, u: string)
    requires WellFormed(c) && NoSpaceFirst(u)
    ensures Simple(Paren(c) + u) ==
              AllRedirected(c, Redirs([], u))
    decreases c, 1
  {
    LineParses(c, ")" + u);
    PrintStart(c, ")" + u);
    ParenParses(c, u);
  }

  /** Printing and parsing gives the command back. */
  lemma RoundTrip(c: Cmd)
    requires WellFormed(c)
    ensures Command(Print(c)) == Ok(c, "")
  {
    LineParses(c, "");
    assert Print(c) + "" == Print(c);
  }

  /** A line that parses means the same as its command printed in full. */
  lemma Reprint(s: string)
    ensures Command(s).Ok? ==> Command(Print(Command(s).value)) == Command(s)
  {
    LineOk(s);
    if Command(s).Ok? {
      RoundTrip(Command(s).value);
    }
  }

  // ----- the parser

  /** Space in front makes no difference. */
  lemma SkipTwice(s: string)
    ensures Skip(Skip(s)) == Skip(s) && NextToken(Skip(s)) == NextToken(s)
    ensures forall toks :: NextIn(Skip(s), toks) == NextIn(s, toks)
  {
  }

  lemma RedirsAfterSpace(rs: seq<Redirection>, s: string)
    ensures Redirs(rs, Skip(s)) == Redirs(rs, s)
  {
  }

  datatype Result<T> = Done(value: T) | Failed(error: Error)

  lemma BlockAfterSpace(s: string)
    ensures NextIn(s, "(") ==> NextIn(Skip(s), "(") && Block(Skip(s)) == Block(s)
  {
    SkipTwice(s);
  }

  /** What a parsing method did is what the grammar says: the same value and rest, or the same panic. */
  predicate Agrees<T(==)>(r: Result<T>, rest: string, p: Parsed<T>) {
    match p
    case Ok(v, rest') => r == Done(v) && rest == rest'
    case Panic(e) => r == Failed(e)
  }

  /** The line and the parser's position in it (ps). */
  class Parser {
    const line: CString
    var pos: nat

    constructor (s: CString)
      ensures line == s && Valid() && Rest() == s
    {
      line := s;
      pos := 0;
    }

    ghost predicate Valid()
      reads this
    {
      pos <= |line|
    }

    ghost function Rest(): (s: string)
      requires Valid()
      reads this
      ensures |s| == |line| - pos && '\0' !in s
    {
      line[pos..]
    }

    method SkipSpace()
      requires Valid()
      modifies this
      ensures Valid() && Rest() == Skip(old(Rest())) && pos >= old(pos)
    {
      while pos < |line| && IsSpace(line[pos])
        invariant Valid() && Skip(Rest()) == Skip(old(Rest())) && pos >= old(pos)
        decreases |line| - pos
      {
        assert Rest()[1..] == line[pos + 1..];
        pos := pos + 1;
      }
    }

    method SkipWord()
      requires Valid()
      modifies this
      ensures Valid() && pos == old(pos) + WordLength(old(Rest()))
    {
      while pos < |line| && !IsSpace(line[pos]) && !IsSymbol(line[pos])
        invariant old(pos) <= pos <= |line| && WordLength(old(Rest())) == pos - old(pos) + WordLength(line[pos..])
        decreases |line| - pos
      {
        assert line[pos..][1..] == line[pos + 1..];
        pos := pos + 1;
      }
    }

    /** Reads a token, which is line[q..eq] when it is a word. */
    method GetToken() returns (tok: char, q: nat, eq: nat)
      requires Valid()
      modifies this
      ensures Valid() && q <= eq <= |line|
      ensures var t := NextToken(old(Rest())); tok == t.kind && line[q..eq] == t.text && Rest() == t.rest
    {
      hide Skip, WordLength, IsSpace, IsWordChar;
      SkipSpace();
      ghost var u := Rest();
      q := pos;
      assert pos < |line| ==> line[pos] == u[0] && u[0] != '\0';
      if pos == |line| {
        tok := '\0';
      } else if line[pos] == '>' {
        tok := '>';
        pos := pos + 1;
        if pos < |line| && line[pos] == '>' {
          tok := '+';
          pos := pos + 1;
        }
      } else if IsSymbol(line[pos]) {
        tok := line[pos];
        pos := pos + 1;
      } else {
        tok := 'a';
        SkipWord();
      }
      eq := pos;
      assert line[q..eq] == u[..eq - q] && line[eq..] == u[eq - q..];
      SkipSpace();
    }

    method Peek(toks: string) returns (found: bool)
      requires Valid()
      modifies this
      ensures Valid() && Rest() == Skip(old(Rest())) && found == NextIn(old(Rest()), toks)
      ensures pos >= old(pos)
    {
      SkipSpace();
      found := pos < |line| && line[pos] in toks;
    }

    method ParseRedirs(rs: seq<Redirection>) returns (r: Result<seq<Redirection>>)
      requires Valid()
      modifies this
      ensures Valid() && Agrees(r, Rest(), Redirs(rs, old(Rest())))
    {
      var all := rs;
      while true
        invariant Valid() && Redirs(all, Rest()) == Redirs(rs, old(Rest()))
        decreases |line| - pos
      {
        ghost var s := Rest();
        SkipTwice(s);
        var more := Peek("<>");
        if !more {
          return Done(all);
        }
        var tok, _, _ := GetToken();
        var kind, q, eq := GetToken();
        if kind != 'a' {
          return Failed(MissingFile);
        }
        all := all + [RedirectionFor(tok, line[q..eq])];
      }
    }

    method ParseBlock() returns (r: Result<Cmd>)
      requires Valid() && NextIn(Rest(), "(")
      modifies this
      ensures Valid() && Agrees(r, Rest(), Block(old(Rest())))
      decreases |line| - pos, 0
    {
      SkipTwice(Rest());
      var open := Peek("(");
      if !open {
        assert false;             // panic("parseblock")
      }
      var _, _, _ := GetToken();
      r := ParseLine();
      if r.Failed? {
        return;
      }
      SkipTwice(Rest());
      var close := Peek(")");
      if !close {
        return Failed(MissingParen);
      }
      var _, _, _ := GetToken();
      var rs := ParseRedirs([]);
      if rs.Failed? {
        return Failed(rs.error);
      }
      return Done(Redirected(r.value, rs.value));
    }

    /** The redirections wrap the command whose words are still being collected; here they are
        put around it when it is complete. */
    method ParseExec() returns (r: Result<Cmd>)
      requires Valid()
      modifies this
      ensures Valid() && Agrees(r, Rest(), Simple(old(Rest())))
      decreases |line| - pos, 1
    {
      SkipTwice(Rest());
      RedirsAfterSpace([], Rest());
      BlockAfterSpace(Rest());
      var open := Peek("(");
      if open {
        r := ParseBlock();
        return;
      }
      var argv: seq<string> := [];
      var rs := ParseRedirs([]);
      if rs.Failed? {
        return Failed(rs.error);
      }
      ghost var whole := Args(argv, rs.value, Rest());
      while true
        invariant Valid() && rs.Done? && Args(argv, rs.value, Rest()) == whole && |argv| < MAXARGS
        decreases |line| - pos
      {
        SkipTwice(Rest());
        var end := Peek("|)&;");
        if end {
          break;
        }
        var tok, q, eq := GetToken();
        if tok == '\0' {
          break;
        }
        if tok != 'a' {
          return Failed(BadToken);
        }
        argv := argv + [line[q..eq]];
        if |argv| >= MAXARGS {
          return Failed(TooManyArgs);
        }
        rs := ParseRedirs(rs.value);
        if rs.Failed? {
          return Failed(rs.error);
        }
      }
      return Done(Redirected(Exec(argv), rs.value));
    }

    method ParsePipe() returns (r: Result<Cmd>)
      requires Valid()
      modifies this
      ensures Valid() && Agrees(r, Rest(), Pipeline(old(Rest())))
      decreases |line| - pos, 2
    {
      r := ParseExec();
      if r.Failed? {
        return;
      }
      SkipTwice(Rest());
      var more := Peek("|");
      if more {
        var _, _, _ := GetToken();
        var right := ParsePipe();
        if right.Failed? {
          return right;
        }
        r := Done(Pipe(r.value, right.value));
      }
    }

    method ParseLine() returns (r: Result<Cmd>)
      requires Valid()
      modifies this
      ensures Valid() && Agrees(r, Rest(), Line(old(Rest())))
      decreases |line| - pos, 3
    {
      r := ParsePipe();
      if r.Failed? {
        return;
      }
      ghost var whole := Backs(r.value, Rest());
      while true
        invariant Valid() && r.Done? && Backs(r.value, Rest()) == whole && |line| - pos <= old(|line| - pos)
        decreases |line| - pos
      {
        SkipTwice(Rest());
        var back := Peek("&");
        if !back {
          break;
        }
        var _, _, _ := GetToken();
        r := Done(Back(r.value));
      }
      SkipTwice(Rest());
      var more := Peek(";");
      if more {
        var _, _, _ := GetToken();
        var right := ParseLine();
        if right.Failed? {
          return right;
        }
        r := Done(List(r.value, right.value));
      }
    }

    method ParseCmd() returns (r: Result<Cmd>)
      requires Valid() && pos == 0
      modifies this
      ensures Valid() && Agrees(r, Rest(), Command(line))
    {
      r := ParseLine();
      if r.Failed? {
        return;
      }
      var _ := Peek("");
      if pos != |line| {
        return Failed(Leftovers);
      }
    }
  }
}
