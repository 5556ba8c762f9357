/** The command parser of sh.c as functions of the remaining input, a printer, and their round trip.
    A failed parse is a panic of the shell. */
module Shell {

  const MAXARGS: nat := 10
  const O_RDONLY: nat := 0
  const O_WRONLY_CREATE: nat := 0x201

  /** What parsing builds (struct cmd and its variants). */
  datatype Cmd =
    | Exec(argv: seq<string>)
    | Redir(cmd: Cmd, file: string, mode: nat, fd: nat)
    | Pipe(left: Cmd, right: Cmd)
    | List(first: Cmd, rest: Cmd)
    | Back(cmd: Cmd)

  /** Result and cursor. */
  datatype Parsed<+T> = Fail | Ok(v: T, rest: string)

  // ---- tokens ----

  predicate IsSpace(c: char) { c == ' ' || c == '\t' || c == '\r' || c == '\n' || c == '\U{0B}' }
  predicate IsSymbol(c: char) { c == '<' || c == '|' || c == '>' || c == '&' || c == ';' || c == '(' || c == ')' }
  predicate InWord(c: char) { c != '\0' && !IsSpace(c) && !IsSymbol(c) }

  function Skip(t: string): (u: string)
    ensures |u| <= |t|
    ensures u == [] || !IsSpace(u[0])
  {
    if t != [] && IsSpace(t[0]) then Skip(t[1..]) else t
  }

  function WordLen(t: string): (n: nat)
    ensures n <= |t|
  {
    if t != [] && InWord(t[0]) then 1 + WordLen(t[1..]) else 0
  }

  datatype Tok = TEnd | TSym(c: char) | TAppend | TWord(w: string)

  /** gettoken: a token and the cursor after it and the space that follows. */
  function GetTok(t: string): (r: (Tok, string))
    ensures |r.1| <= |t| && (r.0.TEnd? || |r.1| < |t|)
  {
    if Skip(t) == [] || Skip(t)[0] == '\0' then (TEnd, Skip(t)) else Scan(Skip(t))
  }

  /** The switch of gettoken, past the leading space. */
  function Scan(u: string): (r: (Tok, string))
    requires u != [] && !IsSpace(u[0]) && u[0] != '\0'
    ensures !r.0.TEnd? && |r.1| < |u|
  {
    if u[0] == '>' && |u| >= 2 && u[1] == '>' then (TAppend, Skip(u[2..]))
    else if IsSymbol(u[0]) then (TSym(u[0]), Skip(u[1..]))
    else (TWord(u[..WordLen(u)]), Skip(u[WordLen(u)..]))
  }

  /** peek: is the next character one of toks? */
  predicate Peek(t: string, toks: string) { Skip(t) != [] && Skip(t)[0] in toks }

  // ---- the parser ----

  datatype Red = Red(file: string, mode: nat, fd: nat)

  function Wrap(c: Cmd, rs: seq<Red>): (r: Cmd) {
    if rs == [] then c
    else var last := rs[|rs| - 1]; Redir(Wrap(c, rs[..|rs| - 1]), last.file, last.mode, last.fd)
  }

  /** parseredirs, collecting the redirections. */
  function Redirs(rs: seq<Red>, t: string): (r: Parsed<seq<Red>>)
    ensures r.Ok? ==> |r.rest| <= |t|
    decreases |t|
  {
    if Peek(t, "<>") then
      var (tok, u) := GetTok(Skip(t));
      var (w, v) := GetTok(u);
      if !w.TWord? then Fail
      else Redirs(rs + [if tok == TSym('<') then Red(w.w, O_RDONLY, 0) else Red(w.w, O_WRONLY_CREATE, 1)], v)
    else Ok(rs, Skip(t))
  }

  /** The argument loop of parseexec. */
  function Args(argv: seq<string>, rs: seq<Red>, t: string): (r: Parsed<Cmd>)
    ensures r.Ok? ==> |r.rest| <= |t|
    decreases |t|
  {
    if Peek(t, "|)&;") then Ok(Wrap(Exec(argv), rs), Skip(t))
    else
      var (tok, u) := GetTok(Skip(t));
      if tok.TEnd? then Ok(Wrap(Exec(argv), rs), u)
      else if !tok.TWord? || |argv| + 1 >= MAXARGS then Fail
      else
        match Redirs(rs, u)
        case Fail => Fail
        case Ok(rs', v) => Args(argv + [tok.w], rs', v)
  }

  function ParseExec(t: string): (r: Parsed<Cmd>)
    ensures r.Ok? ==> |r.rest| <= |t|
    decreases |t|, 1
  {
    if Peek(t, "(") then ParseBlock(Skip(t))
    else
      match Redirs([], t)
      case Fail => Fail
      case Ok(rs, u) => Args([], rs, u)
  }

  /** parseblock, the cursor at its parenthesis. */
  function ParseBlock(t: string): (r: Parsed<Cmd>)
    requires t != [] && t[0] == '('
    ensures r.Ok? ==> |r.rest| < |t|
    decreases |t|, 0
  {
    match ParseLine(GetTok(t).1)
    case Fail => Fail
    case Ok(c, u) =>
      if !Peek(u, ")") then Fail
      else
        match Redirs([], GetTok(u).1)
        case Fail => Fail
        case Ok(rs, v) => Ok(Wrap(c, rs), v)
  }

  function ParsePipe(t: string): (r: Parsed<Cmd>)
    ensures r.Ok? ==> |r.rest| <= |t|
    decreases |t|, 2
  {
    match ParseExec(t)
    case Fail => Fail
    case Ok(c, u) =>
      if Peek(u, "|") then
        match ParsePipe(GetTok(u).1)
        case Fail => Fail
        case Ok(d, v) => Ok(Pipe(c, d), v)
      else Ok(c, Skip(u))
  }

  /** The & loop of parseline. */
  function Ands(c: Cmd, t: string): (r: (Cmd, string))
    ensures |r.1| <= |t|
    decreases |t|
  {
    if Peek(t, "&") then Ands(Back(c), GetTok(t).1) else (c, Skip(t))
  }

  function ParseLine(t: string): (r: Parsed<Cmd>)
    ensures r.Ok? ==> |r.rest| <= |t|
    decreases |t|, 3
  {
    match ParsePipe(t)
    case Fail => Fail
    case Ok(c, u) =>
      var (d, v) := Ands(c, u);
      if Peek(v, ";") then
        match ParseLine(GetTok(v).1)
        case Fail => Fail
        case Ok(e, w) => Ok(List(d, e), w)
      else Ok(d, Skip(v))
  }

  /** parsecmd: all input must be consumed. */
  function ParseCmd(s: string): (r: Parsed<Cmd>) {
    match ParseLine(s)
    case Fail => Fail
    case Ok(c, u) => if Skip(u) != [] then Fail else Ok(c, [])
  }

  // ---- the printer ----

  predicate IsWord(w: string) { w != [] && forall i :: 0 <= i < |w| ==> InWord(w[i]) }

  /** Trees the grammar can express. */
  predicate Valid(c: Cmd) {
    match c
    case Exec(argv) => |argv| < MAXARGS && forall i :: 0 <= i < |argv| ==> IsWord(argv[i])
    case Redir(d, file, mode, fd) => Valid(d) && ValidRed(Red(file, mode, fd))
    case Pipe(l, r) => Valid(l) && Valid(r)
    case List(l, r) => Valid(l) && Valid(r)
    case Back(d) => Valid(d)
  }

  predicate ValidRed(r: Red)
  {
    IsWord(r.file) && ((r.mode == O_RDONLY && r.fd == 0) || (r.mode == O_WRONLY_CREATE && r.fd == 1))
  }

  /** How tightly the outermost operator binds: 0 list, 1 background, 2 pipe, 3 a simple command. */
  function Level(c: Cmd): (n: nat) { match c case List(_, _) => 0 case Back(_) => 1 case Pipe(_, _) => 2 case _ => 3 }

  function WordsText(ws: seq<string>): (t: string) { if ws == [] then "" else ws[0] + " " + WordsText(ws[1..]) }

  function RedText(r: Red): (t: string) { (if r.fd == 0 then "<" else ">") + r.file + " " }

  /** Print c where an operator of level n is expected, with parentheses only if needed. */
  function Print(c: Cmd, n: nat): (t: string)
    decreases c, 1
  {
    if Level(c) < n then "(" + Raw(c) + ")" else Raw(c)
  }

  function Raw(c: Cmd): (t: string)
    decreases c, 0
  {
    match c
    case Exec(argv) => WordsText(argv)
    case Redir(d, file, mode, fd) => Print(d, 3) + RedText(Red(file, mode, fd))
    case Pipe(l, r) => Print(l, 3) + "|" + Print(r, 2)
    case List(l, r) => Print(l, 1) + ";" + Print(r, 0)
    case Back(d) => Print(d, 1) + "&"
  }

  // ---- tokens of printed text ----

  /** What may follow a piece of text: nothing, or one of cs. */
  predicate Follow(z: string, cs: string) { Skip(z) == [] || Skip(z)[0] in cs }

  lemma SkipSkip(t: string)
    ensures Skip(Skip(t)) == Skip(t)
  {
  }

  lemma {:induction false} WordLenOf(w: string, z: string)
    requires forall i :: 0 <= i < |w| ==> InWord(w[i])
    requires z != [] && !InWord(z[0])
    ensures WordLen(w + z) == |w|
  {
    if w == [] {
      assert w + z == z;
    } else {
      assert (w + z)[1..] == w[1..] + z;
      WordLenOf(w[1..], z);
    }
  }

  lemma TokWord(w: string, z: string)
    requires IsWord(w)
    ensures Skip(w + " " + z) == w + " " + z
    ensures GetTok(w + " " + z) == (TWord(w), Skip(z))
  {
    var t := w + (" " + z);
    assert t == w + " " + z && InWord(t[0]);
    WordLenOf(w, " " + z);
    assert t[..|w|] == w && t[|w|..] == " " + z && (" " + z)[1..] == z;
  }

  lemma TokSym(c: char, z: string)
    requires IsSymbol(c) && c != '>'
    ensures Skip([c] + z) == [c] + z
    ensures GetTok([c] + z) == (TSym(c), Skip(z))
  {
    assert ([c] + z)[0] == c && ([c] + z)[1..] == z;
  }

  lemma RedirsSkip(rs: seq<Red>, t: string)
    ensures Redirs(rs, Skip(t)) == Redirs(rs, t)
  {
    SkipSkip(t);
  }

  lemma ArgsSkip(argv: seq<string>, rs: seq<Red>, t: string)
    ensures Args(argv, rs, Skip(t)) == Args(argv, rs, t)
  {
    SkipSkip(t);
  }

  lemma ExecSkip(t: string)
    ensures ParseExec(Skip(t)) == ParseExec(t)
  {
    SkipSkip(t);
    RedirsSkip([], t);
  }

  lemma PipeSkip(t: string)
    ensures ParsePipe(Skip(t)) == ParsePipe(t)
  {
    ExecSkip(t);
  }

  lemma LineSkip(t: string)
    ensures ParseLine(Skip(t)) == ParseLine(t)
  {
    PipeSkip(t);
  }

  // ---- redirections and arguments ----

  /** A `>>` is read as one token, and its file is opened as that of a `>` is. */
  lemma AppendAsWrite(rs: seq<Red>, u: string)
    requires u == [] || u[0] != '>'
    ensures GetTok(">>" + u) == (TAppend, Skip(u)) && GetTok(">" + u) == (TSym('>'), Skip(u))
    ensures Redirs(rs, ">>" + u) == Redirs(rs, ">" + u)
    ensures ParseExec(">>" + u) == ParseExec(">" + u)
  {
    var s, t := ">>" + u, ">" + u;
    assert s[2..] == u && t[1..] == u && Skip(s) == s && Skip(t) == t;
    assert Peek(s, "<>") && Peek(t, "<>") && !Peek(s, "(") && !Peek(t, "(");
  }

  function RedsText(rs: seq<Red>): (t: string) { if rs == [] then "" else RedText(rs[0]) + RedsText(rs[1..]) }

  predicate ValidReds(rs: seq<Red>) { forall i :: 0 <= i < |rs| ==> ValidRed(rs[i]) }

  lemma RedirStep(r0: seq<Red>, r: Red, z: string)
    requires ValidRed(r)
    ensures Redirs(r0, RedText(r) + z) == Redirs(r0 + [r], z)
  {
    var t := RedText(r) + z;
    var body := r.file + " " + z;
    assert t == [t[0]] + body && t[1..] == body;
    assert body[0] == r.file[0] && InWord(body[0]);
    TokWord(r.file, z);
    assert GetTok(t) == (TSym(t[0]), body);
    RedirsSkip(r0 + [r], z);
  }

  lemma RedirsEnd(r0: seq<Red>, z: string)
    requires Follow(z, "|)&;")
    ensures Redirs(r0, z) == Ok(r0, Skip(z))
  {
  }

  lemma {:induction false} RedirsTrip(r0: seq<Red>, rs: seq<Red>, z: string)
    requires ValidReds(rs) && Follow(z, "|)&;")
    ensures Redirs(r0, RedsText(rs) + z) == Ok(r0 + rs, Skip(z))
    decreases rs
  {
    hide Redirs, RedText, ValidRed, Follow;
    if rs == [] {
      assert RedsText(rs) + z == z && r0 + rs == r0;
      RedirsEnd(r0, z);
    } else {
      assert RedsText(rs) + z == RedText(rs[0]) + (RedsText(rs[1..]) + z);
      RedirStep(r0, rs[0], RedsText(rs[1..]) + z);
      RedirsTrip(r0 + [rs[0]], rs[1..], z);
      assert r0 + [rs[0]] + rs[1..] == r0 + rs;
    }
  }

  predicate ValidWords(ws: seq<string>) { forall i :: 0 <= i < |ws| ==> IsWord(ws[i]) }

  /** The words, then the redirections, then what follows. */
  function SimpleText(ws: seq<string>, rs: seq<Red>, z: string): (t: string) { WordsText(ws) + (RedsText(rs) + z) }

  lemma SimpleUnfold(ws: seq<string>, rs: seq<Red>, z: string)
    requires ws != []
    ensures SimpleText(ws, rs, z) == ws[0] + " " + SimpleText(ws[1..], rs, z)
  {
  }

  /** What the redirection loop finds before the words. */
  lemma LeadingRedirs(r0: seq<Red>, ws: seq<string>, rs: seq<Red>, z: string)
    requires ValidWords(ws) && ValidReds(rs) && Follow(z, "|)&;")
    ensures Redirs(r0, SimpleText(ws, rs, z))
         == if ws == [] then Ok(r0 + rs, Skip(z)) else Ok(r0, SimpleText(ws, rs, z))
  {
    if ws == [] {
      assert SimpleText(ws, rs, z) == RedsText(rs) + z;
      RedirsTrip(r0, rs, z);
    } else {
      SimpleUnfold(ws, rs, z);
      TokWord(ws[0], SimpleText(ws[1..], rs, z));
    }
  }

  lemma ArgsEnd(a0: seq<string>, r0: seq<Red>, z: string)
    requires Follow(z, "|)&;")
    ensures Args(a0, r0, z) == Ok(Wrap(Exec(a0), r0), Skip(z))
  {
    hide Wrap;
    SkipSkip(z);
  }

  lemma ArgsStep(a0: seq<string>, r0: seq<Red>, w: string, u: string)
    requires IsWord(w) && |a0| + 1 < MAXARGS
    ensures Args(a0, r0, w + " " + u)
         == match Redirs(r0, u) case Fail => Fail case Ok(rs, v) => Args(a0 + [w], rs, v)
  {
    hide Wrap, Redirs;
    TokWord(w, u);
    assert InWord((w + " " + u)[0]) by { assert (w + " " + u)[0] == w[0]; }
    RedirsSkip(r0, u);
  }

  lemma {:induction false} ArgsTrip(a0: seq<string>, r0: seq<Red>, ws: seq<string>, rs: seq<Red>, z: string)
    requires ws != [] && ValidWords(ws) && ValidReds(rs) && Follow(z, "|)&;") && |a0| + |ws| < MAXARGS
    ensures Args(a0, r0, SimpleText(ws, rs, z)) == Ok(Wrap(Exec(a0 + ws), r0 + rs), Skip(z))
    decreases ws
  {
    hide Args, Redirs, Wrap, SimpleText, IsWord, Follow;
    SimpleUnfold(ws, rs, z);
    ArgsStep(a0, r0, ws[0], SimpleText(ws[1..], rs, z));
    LeadingRedirs(r0, ws[1..], rs, z);
    if |ws| == 1 {
      assert a0 + ws == a0 + [ws[0]];
      ArgsEnd(a0 + ws, r0 + rs, z);
      ArgsSkip(a0 + ws, r0 + rs, z);
    } else {
      ArgsTrip(a0 + [ws[0]], r0, ws[1..], rs, z);
      assert a0 + [ws[0]] + ws[1..] == a0 + ws;
    }
  }

  // ---- simple commands ----

  function Core(c: Cmd): (d: Cmd)
    ensures Size(d) <= Size(c) && !d.Redir? && (Valid(c) ==> Valid(d))
  {
    if c.Redir? then Core(c.cmd) else c
  }

  function Reds(c: Cmd): (rs: seq<Red>)
    ensures Valid(c) ==> ValidReds(rs)
  {
    if c.Redir? then Reds(c.cmd) + [Red(c.file, c.mode, c.fd)] else []
  }

  function Size(c: Cmd): (n: nat) {
    match c
    case Exec(_) => 1
    case Redir(d, _, _, _) => 1 + Size(d)
    case Pipe(l, r) => 1 + Size(l) + Size(r)
    case List(l, r) => 1 + Size(l) + Size(r)
    case Back(d) => 1 + Size(d)
  }

  lemma {:induction false} WrapCore(c: Cmd)
    ensures Wrap(Core(c), Reds(c)) == c
  {
    if c.Redir? {
      WrapCore(c.cmd);
      assert Reds(c)[..|Reds(c)| - 1] == Reds(c.cmd);
    }
  }

  lemma {:induction false} RedsTextSnoc(rs: seq<Red>, r: Red)
    ensures RedsText(rs + [r]) == RedsText(rs) + RedText(r)
  {
    if rs == [] {
      assert rs + [r] == [r];
    } else {
      RedsTextSnoc(rs[1..], r);
      assert (rs + [r])[1..] == rs[1..] + [r];
    }
  }

  lemma {:induction false} PrintCore(c: Cmd)
    ensures Print(c, 3) == Print(Core(c), 3) + RedsText(Reds(c))
  {
    if c.Redir? {
      PrintCore(c.cmd);
      RedsTextSnoc(Reds(c.cmd), Red(c.file, c.mode, c.fd));
    }
  }

  lemma SimpleTrip(c: Cmd, z: string)
    requires Valid(c) && Core(c).Exec? && Follow(z, "|)&;")
    ensures ParseExec(Print(c, 3) + z) == Ok(c, Skip(z))
  {
    hide Args, Redirs, Wrap, Follow, Valid, RedsText, WordsText;
    var ws, rs := Core(c).argv, Reds(c);
    assert ValidWords(ws) && |ws| < MAXARGS by { hide *; ExecWords(Core(c)); }
    PrintCore(c);
    WrapCore(c);
    var t := SimpleText(ws, rs, z);
    assert Print(c, 3) + z == t;
    NotBlock(ws, rs, z);
    LeadingRedirs([], ws, rs, z);
    assert [] + rs == rs;
    if ws == [] {
      ArgsEnd([], rs, z);
      ArgsSkip([], rs, z);
    } else {
      ArgsTrip([], [], ws, rs, z);
      assert [] + ws == ws;
    }
  }

  lemma ExecWords(c: Cmd)
    requires Valid(c) && c.Exec?
    ensures ValidWords(c.argv) && |c.argv| < MAXARGS
  {
  }

  lemma NotBlock(ws: seq<string>, rs: seq<Red>, z: string)
    requires ValidWords(ws) && ValidReds(rs) && Follow(z, "|)&;")
    ensures !Peek(SimpleText(ws, rs, z), "(")
  {
    var t := SimpleText(ws, rs, z);
    if ws != [] {
      SimpleUnfold(ws, rs, z);
      assert t[0] == ws[0][0];
    } else if rs != [] {
      assert t == RedText(rs[0]) + (RedsText(rs[1..]) + z);
      assert t[0] == '<' || t[0] == '>';
    } else {
      assert t == z;
    }
  }

  // ---- the round trip, level by level ----

  lemma {:induction false} PipeRaw(c: Cmd, z: string)
    requires Valid(c) && c.Pipe? && Follow(z, ")&;")
    ensures ParsePipe(Raw(c) + z) == Ok(c, Skip(z))
    decreases Size(c), 0
  {
    hide ParseExec, Valid;
    assert Valid(c.left) && Valid(c.right) by { ValidPipe(c); }
    var y := Print(c.right, 2) + z;
    assert Raw(c) + z == Print(c.left, 3) + ("|" + y);
    TokSym('|', y);
    ExecTrip(c.left, "|" + y);
    PipeTrip(c.right, z);
    PipeSkip(y);
    SkipSkip("|" + y);
  }

  lemma ValidPipe(c: Cmd)
    requires Valid(c) && c.Pipe?
    ensures Valid(c.left) && Valid(c.right)
  {
  }

  lemma {:induction false} AndRaw(c: Cmd, z: string)
    requires Valid(c) && c.Back? && Follow(z, ")&;")
    ensures AfterAnds(Raw(c) + z, c, z)
    decreases Size(c), 0
  {
    assert Raw(c) + z == Print(c.cmd, 1) + ("&" + z);
    TokSym('&', z);
    AndTrip(c.cmd, "&" + z);
    AndsSkip(c, z);
  }

  lemma AndsSkip(c: Cmd, z: string)
    ensures Ands(c, Skip(z)) == Ands(c, z)
  {
    SkipSkip(z);
  }

  /** A pipeline starts t, and the & loop then goes on as it would from c at z. */
  predicate AfterAnds(t: string, c: Cmd, z: string) {
    var p := ParsePipe(t);
    p.Ok? && Ands(p.v, p.rest) == Ands(c, z)
  }

  lemma LineAfter(t: string, c: Cmd, z: string)
    requires AfterAnds(t, c, z) && Follow(z, ")")
    ensures ParseLine(t) == Ok(c, Skip(z))
  {
    hide ParsePipe;
    SkipSkip(z);
  }

  lemma {:induction false} ListRaw(c: Cmd, z: string)
    requires Valid(c) && c.List? && Follow(z, ")")
    ensures ParseLine(Raw(c) + z) == Ok(c, Skip(z))
    decreases Size(c), 0
  {
    hide ParsePipe;
    var y := Print(c.rest, 0) + z;
    assert Raw(c) + z == Print(c.first, 1) + (";" + y);
    TokSym(';', y);
    AndTrip(c.first, ";" + y);
    LineTrip(c.rest, z);
    LineSkip(y);
    SkipSkip(";" + y);
  }

  lemma {:induction false} RawTrip(c: Cmd, z: string)
    requires Valid(c) && Level(c) < 3 && Follow(z, ")")
    ensures ParseLine(Raw(c) + z) == Ok(c, Skip(z))
    decreases Size(c), 1
  {
    hide ParseLine, ParsePipe, Raw;
    match c
    case List(_, _) => ListRaw(c, z);
    case Back(_) =>
      AndRaw(c, z);
      LineAfter(Raw(c) + z, c, z);
    case Pipe(_, _) =>
      PipeRaw(c, z);
      AndsSkip(c, z);
      LineAfter(Raw(c) + z, c, z);
  }

  lemma {:induction false} BlockTrip(c: Cmd, rs: seq<Red>, z: string)
    requires Valid(c) && Level(c) < 3 && ValidReds(rs) && Follow(z, "|)&;")
    ensures ParseExec(Print(c, 3) + RedsText(rs) + z) == Ok(Wrap(c, rs), Skip(z))
    decreases Size(c), 2
  {
    hide ParseLine, Raw, Redirs, Wrap, RedsText, ValidReds;
    var x := RedsText(rs) + z;
    var y := Raw(c) + (")" + x);
    assert Print(c, 3) + RedsText(rs) + z == "(" + y;
    TokSym('(', y);
    TokSym(')', x);
    RawTrip(c, ")" + x);
    LineSkip(y);
    SkipSkip(")" + x);
    RedirsTrip([], rs, z);
    RedirsSkip([], x);
    assert [] + rs == rs;
  }

  lemma {:induction false} ExecTrip(c: Cmd, z: string)
    requires Valid(c) && Follow(z, "|)&;")
    ensures ParseExec(Print(c, 3) + z) == Ok(c, Skip(z))
    decreases Size(c), 3
  {
    hide ParseExec, Follow;
    if Core(c).Exec? {
      SimpleTrip(c, z);
    } else {
      PrintCore(c);
      WrapCore(c);
      BlockTrip(Core(c), Reds(c), z);
    }
  }

  lemma {:induction false} PipeTrip(c: Cmd, z: string)
    requires Valid(c) && Follow(z, ")&;")
    ensures ParsePipe(Print(c, 2) + z) == Ok(c, Skip(z))
    decreases Size(c), 4
  {
    if c.Pipe? {
      PipeRaw(c, z);
    } else {
      ExecTrip(c, z);
      SkipSkip(z);
    }
  }

  lemma {:induction false} AndTrip(c: Cmd, z: string)
    requires Valid(c) && Follow(z, ")&;")
    ensures AfterAnds(Print(c, 1) + z, c, z)
    decreases Size(c), 5
  {
    if c.Back? {
      AndRaw(c, z);
    } else {
      PipeTrip(c, z);
      AndsSkip(c, z);
    }
  }

  lemma {:induction false} LineTrip(c: Cmd, z: string)
    requires Valid(c) && Follow(z, ")")
    ensures ParseLine(Print(c, 0) + z) == Ok(c, Skip(z))
    decreases Size(c), 6
  {
    if c.List? {
      ListRaw(c, z);
    } else {
      AndTrip(c, z);
      LineAfter(Print(c, 1) + z, c, z);
    }
  }

  /** Every expressible tree is what its printed form parses to, with no input left over. */
  lemma RoundTrip(c: Cmd)
    requires Valid(c)
    ensures ParseCmd(Print(c, 0)) == Ok(c, [])
  {
    assert Print(c, 0) + [] == Print(c, 0);
    LineTrip(c, []);
  }

  // ---- what the parser can build ----

  lemma {:induction false} WordLenIn(t: string)
    ensures forall i :: 0 <= i < WordLen(t) ==> InWord(t[i])
    ensures WordLen(t) < |t| ==> !InWord(t[WordLen(t)])
  {
    if t != [] && InWord(t[0]) {
      WordLenIn(t[1..]);
      assert forall i :: 0 < i < WordLen(t) ==> t[i] == t[1..][i - 1];
    }
  }

  lemma TokenIsWord(t: string)
    ensures var tok := GetTok(t).0; tok.TWord? ==> IsWord(tok.w)
  {
    WordLenIn(Skip(t));
  }

  lemma {:induction false} RedirsValid(rs: seq<Red>, t: string)
    requires ValidReds(rs)
    ensures Redirs(rs, t).Ok? ==> ValidReds(Redirs(rs, t).v)
    decreases |t|
  {
    if Peek(t, "<>") {
      var (tok, u) := GetTok(Skip(t));
      var (w, v) := GetTok(u);
      TokenIsWord(u);
      if w.TWord? {
        RedirsValid(rs + [if tok == TSym('<') then Red(w.w, O_RDONLY, 0) else Red(w.w, O_WRONLY_CREATE, 1)], v);
      }
    }
  }

  lemma {:induction false} WrapValid(c: Cmd, rs: seq<Red>)
    requires Valid(c) && ValidReds(rs)
    ensures Valid(Wrap(c, rs))
  {
    if rs != [] {
      WrapValid(c, rs[..|rs| - 1]);
      assert ValidRed(rs[|rs| - 1]);
    }
  }

  lemma {:induction false} ArgsValid(argv: seq<string>, rs: seq<Red>, t: string)
    requires ValidWords(argv) && |argv| < MAXARGS && ValidReds(rs)
    ensures Args(argv, rs, t).Ok? ==> Valid(Args(argv, rs, t).v)
    decreases |t|
  {
    hide Wrap, Redirs, ValidReds, GetTok;
    WrapValid(Exec(argv), rs);
    var (tok, u) := GetTok(Skip(t));
    TokenIsWord(Skip(t));
    if !Peek(t, "|)&;") && tok.TWord? && |argv| + 1 < MAXARGS {
      RedirsValid(rs, u);
      var r := Redirs(rs, u);
      if r.Ok? {
        ArgsValid(argv + [tok.w], r.v, r.rest);
      }
    }
  }

  lemma {:induction false} ExecValid(t: string)
    ensures ParseExec(t).Ok? ==> Valid(ParseExec(t).v)
    decreases |t|, 1
  {
    hide Wrap, Redirs, Args, Valid;
    if Peek(t, "(") {
      BlockValid(Skip(t));
    } else {
      RedirsValid([], t);
      var r := Redirs([], t);
      if r.Ok? {
        ArgsValid([], r.v, r.rest);
      }
    }
  }

  lemma {:induction false} BlockValid(t: string)
    requires t != [] && t[0] == '('
    ensures ParseBlock(t).Ok? ==> Valid(ParseBlock(t).v)
    decreases |t|, 0
  {
    hide Wrap, Redirs, ParseLine, Valid;
    LineValid(GetTok(t).1);
    var r := ParseLine(GetTok(t).1);
    if r.Ok? && Peek(r.rest, ")") {
      var w := GetTok(r.rest).1;
      RedirsValid([], w);
      if Redirs([], w).Ok? {
        WrapValid(r.v, Redirs([], w).v);
      }
    }
  }

  lemma {:induction false} PipeValid(t: string)
    ensures ParsePipe(t).Ok? ==> Valid(ParsePipe(t).v)
    decreases |t|, 2
  {
    hide ParseExec;
    ExecValid(t);
    var r := ParseExec(t);
    if r.Ok? && Peek(r.rest, "|") {
      PipeValid(GetTok(r.rest).1);
    }
  }

  lemma {:induction false} AndsValid(c: Cmd, t: string)
    requires Valid(c)
    ensures Valid(Ands(c, t).0)
    decreases |t|
  {
    if Peek(t, "&") {
      AndsValid(Back(c), GetTok(t).1);
    }
  }

  lemma {:induction false} LineValid(t: string)
    ensures ParseLine(t).Ok? ==> Valid(ParseLine(t).v)
    decreases |t|, 3
  {
    hide ParsePipe;
    PipeValid(t);
    var r := ParsePipe(t);
    if r.Ok? {
      AndsValid(r.v, r.rest);
      var (d, v) := Ands(r.v, r.rest);
      if Peek(v, ";") {
        LineValid(GetTok(v).1);
      }
    }
  }

  /** The trees a line can parse to are exactly the expressible ones, and printing one back loses nothing. */
  lemma ParsesExactly(c: Cmd)
    ensures Valid(c) <==> exists s :: ParseCmd(s) == Ok(c, [])
  {
    if Valid(c) {
      RoundTrip(c);
    }
    forall s | ParseCmd(s) == Ok(c, [])
      ensures Valid(c)
    {
      LineValid(s);
    }
  }
}
