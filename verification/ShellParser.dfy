/** The parser of sh.c as it runs: a cursor moved through a buffer, words recorded as positions,
    and the pass that ends every recorded word with a NUL in the buffer itself. */
module ShellParser {
  import opened Shell

  /** A word of the buffer: first position and position past the last. */
  datatype Span = Span(q: nat, eq: nat)

  datatype Node =
    | ExecNode(argv: seq<Span>)
    | RedirNode(cmd: Node, file: Span, mode: nat, fd: nat)
    | PipeNode(left: Node, right: Node)
    | ListNode(first: Node, rest: Node)
    | BackNode(cmd: Node)

  datatype Outcome<+T> = Panic | Done(v: T)

  predicate NoNul(s: string) { forall i :: 0 <= i < |s| ==> s[i] != '\0' }

  /** A maximal run of word characters. */
  predicate SpanOk(p: Span, s: string) {
    && p.q < p.eq <= |s|
    && IsWord(s[p.q..p.eq])
    && (p.eq == |s| || !InWord(s[p.eq]))
  }

  function Text(p: Span, s: string): (w: string) { if p.q <= p.eq <= |s| then s[p.q..p.eq] else "" }

  predicate SpansOk(ps: seq<Span>, s: string) { forall i :: 0 <= i < |ps| ==> SpanOk(ps[i], s) }

  function Texts(ps: seq<Span>, s: string): (ws: seq<string>)
    ensures |ws| == |ps|
  {
    seq(|ps|, i requires 0 <= i < |ps| => Text(ps[i], s))
  }

  predicate NodeOk(n: Node, s: string) {
    match n
    case ExecNode(argv) => SpansOk(argv, s)
    case RedirNode(m, file, _, _) => NodeOk(m, s) && SpanOk(file, s)
    case PipeNode(l, r) => NodeOk(l, s) && NodeOk(r, s)
    case ListNode(l, r) => NodeOk(l, s) && NodeOk(r, s)
    case BackNode(m) => NodeOk(m, s)
  }

  /** The tree a node stands for over the text s. */
  function TreeOf(n: Node, s: string): (c: Cmd) {
    match n
    case ExecNode(argv) => Exec(Texts(argv, s))
    case RedirNode(m, file, mode, fd) => Redir(TreeOf(m, s), Text(file, s), mode, fd)
    case PipeNode(l, r) => Pipe(TreeOf(l, s), TreeOf(r, s))
    case ListNode(l, r) => List(TreeOf(l, s), TreeOf(r, s))
    case BackNode(m) => Back(TreeOf(m, s))
  }

  // ---- tokens ----

  lemma Suffix(s: string, i: nat)
    requires i < |s|
    ensures s[i..][0] == s[i] && s[i..][1..] == s[i + 1..]
  {
  }

  method SkipSpaces(s: string, ps: nat) returns (next: nat)
    requires ps <= |s|
    ensures ps <= next <= |s| && s[next..] == Skip(s[ps..])
  {
    next := ps;
    while next < |s| && IsSpace(s[next])
      invariant ps <= next <= |s| && Skip(s[next..]) == Skip(s[ps..])
    {
      Suffix(s, next);
      next := next + 1;
    }
  }

  method SkipWord(s: string, q: nat) returns (eq: nat)
    requires q < |s| && InWord(s[q]) && NoNul(s)
    ensures q < eq <= |s| && eq - q == WordLen(s[q..]) && SpanOk(Span(q, eq), s)
  {
    eq := q;
    while eq < |s| && !IsSpace(s[eq]) && !IsSymbol(s[eq])
      invariant q <= eq <= |s| && eq - q + WordLen(s[eq..]) == WordLen(s[q..])
    {
      Suffix(s, eq);
      eq := eq + 1;
    }
    WordLenIn(s[q..]);
    assert forall i :: 0 <= i < eq - q ==> s[q..eq][i] == s[q..][i];
  }

  /** The code gettoken returns for a token. */
  function Code(t: Tok): (c: char) {
    match t case TEnd => '\0' case TSym(c) => c case TAppend => '+' case TWord(_) => 'a'
  }

  /** gettoken: the switch on the first character, then the space after the token. */
  method GetToken(s: string, ps: nat) returns (tok: char, q: nat, eq: nat, next: nat)
    requires ps <= |s| && NoNul(s)
    ensures ps <= next <= |s| && s[next..] == GetTok(s[ps..]).1
    ensures tok == Code(GetTok(s[ps..]).0) && (tok == 'a' <==> GetTok(s[ps..]).0.TWord?)
    ensures tok == 'a' ==> SpanOk(Span(q, eq), s) && Text(Span(q, eq), s) == GetTok(s[ps..]).0.w
    ensures tok == '\0' <==> GetTok(s[ps..]).0.TEnd?
  {
    q := SkipSpaces(s, ps);
    eq := q;
    if q == |s| {
      return '\0', q, eq, q;
    }
    ghost var u := s[q..];
    assert u != [] && u[0] == s[q] && Skip(s[ps..]) == u;
    if s[q] == '>' && q + 1 < |s| && s[q + 1] == '>' {
      tok, eq := '+', q + 2;
      assert u[1] == '>' && u[2..] == s[eq..];
    } else if IsSymbol(s[q]) {
      tok, eq := s[q], q + 1;
      assert u[1..] == s[eq..];
    } else {
      tok := 'a';
      eq := SkipWord(s, q);
      assert u[..WordLen(u)] == s[q..eq] && u[WordLen(u)..] == s[eq..];
    }
    next := SkipSpaces(s, eq);
  }

  method PeekAt(s: string, ps: nat, toks: string) returns (b: bool, next: nat)
    requires ps <= |s|
    ensures ps <= next <= |s| && s[next..] == Skip(s[ps..]) && b == Peek(s[ps..], toks)
  {
    next := SkipSpaces(s, ps);
    b := next < |s| && s[next] in toks;
  }

  // ---- redirections and arguments ----

  datatype RedirAt = RedirAt(file: Span, mode: nat, fd: nat)

  predicate RedirsOk(rs: seq<RedirAt>, s: string) { forall i :: 0 <= i < |rs| ==> SpanOk(rs[i].file, s) }

  function RedOf(r: RedirAt, s: string): (x: Red) { Red(Text(r.file, s), r.mode, r.fd) }

  function RedsOf(rs: seq<RedirAt>, s: string): (xs: seq<Red>)
    ensures |xs| == |rs|
  {
    seq(|rs|, i requires 0 <= i < |rs| => RedOf(rs[i], s))
  }

  function WrapNode(n: Node, rs: seq<RedirAt>): (m: Node) {
    if rs == [] then n
    else var last := rs[|rs| - 1]; RedirNode(WrapNode(n, rs[..|rs| - 1]), last.file, last.mode, last.fd)
  }

  lemma {:induction false} WrapNodeOk(n: Node, rs: seq<RedirAt>, s: string)
    requires NodeOk(n, s) && RedirsOk(rs, s)
    ensures NodeOk(WrapNode(n, rs), s)
    ensures TreeOf(WrapNode(n, rs), s) == Wrap(TreeOf(n, s), RedsOf(rs, s))
  {
    if rs != [] {
      WrapNodeOk(n, rs[..|rs| - 1], s);
      assert RedsOf(rs, s)[..|rs| - 1] == RedsOf(rs[..|rs| - 1], s);
    }
  }

  lemma SnocTexts(ps: seq<Span>, p: Span, s: string)
    ensures Texts(ps + [p], s) == Texts(ps, s) + [Text(p, s)]
  {
  }

  lemma SnocReds(rs: seq<RedirAt>, r: RedirAt, s: string)
    ensures RedsOf(rs + [r], s) == RedsOf(rs, s) + [RedOf(r, s)]
  {
  }

  /** parseredirs, collecting the redirections that wrap the command. */
  method ParseRedirs(s: string, ps: nat, rs0: seq<RedirAt>) returns (r: Outcome<seq<RedirAt>>, next: nat)
    requires ps <= |s| && NoNul(s) && RedirsOk(rs0, s)
    ensures r.Panic? ==> Redirs(RedsOf(rs0, s), s[ps..]).Fail?
    ensures r.Done? ==> ps <= next <= |s| && RedirsOk(r.v, s)
    ensures r.Done? ==> Redirs(RedsOf(rs0, s), s[ps..]) == Ok(RedsOf(r.v, s), s[next..])
  {
    hide GetTok, RedOf, SpanOk, Text;
    var rs, more := rs0, false;
    more, next := PeekAt(s, ps, "<>");
    RedirsSkip(RedsOf(rs, s), s[ps..]);
    SkipSkip(s[ps..]);
    while more
      invariant ps <= next <= |s| && RedirsOk(rs, s)
      invariant Skip(s[next..]) == s[next..] && more == Peek(s[next..], "<>")
      invariant Redirs(RedsOf(rs, s), s[next..]) == Redirs(RedsOf(rs0, s), s[ps..])
      decreases |s| - next
    {
      ghost var at := next;
      var tok, _, _, mid := GetToken(s, next);
      var word, q, eq, after := GetToken(s, mid);
      if word != 'a' {
        return Panic, mid;
      }
      var red := if tok == '<' then RedirAt(Span(q, eq), O_RDONLY, 0) else RedirAt(Span(q, eq), O_WRONLY_CREATE, 1);
      ghost var was := rs;
      rs := rs + [red];
      assert RedirsOk(rs, s);
      RedirRound(was, red, s, at, tok, mid, after);
      more, next := PeekAt(s, after, "<>");
      RedirsSkip(RedsOf(rs, s), s[after..]);
      SkipSkip(s[after..]);
    }
    r := Done(rs);
  }

  lemma RedirRound(rs: seq<RedirAt>, r: RedirAt, s: string, at: nat, tok: char, mid: nat, after: nat)
    requires at <= |s| && mid <= |s| && after <= |s|
    requires Peek(s[at..], "<>") && Skip(s[at..]) == s[at..]
    requires tok == Code(GetTok(s[at..]).0) && s[mid..] == GetTok(s[at..]).1
    requires GetTok(s[mid..]).0 == TWord(Text(r.file, s)) && s[after..] == GetTok(s[mid..]).1
    requires r.mode == (if tok == '<' then O_RDONLY else O_WRONLY_CREATE) && r.fd == (if tok == '<' then 0 else 1)
    ensures Redirs(RedsOf(rs, s), s[at..]) == Redirs(RedsOf(rs + [r], s), s[after..])
  {
    hide GetTok, Text, Peek;
    SnocReds(rs, r, s);
    var x := GetTok(s[at..]).0;
    assert tok == '<' <==> x == TSym('<');
  }

  /** The node, or the panic, is what the functional parser gives. */
  predicate Agrees(r: Outcome<Node>, next: nat, s: string, spec: Parsed<Cmd>) {
    match r
    case Panic => spec.Fail?
    case Done(n) => next <= |s| && NodeOk(n, s) && spec == Ok(TreeOf(n, s), s[next..])
  }

  /** The argument loop of parseexec. */
  method ParseArgs(s: string, ps: nat, rs0: seq<RedirAt>) returns (r: Outcome<Node>, next: nat)
    requires ps <= |s| && NoNul(s) && RedirsOk(rs0, s)
    ensures Agrees(r, next, s, Args([], RedsOf(rs0, s), s[ps..]))
  {
    hide GetTok, SpanOk, Text, Wrap, Redirs, TreeOf, NodeOk, RedsOf;
    var argv: seq<Span>, rs, stop := [], rs0, false;
    stop, next := PeekAt(s, ps, "|)&;");
    ghost var want := Args([], RedsOf(rs0, s), s[ps..]);
    ArgsSkip([], RedsOf(rs0, s), s[ps..]);
    SkipSkip(s[ps..]);
    while !stop
      invariant ps <= next <= |s| && RedirsOk(rs, s) && SpansOk(argv, s) && |argv| < MAXARGS
      invariant Skip(s[next..]) == s[next..] && stop == Peek(s[next..], "|)&;")
      invariant Args(Texts(argv, s), RedsOf(rs, s), s[next..]) == want
      decreases |s| - next
    {
      ghost var at := next;
      var tok, q, eq, after := GetToken(s, next);
      if tok == '\0' {
        next := after;
        break;
      }
      if tok != 'a' {
        return Panic, next;
      }
      SnocTexts(argv, Span(q, eq), s);
      argv := argv + [Span(q, eq)];
      if |argv| >= MAXARGS {
        return Panic, next;
      }
      var res, after' := ParseRedirs(s, after, rs);
      if res.Panic? {
        return Panic, next;
      }
      rs := res.v;
      stop, next := PeekAt(s, after', "|)&;");
      ArgsSkip(Texts(argv, s), RedsOf(rs, s), s[after'..]);
      SkipSkip(s[after'..]);
    }
    r := Done(WrapNode(ExecNode(argv), rs));
    ExecNodeOk(argv, rs, s);
  }

  lemma ExecNodeOk(argv: seq<Span>, rs: seq<RedirAt>, s: string)
    requires SpansOk(argv, s) && RedirsOk(rs, s)
    ensures NodeOk(WrapNode(ExecNode(argv), rs), s)
    ensures TreeOf(WrapNode(ExecNode(argv), rs), s) == Wrap(Exec(Texts(argv, s)), RedsOf(rs, s))
  {
    WrapNodeOk(ExecNode(argv), rs, s);
  }

  // ---- the recursive procedures ----

  method ParseExecAt(s: string, ps: nat) returns (r: Outcome<Node>, next: nat)
    requires ps <= |s| && NoNul(s)
    ensures Agrees(r, next, s, ParseExec(s[ps..]))
    decreases |s| - ps, 1
  {
    hide GetTok, NodeOk, TreeOf, Args, Redirs, ParseBlock, Peek;
    var block, at := PeekAt(s, ps, "(");
    if block {
      assert s[at..] != [] && s[at..][0] == '(' by { PeekHead(s[ps..], '('); }
      r, next := ParseBlockAt(s, at);
    } else {
      assert RedsOf([], s) == [];
      RedirsSkip([], s[ps..]);
      var res, after := ParseRedirs(s, at, []);
      if res.Panic? {
        return Panic, at;
      }
      r, next := ParseArgs(s, after, res.v);
    }
  }

  lemma PeekHead(t: string, c: char)
    requires Peek(t, [c])
    ensures Skip(t) != [] && Skip(t)[0] == c
  {
  }

  method ParseBlockAt(s: string, ps: nat) returns (r: Outcome<Node>, next: nat)
    requires ps < |s| && s[ps] == '(' && NoNul(s)
    ensures Agrees(r, next, s, ParseBlock(s[ps..]))
    decreases |s| - ps, 0
  {
    hide GetTok, NodeOk, TreeOf, Redirs, ParseLine, Wrap, WrapNode;
    SymNext(s, ps, '(');
    var _, _, _, body := GetToken(s, ps);
    r, next := ParseLineAt(s, body);
    if r.Panic? {
      return;
    }
    var node, closed, at := r.v, false, next;
    closed, at := PeekAt(s, next, ")");
    if !closed {
      return Panic, at;
    }
    PeekToken(s[next..], ')');
    var _, _, _, after := GetToken(s, at);
    assert RedsOf([], s) == [];
    var res, end := ParseRedirs(s, after, []);
    if res.Panic? {
      return Panic, after;
    }
    WrapNodeOk(node, res.v, s);
    r, next := Done(WrapNode(node, res.v)), end;
  }

  /** A symbol at the cursor is consumed. */
  lemma SymNext(s: string, ps: nat, c: char)
    requires ps < |s| && s[ps] == c && IsSymbol(c) && c != '>'
    ensures |GetTok(s[ps..]).1| < |s| - ps && !GetTok(s[ps..]).0.TEnd?
  {
    TokSym(c, s[ps + 1..]);
    assert s[ps..] == [c] + s[ps + 1..];
  }

  /** Reading a token from the cursor peek left is reading it from where peek began, and moves on. */
  lemma PeekToken(t: string, c: char)
    requires Peek(t, [c]) && IsSymbol(c)
    ensures GetTok(Skip(t)) == GetTok(t) && |GetTok(t).1| < |t|
  {
    SkipSkip(t);
  }

  method ParsePipeAt(s: string, ps: nat) returns (r: Outcome<Node>, next: nat)
    requires ps <= |s| && NoNul(s)
    ensures Agrees(r, next, s, ParsePipe(s[ps..]))
    decreases |s| - ps, 2
  {
    hide GetTok, NodeOk, TreeOf, ParseExec, Peek;
    r, next := ParseExecAt(s, ps);
    if r.Panic? {
      return;
    }
    var node, more, at := r.v, false, next;
    more, at := PeekAt(s, next, "|");
    if more {
      PeekToken(s[next..], '|');
      var _, _, _, after := GetToken(s, at);
      var right, end := ParsePipeAt(s, after);
      if right.Panic? {
        return Panic, end;
      }
      PipeNodeOk(node, right.v, s);
      r, next := Done(PipeNode(node, right.v)), end;
    } else {
      next := at;
    }
  }

  lemma PipeNodeOk(l: Node, r: Node, s: string)
    requires NodeOk(l, s) && NodeOk(r, s)
    ensures NodeOk(PipeNode(l, r), s) && TreeOf(PipeNode(l, r), s) == Pipe(TreeOf(l, s), TreeOf(r, s))
    ensures NodeOk(ListNode(l, r), s) && TreeOf(ListNode(l, r), s) == List(TreeOf(l, s), TreeOf(r, s))
    ensures NodeOk(BackNode(l), s) && TreeOf(BackNode(l), s) == Back(TreeOf(l, s))
  {
  }

  /** The & loop of parseline. */
  method ParseAnds(s: string, ps: nat, n: Node) returns (m: Node, next: nat)
    requires ps <= |s| && NoNul(s) && NodeOk(n, s)
    ensures next <= |s| && NodeOk(m, s) && Ands(TreeOf(n, s), s[ps..]) == (TreeOf(m, s), s[next..])
  {
    hide GetTok, NodeOk, TreeOf, Peek;
    var more;
    m := n;
    more, next := PeekAt(s, ps, "&");
    AndsSkip(TreeOf(m, s), s[ps..]);
    SkipSkip(s[ps..]);
    PeekSame(s[ps..], "&");
    while more
      invariant ps <= next <= |s| && NodeOk(m, s)
      invariant Skip(s[next..]) == s[next..] && more == Peek(s[next..], "&")
      invariant Ands(TreeOf(m, s), s[next..]) == Ands(TreeOf(n, s), s[ps..])
      decreases |s| - next
    {
      PeekToken(s[next..], '&');
      var _, _, _, after := GetToken(s, next);
      PipeNodeOk(m, m, s);
      m := BackNode(m);
      more, next := PeekAt(s, after, "&");
      AndsSkip(TreeOf(m, s), s[after..]);
      SkipSkip(s[after..]);
      PeekSame(s[after..], "&");
    }
  }

  lemma PeekSame(t: string, toks: string)
    ensures Peek(Skip(t), toks) == Peek(t, toks)
  {
    SkipSkip(t);
  }

  method ParseLineAt(s: string, ps: nat) returns (r: Outcome<Node>, next: nat)
    requires ps <= |s| && NoNul(s)
    ensures Agrees(r, next, s, ParseLine(s[ps..]))
    decreases |s| - ps, 3
  {
    hide GetTok, NodeOk, TreeOf, ParsePipe, Ands, Peek;
    r, next := ParsePipeAt(s, ps);
    if r.Panic? {
      return;
    }
    var node, more, at := r.v, false, next;
    node, next := ParseAnds(s, next, node);
    more, at := PeekAt(s, next, ";");
    if more {
      PeekToken(s[next..], ';');
      var _, _, _, after := GetToken(s, at);
      var right, end := ParseLineAt(s, after);
      if right.Panic? {
        return Panic, end;
      }
      PipeNodeOk(node, right.v, s);
      r, next := Done(ListNode(node, right.v)), end;
    } else {
      r, next := Done(node), at;
    }
  }

  // ---- ending the words in the buffer ----

  /** The string a C program reads at position q. */
  function CString(b: string, q: nat): (w: string)
    ensures NoNul(w)
    decreases |b| - q
  {
    if q < |b| && b[q] != '\0' then [b[q]] + CString(b, q + 1) else ""
  }

  /** The tree runcmd reads: each word is the C string at its first position. */
  function Strings(n: Node, b: string): (c: Cmd) {
    match n
    case ExecNode(argv) => Exec(seq(|argv|, i requires 0 <= i < |argv| => CString(b, argv[i].q)))
    case RedirNode(m, file, mode, fd) => Redir(Strings(m, b), CString(b, file.q), mode, fd)
    case PipeNode(l, r) => Pipe(Strings(l, b), Strings(r, b))
    case ListNode(l, r) => List(Strings(l, b), Strings(r, b))
    case BackNode(m) => Back(Strings(m, b))
  }

  /** The recorded words that end at e. */
  ghost predicate EndsAt(n: Node, e: nat) {
    match n
    case ExecNode(argv) => exists k :: 0 <= k < |argv| && argv[k].eq == e
    case RedirNode(m, file, _, _) => EndsAt(m, e) || file.eq == e
    case PipeNode(l, r) => EndsAt(l, e) || EndsAt(r, e)
    case ListNode(l, r) => EndsAt(l, e) || EndsAt(r, e)
    case BackNode(m) => EndsAt(m, e)
  }

  ghost predicate EndsBelow(n: Node, len: nat) { forall e: nat :: EndsAt(n, e) ==> e < len }

  /** b is a with a NUL wherever a recorded word ends. */
  ghost predicate Ended(n: Node, a: string, b: string) {
    |a| == |b| && forall i :: 0 <= i < |b| ==> b[i] == if EndsAt(n, i) then '\0' else a[i]
  }

  /** nulterminate. */
  method NulTerminate(n: Node, buf: array<char>)
    requires EndsBelow(n, buf.Length)
    modifies buf
    ensures Ended(n, old(buf[..]), buf[..])
    decreases n
  {
    match n
    case ExecNode(argv) =>
      EndArgs(argv, buf);
    case RedirNode(m, file, _, _) =>
      assert EndsAt(n, file.eq);
      assert forall e: nat :: EndsAt(m, e) ==> EndsAt(n, e);
      NulTerminate(m, buf);
      buf[file.eq] := '\0';
    case PipeNode(l, r) =>
      assert forall e: nat :: EndsAt(l, e) || EndsAt(r, e) ==> EndsAt(n, e);
      NulTerminate(l, buf);
      NulTerminate(r, buf);
    case ListNode(l, r) =>
      assert forall e: nat :: EndsAt(l, e) || EndsAt(r, e) ==> EndsAt(n, e);
      NulTerminate(l, buf);
      NulTerminate(r, buf);
    case BackNode(m) =>
      assert forall e: nat :: EndsAt(m, e) ==> EndsAt(n, e);
      NulTerminate(m, buf);
  }

  method EndArgs(argv: seq<Span>, buf: array<char>)
    requires EndsBelow(ExecNode(argv), buf.Length)
    modifies buf
    ensures Ended(ExecNode(argv), old(buf[..]), buf[..])
  {
    for k := 0 to |argv|
      invariant Ended(ExecNode(argv[..k]), old(buf[..]), buf[..])
    {
      assert EndsAt(ExecNode(argv), argv[k].eq);
      var e := argv[k].eq;
      buf[e] := '\0';
      assert argv[..k + 1] == argv[..k] + [argv[k]];
      forall i: nat | i < buf.Length
        ensures EndsAt(ExecNode(argv[..k + 1]), i) <==> EndsAt(ExecNode(argv[..k]), i) || i == e
      {
        if i == e { assert argv[..k + 1][k].eq == e; }
      }
    }
    assert argv[..|argv|] == argv;
  }

  /** A word ends only where its text has no word character. */
  lemma {:induction false} EndsApart(n: Node, s: string, e: nat)
    requires NodeOk(n, s) && EndsAt(n, e)
    ensures e == |s| || (e < |s| && !InWord(s[e]))
  {
    match n
    case ExecNode(argv) =>
    case RedirNode(m, file, _, _) => if EndsAt(m, e) { EndsApart(m, s, e); }
    case PipeNode(l, r) => if EndsAt(l, e) { EndsApart(l, s, e); } else { EndsApart(r, s, e); }
    case ListNode(l, r) => if EndsAt(l, e) { EndsApart(l, s, e); } else { EndsApart(r, s, e); }
    case BackNode(m) => EndsApart(m, s, e);
  }

  lemma {:induction false} CStringOf(b: string, q: nat, eq: nat)
    requires q <= eq < |b| && b[eq] == '\0' && forall i :: q <= i < eq ==> b[i] != '\0'
    ensures CString(b, q) == b[q..eq]
    decreases eq - q
  {
    if q < eq {
      CStringOf(b, q + 1, eq);
    }
  }

  /** With every end marked, each recorded word reads back as its text. */
  lemma WordReads(root: Node, p: Span, s: string, a: string, b: string)
    requires NodeOk(root, s) && SpanOk(p, s) && EndsAt(root, p.eq)
    requires |s| < |a| && a[..|s|] == s && Ended(root, a, b)
    ensures CString(b, p.q) == Text(p, s)
  {
    forall i | p.q <= i < p.eq
      ensures b[i] == s[i] && b[i] != '\0'
    {
      assert s[i] == s[p.q..p.eq][i - p.q] && a[i] == a[..|s|][i];
      if EndsAt(root, i) { EndsApart(root, s, i); }
    }
    CStringOf(b, p.q, p.eq);
  }

  lemma {:induction false} TreeReads(root: Node, n: Node, s: string, a: string, b: string)
    requires NodeOk(root, s) && NodeOk(n, s) && forall e: nat :: EndsAt(n, e) ==> EndsAt(root, e)
    requires |s| < |a| && a[..|s|] == s && Ended(root, a, b)
    ensures Strings(n, b) == TreeOf(n, s)
    decreases n
  {
    hide Ended, SpanOk, CString, Text;
    match n
    case ExecNode(argv) =>
      forall i | 0 <= i < |argv|
        ensures CString(b, argv[i].q) == Text(argv[i], s)
      {
        assert EndsAt(n, argv[i].eq);
        WordReads(root, argv[i], s, a, b);
      }
    case RedirNode(m, file, _, _) =>
      assert EndsAt(n, file.eq);
      WordReads(root, file, s, a, b);
      assert forall e: nat :: EndsAt(m, e) ==> EndsAt(n, e);
      TreeReads(root, m, s, a, b);
    case PipeNode(l, r) =>
      assert forall e: nat :: EndsAt(l, e) || EndsAt(r, e) ==> EndsAt(n, e);
      TreeReads(root, l, s, a, b);
      TreeReads(root, r, s, a, b);
    case ListNode(l, r) =>
      assert forall e: nat :: EndsAt(l, e) || EndsAt(r, e) ==> EndsAt(n, e);
      TreeReads(root, l, s, a, b);
      TreeReads(root, r, s, a, b);
    case BackNode(m) =>
      assert forall e: nat :: EndsAt(m, e) ==> EndsAt(n, e);
      TreeReads(root, m, s, a, b);
  }

  method StrLen(buf: array<char>) returns (n: nat)
    requires '\0' in buf[..]
    ensures n < buf.Length && buf[n] == '\0' && NoNul(buf[..n]) && buf[..n] == CString(buf[..], 0)
  {
    n := 0;
    while buf[n] != '\0'
      invariant n < buf.Length && NoNul(buf[..n])
      invariant '\0' in buf[n..]
      decreases buf.Length - n
    {
      n := n + 1;
    }
    CStringOf(buf[..], 0, n);
  }

  /** parsecmd: a panic leaves the buffer alone; otherwise the marked buffer holds exactly the parsed tree,
      and only bytes that belong to no word were overwritten. */
  method ParseCommand(buf: array<char>) returns (r: Outcome<Node>)
    requires '\0' in buf[..]
    modifies buf
    ensures r.Panic? <==> ParseCmd(CString(old(buf[..]), 0)).Fail?
    ensures r.Panic? ==> buf[..] == old(buf[..])
    ensures r.Done? ==> ParseCmd(CString(old(buf[..]), 0)) == Ok(Strings(r.v, buf[..]), [])
    ensures forall i :: 0 <= i < buf.Length && buf[i] != old(buf[i]) ==> buf[i] == '\0' && !InWord(old(buf[i]))
  {
    var es := StrLen(buf);
    var s := buf[..es];
    var next, leftovers;
    r, next := ParseLineAt(s, 0);
    assert s[0..] == s;
    if r.Panic? {
      return;
    }
    leftovers, next := PeekAt(s, next, "");
    if next != es {
      return Panic;
    }
    var n := r.v;
    ghost var was := buf[..];
    forall e: nat | EndsAt(n, e)
      ensures e <= es && !InWord(was[e])
    {
      EndsApart(n, s, e);
    }
    NulTerminate(n, buf);
    TreeReads(n, n, s, was, buf[..]);
  }
}
