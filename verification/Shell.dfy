/** The recursive-descent parser of sh.c with its shared cursor, and the pass that overwrites the end of every
    word with a NUL. */
module Shell {
  import opened ShellGrammar

  class Parser {
    const line: string // the characters up to the terminating NUL, at position |line|
    var ps: nat

    constructor (line: string)
      ensures this.line == line && ps == 0
    {
      this.line, ps := line, 0;
    }

    method SkipSpace()
      requires ps <= |line|
      modifies `ps
      ensures ps == Skip(line, old(ps))
    {
      while ps < |line| && Ws(line[ps])
        invariant old(ps) <= ps <= |line| && Skip(line, ps) == Skip(line, old(ps))
      {
        ps := ps + 1;
      }
    }

    method Peek(toks: string) returns (seen: bool)
      requires ps <= |line| && '\0' !in toks
      modifies `ps
      ensures ps == Skip(line, old(ps)) && seen == Sees(line, old(ps), toks)
    {
      SkipSpace();
      seen := At(line, ps) in toks;
    }

    method Gettoken() returns (kind: char, q: nat, eq: nat)
      requires ps <= |line| && Line(line)
      modifies `ps
      ensures Token(kind, q, eq, ps) == GetToken(line, old(ps)) && ps <= |line|
    {
      SkipSpace();
      q := ps;
      kind := At(line, ps);
      if kind == '\0' {
      } else if kind == '>' {
        ps := ps + 1;
        if At(line, ps) == '>' { kind := '+'; ps := ps + 1; }
      } else if Symbol(kind) {
        ps := ps + 1;
      } else {
        kind := 'a';
        while ps < |line| && !Ws(line[ps]) && !Symbol(line[ps])
          invariant q <= ps <= |line| && WordEnd(line, ps) == WordEnd(line, q)
        {
          ps := ps + 1;
        }
      }
      eq := ps;
      SkipSpace();
    }

    /** rs so far, and the redirections that come next. */
    method Parseredirs(rs: seq<Redirection>) returns (r: Redirs)
      requires ps <= |line| && Line(line)
      modifies `ps
      ensures r == ParseRedirs(line, old(ps), rs) && (r.Redirected? ==> ps == r.pos)
    {
      var list := rs;
      while true
        invariant old(ps) <= ps <= |line| && ParseRedirs(line, ps, list) == ParseRedirs(line, old(ps), rs)
        decreases |line| - ps
      {
        var seen := Peek("<>");
        if !seen { return Redirected(list, ps); }
        var tok, q, eq := Gettoken();
        var kind;
        kind, q, eq := Gettoken();
        if kind != 'a' { return NoFile; }
        list := list + [Redirection(Span(q, eq), tok != '<')];
      }
    }

    method Parseexec() returns (r: Result)
      requires ps <= |line| && Line(line)
      modifies `ps
      ensures r == ParseExec(line, old(ps)) && (r.Ok? ==> ps == r.pos)
      decreases |line| - ps, 1
    {
      var paren := Peek("(");
      if paren { SeesSkip(line, old(ps), "("); r := Parseblock(); return; }
      var argv: seq<Span> := [];
      var rs := Parseredirs([]);
      if rs.NoFile? { return Panic; }
      while true
        invariant old(ps) <= ps <= |line| && |argv| < MAXARGS && rs.Redirected?
                  && ParseArgs(line, ps, argv, rs.list) == ParseExec(line, old(ps))
        decreases |line| - ps
      {
        SkipTwice(line, ps);
        var end := Peek("|)&;");
        if end { break; }
        var tok, q, eq := Gettoken();
        if tok == '\0' { break; }
        if tok != 'a' { return Panic; }
        argv := argv + [Span(q, eq)];
        if |argv| >= MAXARGS { return Panic; }
        rs := Parseredirs(rs.list);
        if rs.NoFile? { return Panic; }
      }
      return Ok(Wrap(Exec(argv), rs.list), ps);
    }

    method Parseblock() returns (r: Result)
      requires ps <= |line| && Line(line) && Sees(line, ps, "(")
      modifies `ps
      ensures r == ParseBlock(line, old(ps)) && (r.Ok? ==> ps == r.pos)
      decreases |line| - ps, 0
    {
      hide ParseRedirs, Wrap;
      var kind, q, eq := Gettoken();
      var cmd := Parseline();
      if cmd.Panic? { return Panic; }
      var close := Peek(")");
      if !close { return Panic; }
      kind, q, eq := Gettoken();
      var rs := Parseredirs([]);
      if rs.NoFile? { return Panic; }
      return Ok(Wrap(cmd.cmd, rs.list), ps);
    }

    method Parsepipe() returns (r: Result)
      requires ps <= |line| && Line(line)
      modifies `ps
      ensures r == ParsePipe(line, old(ps)) && (r.Ok? ==> ps == r.pos)
      decreases |line| - ps, 2
    {
      hide ParseExec, GetToken, Sees;
      r := Parseexec();
      if r.Panic? { return; }
      var bar := Peek("|");
      if bar {
        SawSymbol(line, ps, "|");
        var kind, q, eq := Gettoken();
        var right := Parsepipe();
        if right.Panic? { return Panic; }
        return Ok(Pipe(r.cmd, right.cmd), ps);
      }
    }

    method Parseline() returns (r: Result)
      requires ps <= |line| && Line(line)
      modifies `ps
      ensures r == ParseLine(line, old(ps)) && (r.Ok? ==> ps == r.pos)
      decreases |line| - ps, 3
    {
      hide ParsePipe, GetToken, Sees;
      r := Parsepipe();
      if r.Panic? { return; }
      ghost var pipe := r;
      var cmd := r.cmd;
      while true
        invariant old(ps) <= ps <= |line| && ps == Skip(line, ps)
                  && ParseBacks(line, ps, cmd) == ParseBacks(line, pipe.pos, pipe.cmd)
        decreases |line| - ps
      {
        var amp := Peek("&");
        if !amp { break; }
        SawSymbol(line, ps, "&");
        NextSkipped(line, ps);
        var kind, q, eq := Gettoken();
        cmd := Back(cmd);
      }
      var semi := Peek(";");
      if !semi { return Ok(cmd, ps); }
      SawSymbol(line, ps, ";");
      var kind, q, eq := Gettoken();
      var right := Parseline();
      if right.Panic? { return Panic; }
      return Ok(List(cmd, right.cmd), ps);
    }
  }

  /** A symbol seen is a symbol taken: gettoken moves on. */
  lemma SawSymbol(s: string, i: nat, toks: string)
    requires Line(s) && i <= |s| && '\0' !in toks && Sees(s, i, toks)
    ensures GetToken(s, i).next > i
  {
  }

  // ---------------------------------------------------------------- the words of a tree

  /** w is an argument or a file name of c. */
  ghost predicate HasWord(c: Cmd<Span>, w: Span) {
    match c
    case Exec(ws) => w in ws
    case Redir(d, f, _) => w == f || HasWord(d, w)
    case Pipe(l, r) => HasWord(l, w) || HasWord(r, w)
    case List(l, r) => HasWord(l, w) || HasWord(r, w)
    case Back(d) => HasWord(d, w)
  }

  ghost predicate AllWords(s: string, c: Cmd<Span>) {
    forall w {:trigger HasWord(c, w)} :: HasWord(c, w) ==> WordSpan(s, w)
  }

  ghost predicate RedirWords(s: string, rs: seq<Redirection>) {
    forall k {:trigger rs[k]} :: 0 <= k < |rs| ==> WordSpan(s, rs[k].file)
  }

  lemma {:induction false} WrapWords(s: string, c: Cmd<Span>, rs: seq<Redirection>)
    requires AllWords(s, c) && RedirWords(s, rs)
    ensures AllWords(s, Wrap(c, rs))
    decreases |rs|
  {
    if rs != [] { WrapWords(s, c, rs[..|rs| - 1]); }
  }

  lemma TwoWords(s: string, l: Cmd<Span>, r: Cmd<Span>)
    requires AllWords(s, l) && AllWords(s, r)
    ensures AllWords(s, Pipe(l, r)) && AllWords(s, List(l, r)) && AllWords(s, Back(l))
  {
    hide WordSpan;
    forall w | HasWord(Pipe(l, r), w) ensures WordSpan(s, w) { assert HasWord(l, w) || HasWord(r, w); }
    forall w | HasWord(List(l, r), w) ensures WordSpan(s, w) { assert HasWord(l, w) || HasWord(r, w); }
    forall w | HasWord(Back(l), w) ensures WordSpan(s, w) { assert HasWord(l, w); }
  }

  lemma MoreWords(s: string, ws: seq<Span>, w: Span)
    requires AllWords(s, Exec(ws)) && WordSpan(s, w)
    ensures AllWords(s, Exec(ws + [w]))
  {
    hide WordSpan;
    forall x | HasWord(Exec(ws + [w]), x) ensures WordSpan(s, x) {
      assert x in ws + [w];
      assert x == w || HasWord(Exec(ws), x);
    }
  }

  lemma {:induction false} RedirsAreWords(s: string, i: nat, acc: seq<Redirection>)
    requires Line(s) && i <= |s| && RedirWords(s, acc)
    ensures ParseRedirs(s, i, acc).Redirected? ==> RedirWords(s, ParseRedirs(s, i, acc).list)
    decreases |s| - i
  {
    if Sees(s, i, "<>") {
      var op := GetToken(s, Skip(s, i));
      SawSymbol(s, Skip(s, i), "<>");
      var file := GetToken(s, op.next);
      if file.kind == 'a' {
        TokenIsWord(s, op.next);
        RedirsAreWords(s, file.next, acc + [Redirection(Span(file.q, file.eq), op.kind != '<')]);
      }
    }
  }

  lemma {:induction false} ArgsAreWords(s: string, i: nat, words: seq<Span>, rs: seq<Redirection>)
    requires Line(s) && i <= |s| && RedirWords(s, rs) && AllWords(s, Exec(words))
    ensures ParseArgs(s, i, words, rs).Ok? ==> AllWords(s, ParseArgs(s, i, words, rs).cmd)
    decreases |s| - i
  {
    hide WordSpan;
    WrapWords(s, Exec(words), rs);
    var t := GetToken(s, Skip(s, i));
    if !Sees(s, i, "|)&;") && t.kind == 'a' && |words| + 1 < MAXARGS {
      TokenIsWord(s, Skip(s, i));
      RedirsAreWords(s, t.next, rs);
      var more := ParseRedirs(s, t.next, rs);
      MoreWords(s, words, Span(t.q, t.eq));
      if more.Redirected? { ArgsAreWords(s, more.pos, words + [Span(t.q, t.eq)], more.list); }
    }
  }

  lemma {:induction false} ExecAreWords(s: string, i: nat)
    requires Line(s) && i <= |s|
    ensures ParseExec(s, i).Ok? ==> AllWords(s, ParseExec(s, i).cmd)
    decreases |s| - i, 1
  {
    hide WordSpan, GetToken, Skip;
    if Sees(s, i, "(") {
      SeesSkip(s, i, "(");
      BlockAreWords(s, Skip(s, i));
    } else {
      RedirsAreWords(s, Skip(s, i), []);
      var rs := ParseRedirs(s, Skip(s, i), []);
      if rs.Redirected? { ArgsAreWords(s, rs.pos, [], rs.list); }
    }
  }

  lemma {:induction false} BlockAreWords(s: string, i: nat)
    requires Line(s) && i <= |s| && Sees(s, i, "(")
    ensures ParseBlock(s, i).Ok? ==> AllWords(s, ParseBlock(s, i).cmd)
    decreases |s| - i, 0
  {
    SawSymbol(s, i, "(");
    hide WordSpan, GetToken, Skip, AllWords;
    var line := ParseLine(s, GetToken(s, i).next);
    LineAreWords(s, GetToken(s, i).next);
    if line.Ok? {
      RedirsAreWords(s, GetToken(s, line.pos).next, []);
      var rs := ParseRedirs(s, GetToken(s, line.pos).next, []);
      if rs.Redirected? { WrapWords(s, line.cmd, rs.list); }
    }
  }

  lemma {:induction false} PipeAreWords(s: string, i: nat)
    requires Line(s) && i <= |s|
    ensures ParsePipe(s, i).Ok? ==> AllWords(s, ParsePipe(s, i).cmd)
    decreases |s| - i, 2
  {
    hide WordSpan, GetToken, Skip, Sees;
    ExecAreWords(s, i);
    var left := ParseExec(s, i);
    if left.Ok? && Sees(s, left.pos, "|") {
      SawSymbol(s, left.pos, "|");
      PipeAreWords(s, GetToken(s, left.pos).next);
      var right := ParsePipe(s, GetToken(s, left.pos).next);
      if right.Ok? { TwoWords(s, left.cmd, right.cmd); }
    }
  }

  lemma {:induction false} BacksAreWords(s: string, i: nat, cmd: Cmd<Span>)
    requires Line(s) && i <= |s| && i == Skip(s, i) && AllWords(s, cmd)
    ensures AllWords(s, ParseBacks(s, i, cmd).cmd)
    decreases |s| - i
  {
    hide WordSpan, GetToken, Skip, Sees;
    if Sees(s, i, "&") {
      SawSymbol(s, i, "&");
      NextSkipped(s, i);
      TwoWords(s, cmd, cmd);
      BacksAreWords(s, GetToken(s, i).next, Back(cmd));
    }
  }

  /** Every word of a parsed tree is a maximal run of word characters of the command line. */
  lemma {:induction false} LineAreWords(s: string, i: nat)
    requires Line(s) && i <= |s|
    ensures ParseLine(s, i).Ok? ==> AllWords(s, ParseLine(s, i).cmd)
    decreases |s| - i, 3
  {
    hide WordSpan, GetToken, Skip, Sees;
    PipeAreWords(s, i);
    var pipe := ParsePipe(s, i);
    if pipe.Ok? {
      BacksAreWords(s, pipe.pos, pipe.cmd);
      var left := ParseBacks(s, pipe.pos, pipe.cmd);
      if Sees(s, left.pos, ";") {
        SawSymbol(s, left.pos, ";");
        LineAreWords(s, GetToken(s, left.pos).next);
        var right := ParseLine(s, GetToken(s, left.pos).next);
        if right.Ok? { TwoWords(s, left.cmd, right.cmd); }
      }
    }
  }

  // ---------------------------------------------------------------- nulterminate

  /** A word of c ends at k. */
  ghost predicate EndsAt(c: Cmd<Span>, k: int) {
    exists w :: HasWord(c, w) && w.eq == k
  }

  /** The string at q in a buffer with NULs. */
  function CString(b: seq<char>, q: nat): (s: string)
    requires q <= |b|
    decreases |b| - q
  {
    if q < |b| && b[q] != '\0' then [b[q]] + CString(b, q + 1) else ""
  }

  method Nulterminate(buf: array<char>, c: Cmd<Span>)
    requires forall w {:trigger HasWord(c, w)} :: HasWord(c, w) ==> w.eq < buf.Length
    modifies buf
    ensures forall k {:trigger buf[k]} :: 0 <= k < buf.Length ==> buf[k] == if EndsAt(c, k) then '\0' else old(buf[k])
    decreases c
  {
    match c
    case Exec(ws) =>
      var i := 0;
      while i < |ws|
        invariant 0 <= i <= |ws|
        invariant forall k {:trigger buf[k]} :: 0 <= k < buf.Length ==>
                    buf[k] == if exists j :: 0 <= j < i && ws[j].eq == k then '\0' else old(buf[k])
      {
        assert HasWord(c, ws[i]);
        buf[ws[i].eq] := '\0';
        i := i + 1;
      }
      forall k | 0 <= k < buf.Length ensures EndsAt(c, k) <==> exists j :: 0 <= j < |ws| && ws[j].eq == k {
        ExecEnds(ws, k);
      }
    case Redir(d, f, _) =>
      assert HasWord(c, f) && forall w :: HasWord(d, w) ==> HasWord(c, w);
      Nulterminate(buf, d);
      buf[f.eq] := '\0';
      forall k ensures EndsAt(c, k) <==> EndsAt(d, k) || k == f.eq {
        if EndsAt(d, k) { var w :| HasWord(d, w) && w.eq == k; assert HasWord(c, w); }
      }
    case Pipe(l, r) =>
      Both(buf, c, l, r);
    case List(l, r) =>
      Both(buf, c, l, r);
    case Back(d) =>
      assert forall w :: HasWord(d, w) <==> HasWord(c, w);
      Nulterminate(buf, d);
  }

  method Both(buf: array<char>, ghost c: Cmd<Span>, l: Cmd<Span>, r: Cmd<Span>)
    requires forall w {:trigger HasWord(c, w)} :: HasWord(c, w) ==> w.eq < buf.Length
    requires c == Pipe(l, r) || c == List(l, r)
    modifies buf
    ensures forall k {:trigger buf[k]} :: 0 <= k < buf.Length ==> buf[k] == if EndsAt(c, k) then '\0' else old(buf[k])
    decreases c, 0
  {
    assert forall w {:trigger HasWord(l, w)} {:trigger HasWord(r, w)} :: HasWord(l, w) || HasWord(r, w) ==>
             HasWord(c, w);
    Nulterminate(buf, l);
    Nulterminate(buf, r);
    forall k ensures EndsAt(c, k) <==> EndsAt(l, k) || EndsAt(r, k) {
      if EndsAt(l, k) { var w :| HasWord(l, w) && w.eq == k; assert HasWord(c, w); }
      if EndsAt(r, k) { var w :| HasWord(r, w) && w.eq == k; assert HasWord(c, w); }
    }
  }

  lemma ExecEnds(ws: seq<Span>, k: int)
    ensures EndsAt(Exec(ws), k) <==> exists j :: 0 <= j < |ws| && ws[j].eq == k
  {
    if j :| 0 <= j < |ws| && ws[j].eq == k { assert HasWord(Exec(ws), ws[j]); }
  }

  /** Cutting every word at its end leaves each word a string of its own. */
  lemma {:induction false} CutWord(s: string, b: seq<char>, c: Cmd<Span>, w: Span, k: nat)
    requires Line(s) && |b| == |s| + 1 && b[|s|] == '\0' && AllWords(s, c) && HasWord(c, w) && WordSpan(s, w)
             && w.q <= k <= w.eq
    requires forall j {:trigger b[j]} :: 0 <= j < |s| ==> b[j] == if EndsAt(c, j) then '\0' else s[j]
    ensures CString(b, k) == s[k..w.eq]
    decreases w.eq - k
  {
    if k < w.eq {
      assert WordChar(s[k]);
      forall v | HasWord(c, v) ensures v.eq != k { assert WordSpan(s, v); }
      CutWord(s, b, c, w, k + 1);
      assert s[k..w.eq] == [s[k]] + s[k + 1..w.eq];
    } else {
      assert w.eq < |s| ==> EndsAt(c, w.eq);
    }
  }

  lemma SpanIsWord(s: string, w: Span)
    requires WordSpan(s, w)
    ensures Word(TextOf(s, w))
  {
    forall k | 0 <= k < w.eq - w.q ensures WordChar(TextOf(s, w)[k]) { assert TextOf(s, w)[k] == s[w.q + k]; }
  }

  /** parsecmd: the tree that the tokens of the line derive, with every argument and file name a string in the buffer,
      free of white space and symbols; it panics, and leaves the buffer alone, exactly if they derive none. */
  method Parsecmd(buf: array<char>) returns (r: Result)
    requires buf.Length > 0 && buf[buf.Length - 1] == '\0' && Line(buf[..buf.Length - 1])
    modifies buf
    ensures r == ParseCmd(old(buf[..buf.Length - 1]))
    ensures r.Panic? ==> buf[..] == old(buf[..]) && !Derivable(old(buf[..buf.Length - 1]))
    ensures r.Ok? ==>
              LineG(Lex(old(buf[..buf.Length - 1]), 0), Text(old(buf[..buf.Length - 1]), r.cmd))
    ensures r.Ok? ==> forall w {:trigger HasWord(r.cmd, w)} :: HasWord(r.cmd, w) ==>
              && w.q < w.eq < buf.Length && CString(buf[..], w.q) == TextOf(old(buf[..buf.Length - 1]), w)
              && Word(CString(buf[..], w.q))
  {
    PanicsOutsideGrammar(buf[..buf.Length - 1]);
    var line := buf[..buf.Length - 1];
    var parser := new Parser(line);
    r := parser.Parseline();
    if r.Panic? { return; }
    var nothing := parser.Peek("");
    if parser.ps != |line| { return Panic; }
    ParsesGrammar(line, Text(line, r.cmd));
    LineAreWords(line, 0);
    forall w | HasWord(r.cmd, w) ensures w.q < w.eq < buf.Length { assert WordSpan(line, w); }
    Nulterminate(buf, r.cmd);
    forall w | HasWord(r.cmd, w)
      ensures w.q < w.eq < buf.Length && CString(buf[..], w.q) == TextOf(line, w) && Word(TextOf(line, w))
    {
      CutWord(line, buf[..], r.cmd, w, w.q);
      SpanIsWord(line, w);
    }
  }
}
