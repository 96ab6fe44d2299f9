/** What the parser of sh.c computes, as functions of the command line and a position in it, and the printed form
    of a command tree. Panic stands for a call of panic(). */
module ShellGrammar {

  const MAXARGS := 10

  /** A command tree. W is how a word is given: by its text, or by where it lies in the command line. */
  datatype Cmd<W> =
    | Exec(words: seq<W>)
    | Redir(cmd: Cmd<W>, file: W, out: bool) // < (O_RDONLY on 0) or > (O_WRONLY|O_CREATE on 1)
    | Pipe(left: Cmd<W>, right: Cmd<W>)
    | List(left: Cmd<W>, right: Cmd<W>)
    | Back(cmd: Cmd<W>)

  datatype Span = Span(q: nat, eq: nat)

  datatype Result = Panic | Ok(cmd: Cmd<Span>, pos: nat)

  // ---------------------------------------------------------------- tokens

  predicate Ws(c: char) {
    c == ' ' || c == '\t' || c == '\r' || c == '\n' || c == 11 as char
  }

  predicate Symbol(c: char) {
    c == '<' || c == '|' || c == '>' || c == '&' || c == ';' || c == '(' || c == ')'
  }

  /** What a word is made of: anything but " \t\r\n\v", "<|>&;()" and NUL. */
  predicate WordChar(c: char) {
    && c != ' ' && c != '\t' && c != '\r' && c != '\n' && c != 11 as char
    && c != '<' && c != '|' && c != '>' && c != '&' && c != ';' && c != '(' && c != ')' && c != '\0'
  }

  /** A command line as a C string. */
  ghost predicate Line(s: string) {
    forall i {:trigger s[i]} :: 0 <= i < |s| ==> s[i] != '\0'
  }

  function At(s: string, i: nat): (c: char) {
    if i < |s| then s[i] else '\0'
  }

  /** The first character at or after i that is not white space. */
  function Skip(s: string, i: nat): (r: nat)
    requires i <= |s|
    ensures i <= r <= |s| && !Ws(At(s, r))
    decreases |s| - i
  {
    if i < |s| && Ws(s[i]) then Skip(s, i + 1) else i
  }

  function WordEnd(s: string, i: nat): (r: nat)
    requires i <= |s|
    ensures i <= r <= |s| && (r < |s| ==> Ws(s[r]) || Symbol(s[r]))
    ensures forall k {:trigger s[k]} :: i <= k < r ==> !Ws(s[k]) && !Symbol(s[k])
    decreases |s| - i
  {
    if i < |s| && !Ws(s[i]) && !Symbol(s[i]) then WordEnd(s, i + 1) else i
  }

  /** kind is 0 at the end, 'a' for a word, '+' for >>, or the symbol itself. */
  datatype Token = Token(kind: char, q: nat, eq: nat, next: nat)

  function GetToken(s: string, i: nat): (t: Token)
    requires i <= |s|
    ensures i <= t.q <= t.eq <= t.next <= |s|
    ensures t.kind != '\0' ==> t.q < t.eq
  {
    var q := Skip(s, i);
    var c := At(s, q);
    if q == |s| then Token('\0', q, q, q)
    else if c == '>' then
      var eq := if At(s, q + 1) == '>' then q + 2 else q + 1;
      Token(if At(s, q + 1) == '>' then '+' else '>', q, eq, Skip(s, eq))
    else if Symbol(c) then Token(c, q, q + 1, Skip(s, q + 1))
    else Token('a', q, WordEnd(s, q), Skip(s, WordEnd(s, q)))
  }

  /** Peek: the next character is one of toks. */
  predicate Sees(s: string, i: nat, toks: string)
    requires i <= |s|
  {
    At(s, Skip(s, i)) in toks
  }

  /** A word token is a maximal run of word characters. */
  ghost predicate WordSpan(s: string, w: Span) {
    && w.q < w.eq <= |s| && (w.eq < |s| ==> Ws(s[w.eq]) || Symbol(s[w.eq]))
    && (forall k {:trigger s[k]} :: w.q <= k < w.eq ==> WordChar(s[k]))
  }

  lemma TokenIsWord(s: string, i: nat)
    requires Line(s) && i <= |s| && GetToken(s, i).kind == 'a'
    ensures WordSpan(s, Span(GetToken(s, i).q, GetToken(s, i).eq))
  {
    var q := Skip(s, i);
    assert !Ws(At(s, q)) && q < |s| && !Symbol(s[q]);
    assert WordEnd(s, q) > q;
  }

  // ---------------------------------------------------------------- the parser

  datatype Redirection = Redirection(file: Span, out: bool)

  datatype Redirs = NoFile | Redirected(list: seq<Redirection>, pos: nat)

  /** The loop of parseredirs. */
  function ParseRedirs(s: string, i: nat, acc: seq<Redirection>): (r: Redirs)
    requires i <= |s|
    ensures r.Redirected? ==> i <= r.pos <= |s| && r.pos == Skip(s, r.pos) && !Sees(s, r.pos, "<>")
    decreases |s| - i
  {
    if !Sees(s, i, "<>") then SkipTwice(s, i); Redirected(acc, Skip(s, i))
    else
      var op := GetToken(s, Skip(s, i));
      var file := GetToken(s, op.next);
      if file.kind != 'a' then NoFile
      else ParseRedirs(s, file.next, acc + [Redirection(Span(file.q, file.eq), op.kind != '<')])
  }

  lemma SkipTwice(s: string, i: nat)
    requires i <= |s|
    ensures Skip(s, Skip(s, i)) == Skip(s, i)
  {
  }

  /** cmd inside its redirections, the first innermost. */
  function Wrap(cmd: Cmd<Span>, rs: seq<Redirection>): (r: Cmd<Span>) {
    if rs == [] then cmd else Redir(Wrap(cmd, rs[..|rs| - 1]), rs[|rs| - 1].file, rs[|rs| - 1].out)
  }

  /** The argument loop of parseexec: words and redirections so far. */
  function ParseArgs(s: string, i: nat, words: seq<Span>, rs: seq<Redirection>): (r: Result)
    requires i <= |s|
    ensures r.Ok? ==> i <= r.pos <= |s| && r.pos == Skip(s, r.pos)
    decreases |s| - i
  {
    SkipTwice(s, i);
    if Sees(s, i, "|)&;") then Ok(Wrap(Exec(words), rs), Skip(s, i))
    else
      var t := GetToken(s, Skip(s, i));
      if t.kind == '\0' then Ok(Wrap(Exec(words), rs), t.next)
      else if t.kind != 'a' || |words| + 1 >= MAXARGS then Panic
      else
        var more := ParseRedirs(s, t.next, rs);
        if more.NoFile? then Panic
        else ParseArgs(s, more.pos, words + [Span(t.q, t.eq)], more.list)
  }

  function ParseExec(s: string, i: nat): (r: Result)
    requires i <= |s|
    ensures r.Ok? ==> i <= r.pos <= |s| && r.pos == Skip(s, r.pos)
    decreases |s| - i, 1
  {
    if Sees(s, i, "(") then ParseBlock(s, Skip(s, i))
    else
      var rs := ParseRedirs(s, Skip(s, i), []);
      if rs.NoFile? then Panic else ParseArgs(s, rs.pos, [], rs.list)
  }

  function ParseBlock(s: string, i: nat): (r: Result)
    requires i <= |s| && Sees(s, i, "(")
    ensures r.Ok? ==> i <= r.pos <= |s| && r.pos == Skip(s, r.pos)
    decreases |s| - i, 0
  {
    var line := ParseLine(s, GetToken(s, i).next);
    if line.Panic? || !Sees(s, line.pos, ")") then Panic
    else
      var rs := ParseRedirs(s, GetToken(s, line.pos).next, []);
      if rs.NoFile? then Panic else Ok(Wrap(line.cmd, rs.list), rs.pos)
  }

  function ParsePipe(s: string, i: nat): (r: Result)
    requires i <= |s|
    ensures r.Ok? ==> i <= r.pos <= |s| && r.pos == Skip(s, r.pos)
    decreases |s| - i, 2
  {
    var left := ParseExec(s, i);
    if left.Panic? || !Sees(s, left.pos, "|") then left
    else
      var right := ParsePipe(s, GetToken(s, left.pos).next);
      if right.Panic? then Panic else Ok(Pipe(left.cmd, right.cmd), right.pos)
  }

  /** The loop of parseline over &. */
  function ParseBacks(s: string, i: nat, cmd: Cmd<Span>): (r: Result)
    requires i <= |s| && i == Skip(s, i)
    ensures r.Ok? && i <= r.pos <= |s| && r.pos == Skip(s, r.pos)
    decreases |s| - i
  {
    if Sees(s, i, "&") then SkipTwice(s, GetToken(s, i).eq); ParseBacks(s, GetToken(s, i).next, Back(cmd))
    else Ok(cmd, i)
  }

  function ParseLine(s: string, i: nat): (r: Result)
    requires i <= |s|
    ensures r.Ok? ==> i <= r.pos <= |s| && r.pos == Skip(s, r.pos)
    decreases |s| - i, 3
  {
    var pipe := ParsePipe(s, i);
    if pipe.Panic? then Panic
    else
      var left := ParseBacks(s, pipe.pos, pipe.cmd);
      if !Sees(s, left.pos, ";") then left
      else
        var right := ParseLine(s, GetToken(s, left.pos).next);
        if right.Panic? then Panic else Ok(List(left.cmd, right.cmd), right.pos)
  }

  /** parsecmd, before the words are cut off. */
  function ParseCmd(s: string): (r: Result) {
    var line := ParseLine(s, 0);
    if line.Panic? || line.pos != |s| then Panic else line
  }

  // ---------------------------------------------------------------- the text of a tree

  function TextOf(s: string, w: Span): (t: string) {
    if w.q <= w.eq <= |s| then s[w.q..w.eq] else ""
  }

  function Text(s: string, c: Cmd<Span>): (t: Cmd<string>) {
    match c
    case Exec(ws) => Exec(seq(|ws|, k requires 0 <= k < |ws| => TextOf(s, ws[k])))
    case Redir(d, f, out) => Redir(Text(s, d), TextOf(s, f), out)
    case Pipe(l, r) => Pipe(Text(s, l), Text(s, r))
    case List(l, r) => List(Text(s, l), Text(s, r))
    case Back(d) => Back(Text(s, d))
  }

  // ---------------------------------------------------------------- the tokens of a line

  predicate Word(w: string) {
    w != "" && forall k {:trigger w[k]} :: 0 <= k < |w| ==> WordChar(w[k])
  }

  predicate IsTok(a: string) {
    Word(a) || a == ">>" || (|a| == 1 && a[0] in "<|>&;()")
  }

  function KindOf(a: string): (c: char) {
    if a == ">>" then '+' else if |a| == 1 && Symbol(a[0]) then a[0] else 'a'
  }

  /** The tokens of s from i on. */
  function Lex(s: string, i: nat): (ts: seq<string>)
    requires i <= |s|
    decreases |s| - i
  {
    var t := GetToken(s, i);
    if t.kind == '\0' then [] else [s[t.q..t.eq]] + Lex(s, t.next)
  }

  lemma SameToken(s: string, i: nat)
    requires i <= |s|
    ensures GetToken(s, Skip(s, i)) == GetToken(s, i)
  {
    SkipTwice(s, i);
    hide Skip, WordEnd;
  }

  lemma LexSkip(s: string, i: nat)
    requires i <= |s|
    ensures Lex(s, Skip(s, i)) == Lex(s, i)
  {
    hide Lex, Skip, GetToken;
    SameToken(s, i);
    LexStep(s, i);
    LexStep(s, Skip(s, i));
  }

  lemma LexEnd(s: string, i: nat)
    requires i <= |s|
    ensures Lex(s, i) == [] <==> Skip(s, i) == |s|
  {
  }

  lemma WordKind(a: string)
    requires IsTok(a)
    ensures a != "" && (KindOf(a) == 'a' <==> Word(a)) && (Word(a) ==> a[0] !in "<|>&;()")
  {
    if Word(a) { assert WordChar(a[0]); }
  }

  /** gettoken takes the first token and leaves the others. */
  lemma FirstToken(s: string, i: nat)
    requires Line(s) && i <= |s| && Lex(s, i) != []
    ensures var t, a := GetToken(s, i), Lex(s, i)[0];
            && IsTok(a) && t.kind == KindOf(a) && TextOf(s, Span(t.q, t.eq)) == a && Lex(s, t.next) == Lex(s, i)[1..]
            && At(s, Skip(s, i)) == a[0]
  {
    hide Lex;
    LexStep(s, i);
    var t := GetToken(s, i);
    hide Skip;
    var a := s[t.q..t.eq];
    assert a[0] == s[t.q];
    if t.kind == 'a' {
      TokenIsWord(s, i);
      forall k | 0 <= k < |a| ensures WordChar(a[k]) { assert a[k] == s[t.q + k]; }
    } else if t.kind == '+' {
      assert a == ">>";
    }
  }

  lemma LexStep(s: string, i: nat)
    requires i <= |s|
    ensures var t := GetToken(s, i); Lex(s, i) == if t.kind == '\0' then [] else [s[t.q..t.eq]] + Lex(s, t.next)
  {
  }

  predicate IsRedir(a: string) {
    a == "<" || a == ">" || a == ">>"
  }

  /** The first character of a token tells what it is. */
  lemma TokenHead(a: string)
    requires IsTok(a)
    ensures a != "" && (a[0] in "<>" <==> IsRedir(a))
    ensures a[0] in "|)&;" <==> EndsCommand(a)
    ensures forall c {:trigger [c]} :: c in "|&;()" ==> (a[0] == c <==> a == [c])
  {
    WordKind(a);
    hide Word;
  }

  /** peek looks at the first character of the next token. */
  lemma PeekToken(s: string, i: nat, toks: string)
    requires Line(s) && i <= |s| && '\0' !in toks
    ensures Lex(s, i) == [] ==> !Sees(s, i, toks)
    ensures Lex(s, i) != [] ==> var a := Lex(s, i)[0]; IsTok(a) && a != "" && (Sees(s, i, toks) <==> a[0] in toks)
    ensures Lex(s, Skip(s, i)) == Lex(s, i)
  {
    LexSkip(s, i);
    LexEnd(s, i);
    hide Lex, Skip;
    if Lex(s, i) != [] { FirstToken(s, i); WordKind(Lex(s, i)[0]); }
  }

  lemma PeekSymbol(s: string, i: nat, c: char)
    requires Line(s) && i <= |s| && c in "|&;()"
    ensures Sees(s, i, [c]) <==> Lex(s, i) != [] && Lex(s, i)[0] == [c]
  {
    hide Lex, Skip, Sees, IsTok;
    PeekToken(s, i, [c]);
    if Lex(s, i) != [] { TokenHead(Lex(s, i)[0]); }
  }

  lemma PeekRedir(s: string, i: nat)
    requires Line(s) && i <= |s|
    ensures Sees(s, i, "<>") <==> Lex(s, i) != [] && IsRedir(Lex(s, i)[0])
  {
    hide Lex, Skip, Sees, IsTok, IsRedir;
    PeekToken(s, i, "<>");
    if Lex(s, i) != [] { TokenHead(Lex(s, i)[0]); }
  }

  predicate EndsCommand(a: string) {
    a == "|" || a == ")" || a == "&" || a == ";"
  }

  lemma PeekEnd(s: string, i: nat)
    requires Line(s) && i <= |s|
    ensures Sees(s, i, "|)&;") <==> Lex(s, i) != [] && EndsCommand(Lex(s, i)[0])
  {
    hide Lex, Skip, Sees, IsTok, EndsCommand;
    PeekToken(s, i, "|)&;");
    if Lex(s, i) != [] { TokenHead(Lex(s, i)[0]); }
  }

  // ---------------------------------------------------------------- how tokens are spelled

  /** Any run of white space, also the empty one. */
  predicate White(g: string) {
    forall k {:trigger g[k]} :: 0 <= k < |g| ==>
      g[k] == ' ' || g[k] == '\t' || g[k] == '\r' || g[k] == '\n' || g[k] == 11 as char
  }

  /** The tokens ts with gaps before, between and after them. */
  function Spell(ts: seq<string>, gaps: seq<string>): (s: string)
    requires |gaps| == |ts| + 1
    decreases |ts|
  {
    if ts == [] then gaps[0] else gaps[0] + ts[0] + Spell(ts[1..], gaps[1..])
  }

  /** Two tokens that stay two without a gap. */
  predicate Apart(a: string, b: string) {
    !(Word(a) && Word(b)) && !(a == ">" && b != "" && b[0] == '>')
  }

  /** Tokens, and gaps of white space that are not empty where the tokens would run together. */
  ghost predicate Spaced(ts: seq<string>, gaps: seq<string>) {
    && |gaps| == |ts| + 1 && (forall k {:trigger ts[k]} :: 0 <= k < |ts| ==> IsTok(ts[k]))
    && (forall k {:trigger gaps[k]} :: 0 <= k <= |ts| ==> White(gaps[k]))
    && (forall k {:trigger gaps[k]} :: 0 < k < |ts| && gaps[k] == "" ==> Apart(ts[k - 1], ts[k]))
  }

  lemma SpacedTail(ts: seq<string>, gaps: seq<string>)
    requires ts != [] && Spaced(ts, gaps)
    ensures Spaced(ts[1..], gaps[1..])
  {
    forall k | 0 <= k <= |ts[1..]| ensures gaps[1..][k] == gaps[k + 1] {}
    forall k | 0 <= k < |ts[1..]| ensures ts[1..][k] == ts[k + 1] {}
    forall k | 0 < k < |ts[1..]| ensures ts[1..][k - 1] == ts[k] {}
  }

  /** White space is what peek and gettoken skip. */
  lemma {:induction false} SkipWhite(s: string, i: nat, g: string)
    requires White(g) && i + |g| <= |s| && s[i..i + |g|] == g && !Ws(At(s, i + |g|))
    ensures Skip(s, i) == i + |g|
    decreases |g|
  {
    if g != "" {
      assert s[i] == s[i..i + |g|][0] == g[0];
      assert s[i + 1..i + 1 + |g[1..]|] == s[i..i + |g|][1..];
      SkipWhite(s, i + 1, g[1..]);
    }
  }

  /** Where the first gap, the first token and the others lie in a spelling. */
  lemma SpellParts(s: string, i: nat, ts: seq<string>, gaps: seq<string>)
    requires ts != [] && |gaps| == |ts| + 1 && i <= |s| && s[i..] == Spell(ts, gaps)
    ensures var p := i + |gaps[0]|;
            var e := p + |ts[0]|;
            e <= |s| && s[i..p] == gaps[0] && s[p..e] == ts[0] && s[e..] == Spell(ts[1..], gaps[1..])
  {
    var g, a, rest := gaps[0], ts[0], Spell(ts[1..], gaps[1..]);
    var x := s[i..];
    assert x == g + a + rest;
    hide Spell;
    var p := i + |g|;
    var e := p + |a|;
    assert s[i..p] == x[..|g|] && s[p..e] == x[|g|..|g| + |a|] && s[e..] == x[|g| + |a|..];
  }

  /** What a spelling starts with: nothing, white space, or the first token. */
  lemma SpellHead(ts: seq<string>, gaps: seq<string>)
    requires Spaced(ts, gaps)
    ensures var s := Spell(ts, gaps);
            && (gaps[0] != "" ==> s != "" && Ws(s[0]) && !Symbol(s[0]))
            && (gaps[0] == "" ==> if ts == [] then s == "" else ts[0] != "" && s != "" && s[0] == ts[0][0])
  {
    assert White(gaps[0]);
    if gaps[0] != "" { assert Spell(ts, gaps)[0] == gaps[0][0]; }
    else if ts != [] { WordKind(ts[0]); assert Spell(ts, gaps)[0] == ts[0][0]; }
  }

  /** The character after the first token of a spelling does not run into it. */
  lemma SpellNext(ts: seq<string>, gaps: seq<string>)
    requires ts != [] && Spaced(ts, gaps)
    ensures var rest := Spell(ts[1..], gaps[1..]);
            rest != "" ==> (Word(ts[0]) ==> Ws(rest[0]) || Symbol(rest[0])) && (ts[0] == ">" ==> rest[0] != '>')
  {
    SpacedTail(ts, gaps);
    SpellHead(ts[1..], gaps[1..]);
    assert IsTok(ts[0]);
    if gaps[1] == "" && |ts| > 1 {
      assert IsTok(ts[1]) && Apart(ts[0], ts[1]);
      hide Spell, Spaced, Word;
    }
  }

  lemma {:induction false} WordEndsAt(s: string, p: nat, a: string)
    requires p + |a| <= |s| && s[p..p + |a|] == a && (forall k {:trigger a[k]} :: 0 <= k < |a| ==> WordChar(a[k]))
    requires p + |a| < |s| ==> Ws(s[p + |a|]) || Symbol(s[p + |a|])
    ensures WordEnd(s, p) == p + |a|
    decreases |a|
  {
    if a != "" {
      assert s[p] == s[p..p + |a|][0] == a[0];
      assert s[p + 1..p + 1 + |a[1..]|] == s[p..p + |a|][1..];
      WordEndsAt(s, p + 1, a[1..]);
    }
  }

  lemma TokenStarts(a: string)
    requires IsTok(a)
    ensures a != "" && !Ws(a[0]) && (Word(a) ==> !Symbol(a[0])) && (!Word(a) ==> Symbol(a[0]))
  {
    if Word(a) { assert WordChar(a[0]); }
  }

  /** gettoken on a token at p. */
  lemma TokenAt(s: string, i: nat, p: nat, a: string)
    requires i <= |s| && Skip(s, i) == p && IsTok(a) && p + |a| <= |s| && s[p..p + |a|] == a
    requires p + |a| < |s| ==> (Word(a) ==> Ws(s[p + |a|]) || Symbol(s[p + |a|])) && (a == ">" ==> s[p + |a|] != '>')
    ensures var t := GetToken(s, i); t.kind != '\0' && t.q == p && t.eq == p + |a| && t.next == Skip(s, p + |a|)
  {
    hide Skip;
    TokenStarts(a);
    assert s[p..p + |a|][0] == s[p];
    if Word(a) {
      WordEndsAt(s, p, a);
      hide IsTok;
    } else {
      hide Word;
      if a == ">>" { assert s[p..p + |a|][1] == s[p + 1]; }
    }
  }

  lemma {:induction false} SpellLexes(s: string, i: nat, ts: seq<string>, gaps: seq<string>)
    requires Spaced(ts, gaps) && i <= |s| && s[i..] == Spell(ts, gaps)
    ensures Lex(s, i) == ts
    decreases |ts|
  {
    hide Lex, Skip, GetToken, IsTok, Apart, Word;
    SpellSkips(s, i, ts, gaps);
    if ts == [] {
      LexEnd(s, i);
    } else {
      SpellParts(s, i, ts, gaps);
      SpellNext(ts, gaps);
      SpacedTail(ts, gaps);
      assert IsTok(ts[0]);
      hide Spell, Spaced;
      var p := i + |gaps[0]|;
      var e := p + |ts[0]|;
      assert e < |s| ==> s[e] == s[e..][0];
      TokenAt(s, i, p, ts[0]);
      SpellLexes(s, e, ts[1..], gaps[1..]);
      LexSkip(s, e);
      LexStep(s, i);
    }
  }

  lemma SpellSkips(s: string, i: nat, ts: seq<string>, gaps: seq<string>)
    requires Spaced(ts, gaps) && i <= |s| && s[i..] == Spell(ts, gaps)
    ensures Skip(s, i) == i + |gaps[0]| && (ts == [] ==> Skip(s, i) == |s|)
  {
    var p := i + |gaps[0]|;
    assert White(gaps[0]);
    if ts == [] {
      assert s[i..p] == s[i..];
    } else {
      SpellParts(s, i, ts, gaps);
      assert IsTok(ts[0]);
      TokenStarts(ts[0]);
      assert s[p] == s[p..p + |ts[0]|][0];
    }
    hide Spell, Spaced, IsTok, White;
    SkipWhite(s, i, gaps[0]);
  }

  /** Only white space is skipped. */
  lemma {:induction false} SkipsWhite(s: string, i: nat)
    requires i <= |s|
    ensures White(s[i..Skip(s, i)])
    decreases |s| - i
  {
    if i < |s| && Ws(s[i]) {
      SkipsWhite(s, i + 1);
      var g := s[i + 1..Skip(s, i)];
      assert s[i..Skip(s, i)] == [s[i]] + g;
    }
  }

  /** The next token and the one after it are kept apart. */
  lemma TokensApart(s: string, i: nat)
    requires Line(s) && i <= |s| && Lex(s, i) != [] && Lex(s, GetToken(s, i).eq) != []
    requires Skip(s, GetToken(s, i).eq) == GetToken(s, i).eq && i < GetToken(s, i).eq
    ensures Apart(Lex(s, i)[0], Lex(s, GetToken(s, i).eq)[0])
  {
    var t := GetToken(s, i);
    FirstToken(s, i);
    FirstToken(s, t.eq);
    LexEnd(s, t.eq);
    WordKind(Lex(s, i)[0]);
    WordKind(Lex(s, t.eq)[0]);
    if t.kind == 'a' { TokenIsWord(s, i); }
  }

  /** Every line is a spelling of its tokens. */
  lemma {:induction false} LexSpells(s: string, i: nat) returns (gaps: seq<string>)
    requires Line(s) && i <= |s|
    ensures Spaced(Lex(s, i), gaps) && s[i..] == Spell(Lex(s, i), gaps)
    ensures gaps[0] == s[i..Skip(s, i)]
    decreases |s| - i
  {
    SkipsWhite(s, i);
    LexEnd(s, i);
    TokenBounds(s, i);
    hide Lex, Skip, GetToken, IsTok, White, Apart;
    var ts := Lex(s, i);
    if ts == [] {
      gaps := [s[i..]];
      assert s[i..Skip(s, i)] == s[i..];
    } else {
      var t := GetToken(s, i);
      FirstToken(s, i);
      LexSkip(s, t.eq);
      var more := LexSpells(s, t.eq);
      var g := s[i..t.q];
      gaps := [g] + more;
      assert ts == [ts[0]] + Lex(s, t.eq);
      if Lex(s, t.eq) != [] && more[0] == "" { TokensApart(s, i); }
      SpacedCons(g, ts[0], Lex(s, t.eq), more);
      hide Spaced;
      SpellCons(s, i, t.q, t.eq, ts, gaps, more);
    }
  }

  lemma TokenBounds(s: string, i: nat)
    requires i <= |s|
    ensures var t := GetToken(s, i);
            t.q == Skip(s, i) && t.next == Skip(s, t.eq) && (Lex(s, i) != [] ==> i < t.eq && t.kind != '\0')
  {
    SkipTwice(s, i);
  }

  lemma SpellCons(s: string, i: nat, q: nat, e: nat, ts: seq<string>, gaps: seq<string>, more: seq<string>)
    requires i <= q <= e <= |s| && ts != [] && |more| == |ts| && gaps == [s[i..q]] + more && ts[0] == s[q..e]
    requires s[e..] == Spell(ts[1..], more)
    ensures s[i..] == Spell(ts, gaps)
  {
    assert gaps[1..] == more;
    assert s[i..] == s[i..q] + s[q..e] + s[e..];
  }

  lemma SpacedCons(g: string, a: string, ts: seq<string>, gaps: seq<string>)
    requires Spaced(ts, gaps) && White(g) && IsTok(a) && (ts != [] && gaps[0] == "" ==> Apart(a, ts[0]))
    ensures Spaced([a] + ts, [g] + gaps)
  {
    var us, hs := [a] + ts, [g] + gaps;
    forall k | 0 <= k <= |us| ensures White(hs[k]) {}
    forall k | 0 < k < |us| && hs[k] == "" ensures Apart(us[k - 1], us[k]) {
      assert hs[k] == gaps[k - 1];
      if k > 1 { assert us[k - 1] == ts[k - 2] && us[k] == ts[k - 1]; }
    }
  }

  /** The tokens of a line are the ones it spells, with any white space between them, or none where they do not run
      together; and every line spells its tokens. */
  lemma TokensOfLine(s: string, ts: seq<string>)
    requires Line(s)
    ensures Lex(s, 0) == ts <==> exists gaps :: Spaced(ts, gaps) && s == Spell(ts, gaps)
  {
    assert s[0..] == s;
    if gaps :| Spaced(ts, gaps) && s == Spell(ts, gaps) { SpellLexes(s, 0, ts, gaps); }
    if Lex(s, 0) == ts { var gaps := LexSpells(s, 0); }
  }

  // ---------------------------------------------------------------- the grammar

  /** Words and redirections, in any order. */
  predicate IsArgs(ts: seq<string>)
    decreases |ts|
  {
    || ts == [] || (Word(ts[0]) && IsArgs(ts[1..]))
    || (|ts| >= 2 && IsRedir(ts[0]) && Word(ts[1]) && IsArgs(ts[2..]))
  }

  function WordsIn(ts: seq<string>): (ws: seq<string>)
    decreases |ts|
  {
    if ts == [] then []
    else if !IsRedir(ts[0]) then [ts[0]] + WordsIn(ts[1..])
    else if |ts| < 2 then [] else WordsIn(ts[2..])
  }

  /** The files, and whether they are for output. */
  function FilesIn(ts: seq<string>): (fs: seq<(string, bool)>)
    decreases |ts|
  {
    if ts == [] then []
    else if !IsRedir(ts[0]) then FilesIn(ts[1..])
    else if |ts| < 2 then [] else [(ts[1], ts[0] != "<")] + FilesIn(ts[2..])
  }

  /** t inside redirections, the first innermost. */
  function WrapText(t: Cmd<string>, fs: seq<(string, bool)>): (r: Cmd<string>) {
    if fs == [] then t else Redir(WrapText(t, fs[..|fs| - 1]), fs[|fs| - 1].0, fs[|fs| - 1].1)
  }

  /** Fewer than ten words, with redirections before, between and after them. */
  ghost predicate SimpleG(ts: seq<string>, t: Cmd<string>) {
    IsArgs(ts) && |WordsIn(ts)| < 10 && t == WrapText(Exec(WordsIn(ts)), FilesIn(ts))
  }

  /** ( line ) and redirections. */
  ghost predicate BlockG(ts: seq<string>, t: Cmd<string>)
    decreases |ts|, 0
  {
    exists k: nat, c {:trigger LineG(ts[1..k], c)} ::
      && 0 < k < |ts| && ts[0] == "(" && ts[k] == ")" && LineG(ts[1..k], c)
      && IsArgs(ts[k + 1..]) && WordsIn(ts[k + 1..]) == [] && t == WrapText(c, FilesIn(ts[k + 1..]))
  }

  /** A simple command or a block. */
  ghost predicate ExecG(ts: seq<string>, t: Cmd<string>)
    decreases |ts|, 1
  {
    SimpleG(ts, t) || BlockG(ts, t)
  }

  /** exec | pipe. */
  ghost predicate PipeG(ts: seq<string>, t: Cmd<string>)
    decreases |ts|, 2
  {
    || ExecG(ts, t)
    || (t.Pipe? && exists k :: 0 <= k < |ts| && ts[k] == "|" && ExecG(ts[..k], t.left) && PipeG(ts[k + 1..], t.right))
  }

  /** pipe & & ... */
  ghost predicate BackG(ts: seq<string>, t: Cmd<string>)
    decreases |ts|, 3
  {
    || PipeG(ts, t)
    || (t.Back? && ts != [] && ts[|ts| - 1] == "&" && BackG(ts[..|ts| - 1], t.cmd))
  }

  /** back ; line. */
  ghost predicate LineG(ts: seq<string>, t: Cmd<string>)
    decreases |ts|, 4
  {
    || BackG(ts, t)
    || (t.List? && exists k :: 0 <= k < |ts| && ts[k] == ";" && BackG(ts[..k], t.left) && LineG(ts[k + 1..], t.right))
  }

  /** The first word, or the first redirection. */
  lemma ArgsHead(ts: seq<string>)
    requires ts != []
    ensures !IsRedir(ts[0]) ==>
              && (IsArgs(ts) <==> Word(ts[0]) && IsArgs(ts[1..]))
              && WordsIn(ts) == [ts[0]] + WordsIn(ts[1..]) && FilesIn(ts) == FilesIn(ts[1..])
    ensures IsRedir(ts[0]) && |ts| >= 2 ==>
              && (IsArgs(ts) <==> Word(ts[1]) && IsArgs(ts[2..]))
              && WordsIn(ts) == WordsIn(ts[2..]) && FilesIn(ts) == [(ts[1], ts[0] != "<")] + FilesIn(ts[2..])
    ensures IsRedir(ts[0]) && |ts| < 2 ==> !IsArgs(ts)
  {
    if Word(ts[0]) { WordIsNoRedir(ts[0]); }
    hide Word;
  }

  lemma ArgsCons(w: string, ts: seq<string>)
    requires !IsRedir(w) && Word(w) && IsArgs(ts)
    ensures var us := [w] + ts; IsArgs(us) && WordsIn(us) == [w] + WordsIn(ts) && FilesIn(us) == FilesIn(ts)
  {
    hide Word, IsRedir, IsArgs, WordsIn, FilesIn;
    ArgsHead([w] + ts);
    assert ([w] + ts)[0] == w && ([w] + ts)[1..] == ts;
  }

  lemma RedirCons(a: string, f: string, ts: seq<string>)
    requires IsRedir(a) && Word(f) && IsArgs(ts)
    ensures var us := [a, f] + ts;
            IsArgs(us) && WordsIn(us) == WordsIn(ts) && FilesIn(us) == [(f, a != "<")] + FilesIn(ts)
  {
    hide Word, IsRedir, IsArgs, WordsIn, FilesIn;
    ArgsHead([a, f] + ts);
    assert ([a, f] + ts)[0] == a && ([a, f] + ts)[1] == f && ([a, f] + ts)[2..] == ts;
  }

  lemma Assoc<T>(a: seq<T>, b: seq<T>, c: seq<T>)
    ensures a + (b + c) == a + b + c
  {
  }

  lemma {:induction false} ArgsConcat(a: seq<string>, b: seq<string>)
    requires IsArgs(a) && IsArgs(b)
    ensures IsArgs(a + b) && WordsIn(a + b) == WordsIn(a) + WordsIn(b) && FilesIn(a + b) == FilesIn(a) + FilesIn(b)
    decreases |a|
  {
    if a == [] {
      assert a + b == b;
    } else {
      hide Word, IsRedir, IsArgs, WordsIn, FilesIn;
      ArgsHead(a);
      if IsRedir(a[0]) {
        var head, tail := a[..2], a[2..];
        ArgsConcat(tail, b);
        RedirCons(a[0], a[1], tail + b);
        assert head == [a[0], a[1]] && a == head + tail;
        Assoc(head, tail, b);
        Assoc([(a[1], a[0] != "<")], FilesIn(tail), FilesIn(b));
      } else {
        var head, tail := a[..1], a[1..];
        ArgsConcat(tail, b);
        ArgsCons(a[0], tail + b);
        assert head == [a[0]] && a == head + tail;
        Assoc(head, tail, b);
        Assoc(head, WordsIn(tail), WordsIn(b));
      }
    }
  }

  lemma WordIsNoRedir(w: string)
    requires Word(w)
    ensures !IsRedir(w) && !EndsCommand(w) && w != "(" && IsTok(w)
  {
    assert WordChar(w[0]);
  }

  /** One word, or one redirection. */
  lemma OneArg(w: string)
    requires Word(w)
    ensures IsArgs([w]) && WordsIn([w]) == [w] && FilesIn([w]) == []
    ensures forall a {:trigger IsRedir(a)} :: IsRedir(a) ==>
              IsArgs([a, w]) && WordsIn([a, w]) == [] && FilesIn([a, w]) == [(w, a != "<")]
  {
    WordIsNoRedir(w);
    assert [w][1..] == [];
    forall a | IsRedir(a) ensures IsArgs([a, w]) && WordsIn([a, w]) == [] && FilesIn([a, w]) == [(w, a != "<")] {
      assert [a, w][2..] == [];
    }
  }

  // ---------------------------------------------------------------- what is parsed is derived

  /** From i to j, s holds the tokens ts. */
  ghost predicate Reads(s: string, i: nat, ts: seq<string>, j: nat) {
    i <= |s| && j <= |s| && Lex(s, i) == ts + Lex(s, j)
  }

  lemma ReadsOn(s: string, i: nat, ts: seq<string>, j: nat, us: seq<string>, k: nat)
    requires Reads(s, i, ts, j) && Reads(s, j, us, k)
    ensures Reads(s, i, ts + us, k)
  {
    hide Lex;
    assert ts + (us + Lex(s, k)) == ts + us + Lex(s, k);
  }

  /** A token that gettoken takes. */
  lemma ReadsToken(s: string, i: nat, a: string)
    requires Line(s) && i <= |s| && Lex(s, i) != [] && Lex(s, i)[0] == a
    ensures var t := GetToken(s, i);
            && Reads(s, i, [a], t.next) && IsTok(a) && t.kind == KindOf(a) && TextOf(s, Span(t.q, t.eq)) == a
            && t.next > i && t.next == Skip(s, t.next)
  {
    FirstToken(s, i);
    NextSkipped(s, i);
    hide Lex;
    assert Lex(s, i) == [a] + Lex(s, i)[1..];
    TokenBounds(s, i);
  }

  /** The redirections of a list, as text. */
  function FilesOf(s: string, rs: seq<Redirection>): (r: seq<(string, bool)>) {
    seq(|rs|, k requires 0 <= k < |rs| => (TextOf(s, rs[k].file), rs[k].out))
  }

  function TextsOf(s: string, ws: seq<Span>): (r: seq<string>) {
    seq(|ws|, k requires 0 <= k < |ws| => TextOf(s, ws[k]))
  }

  lemma {:induction false} TextOfWrap(s: string, c: Cmd<Span>, rs: seq<Redirection>)
    ensures Text(s, Wrap(c, rs)) == WrapText(Text(s, c), FilesOf(s, rs))
    decreases |rs|
  {
    if rs != [] {
      TextOfWrap(s, c, rs[..|rs| - 1]);
      assert FilesOf(s, rs)[..|rs| - 1] == FilesOf(s, rs[..|rs| - 1]);
    }
  }

  lemma TextOfExec(s: string, words: seq<Span>, rs: seq<Redirection>)
    ensures Text(s, Wrap(Exec(words), rs)) == WrapText(Exec(TextsOf(s, words)), FilesOf(s, rs))
  {
    TextOfWrap(s, Exec(words), rs);
    assert Text(s, Exec(words)) == Exec(TextsOf(s, words));
  }

  /** A redirection that parseredirs takes: the symbol, then a word. */
  lemma ReadsRedir(s: string, i: nat)
    requires Line(s) && i <= |s| && Sees(s, i, "<>") && GetToken(s, GetToken(s, Skip(s, i)).next).kind == 'a'
    ensures var op := GetToken(s, Skip(s, i));
            var file := GetToken(s, op.next);
            var b := TextOf(s, Span(file.q, file.eq));
            && Lex(s, i) != [] && IsRedir(Lex(s, i)[0]) && Word(b) && (op.kind != '<') == (Lex(s, i)[0] != "<")
            && Reads(s, i, [Lex(s, i)[0], b], file.next) && file.next > i
  {
    PeekRedir(s, i);
    LexSkip(s, i);
    hide Lex, Skip, GetToken, TextOf, Sees;
    var a := Lex(s, i)[0];
    ReadsToken(s, Skip(s, i), a);
    var op := GetToken(s, Skip(s, i));
    assert Reads(s, i, [a], op.next);
    HasToken(s, op.next);
    var b := Lex(s, op.next)[0];
    ReadsToken(s, op.next, b);
    WordKind(b);
    ReadsOn(s, i, [a], op.next, [b], GetToken(s, op.next).next);
    assert [a] + [b] == [a, b];
  }

  lemma HasToken(s: string, i: nat)
    requires i <= |s|
    ensures GetToken(s, i).kind == '\0' <==> Lex(s, i) == []
    ensures Lex(s, i) == [] ==> GetToken(s, i).next == |s| && Lex(s, |s|) == []
  {
  }

  lemma {:induction false} RedirsSound(s: string, i: nat, acc: seq<Redirection>) returns (ts: seq<string>)
    requires Line(s) && i <= |s| && ParseRedirs(s, i, acc).Redirected?
    ensures var r := ParseRedirs(s, i, acc);
            && Reads(s, i, ts, r.pos) && IsArgs(ts) && WordsIn(ts) == []
            && FilesOf(s, r.list) == FilesOf(s, acc) + FilesIn(ts)
    decreases |s| - i
  {
    hide Lex, Skip, GetToken, TextOf, Sees, Word, IsRedir;
    if !Sees(s, i, "<>") {
      ts := [];
      LexSkip(s, i);
      assert [] + Lex(s, i) == Lex(s, i);
    } else {
      ReadsRedir(s, i);
      var op := GetToken(s, Skip(s, i));
      var file := GetToken(s, op.next);
      var a, b := Lex(s, i)[0], TextOf(s, Span(file.q, file.eq));
      var acc' := acc + [Redirection(Span(file.q, file.eq), op.kind != '<')];
      var more := RedirsSound(s, file.next, acc');
      OneArg(b);
      ts := [a, b] + more;
      ArgsConcat([a, b], more);
      ReadsOn(s, i, [a, b], file.next, more, ParseRedirs(s, i, acc).pos);
      assert FilesOf(s, acc') == FilesOf(s, acc) + [(b, a != "<")];
    }
  }

  lemma ArgsSoundEnd(s: string, i: nat, words: seq<Span>, rs: seq<Redirection>)
    requires Line(s) && i <= |s|
    requires Sees(s, i, "|)&;") || GetToken(s, Skip(s, i)).kind == '\0'
    ensures var r := ParseArgs(s, i, words, rs);
            && r.Ok? && Reads(s, i, [], r.pos)
            && Text(s, r.cmd) == WrapText(Exec(TextsOf(s, words)), FilesOf(s, rs))
  {
    TextOfExec(s, words, rs);
    LexSkip(s, i);
    HasToken(s, Skip(s, i));
    hide Lex, Skip, GetToken, TextOf, Sees, Wrap, WrapText, Text;
    assert [] + Lex(s, i) == Lex(s, i);
  }

  lemma {:induction false} ArgsSound(s: string, i: nat, words: seq<Span>, rs: seq<Redirection>)
    returns (ts: seq<string>)
    requires Line(s) && i <= |s| && ParseArgs(s, i, words, rs).Ok? && |words| < 10
    ensures var r := ParseArgs(s, i, words, rs);
            && Reads(s, i, ts, r.pos) && IsArgs(ts) && |words| + |WordsIn(ts)| < 10
            && Text(s, r.cmd) == WrapText(Exec(TextsOf(s, words) + WordsIn(ts)), FilesOf(s, rs) + FilesIn(ts))
    decreases |s| - i
  {
    hide Lex, Skip, GetToken, TextOf, Sees, Word, Wrap, WrapText, Text, ParseRedirs, TextsOf, FilesOf, IsArgs, IsTok,
         KindOf, Reads;
    var t := GetToken(s, Skip(s, i));
    if Sees(s, i, "|)&;") || t.kind == '\0' {
      ts := [];
      NoArgs();
      ArgsSoundEnd(s, i, words, rs);
      assert TextsOf(s, words) + [] == TextsOf(s, words) && FilesOf(s, rs) + [] == FilesOf(s, rs);
    } else {
      var w := ReadsWord(s, i);
      var words' := words + [Span(t.q, t.eq)];
      var more := ParseRedirs(s, t.next, rs);
      var us := RedirsSound(s, t.next, rs);
      var vs := ArgsSound(s, more.pos, words', more.list);
      ReadsOn(s, i, [w], t.next, us, more.pos);
      ReadsOn(s, i, [w] + us, more.pos, vs, ParseArgs(s, i, words, rs).pos);
      ts := [w] + us + vs;
      ArgsAfterWord(w, us, vs);
      assert TextsOf(s, words') == TextsOf(s, words) + [w] by { TextsMore(s, words, Span(t.q, t.eq)); }
      assert TextsOf(s, words) + [w] + WordsIn(vs) == TextsOf(s, words) + WordsIn(ts);
      assert FilesOf(s, rs) + FilesIn(us) + FilesIn(vs) == FilesOf(s, rs) + FilesIn(ts);
    }
  }

  lemma NoArgs()
    ensures IsArgs([]) && WordsIn([]) == [] && FilesIn([]) == []
  {
  }

  lemma TextsMore(s: string, words: seq<Span>, w: Span)
    ensures TextsOf(s, words + [w]) == TextsOf(s, words) + [TextOf(s, w)]
  {
  }

  /** A word that the loop of parseexec takes. */
  lemma ReadsWord(s: string, i: nat) returns (w: string)
    requires Line(s) && i <= |s| && GetToken(s, Skip(s, i)).kind == 'a'
    ensures var t := GetToken(s, Skip(s, i));
            Word(w) && Reads(s, i, [w], t.next) && TextOf(s, Span(t.q, t.eq)) == w && t.next > i
  {
    HasToken(s, Skip(s, i));
    LexSkip(s, i);
    hide Lex, Skip, GetToken, TextOf;
    w := Lex(s, i)[0];
    ReadsToken(s, Skip(s, i), w);
    WordKind(w);
  }

  lemma ArgsAfterWord(w: string, us: seq<string>, vs: seq<string>)
    requires Word(w) && IsArgs(us) && WordsIn(us) == [] && IsArgs(vs)
    ensures var ts := [w] + us + vs;
            IsArgs(ts) && WordsIn(ts) == [w] + WordsIn(vs) && FilesIn(ts) == FilesIn(us) + FilesIn(vs)
  {
    OneArg(w);
    ArgsConcat([w], us);
    ArgsConcat([w] + us, vs);
    hide Word, IsArgs, WordsIn, FilesIn;
    assert [w] + [] == [w] && [] + FilesIn(us) == FilesIn(us);
  }

  lemma SimpleSound(s: string, i: nat) returns (ts: seq<string>)
    requires Line(s) && i <= |s| && ParseExec(s, i).Ok? && !Sees(s, i, "(")
    ensures Reads(s, i, ts, ParseExec(s, i).pos) && SimpleG(ts, Text(s, ParseExec(s, i).cmd))
  {
    hide Lex, Skip, GetToken, Sees, Text, WrapText, ParseRedirs, ParseArgs;
    var rs := ParseRedirs(s, Skip(s, i), []);
    var us := RedirsSound(s, Skip(s, i), []);
    var vs := ArgsSound(s, rs.pos, [], rs.list);
    LexSkip(s, i);
    ReadsOn(s, i, us, rs.pos, vs, ParseExec(s, i).pos);
    ArgsConcat(us, vs);
    ts := us + vs;
    assert TextsOf(s, []) + WordsIn(vs) == WordsIn(ts);
    assert FilesOf(s, []) + FilesIn(us) + FilesIn(vs) == FilesIn(ts);
  }

  lemma {:induction false} ExecSound(s: string, i: nat) returns (ts: seq<string>)
    requires Line(s) && i <= |s| && ParseExec(s, i).Ok?
    ensures Reads(s, i, ts, ParseExec(s, i).pos) && ExecG(ts, Text(s, ParseExec(s, i).cmd))
    decreases |s| - i, 1
  {
    hide Lex, Skip, GetToken, Sees, Text, SimpleG, BlockG, ParseArgs, ParseRedirs, ParseBlock;
    if Sees(s, i, "(") {
      SeesSkip(s, i, "(");
      LexSkip(s, i);
      ts := BlockSound(s, Skip(s, i));
    } else {
      ts := SimpleSound(s, i);
    }
  }

  lemma BlockFits(ts: seq<string>, c: Cmd<string>, us: seq<string>)
    requires LineG(ts, c) && IsArgs(us) && WordsIn(us) == []
    ensures BlockG(["("] + ts + [")"] + us, WrapText(c, FilesIn(us)))
  {
    hide LineG, IsArgs, WordsIn, FilesIn, WrapText;
    var all, k := ["("] + ts + [")"] + us, |ts| + 1;
    assert all[1..k] == ts && all[k + 1..] == us && all[k] == ")" && all[0] == "(";
  }

  lemma {:induction false} BlockSound(s: string, i: nat) returns (ts: seq<string>)
    requires Line(s) && i <= |s| && Sees(s, i, "(") && ParseBlock(s, i).Ok?
    ensures Reads(s, i, ts, ParseBlock(s, i).pos) && BlockG(ts, Text(s, ParseBlock(s, i).cmd))
    decreases |s| - i, 0
  {
    PeekSymbol(s, i, '(');
    ReadsToken(s, i, "(");
    hide Lex, Skip, GetToken, Sees, Text, Wrap, WrapText, BlockG, LineG, ParseRedirs, ParseLine, TextOf;
    var open := GetToken(s, i).next;
    var line := ParseLine(s, open);
    var us := LineSound(s, open);
    PeekSymbol(s, line.pos, ')');
    ReadsToken(s, line.pos, ")");
    var close := GetToken(s, line.pos).next;
    var rs := ParseRedirs(s, close, []);
    var vs := RedirsSound(s, close, []);
    TextOfWrap(s, line.cmd, rs.list);
    assert FilesOf(s, []) + FilesIn(vs) == FilesIn(vs);
    ReadsOn(s, i, ["("], open, us, line.pos);
    ReadsOn(s, i, ["("] + us, line.pos, [")"], close);
    ReadsOn(s, i, ["("] + us + [")"], close, vs, rs.pos);
    ts := ["("] + us + [")"] + vs;
    BlockFits(us, Text(s, line.cmd), vs);
  }

  lemma PipeFits(ts: seq<string>, l: Cmd<string>, us: seq<string>, r: Cmd<string>)
    requires ExecG(ts, l) && PipeG(us, r)
    ensures PipeG(ts + ["|"] + us, Pipe(l, r))
  {
    hide ExecG;
    var all, k := ts + ["|"] + us, |ts|;
    assert all[..k] == ts && all[k + 1..] == us && all[k] == "|";
  }

  lemma {:induction false} PipeSound(s: string, i: nat) returns (ts: seq<string>)
    requires Line(s) && i <= |s| && ParsePipe(s, i).Ok?
    ensures Reads(s, i, ts, ParsePipe(s, i).pos) && PipeG(ts, Text(s, ParsePipe(s, i).cmd))
    decreases |s| - i, 2
  {
    hide Lex, Skip, GetToken, Sees, ExecG, ParseExec, TextOf;
    var left := ParseExec(s, i);
    ts := ExecSound(s, i);
    if Sees(s, left.pos, "|") {
      PeekSymbol(s, left.pos, '|');
      ReadsToken(s, left.pos, "|");
      var next := GetToken(s, left.pos).next;
      var us := PipeSound(s, next);
      ReadsOn(s, i, ts, left.pos, ["|"], next);
      ReadsOn(s, i, ts + ["|"], next, us, ParsePipe(s, i).pos);
      PipeFits(ts, Text(s, left.cmd), us, Text(s, ParsePipe(s, next).cmd));
      ts := ts + ["|"] + us;
    }
  }

  lemma {:induction false} BacksSound(s: string, i: nat, cmd: Cmd<Span>, before: seq<string>)
    returns (ts: seq<string>)
    requires Line(s) && i <= |s| && i == Skip(s, i) && BackG(before, Text(s, cmd))
    ensures var r := ParseBacks(s, i, cmd); Reads(s, i, ts, r.pos) && BackG(before + ts, Text(s, r.cmd))
    decreases |s| - i
  {
    hide Lex, Skip, GetToken, Sees, PipeG, TextOf;
    if Sees(s, i, "&") {
      PeekSymbol(s, i, '&');
      ReadsToken(s, i, "&");
      var next := GetToken(s, i).next;
      assert (before + ["&"])[..|before|] == before;
      var us := BacksSound(s, next, Back(cmd), before + ["&"]);
      ReadsOn(s, i, ["&"], next, us, ParseBacks(s, i, cmd).pos);
      ts := ["&"] + us;
      assert before + ["&"] + us == before + ts;
    } else {
      ts := [];
      assert before + [] == before && [] + Lex(s, i) == Lex(s, i);
    }
  }

  lemma LineFits(ts: seq<string>, l: Cmd<string>, us: seq<string>, r: Cmd<string>)
    requires BackG(ts, l) && LineG(us, r)
    ensures LineG(ts + [";"] + us, List(l, r))
  {
    hide BackG;
    var all, k := ts + [";"] + us, |ts|;
    assert all[..k] == ts && all[k + 1..] == us && all[k] == ";";
  }

  lemma {:induction false} LineSound(s: string, i: nat) returns (ts: seq<string>)
    requires Line(s) && i <= |s| && ParseLine(s, i).Ok?
    ensures Reads(s, i, ts, ParseLine(s, i).pos) && LineG(ts, Text(s, ParseLine(s, i).cmd))
    decreases |s| - i, 3
  {
    hide Lex, Skip, GetToken, Sees, PipeG, ParsePipe, ParseBacks, TextOf;
    var pipe := ParsePipe(s, i);
    var us := PipeSound(s, i);
    var left := ParseBacks(s, pipe.pos, pipe.cmd);
    var vs := BacksSound(s, pipe.pos, pipe.cmd, us);
    ReadsOn(s, i, us, pipe.pos, vs, left.pos);
    ts := us + vs;
    if Sees(s, left.pos, ";") {
      PeekSymbol(s, left.pos, ';');
      ReadsToken(s, left.pos, ";");
      var next := GetToken(s, left.pos).next;
      var ws := LineSound(s, next);
      ReadsOn(s, i, ts, left.pos, [";"], next);
      ReadsOn(s, i, ts + [";"], next, ws, ParseLine(s, i).pos);
      LineFits(ts, Text(s, left.cmd), ws, Text(s, ParseLine(s, next).cmd));
      ts := ts + [";"] + ws;
    }
  }

  lemma NextSkipped(s: string, i: nat)
    requires i <= |s|
    ensures GetToken(s, i).next == Skip(s, GetToken(s, i).next)
  {
    SkipTwice(s, i);
    SkipTwice(s, GetToken(s, i).eq);
  }

  lemma SeesSkip(s: string, i: nat, toks: string)
    requires i <= |s|
    ensures Sees(s, Skip(s, i), toks) == Sees(s, i, toks)
  {
    SkipTwice(s, i);
  }

  // ---------------------------------------------------------------- what is derived is parsed

  /** The tokens ts come next, and then more. */
  ghost predicate Comes(s: string, i: nat, ts: seq<string>, more: seq<string>) {
    Line(s) && i <= |s| && Lex(s, i) == ts + more
  }

  /** The first of the tokens is taken. */
  lemma ComesOn(s: string, i: nat, a: string, ts: seq<string>, more: seq<string>)
    requires Comes(s, i, [a] + ts, more)
    ensures var t := GetToken(s, i);
            && Comes(s, t.next, ts, more) && IsTok(a) && t.kind == KindOf(a) && TextOf(s, Span(t.q, t.eq)) == a
            && t.next > i && t.next == Skip(s, t.next)
  {
    hide Lex, Skip, GetToken, TextOf, IsTok, KindOf;
    assert [a] + ts + more == [a] + (ts + more);
    ReadsToken(s, i, a);
    assert Lex(s, GetToken(s, i).next) == ([a] + (ts + more))[1..];
  }

  lemma ComesSkip(s: string, i: nat, ts: seq<string>, more: seq<string>)
    requires Comes(s, i, ts, more)
    ensures Comes(s, Skip(s, i), ts, more)
  {
    LexSkip(s, i);
  }

  /** No redirection comes next. */
  lemma NoRedirComes(s: string, i: nat, ts: seq<string>, more: seq<string>, acc: seq<Redirection>)
    requires Comes(s, i, ts, more) && (ts + more != [] ==> !IsRedir((ts + more)[0]))
    ensures var r := ParseRedirs(s, i, acc); r == Redirected(acc, Skip(s, i)) && Comes(s, r.pos, ts, more)
  {
    PeekRedir(s, i);
    ComesSkip(s, i, ts, more);
  }

  lemma RedirSeen(s: string, i: nat, a: string, ts: seq<string>, more: seq<string>)
    requires Comes(s, i, [a] + ts, more) && IsRedir(a)
    ensures i <= |s| && Sees(s, i, "<>") && Comes(s, Skip(s, i), [a] + ts, more)
  {
    hide Lex, Skip, Sees;
    assert (([a] + ts) + more)[0] == a;
    PeekRedir(s, i);
    ComesSkip(s, i, [a] + ts, more);
  }

  /** One redirection comes next. */
  lemma RedirComes(s: string, i: nat, a: string, b: string, ts: seq<string>, more: seq<string>,
                   acc: seq<Redirection>) returns (j: nat, acc': seq<Redirection>)
    requires Comes(s, i, [a, b] + ts, more) && IsRedir(a) && Word(b)
    ensures Comes(s, j, ts, more) && ParseRedirs(s, i, acc) == ParseRedirs(s, j, acc')
    ensures FilesOf(s, acc') == FilesOf(s, acc) + [(b, a != "<")]
  {
    hide Lex, Skip, GetToken, TextOf, Sees, Word, IsTok, Comes;
    assert [a, b] + ts == [a] + ([b] + ts);
    RedirSeen(s, i, a, [b] + ts, more);
    ComesOn(s, Skip(s, i), a, [b] + ts, more);
    var op := GetToken(s, Skip(s, i));
    ComesOn(s, op.next, b, ts, more);
    WordKind(b);
    var file := GetToken(s, op.next);
    j, acc' := file.next, acc + [Redirection(Span(file.q, file.eq), op.kind != '<')];
    assert FilesOf(s, acc') == FilesOf(s, acc) + [(b, a != "<")];
  }

  lemma {:induction false} RedirsComplete(s: string, i: nat, ts: seq<string>, acc: seq<Redirection>, more: seq<string>)
    requires Comes(s, i, ts, more) && IsArgs(ts) && WordsIn(ts) == [] && (more != [] ==> !IsRedir(more[0]))
    ensures var r := ParseRedirs(s, i, acc);
            r.Redirected? && FilesOf(s, r.list) == FilesOf(s, acc) + FilesIn(ts) && Comes(s, r.pos, [], more)
    decreases |ts|
  {
    hide Lex, Skip, Word, Comes, ParseRedirs, TextOf;
    if ts == [] {
      assert [] + more == more;
      NoRedirComes(s, i, [], more, acc);
      assert FilesOf(s, acc) + [] == FilesOf(s, acc);
    } else {
      if Word(ts[0]) { WordIsNoRedir(ts[0]); }
      assert ts == [ts[0], ts[1]] + ts[2..];
      var j, acc' := RedirComes(s, i, ts[0], ts[1], ts[2..], more, acc);
      RedirsComplete(s, j, ts[2..], acc', more);
    }
  }

  /** Nothing, or a token that ends a simple command, comes next. */
  ghost predicate Ends(more: seq<string>) {
    more != [] ==> EndsCommand(more[0])
  }

  lemma ArgsCompleteEnd(s: string, i: nat, words: seq<Span>, rs: seq<Redirection>, more: seq<string>)
    requires Comes(s, i, [], more) && Ends(more)
    ensures var r := ParseArgs(s, i, words, rs);
            && r.Ok? && Comes(s, r.pos, [], more)
            && Text(s, r.cmd) == WrapText(Exec(TextsOf(s, words)), FilesOf(s, rs))
  {
    assert [] + more == more;
    PeekEnd(s, i);
    LexSkip(s, i);
    HasToken(s, Skip(s, i));
    ArgsSoundEnd(s, i, words, rs);
    hide ParseArgs, Lex, Skip, Text;
    assert [] + Lex(s, ParseArgs(s, i, words, rs).pos) == Lex(s, ParseArgs(s, i, words, rs).pos);
  }

  /** A word comes next. */
  lemma WordComes(s: string, i: nat, w: string, ts: seq<string>, more: seq<string>, words: seq<Span>,
                  rs: seq<Redirection>) returns (j: nat, words': seq<Span>)
    requires Comes(s, i, [w] + ts, more) && Word(w) && |words| < 9
    ensures Comes(s, j, ts, more) && TextsOf(s, words') == TextsOf(s, words) + [w]
    ensures ParseArgs(s, i, words, rs) ==
              var q := ParseRedirs(s, j, rs); if q.NoFile? then Panic else ParseArgs(s, q.pos, words', q.list)
  {
    assert (([w] + ts) + more)[0] == w;
    PeekEnd(s, i);
    ComesSkip(s, i, [w] + ts, more);
    WordIsNoRedir(w);
    WordKind(w);
    hide Lex, Skip, GetToken, TextOf, Sees, Word, IsTok, ParseRedirs;
    ComesOn(s, Skip(s, i), w, ts, more);
    var t := GetToken(s, Skip(s, i));
    j, words' := t.next, words + [Span(t.q, t.eq)];
  }

  /** Redirections and then words, as parseexec takes them. */
  lemma {:induction false} ArgsComplete(s: string, i: nat, ts: seq<string>, words: seq<Span>, rs: seq<Redirection>,
                                        more: seq<string>)
    requires Comes(s, i, ts, more) && IsArgs(ts) && |words| + |WordsIn(ts)| < 10 && Ends(more)
    ensures var q := ParseRedirs(s, i, rs);
            && q.Redirected?
            && var r := ParseArgs(s, q.pos, words, q.list);
               && r.Ok? && Comes(s, r.pos, [], more)
               && Text(s, r.cmd) == WrapText(Exec(TextsOf(s, words) + WordsIn(ts)), FilesOf(s, rs) + FilesIn(ts))
    decreases |ts|
  {
    hide Lex, Skip, Word, Comes, ParseRedirs, ParseArgs, TextOf, Text, WrapText, TextsOf, FilesOf, IsArgs, WordsIn,
         FilesIn, IsRedir;
    if ts != [] { ArgsHead(ts); }
    if ts == [] {
      NoArgs();
      assert [] + more == more;
      EndsNoRedir(more);
      NoRedirComes(s, i, [], more, rs);
      ArgsCompleteEnd(s, Skip(s, i), words, rs, more);
      assert TextsOf(s, words) + [] == TextsOf(s, words) && FilesOf(s, rs) + [] == FilesOf(s, rs);
    } else if IsRedir(ts[0]) {
      assert ts == [ts[0], ts[1]] + ts[2..];
      var j, rs' := RedirComes(s, i, ts[0], ts[1], ts[2..], more, rs);
      ArgsComplete(s, j, ts[2..], words, rs', more);
      var f := [(ts[1], ts[0] != "<")];
      assert FilesOf(s, rs) + f + FilesIn(ts[2..]) == FilesOf(s, rs) + (f + FilesIn(ts[2..]));
    } else {
      assert (ts + more)[0] == ts[0];
      NoRedirComes(s, i, ts, more, rs);
      assert ts == [ts[0]] + ts[1..];
      var j, words' := WordComes(s, Skip(s, i), ts[0], ts[1..], more, words, rs);
      assert |words'| == |words| + 1 by { TextsSize(s, words'); TextsSize(s, words); }
      ArgsComplete(s, j, ts[1..], words', rs, more);
      assert TextsOf(s, words) + [ts[0]] + WordsIn(ts[1..]) == TextsOf(s, words) + ([ts[0]] + WordsIn(ts[1..]));
    }
  }

  lemma TextsSize(s: string, ws: seq<Span>)
    ensures |TextsOf(s, ws)| == |ws|
  {
  }

  lemma SimpleComplete(s: string, i: nat, ts: seq<string>, t: Cmd<string>, more: seq<string>)
    requires Comes(s, i, ts, more) && SimpleG(ts, t) && Ends(more)
    ensures var r := ParseExec(s, i); r.Ok? && Text(s, r.cmd) == t && Comes(s, r.pos, [], more)
  {
    PeekSymbol(s, i, '(');
    NoParenFirst(ts, more);
    ComesSkip(s, i, ts, more);
    hide Lex, Skip, Sees, Comes, ParseRedirs, ParseArgs, TextOf, Text, WrapText, IsArgs;
    ArgsComplete(s, Skip(s, i), ts, [], [], more);
    assert TextsOf(s, []) + WordsIn(ts) == WordsIn(ts) && FilesOf(s, []) + FilesIn(ts) == FilesIn(ts);
  }

  lemma NoParenFirst(ts: seq<string>, more: seq<string>)
    requires IsArgs(ts) && Ends(more)
    ensures ts + more != [] ==> (ts + more)[0] != "("
  {
    if ts != [] && Word(ts[0]) { WordIsNoRedir(ts[0]); }
  }

  lemma {:induction false} ExecComplete(s: string, i: nat, ts: seq<string>, t: Cmd<string>, more: seq<string>)
    requires Comes(s, i, ts, more) && ExecG(ts, t) && Ends(more)
    ensures var r := ParseExec(s, i); r.Ok? && Text(s, r.cmd) == t && Comes(s, r.pos, [], more)
    decreases |ts|, 1
  {
    hide SimpleG, BlockG, Comes, ParseExec, Text;
    if SimpleG(ts, t) { SimpleComplete(s, i, ts, t, more); } else { BlockComplete(s, i, ts, t, more); }
  }

  /** ( is taken, and what stands in parentheses comes next. */
  lemma OpenComes(s: string, i: nat, ts: seq<string>, more: seq<string>) returns (j: nat)
    requires Comes(s, i, ["("] + ts, more)
    ensures Sees(s, i, "(") && Sees(s, Skip(s, i), "(") && j == GetToken(s, Skip(s, i)).next && Comes(s, j, ts, more)
  {
    assert ((["("] + ts) + more)[0] == "(";
    PeekSymbol(s, i, '(');
    SeesSkip(s, i, "(");
    ComesSkip(s, i, ["("] + ts, more);
    hide Comes, Lex, Skip, GetToken;
    ComesOn(s, Skip(s, i), "(", ts, more);
    j := GetToken(s, Skip(s, i)).next;
  }

  lemma CloseComes(s: string, i: nat, ts: seq<string>, more: seq<string>) returns (j: nat)
    requires Comes(s, i, [")"] + ts, more)
    ensures Sees(s, i, ")") && j == GetToken(s, i).next && Comes(s, j, ts, more)
  {
    assert (([")"] + ts) + more)[0] == ")";
    PeekSymbol(s, i, ')');
    hide Comes, Lex, Skip, GetToken;
    ComesOn(s, i, ")", ts, more);
    j := GetToken(s, i).next;
  }

  lemma ComesSplit(s: string, i: nat, ts: seq<string>, us: seq<string>, more: seq<string>)
    requires Line(s) && i <= |s|
    ensures Comes(s, i, ts + us, more) <==> Comes(s, i, ts, us + more)
  {
    assert ts + us + more == ts + (us + more);
  }

  /** The parts of a block. */
  lemma BlockSplit(ts: seq<string>, t: Cmd<string>) returns (us: seq<string>, c: Cmd<string>, vs: seq<string>)
    requires BlockG(ts, t)
    ensures ts == ["("] + us + [")"] + vs && LineG(us, c) && IsArgs(vs) && WordsIn(vs) == []
    ensures t == WrapText(c, FilesIn(vs))
  {
    hide LineG, IsArgs, WordsIn, FilesIn, WrapText;
    var k: nat, d :|
      && 0 < k < |ts| && ts[0] == "(" && ts[k] == ")" && LineG(ts[1..k], d)
      && IsArgs(ts[k + 1..]) && WordsIn(ts[k + 1..]) == [] && t == WrapText(d, FilesIn(ts[k + 1..]));
    us, c, vs := ts[1..k], d, ts[k + 1..];
  }

  lemma {:induction false} BlockComplete(s: string, i: nat, ts: seq<string>, t: Cmd<string>, more: seq<string>)
    requires Comes(s, i, ts, more) && BlockG(ts, t) && Ends(more)
    ensures var r := ParseExec(s, i); r.Ok? && Text(s, r.cmd) == t && Comes(s, r.pos, [], more)
    decreases |ts|, 0
  {
    assert i <= |s| && Line(s);
    hide Comes, Lex, Skip, GetToken, Sees, LineG, IsArgs, WordsIn, FilesIn, WrapText, Wrap, Text, ParseRedirs,
         ParseLine, FilesOf, BlockG;
    var us, c, vs := BlockSplit(ts, t);
    var tail := [")"] + vs;
    assert ts == ["("] + (us + tail);
    var j := OpenComes(s, i, us + tail, more);
    ComesSplit(s, j, us, tail, more);
    assert (tail + more)[0] == ")";
    LineComplete(s, j, us, c, tail + more);
    Continue(s, ParseLine(s, j).pos, tail, more);
    BlockCloses(s, i, c, vs, more);
  }

  /** Behind the line in parentheses: the closing one, and the redirections. */
  lemma BlockCloses(s: string, i: nat, c: Cmd<string>, vs: seq<string>, more: seq<string>)
    requires Line(s) && i <= |s| && Sees(s, i, "(") && Sees(s, Skip(s, i), "(") && IsArgs(vs) && WordsIn(vs) == []
    requires var line := ParseLine(s, GetToken(s, Skip(s, i)).next);
             line.Ok? && Text(s, line.cmd) == c && Comes(s, line.pos, [")"] + vs, more) && Ends(more)
    ensures var r := ParseExec(s, i);
            r.Ok? && Text(s, r.cmd) == WrapText(c, FilesIn(vs)) && Comes(s, r.pos, [], more)
  {
    hide Comes, Lex, Skip, GetToken, Sees, IsArgs, WordsIn, FilesIn, WrapText, Wrap, Text, ParseRedirs, ParseLine,
         FilesOf;
    var line := ParseLine(s, GetToken(s, Skip(s, i)).next);
    var close := CloseComes(s, line.pos, vs, more);
    EndsNoRedir(more);
    RedirsComplete(s, close, vs, [], more);
    TextOfWrap(s, line.cmd, ParseRedirs(s, close, []).list);
    NoFiles(s);
    assert [] + FilesIn(vs) == FilesIn(vs);
  }

  lemma NoFiles(s: string)
    ensures FilesOf(s, []) == []
  {
  }

  lemma EndsNoRedir(more: seq<string>)
    requires Ends(more)
    ensures more != [] ==> !IsRedir(more[0])
  {
  }

  lemma Continue(s: string, i: nat, ts: seq<string>, more: seq<string>)
    requires Comes(s, i, [], ts + more)
    ensures Comes(s, i, ts, more)
  {
    assert [] + (ts + more) == ts + more;
  }

  /** The next token, if any, is one of these symbols. */
  ghost predicate Only(more: seq<string>, toks: string) {
    more != [] ==> |more[0]| == 1 && more[0][0] in toks
  }

  lemma OnlyEnds(more: seq<string>, toks: string)
    requires Only(more, toks) && forall c :: c in toks ==> c in "|&;)"
    ensures Ends(more)
  {
  }

  /** A symbol is taken if it comes next, and only then. */
  lemma SymbolComes(s: string, i: nat, c: char, more: seq<string>)
    requires Comes(s, i, [], more) && c in "|&;()"
    ensures Sees(s, i, [c]) <==> more != [] && more[0] == [c]
    ensures more != [] && more[0] == [c] ==>
              var j := GetToken(s, i).next; Comes(s, j, [], more[1..]) && j == Skip(s, j) && j > i
  {
    assert [] + more == more;
    PeekSymbol(s, i, c);
    if more != [] && more[0] == [c] {
      hide Lex, Skip, GetToken, TextOf, IsTok, KindOf;
      assert more == [[c]] + more[1..];
      assert [[c]] + [] + more[1..] == more;
      ComesOn(s, i, [c], [], more[1..]);
    }
  }

  lemma {:induction false} PipeComplete(s: string, i: nat, ts: seq<string>, t: Cmd<string>, more: seq<string>)
    requires Comes(s, i, ts, more) && PipeG(ts, t) && Only(more, "&;)")
    ensures var r := ParsePipe(s, i); r.Ok? && Text(s, r.cmd) == t && Comes(s, r.pos, [], more)
    decreases |ts|, 2
  {
    assert i <= |s| && Line(s);
    hide Comes, Lex, Skip, GetToken, Sees, ExecG, ParseExec, TextOf;
    OnlyEnds(more, "&;)");
    if ExecG(ts, t) {
      ExecComplete(s, i, ts, t, more);
      SymbolComes(s, ParseExec(s, i).pos, '|', more);
    } else {
      var k :| 0 <= k < |ts| && ts[k] == "|" && ExecG(ts[..k], t.left) && PipeG(ts[k + 1..], t.right);
      CutAt(s, i, ts, more, k);
      ExecComplete(s, i, ts[..k], t.left, ["|"] + (ts[k + 1..] + more));
      var left := ParseExec(s, i);
      var next := SymbolThen(s, left.pos, '|', ts[k + 1..], more);
      PipeComplete(s, next, ts[k + 1..], t.right, more);
    }
  }

  lemma CutAt(s: string, i: nat, ts: seq<string>, more: seq<string>, k: nat)
    requires Comes(s, i, ts, more) && k < |ts|
    ensures Comes(s, i, ts[..k], [ts[k]] + (ts[k + 1..] + more))
  {
    assert ts + more == ts[..k] + ([ts[k]] + (ts[k + 1..] + more));
  }

  lemma SymbolThen(s: string, i: nat, c: char, ts: seq<string>, more: seq<string>) returns (j: nat)
    requires Comes(s, i, [], [[c]] + (ts + more)) && c in "|&;()"
    ensures i <= |s| && Sees(s, i, [c]) && j == GetToken(s, i).next && Comes(s, j, ts, more)
  {
    var rest := [[c]] + (ts + more);
    assert rest[0] == [c] && rest[1..] == ts + more;
    hide Lex, Skip, GetToken, Sees;
    SymbolComes(s, i, c, rest);
    j := GetToken(s, i).next;
    Continue(s, j, ts, more);
  }

  function Amps(n: nat): (r: seq<string>) {
    if n == 0 then [] else ["&"] + Amps(n - 1)
  }

  function Backs<W>(c: Cmd<W>, n: nat): (r: Cmd<W>)
    decreases n
  {
    if n == 0 then c else Backs(Back(c), n - 1)
  }

  lemma {:induction false} AmpsMore(n: nat)
    ensures Amps(n + 1) == Amps(n) + ["&"]
  {
    if n > 0 { AmpsMore(n - 1); }
  }

  lemma {:induction false} BacksMore(t: Cmd<string>, n: nat)
    ensures Backs(t, n + 1) == Back(Backs(t, n))
    decreases n
  {
    if n > 0 { BacksMore(Back(t), n - 1); }
  }

  /** A pipe and its ampersands. */
  lemma {:induction false} BackSplit(ts: seq<string>, t: Cmd<string>) returns (us: seq<string>, c: Cmd<string>, n: nat)
    requires BackG(ts, t)
    ensures PipeG(us, c) && ts == us + Amps(n) && t == Backs(c, n)
    decreases |ts|
  {
    if PipeG(ts, t) {
      us, c, n := ts, t, 0;
    } else {
      var m;
      us, c, m := BackSplit(ts[..|ts| - 1], t.cmd);
      n := m + 1;
      AmpsMore(m);
      BacksMore(c, m);
      assert us + (Amps(m) + ["&"]) == us + Amps(m) + ["&"];
    }
  }

  lemma {:induction false} BacksComplete(s: string, i: nat, n: nat, cmd: Cmd<Span>, more: seq<string>)
    requires Comes(s, i, [], Amps(n) + more) && i == Skip(s, i) && (more != [] ==> more[0] != "&")
    ensures var r := ParseBacks(s, i, cmd); Text(s, r.cmd) == Backs(Text(s, cmd), n) && Comes(s, r.pos, [], more)
    decreases n
  {
    assert i <= |s| && Line(s);
    hide Comes, Lex, Skip, GetToken, Sees, TextOf;
    SymbolComes(s, i, '&', Amps(n) + more);
    if n == 0 {
      assert Amps(0) + more == more;
    } else {
      assert Amps(n) + more == ["&"] + (Amps(n - 1) + more);
      BacksComplete(s, GetToken(s, i).next, n - 1, Back(cmd), more);
    }
  }

  lemma {:induction false} BackComplete(s: string, i: nat, ts: seq<string>, t: Cmd<string>, more: seq<string>)
    requires Comes(s, i, ts, more) && BackG(ts, t) && Only(more, ";)")
    ensures var p := ParsePipe(s, i);
            && p.Ok? && var r := ParseBacks(s, p.pos, p.cmd); Text(s, r.cmd) == t && Comes(s, r.pos, [], more)
    decreases |ts|, 3
  {
    hide Lex, Skip, PipeG, ParsePipe, ParseBacks, Text, Backs, BackG;
    var us, c, n := BackSplit(ts, t);
    var rest := Amps(n) + more;
    assert ts + more == us + rest;
    if n > 0 { assert rest[0] == "&"; } else { assert rest == more; }
    PipeComplete(s, i, us, c, rest);
    var p := ParsePipe(s, i);
    BacksComplete(s, p.pos, n, p.cmd, more);
  }

  lemma {:induction false} ListComplete(s: string, i: nat, ts: seq<string>, t: Cmd<string>, more: seq<string>, k: nat)
    requires Comes(s, i, ts, more) && Only(more, ")") && t.List? && k < |ts| && ts[k] == ";"
    requires BackG(ts[..k], t.left) && LineG(ts[k + 1..], t.right)
    ensures var r := ParseLine(s, i); r.Ok? && Text(s, r.cmd) == t && Comes(s, r.pos, [], more)
    decreases |ts|, 4
  {
    assert i <= |s| && Line(s);
    hide Comes, Lex, Skip, GetToken, Sees, BackG, LineG, ParsePipe, ParseBacks, TextOf;
    CutAt(s, i, ts, more, k);
    BackComplete(s, i, ts[..k], t.left, [";"] + (ts[k + 1..] + more));
    var pipe := ParsePipe(s, i);
    var left := ParseBacks(s, pipe.pos, pipe.cmd);
    var next := SymbolThen(s, left.pos, ';', ts[k + 1..], more);
    LineComplete(s, next, ts[k + 1..], t.right, more);
  }

  lemma {:induction false} LineComplete(s: string, i: nat, ts: seq<string>, t: Cmd<string>, more: seq<string>)
    requires Comes(s, i, ts, more) && LineG(ts, t) && Only(more, ")")
    ensures var r := ParseLine(s, i); r.Ok? && Text(s, r.cmd) == t && Comes(s, r.pos, [], more)
    decreases |ts|, 5
  {
    assert i <= |s| && Line(s);
    hide Comes, Lex, Skip, GetToken, Sees, BackG, ParsePipe, ParseBacks, TextOf, Text;
    if BackG(ts, t) {
      BackComplete(s, i, ts, t, more);
      var pipe := ParsePipe(s, i);
      SymbolComes(s, ParseBacks(s, pipe.pos, pipe.cmd).pos, ';', more);
    } else {
      var k :| 0 <= k < |ts| && ts[k] == ";" && BackG(ts[..k], t.left) && LineG(ts[k + 1..], t.right);
      hide LineG, ParseLine;
      ListComplete(s, i, ts, t, more, k);
    }
  }

  lemma LexAtEnd(s: string, i: nat)
    requires i <= |s| && i == Skip(s, i)
    ensures Lex(s, i) == [] <==> i == |s|
  {
  }

  /** The parser is the grammar: parsecmd gives the tree t exactly if the tokens of the line derive t. */
  lemma ParsesGrammar(s: string, t: Cmd<string>)
    requires Line(s)
    ensures LineG(Lex(s, 0), t) <==> ParseCmd(s).Ok? && Text(s, ParseCmd(s).cmd) == t
  {
    hide Lex, Skip, LineG, ParseLine, Text;
    var ts := Lex(s, 0);
    if ParseCmd(s).Ok? {
      var us := LineSound(s, 0);
      LexAtEnd(s, |s|);
      assert us + [] == us;
    }
    if LineG(ts, t) {
      assert ts + [] == ts;
      LineComplete(s, 0, ts, t, []);
      LexAtEnd(s, ParseLine(s, 0).pos);
    }
  }

  ghost predicate Derivable(s: string) {
    exists t :: LineG(Lex(s, 0), t)
  }

  /** It panics exactly on a line whose tokens derive nothing, and no tokens derive two trees. */
  lemma PanicsOutsideGrammar(s: string)
    requires Line(s)
    ensures ParseCmd(s).Panic? <==> !Derivable(s)
    ensures forall t, t' :: LineG(Lex(s, 0), t) && LineG(Lex(s, 0), t') ==> t == t'
  {
    hide Lex, LineG, ParseCmd;
    if ParseCmd(s).Ok? { ParsesGrammar(s, Text(s, ParseCmd(s).cmd)); }
    forall t | LineG(Lex(s, 0), t) ensures ParseCmd(s).Ok? && Text(s, ParseCmd(s).cmd) == t { ParsesGrammar(s, t); }
  }

  // ---------------------------------------------------------------- printing

  /** A tree that a command line can give: real words, and fewer than ten of them per command. */
  predicate Printable(t: Cmd<string>) {
    match t
    case Exec(ws) => |ws| < 10 && forall k {:trigger ws[k]} :: 0 <= k < |ws| ==> Word(ws[k])
    case Redir(d, f, _) => Printable(d) && Word(f)
    case Pipe(l, r) => Printable(l) && Printable(r)
    case List(l, r) => Printable(l) && Printable(r)
    case Back(d) => Printable(d)
  }

  /** How deep in the grammar a tree can stand without parentheses; orders the four printers on one tree. */
  function Rank(t: Cmd<string>, level: nat): (n: nat)
    requires level < 4
  {
    // levels: 0 exec, 1 pipe, 2 back, 3 line
    match t
    case List(_, _) => if level == 3 then 0 else level + 1
    case Back(_) => if level == 2 then 0 else if level == 3 then 1 else level + 2
    case Pipe(_, _) => if level == 1 then 0 else if level == 0 then 3 else level - 1
    case _ => level
  }

  function ExecToks(t: Cmd<string>): (r: seq<string>)
    decreases t, Rank(t, 0)
  {
    match t
    case Exec(ws) => ws
    case Redir(d, f, out) => ExecToks(d) + [if out then ">" else "<", f]
    case _ => ["("] + LineToks(t) + [")"]
  }

  function PipeToks(t: Cmd<string>): (r: seq<string>)
    decreases t, Rank(t, 1)
  {
    match t
    case Pipe(l, r) => ExecToks(l) + ["|"] + PipeToks(r)
    case _ => ExecToks(t)
  }

  function BackToks(t: Cmd<string>): (r: seq<string>)
    decreases t, Rank(t, 2)
  {
    match t
    case Back(d) => BackToks(d) + ["&"]
    case _ => PipeToks(t)
  }

  function LineToks(t: Cmd<string>): (r: seq<string>)
    decreases t, Rank(t, 3)
  {
    match t
    case List(l, r) => BackToks(l) + [";"] + LineToks(r)
    case _ => BackToks(t)
  }

  lemma {:induction false} WordsAreArgs(ws: seq<string>)
    requires forall k {:trigger ws[k]} :: 0 <= k < |ws| ==> Word(ws[k])
    ensures IsArgs(ws) && WordsIn(ws) == ws && FilesIn(ws) == []
    decreases |ws|
  {
    if ws != [] {
      WordIsNoRedir(ws[0]);
      WordsAreArgs(ws[1..]);
    }
  }

  lemma WrapMore(t: Cmd<string>, fs: seq<(string, bool)>, f: (string, bool))
    ensures WrapText(t, fs + [f]) == Redir(WrapText(t, fs), f.0, f.1)
  {
    assert (fs + [f])[..|fs|] == fs;
  }

  /** One more redirection of a simple command or a block. */
  lemma SimpleRedirected(ts: seq<string>, t: Cmd<string>, a: string, f: string)
    requires SimpleG(ts, t) && IsRedir(a) && Word(f)
    ensures SimpleG(ts + [a, f], Redir(t, f, a != "<"))
  {
    OneArg(f);
    ArgsConcat(ts, [a, f]);
    hide Word, IsRedir, IsArgs, WordsIn, FilesIn;
    WrapMore(Exec(WordsIn(ts)), FilesIn(ts), (f, a != "<"));
    assert WordsIn(ts) + [] == WordsIn(ts);
  }

  lemma BlockRedirected(ts: seq<string>, t: Cmd<string>, a: string, f: string)
    requires BlockG(ts, t) && IsRedir(a) && Word(f)
    ensures BlockG(ts + [a, f], Redir(t, f, a != "<"))
  {
    hide Word, IsRedir, IsArgs, WordsIn, FilesIn, LineG, BlockG, WrapText;
    var us, c, vs := BlockSplit(ts, t);
    OneArg(f);
    ArgsConcat(vs, [a, f]);
    BlockFits(us, c, vs + [a, f]);
    assert ["("] + us + [")"] + (vs + [a, f]) == ts + [a, f];
    WrapMore(c, FilesIn(vs), (f, a != "<"));
  }

  lemma ExecRedirected(ts: seq<string>, t: Cmd<string>, a: string, f: string)
    requires ExecG(ts, t) && IsRedir(a) && Word(f)
    ensures ExecG(ts + [a, f], Redir(t, f, a != "<"))
  {
    hide SimpleG, BlockG, Word, IsRedir;
    if SimpleG(ts, t) { SimpleRedirected(ts, t, a, f); } else { BlockRedirected(ts, t, a, f); }
  }

  function Toks(t: Cmd<string>, level: nat): (r: seq<string>) {
    if level == 0 then ExecToks(t) else if level == 1 then PipeToks(t)
    else if level == 2 then BackToks(t) else LineToks(t)
  }

  ghost predicate Derives(ts: seq<string>, t: Cmd<string>, level: nat) {
    if level == 0 then ExecG(ts, t) else if level == 1 then PipeG(ts, t)
    else if level == 2 then BackG(ts, t) else LineG(ts, t)
  }

  lemma InParens(ts: seq<string>, t: Cmd<string>)
    requires LineG(ts, t)
    ensures ExecG(["("] + ts + [")"], t)
  {
    BlockFits(ts, t, []);
    assert ["("] + ts + [")"] + [] == ["("] + ts + [")"];
  }

  lemma SimpleDerives(ws: seq<string>)
    requires Printable(Exec(ws))
    ensures ExecG(ws, Exec(ws))
  {
    WordsAreArgs(ws);
  }

  lemma BackMore(ts: seq<string>, t: Cmd<string>)
    requires BackG(ts, t)
    ensures BackG(ts + ["&"], Back(t))
  {
    assert (ts + ["&"])[..|ts|] == ts;
  }

  /** The printed tokens of a tree derive it. */
  lemma {:induction false} PrintDerives(t: Cmd<string>, level: nat)
    requires Printable(t) && level < 4
    ensures Derives(Toks(t, level), t, level)
    decreases t, Rank(t, level)
  {
    hide SimpleG, BlockG, Word;
    if level == 0 {
      if t.Redir? {
        PrintDerives(t.cmd, 0);
        ExecRedirected(ExecToks(t.cmd), t.cmd, if t.out then ">" else "<", t.file);
      } else if t.Exec? {
        SimpleDerives(t.words);
      } else {
        PrintDerives(t, 3);
        InParens(LineToks(t), t);
      }
    } else if level == 1 {
      if t.Pipe? {
        PrintDerives(t.left, 0);
        PrintDerives(t.right, 1);
        PipeFits(ExecToks(t.left), t.left, PipeToks(t.right), t.right);
      } else { PrintDerives(t, 0); }
    } else if level == 2 {
      if t.Back? {
        PrintDerives(t.cmd, 2);
        BackMore(BackToks(t.cmd), t.cmd);
      } else { PrintDerives(t, 1); }
    } else {
      if t.List? {
        PrintDerives(t.left, 2);
        PrintDerives(t.right, 3);
        LineFits(BackToks(t.left), t.left, LineToks(t.right), t.right);
      } else { PrintDerives(t, 2); }
    }
  }

  lemma {:induction false} SpellIsLine(ts: seq<string>, gaps: seq<string>)
    requires Spaced(ts, gaps)
    ensures Line(Spell(ts, gaps))
    decreases |ts|
  {
    assert White(gaps[0]);
    if ts != [] {
      SpacedTail(ts, gaps);
      SpellIsLine(ts[1..], gaps[1..]);
      assert IsTok(ts[0]);
      TokenIsLine(ts[0]);
    }
  }

  lemma TokenIsLine(a: string)
    requires IsTok(a)
    ensures Line(a)
  {
    if Word(a) { forall k | 0 <= k < |a| ensures a[k] != '\0' { assert WordChar(a[k]); } }
  }

  /** Tokens that derive a tree parse to it however they are spelled: with any white space before and after them and
      between them, and none where two of them stay two without it. */
  lemma SpellingParses(ts: seq<string>, t: Cmd<string>, gaps: seq<string>)
    requires LineG(ts, t) && Spaced(ts, gaps)
    ensures var s := Spell(ts, gaps); ParseCmd(s).Ok? && Text(s, ParseCmd(s).cmd) == t
  {
    hide LineG, Lex, ParseCmd, Text, White, IsTok, Apart;
    var s := Spell(ts, gaps);
    SpellIsLine(ts, gaps);
    assert s[0..] == s;
    SpellLexes(s, 0, ts, gaps);
    ParsesGrammar(s, t);
  }

  /** Parsing the printed form of any tree gives the tree back, with any white space. */
  lemma RoundTrip(t: Cmd<string>, gaps: seq<string>)
    requires Printable(t) && Spaced(LineToks(t), gaps)
    ensures var s := Spell(LineToks(t), gaps); ParseCmd(s).Ok? && Text(s, ParseCmd(s).cmd) == t
  {
    PrintDerives(t, 3);
    SpellingParses(LineToks(t), t, gaps);
  }
}
