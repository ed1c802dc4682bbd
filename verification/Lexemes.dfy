/**
 Which texts a symbol may be written as, and that the lexer reads exactly those:
 every symbol it returns is spelled by the text it took (soundness), and every
 spelling is read back as far as nothing after it goes on with it (completeness).
 */
module Lexemes {
  import opened Symbols
  import opened Lexing

  /** The value of a string literal's inside; None if it holds the quote or ends in a lone backslash. */
  function Unescape(body: string, quote: char): Option<string> {
    if body == [] then Some([])
    else if body[0] == quote then None
    else if body[0] == '\\' then
      if |body| < 2 then None
      else match Unescape(body[2..], quote)
        case None => None
        case Some(v) => Some([Decoded(body[1])] + v)
    else match Unescape(body[1..], quote)
      case None => None
      case Some(v) => Some([body[0]] + v)
  }

  predicate AllDigits(s: string) {
    forall i :: 0 <= i < |s| ==> IsDigit(s[i])
  }

  predicate Spells(l: string, sym: Sym) {
    match sym
    case Fixed(t) => if IsKeyword(t) then Upper(l) == Spelling(t) else l == Spelling(t)
    case Ident(name) => l == name && IsName(name)
    case Str(v) => |l| >= 2 && IsQuote(l[0]) && l[|l| - 1] == l[0] && Unescape(l[1..|l| - 1], l[0]) == Some(v)
    case Whole(n) => l != [] && AllDigits(l) && NumberValue(l) == n
    case Decimal(m, scale) =>
      var k := |l| - 1 - scale;
      k >= 1 && l[k] == '.' && AllDigits(l[..k]) && AllDigits(l[k + 1..]) && NumberValue(l[..k] + l[k + 1..]) == m
    case Eof => false
  }

  /** What may follow a symbol's spelling directly without being read as part of it. */
  predicate Stops(sym: Sym, rest: string) {
    rest == []
    || match sym
       case Fixed(t) => if IsKeyword(t) then !IsWordChar(rest[0]) else t.GT? || t.LT? ==> rest[0] != '='
       case Ident(_) => !IsWordChar(rest[0])
       case Str(_) => true
       case Whole(_) => !IsDigit(rest[0]) && rest[0] != '.'
       case Decimal(_, _) => !IsDigit(rest[0])
       case Eof => true
  }

  /** Skippable text: blanks and comments, each comment ended by its newline. */
  predicate Trivia(g: string) {
    g == []
    || (IsBlank(g[0]) && Trivia(g[1..]))
    || (g[0] == '#' && CommentRun(g) < |g| && Trivia(g[CommentRun(g)..]))
  }

  // ---------- Strings ----------

  lemma {:induction false} StringBodySound(s: string, quote: char)
    requires quote != '\\'
    requires StringBody(s, quote).Some?
    ensures var (v, n) := StringBody(s, quote).value;
            s[n - 1] == quote && Unescape(s[..n - 1], quote) == Some(v)
  {
    if s[0] == quote {
    } else if s[0] == '\\' {
      StringBodySound(s[2..], quote);
      var n := StringBody(s[2..], quote).value.1;
      assert s[..n + 1][2..] == s[2..][..n - 1];
    } else {
      StringBodySound(s[1..], quote);
      var n := StringBody(s[1..], quote).value.1;
      assert s[..n][1..] == s[1..][..n - 1];
    }
  }

  lemma {:induction false} StringBodyComplete(body: string, quote: char, rest: string)
    requires quote != '\\'
    requires Unescape(body, quote).Some?
    ensures StringBody(body + [quote] + rest, quote) == Some((Unescape(body, quote).value, |body| + 1))
  {
    var s := body + [quote] + rest;
    if body == [] {
    } else if body[0] == '\\' {
      assert s[2..] == body[2..] + [quote] + rest;
      StringBodyComplete(body[2..], quote, rest);
    } else {
      assert s[1..] == body[1..] + [quote] + rest;
      StringBodyComplete(body[1..], quote, rest);
    }
  }

  // ---------- Numbers and words ----------

  lemma {:induction false} SpellingChars(t: TokenType)
    requires IsKeyword(t)
    ensures var w := Spelling(t); forall i :: 0 <= i < |w| ==> 'A' <= w[i] <= 'Z' || w[i] == '_'
    ensures Spelling(t)[0] != '_'
  {
  }

  lemma {:induction false} KeywordChars(l: string, t: TokenType)
    requires IsKeyword(t) && Upper(l) == Spelling(t)
    ensures l != [] && IsWordStart(l[0]) && forall i :: 0 <= i < |l| ==> IsWordChar(l[i])
  {
    SpellingShape(t);
    SpellingChars(t);
    forall i | 0 <= i < |l| ensures IsWordChar(l[i]) {
      assert Spelling(t)[i] == UpperChar(l[i]);
    }
    assert Spelling(t)[0] == UpperChar(l[0]);
  }

  lemma {:induction false} NumberSound(s: string)
    requires s != [] && IsDigit(s[0])
    ensures Spells(s[..NumberLexeme(s).len], NumberLexeme(s).sym)
  {
    var n := DigitRun(s);
    if n < |s| && s[n] == '.' {
      var f := DigitRun(s[n + 1..]);
      var l := s[..n + 1 + f];
      assert l[..n] == s[..n] && l[n + 1..] == s[n + 1..][..f] == s[n + 1..n + 1 + f];
    }
  }

  lemma {:induction false} WholeComplete(l: string, n: nat, rest: string)
    requires Spells(l, Whole(n))
    ensures IsDigit(l[0]) && (NumberLexeme(l + rest) == Lexeme(Whole(n), |l|) <==> Stops(Whole(n), rest))
  {
    var s := l + rest;
    assert s[..|l|] == l;
    if Stops(Whole(n), rest) {
      WholeIs(s, |l|);
    } else {
      LongerNumber(s, |l|);
    }
  }

  /** Digits go on with digits, and a dot makes them a decimal. */
  lemma {:induction false} LongerNumber(s: string, n: nat)
    requires 0 < n < |s| && AllDigits(s[..n]) && (IsDigit(s[n]) || s[n] == '.')
    ensures NumberLexeme(s).len > n
  {
    forall i | 0 <= i < n ensures IsDigit(s[i]) { assert s[i] == s[..n][i]; }
  }

  lemma {:induction false} DecimalComplete(l: string, m: nat, scale: nat, rest: string)
    requires Spells(l, Decimal(m, scale))
    ensures IsDigit(l[0])
    ensures NumberLexeme(l + rest) == Lexeme(Decimal(m, scale), |l|) <==> Stops(Decimal(m, scale), rest)
  {
    var s, k := l + rest, |l| - 1 - scale;
    assert forall i :: 0 <= i < k ==> s[i] == l[..k][i];
    assert forall i :: k < i < |l| ==> s[i] == l[k + 1..][i - k - 1];
    assert s[..k] == l[..k] && s[k + 1..|l|] == l[k + 1..];
    if Stops(Decimal(m, scale), rest) {
      DecimalIs(s, k, |l|);
    } else {
      LongerDecimal(s, k, |l|);
    }
  }

  lemma {:induction false} LongerDecimal(s: string, k: nat, n: nat)
    requires 0 < k < n < |s| && s[k] == '.' && IsDigit(s[n])
    requires (forall i :: 0 <= i < k ==> IsDigit(s[i])) && (forall i :: k < i < n ==> IsDigit(s[i]))
    ensures NumberLexeme(s).len > n
  {
    DigitRunIs(s, k);
    var tail := s[k + 1..];
    var f := DigitRun(tail);
    assert forall i :: 0 <= i < |tail| ==> tail[i] == s[k + 1 + i];
  }

  lemma {:induction false} WordSound(s: string)
    requires s != [] && IsWordStart(s[0])
    ensures Spells(s[..WordLexeme(s).len], WordLexeme(s).sym)
  {
    assert WordRun(s) > 0;
  }

  lemma {:induction false} WordComplete(l: string, sym: Sym, rest: string)
    requires sym.Ident? || (sym.Fixed? && IsKeyword(sym.typ))
    requires Spells(l, sym)
    ensures l != [] && IsWordStart(l[0])
    ensures WordLexeme(l + rest) == Lexeme(sym, |l|) <==> Stops(sym, rest)
  {
    var s := l + rest;
    if sym.Fixed? {
      KeywordChars(l, sym.typ);
      KeywordOfSpelling(sym.typ);
    }
    assert s[..|l|] == l;
    if Stops(sym, rest) {
      WordRunIs(s, |l|);
    } else {
      LongerWord(s, |l|);
    }
  }

  lemma {:induction false} LongerWord(s: string, n: nat)
    requires 0 < n < |s| && IsWordStart(s[0]) && forall i :: 0 <= i <= n ==> IsWordChar(s[i])
    ensures WordLexeme(s).len > n
  {
  }

  // ---------- All symbols ----------

  lemma {:induction false} OperatorSound(s: string)
    requires s != [] && OperatorLexeme(s).Lexeme?
    ensures Spells(s[..OperatorLexeme(s).len], OperatorLexeme(s).sym)
  {
    var n := OperatorLexeme(s).len;
    if n == 2 {
      assert s[..2] == [s[0], s[1]];
    } else {
      assert s[..1] == [s[0]];
    }
  }

  lemma {:induction false} OperatorSpelling(t: TokenType)
    requires !IsKeyword(t)
    ensures var w := Spelling(t);
            if t.NEQ? || t.GTE? || t.LTE? then |w| == 2 && w[1] == '='
            else |w| == 1 && SingleChar(w[0]) == Some(t)
  {
  }

  lemma {:induction false} OperatorComplete(t: TokenType, rest: string)
    requires !IsKeyword(t)
    ensures var l := Spelling(t);
            && l != [] && (OperatorLexeme(l + rest) == Lexeme(Fixed(t), |l|) <==> Stops(Fixed(t), rest))
            && !IsBlank(l[0]) && l[0] != '#' && !IsQuote(l[0]) && !IsDigit(l[0]) && !IsWordStart(l[0])
  {
    OperatorSpelling(t);
    var l := Spelling(t);
    assert |l| == 1 && |l + rest| > 1 ==> (l + rest)[1] == rest[0];
  }

  /** What the lexer takes for a symbol is a spelling of it. */
  lemma {:induction false} LexemeSound(s: string)
    requires s != [] && Next(s).Lexeme?
    ensures Spells(s[..Next(s).len], Next(s).sym)
  {
    var n := Next(s).len;
    if IsQuote(s[0]) {
      StringBodySound(s[1..], s[0]);
      assert s[..n][1..n - 1] == s[1..][..n - 2];
    } else if IsDigit(s[0]) {
      NumberSound(s);
    } else if IsWordStart(s[0]) {
      WordSound(s);
    } else {
      OperatorSound(s);
    }
  }

  /** A spelling of a symbol is read as that symbol, to its end, exactly when nothing after it goes on with it. */
  lemma {:induction false} LexemeExact(l: string, sym: Sym, rest: string)
    requires Spells(l, sym)
    ensures l != [] && (Next(l + rest) == Lexeme(sym, |l|) <==> Stops(sym, rest))
  {
    var s := l + rest;
    match sym
    case Str(v) =>
      var body := l[1..|l| - 1];
      assert s[1..] == body + [l[0]] + rest;
      StringBodyComplete(body, l[0], rest);
    case Fixed(t) =>
      if IsKeyword(t) { WordComplete(l, sym, rest); } else { OperatorComplete(t, rest); }
    case Ident(_) => WordComplete(l, sym, rest);
    case Whole(n) => WholeComplete(l, n, rest);
    case Decimal(m, scale) => DecimalComplete(l, m, scale, rest);
  }

  // ---------- Whole texts ----------

  lemma {:induction false} LexSkip(s: string)
    requires s != [] && Next(s).Skip?
    ensures Lex(s) == Lex(s[Next(s).len..])
  {
    var r := Scan(s[Next(s).len..]);
    if r.Ok? {
      SymsCons(Next(s), r.value);
    }
  }

  lemma {:induction false} LexLexeme(l: string, sym: Sym, rest: string)
    requires Spells(l, sym) && Stops(sym, rest)
    ensures Lex(l + rest) == Prepend([sym], Lex(rest))
  {
    LexemeExact(l, sym, rest);
    var s := l + rest;
    assert s[|l|..] == rest;
    var r := Scan(rest);
    if r.Ok? {
      SymsCons(Next(s), r.value);
      assert [sym] + Syms(r.value) + [Eof] == [sym] + (Syms(r.value) + [Eof]);
    }
  }

  lemma {:induction false} CommentRunStays(g: string, rest: string)
    requires CommentRun(g) < |g|
    ensures CommentRun(g + rest) == CommentRun(g)
  {
    if g[0] != '\n' {
      assert (g + rest)[1..] == g[1..] + rest;
      CommentRunStays(g[1..], rest);
    }
  }

  /** Skippable text at the front changes no symbol. */
  lemma {:induction false} TriviaSkipped(g: string, rest: string)
    requires Trivia(g)
    ensures Lex(g + rest) == Lex(rest)
  {
    if g == [] {
      assert g + rest == rest;
    } else {
      var s := g + rest;
      if g[0] == '#' {
        CommentRunStays(g, rest);
      }
      var n := Next(s).len;
      assert s[n..] == g[n..] + rest;
      LexSkip(s);
      TriviaSkipped(g[n..], rest);
    }
  }

  /** A comment that no newline ends, or nothing: what may stand at the very end of a text. */
  predicate LastComment(c: string) {
    c == [] || (c[0] == '#' && '\n' !in c)
  }

  /** The lexemes in order, each followed by its gap, and what stands at the end. */
  function Layout(lexemes: seq<string>, gaps: seq<string>, end: string): string
    requires |lexemes| == |gaps|
  {
    if lexemes == [] then end else lexemes[0] + (gaps[0] + Layout(lexemes[1..], gaps[1..], end))
  }

  ghost predicate SpellAll(lexemes: seq<string>, syms: seq<Sym>) {
    |lexemes| == |syms| && forall i :: 0 <= i < |syms| ==> Spells(lexemes[i], syms[i])
  }

  /** The gaps hold blanks and comments only, and may be empty where what follows goes on with no symbol before it. */
  ghost predicate Gaps(syms: seq<Sym>, lexemes: seq<string>, gaps: seq<string>, end: string)
    requires |syms| == |lexemes| == |gaps|
  {
    syms == []
    || (&& Trivia(gaps[0]) && Stops(syms[0], gaps[0] + Layout(lexemes[1..], gaps[1..], end))
        && Gaps(syms[1..], lexemes[1..], gaps[1..], end))
  }

  /** A text that spells the symbols, after some blanks and comments. */
  ghost predicate LaidOut(
    text: string, syms: seq<Sym>, lead: string, lexemes: seq<string>, gaps: seq<string>, end: string) {
    && SpellAll(lexemes, syms) && |gaps| == |lexemes|
    && Trivia(lead) && LastComment(end) && Gaps(syms, lexemes, gaps, end)
    && text == lead + Layout(lexemes, gaps, end)
  }

  lemma {:induction false} CommentRunIsAll(s: string)
    requires '\n' !in s
    ensures CommentRun(s) == |s|
  {
    assert s[..|s|] == s;
    CommentRunIs(s, |s|);
  }

  lemma {:induction false} EndLexed(end: string)
    requires LastComment(end)
    ensures Lex(end) == Ok([Eof])
  {
    var nothing := end[|end|..];
    assert Lex(nothing) == Ok([Eof]) by { assert Syms([]) + [Eof] == [Eof]; }
    if end != [] {
      CommentRunIsAll(end);
      LexSkip(end);
    } else {
      assert nothing == end;
    }
  }

  lemma {:induction false} LexedCons(sym: Sym, syms: seq<Sym>)
    ensures Prepend([sym], Ok(syms + [Eof])) == Ok([sym] + syms + [Eof])
  {
    assert [sym] + (syms + [Eof]) == [sym] + syms + [Eof];
  }

  lemma {:induction false} LayoutLexed(syms: seq<Sym>, lexemes: seq<string>, gaps: seq<string>, end: string)
    requires SpellAll(lexemes, syms) && |gaps| == |lexemes| && LastComment(end) && Gaps(syms, lexemes, gaps, end)
    ensures Lex(Layout(lexemes, gaps, end)) == Ok(syms + [Eof])
  {
    if syms == [] {
      EndLexed(end);
    } else {
      var rest := Layout(lexemes[1..], gaps[1..], end);
      LayoutLexed(syms[1..], lexemes[1..], gaps[1..], end);
      TriviaSkipped(gaps[0], rest);
      LexLexeme(lexemes[0], syms[0], gaps[0] + rest);
      LexedCons(syms[0], syms[1..]);
      assert syms == [syms[0]] + syms[1..];
    }
  }

  /** However a symbol list is spelled and laid out, the lexer gives it back. */
  lemma {:induction false} LaidOutLexed(
    text: string, syms: seq<Sym>, lead: string, lexemes: seq<string>, gaps: seq<string>, end: string)
    requires LaidOut(text, syms, lead, lexemes, gaps, end)
    ensures Lex(text) == Ok(syms + [Eof])
  {
    LayoutLexed(syms, lexemes, gaps, end);
    TriviaSkipped(lead, Layout(lexemes, gaps, end));
  }

  lemma {:induction false} LineIsTrivia(s: string, n: nat, g: string)
    requires n < |s| && s[n] == '\n' && s[0] == '#' && CommentRun(s) == n && Trivia(g)
    ensures Trivia(s[..n + 1] + g)
  {
    var t := s[..n + 1] + g;
    assert t[n..] == [s[n]] + g && ([s[n]] + g)[1..] == g;
    assert t[..n] == s[..n];
    CommentRunIs(t, n);
  }

  lemma {:induction false} BlankIsTrivia(c: char, g: string)
    requires IsBlank(c) && Trivia(g)
    ensures Trivia([c] + g)
  {
    assert ([c] + g)[1..] == g;
  }

  /** Puts a blank or a line of comment before a text that is laid out. */
  lemma {:induction false} LeadGrows(
    s: string, n: nat, syms: seq<Sym>, lead: string, lexemes: seq<string>, gaps: seq<string>, end: string)
    requires n <= |s| && LaidOut(s[n..], syms, lead, lexemes, gaps, end) && Trivia(s[..n] + lead)
    ensures LaidOut(s, syms, s[..n] + lead, lexemes, gaps, end)
  {
    Associates(s[..n], lead, Layout(lexemes, gaps, end));
    Halves(s, n);
  }

  lemma {:induction false} Halves(s: string, n: nat)
    requires n <= |s|
    ensures s[..n] + s[n..] == s
  {
  }

  /** Puts a lexeme before a text that is laid out. */
  lemma {:induction false} LexemesGrow(
    s: string, n: nat, sym: Sym, syms: seq<Sym>, lead: string, lexemes: seq<string>, gaps: seq<string>, end: string)
    requires n <= |s| && LaidOut(s[n..], syms, lead, lexemes, gaps, end)
    requires Spells(s[..n], sym) && Stops(sym, s[n..])
    ensures LaidOut(s, [sym] + syms, [], [s[..n]] + lexemes, [lead] + gaps, end)
  {
    Halves(s, n);
    LayoutGrows(s[..n], sym, syms, lead, lexemes, gaps, end);
    assert [] + s == s;
  }

  lemma {:induction false} LayoutGrows(
    l: string, sym: Sym, syms: seq<Sym>, gap: string, lexemes: seq<string>, gaps: seq<string>, end: string)
    requires SpellAll(lexemes, syms) && |gaps| == |lexemes| && Gaps(syms, lexemes, gaps, end)
    requires Spells(l, sym) && Trivia(gap) && Stops(sym, gap + Layout(lexemes, gaps, end))
    ensures SpellAll([l] + lexemes, [sym] + syms) && Gaps([sym] + syms, [l] + lexemes, [gap] + gaps, end)
    ensures Layout([l] + lexemes, [gap] + gaps, end) == l + (gap + Layout(lexemes, gaps, end))
  {
    assert ([l] + lexemes)[1..] == lexemes && ([gap] + gaps)[1..] == gaps && ([sym] + syms)[1..] == syms;
  }

  lemma {:induction false} LexOfNothing(s: string, syms: seq<Sym>)
    requires s == [] && Lex(s) == Ok(syms + [Eof])
    ensures syms == []
  {
    assert |syms + [Eof]| == |syms| + 1;
  }

  /** Every text that lexes is laid out. */
  lemma {:induction false} Arranged(s: string, syms: seq<Sym>)
    returns (lead: string, lexemes: seq<string>, gaps: seq<string>, end: string)
    requires Lex(s) == Ok(syms + [Eof])
    ensures LaidOut(s, syms, lead, lexemes, gaps, end)
    decreases |s|
  {
    if s == [] {
      LexOfNothing(s, syms);
      lead, lexemes, gaps, end := [], [], [], [];
    } else if IsBlank(s[0]) {
      LexSkip(s);
      lead, lexemes, gaps, end := Arranged(s[1..], syms);
      BlankIsTrivia(s[0], lead);
      LeadGrows(s, 1, syms, lead, lexemes, gaps, end);
      lead := s[..1] + lead;
    } else if s[0] == '#' {
      lead, lexemes, gaps, end := ArrangedComment(s, syms);
    } else {
      lead, lexemes, gaps, end := ArrangedSymbol(s, syms);
    }
  }

  lemma {:induction false} ArrangedComment(s: string, syms: seq<Sym>)
    returns (lead: string, lexemes: seq<string>, gaps: seq<string>, end: string)
    requires s != [] && s[0] == '#' && Lex(s) == Ok(syms + [Eof])
    ensures LaidOut(s, syms, lead, lexemes, gaps, end)
    decreases |s|, 0
  {
    LexSkip(s);
    var n := CommentRun(s);
    if n == |s| {
      LexOfNothing(s[n..], syms);
      assert s[..n] == s;
      lead, lexemes, gaps, end := [], [], [], s;
      assert [] + s == s;
    } else {
      LexSkip(s[n..]);
      assert s[n..][1..] == s[n + 1..];
      lead, lexemes, gaps, end := Arranged(s[n + 1..], syms);
      LineIsTrivia(s, n, lead);
      LeadGrows(s, n + 1, syms, lead, lexemes, gaps, end);
      lead := s[..n + 1] + lead;
    }
  }

  lemma {:induction false} ArrangedSymbol(s: string, syms: seq<Sym>)
    returns (lead: string, lexemes: seq<string>, gaps: seq<string>, end: string)
    requires s != [] && !IsBlank(s[0]) && s[0] != '#' && Lex(s) == Ok(syms + [Eof])
    ensures LaidOut(s, syms, lead, lexemes, gaps, end)
    decreases |s|, 0
  {
    var n, sym := LexedSymbol(s, syms);
    lead, lexemes, gaps, end := Arranged(s[n..], syms[1..]);
    LexemesGrow(s, n, sym, syms[1..], lead, lexemes, gaps, end);
    lead, lexemes, gaps := [], [s[..n]] + lexemes, [lead] + gaps;
    assert [sym] + syms[1..] == syms;
  }

  /** A text that starts with a symbol: a spelling of it, which stops there, and the rest. */
  lemma {:induction false} LexedSymbol(s: string, syms: seq<Sym>) returns (n: nat, sym: Sym)
    requires s != [] && !IsBlank(s[0]) && s[0] != '#' && Lex(s) == Ok(syms + [Eof])
    ensures 0 < n <= |s| && Spells(s[..n], sym) && Stops(sym, s[n..])
    ensures syms != [] && syms[0] == sym && Lex(s[n..]) == Ok(syms[1..] + [Eof])
  {
    n, sym := Next(s).len, Next(s).sym;
    LexemeSound(s);
    assert s[..n] + s[n..] == s;
    LexemeExact(s[..n], sym, s[n..]);
    LexLexeme(s[..n], sym, s[n..]);
    SplitLexed(sym, Lex(s[n..]).value, syms);
  }

  lemma {:induction false} SplitLexed(sym: Sym, rest: seq<Sym>, syms: seq<Sym>)
    requires rest != [] && [sym] + rest == syms + [Eof]
    ensures syms != [] && syms[0] == sym && rest == syms[1..] + [Eof]
  {
    assert |[sym] + rest| == |syms + [Eof]|;
    assert ([sym] + rest)[0] == (syms + [Eof])[0];
    assert rest == (syms + [Eof])[1..];
  }

  /**
   A text lexes to a symbol list exactly when it is laid out as that list: spellings in order, with blanks
   and comments before, between and after them, and nothing between two where the first stops by itself.
   */
  lemma {:induction false} LexerDecidesLayout(text: string, syms: seq<Sym>)
    ensures Lex(text) == Ok(syms + [Eof]) <==>
            exists lead, lexemes, gaps, end :: LaidOut(text, syms, lead, lexemes, gaps, end)
  {
    if Lex(text) == Ok(syms + [Eof]) {
      var lead, lexemes, gaps, end := Arranged(text, syms);
    }
    if lead, lexemes, gaps, end :| LaidOut(text, syms, lead, lexemes, gaps, end) {
      LaidOutLexed(text, syms, lead, lexemes, gaps, end);
    }
  }

  // ---------- Accounting ----------

  /** p is a piece of the text at offset i: a spelled symbol, a blank, or a comment up to the end of its line. */
  ghost predicate IsPiece(text: string, i: nat, p: Step) {
    && !p.Bad? && 0 < p.len && i + p.len <= |text|
    && var l := text[i..i + p.len];
       if p.Lexeme? then Spells(l, p.sym)
       else
         (p.len == 1 && IsBlank(l[0]))
         || (l[0] == '#' && '\n' !in l && (i + p.len < |text| ==> text[i + p.len] == '\n'))
  }

  ghost predicate Cut(text: string, i: nat, pieces: seq<Step>)
    decreases pieces
  {
    if pieces == [] then i == |text|
    else IsPiece(text, i, pieces[0]) && Cut(text, i + pieces[0].len, pieces[1..])
  }

  lemma {:induction false} NextIsPiece(text: string, i: nat)
    requires i < |text| && !Next(text[i..]).Bad?
    ensures IsPiece(text, i, Next(text[i..]))
  {
    var s, step := text[i..], Next(text[i..]);
    assert s[..step.len] == text[i..i + step.len];
    if step.Lexeme? { LexemeSound(s); }
  }

  lemma {:induction false} ScanCuts(text: string, i: nat)
    requires i <= |text| && Scan(text[i..]).Ok?
    ensures Cut(text, i, Scan(text[i..]).value)
    decreases |text| - i
  {
    if i < |text| {
      var n := Next(text[i..]).len;
      assert text[i..][n..] == text[i + n..];
      NextIsPiece(text, i);
      ScanCuts(text, i + n);
    }
  }

  /**
   A text that lexes falls, from start to end, into the pieces its tokens come from: spelled symbols, blanks and
   comments, with nothing left out.
   */
  lemma {:induction false} LexerAccountsForText(text: string)
    requires Tokenized(text).Ok?
    ensures var pieces := Scan(text).value;
            && Cut(text, 0, pieces) && Width(pieces) == |text|
            && Tokenized(text).value == Places(text, 0, pieces) + [Placed(text, |text|, Eof)]
  {
    assert text[0..] == text;
    ScanCuts(text, 0);
    PiecesFillText(text);
  }

  // ---------- Lines and columns ----------

  /** Lines count newlines; columns count from the last one. */
  lemma {:induction false} PlaceMeaning(text: string, i: nat)
    requires i <= |text|
    ensures Line(text, i) == 1 + multiset(text[..i])['\n']
    ensures var c := Column(text, i);
            1 <= c <= i + 1 && '\n' !in text[i + 1 - c..i] && (c <= i ==> text[i - c] == '\n')
  {
    if i > 0 {
      PlaceMeaning(text, i - 1);
      assert text[..i] == text[..i - 1] + [text[i - 1]];
      var c := Column(text, i - 1);
      assert text[i - c..i] == text[i - c..i - 1] + [text[i - 1]];
    }
  }

  predicate Before(t: Token, u: Token) {
    t.line < u.line || (t.line == u.line && t.column < u.column)
  }

  lemma {:induction false} PlacesIncrease(text: string, i: nat, j: nat)
    requires i < j <= |text|
    ensures Before(Placed(text, i, Eof), Placed(text, j, Eof))
    decreases j
  {
    if i < j - 1 {
      PlacesIncrease(text, i, j - 1);
    }
  }

  predicate AtOrAfter(t: Token, u: Token) {
    (t.line == u.line && t.column == u.column) || Before(t, u)
  }

  predicate Increasing(ts: seq<Token>) {
    forall k, m :: 0 <= k < m < |ts| ==> Before(ts[k], ts[m])
  }

  lemma {:induction false} IncreasingCons(t: Token, rest: seq<Token>)
    requires Increasing(rest) && forall u :: u in rest ==> Before(t, u)
    ensures Increasing([t] + rest)
  {
    var ts := [t] + rest;
    forall k, m | 0 <= k < m < |ts| ensures Before(ts[k], ts[m]) {
      assert ts[m] == rest[m - 1] && ts[m] in rest;
      assert k > 0 ==> ts[k] == rest[k - 1];
    }
  }

  /** Tokens in increasing order, all of them between two offsets of the text. */
  ghost predicate IncreaseBetween(text: string, i: nat, j: nat, ts: seq<Token>) {
    && i <= j <= |text| && Increasing(ts)
    && forall t :: t in ts ==> AtOrAfter(Placed(text, i, Eof), t) && Before(t, Placed(text, j, Eof))
  }

  lemma {:induction false} IncreaseFromEarlier(text: string, i: nat, k: nat, j: nat, ts: seq<Token>)
    requires i < k && IncreaseBetween(text, k, j, ts)
    ensures IncreaseBetween(text, i, j, ts)
  {
    PlacesIncrease(text, i, k);
  }

  lemma {:induction false} IncreaseWith(text: string, i: nat, k: nat, j: nat, sym: Sym, ts: seq<Token>)
    requires i < k && IncreaseBetween(text, k, j, ts)
    ensures IncreaseBetween(text, i, j, [Placed(text, i, sym)] + ts)
  {
    PlacesIncrease(text, i, k);
    PlacesIncrease(text, i, j);
    IncreasingCons(Placed(text, i, sym), ts);
  }

  ghost predicate Solid(pieces: seq<Step>) {
    forall k :: 0 <= k < |pieces| ==> !pieces[k].Bad? && pieces[k].len > 0
  }

  lemma {:induction false} SolidCons(pieces: seq<Step>)
    requires pieces != [] && !pieces[0].Bad? && pieces[0].len > 0 && Solid(pieces[1..])
    ensures Solid(pieces)
  {
    forall k | 0 < k < |pieces| ensures !pieces[k].Bad? && pieces[k].len > 0 { assert pieces[k] == pieces[1..][k - 1]; }
  }

  lemma {:induction false} CutSolid(text: string, i: nat, pieces: seq<Step>)
    requires Cut(text, i, pieces)
    ensures Solid(pieces)
    decreases pieces
  {
    if pieces != [] {
      CutSolid(text, i + pieces[0].len, pieces[1..]);
      SolidCons(pieces);
    }
  }

  lemma {:induction false} FirstPlace(text: string, i: nat, pieces: seq<Step>)
    requires Solid(pieces) && pieces != [] && i + Width(pieces) == |text|
    ensures i + pieces[0].len + Width(pieces[1..]) == |text|
    ensures var rest := Places(text, i + pieces[0].len, pieces[1..]);
            Places(text, i, pieces) == if pieces[0].Lexeme? then [Placed(text, i, pieces[0].sym)] + rest else rest
  {
  }

  lemma {:induction false} PiecesIncrease(text: string, i: nat, pieces: seq<Step>)
    requires Solid(pieces) && i + Width(pieces) == |text|
    ensures IncreaseBetween(text, i, |text|, Places(text, i, pieces))
    decreases pieces
  {
    if pieces != [] {
      FirstPlace(text, i, pieces);
      var n := pieces[0].len;
      PiecesIncrease(text, i + n, pieces[1..]);
      var rest := Places(text, i + n, pieces[1..]);
      if pieces[0].Lexeme? {
        IncreaseWith(text, i, i + n, |text|, pieces[0].sym, rest);
      } else {
        IncreaseFromEarlier(text, i, i + n, |text|, rest);
      }
    }
  }

  /** Token positions strictly increase. */
  lemma {:induction false} TokensIncrease(text: string)
    requires Tokenized(text).Ok?
    ensures Increasing(Tokenized(text).value)
  {
    LexerAccountsForText(text);
    CutSolid(text, 0, Scan(text).value);
    PiecesIncrease(text, 0, Scan(text).value);
  }
}
