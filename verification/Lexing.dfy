/**
 The lexer of the compliance language, twice: `Scan` says what the tokens of a
 text are, one lexeme at a time; class `Lexer` is the loop over `pos`, `line`
 and `column` that computes them. `Spells` is the independent account of which
 text a symbol may be written as.
 */
module Lexing {
  import opened Symbols

  datatype Token = Token(sym: Sym, line: nat, column: nat)

  /** What the head of a nonempty text is: something to skip, a symbol, or an error. */
  datatype Step = Skip(len: nat) | Lexeme(sym: Sym, len: nat) | Bad

  // ---------- Runs of characters ----------

  function DigitRun(s: string): (n: nat)
    ensures n <= |s| && (forall i :: 0 <= i < n ==> IsDigit(s[i])) && (n < |s| ==> !IsDigit(s[n]))
  {
    if s != [] && IsDigit(s[0]) then 1 + DigitRun(s[1..]) else 0
  }

  function WordRun(s: string): (n: nat)
    ensures n <= |s| && (forall i :: 0 <= i < n ==> IsWordChar(s[i])) && (n < |s| ==> !IsWordChar(s[n]))
  {
    if s != [] && IsWordChar(s[0]) then 1 + WordRun(s[1..]) else 0
  }

  /** Up to the end of the line, which a comment does not swallow. */
  function CommentRun(s: string): (n: nat)
    ensures n <= |s| && '\n' !in s[..n] && (n < |s| ==> s[n] == '\n')
  {
    if s != [] && s[0] != '\n' then
      var n := CommentRun(s[1..]);
      assert s[..1 + n] == [s[0]] + s[1..][..n];
      1 + n
    else 0
  }

  function DigitValue(c: char): (d: nat)
    requires IsDigit(c)
    ensures d < 10
  {
    c as int - '0' as int
  }

  function NumberValue(ds: string): nat
    requires forall i :: 0 <= i < |ds| ==> IsDigit(ds[i])
  {
    if ds == [] then 0 else 10 * NumberValue(ds[..|ds| - 1]) + DigitValue(ds[|ds| - 1])
  }

  // ---------- One lexeme ----------

  function Decoded(c: char): char {
    if c == 'n' then '\n' else if c == 't' then '\t' else c
  }

  /** A reading of n characters with value v, put before another. */
  function Extend(v: string, n: nat, r: Option<(string, nat)>): Option<(string, nat)> {
    match r
    case None => None
    case Some(p) => Some((v + p.0, n + p.1))
  }

  lemma {:induction false} ExtendNothing(r: Option<(string, nat)>)
    ensures Extend([], 0, r) == r
  {
    if r.Some? {
      assert [] + r.value.0 == r.value.0;
    }
  }

  lemma {:induction false} ExtendExtend(v: string, n: nat, w: string, m: nat, r: Option<(string, nat)>)
    ensures Extend(v, n, Extend(w, m, r)) == Extend(v + w, n + m, r)
  {
    if r.Some? {
      assert v + (w + r.value.0) == v + w + r.value.0;
    }
  }

  /** After an opening quote: the string's value and how much text it took, closing quote included. */
  function StringBody(s: string, quote: char): (r: Option<(string, nat)>)
    ensures r.Some? ==> 0 < r.value.1 <= |s|
  {
    if s == [] then None
    else if s[0] == quote then Some(([], 1))
    else if s[0] == '\\' then
      if |s| < 2 then None else Extend([Decoded(s[1])], 2, StringBody(s[2..], quote))
    else Extend([s[0]], 1, StringBody(s[1..], quote))
  }

  function NumberLexeme(s: string): (r: Step)
    requires s != [] && IsDigit(s[0])
    ensures r.Lexeme? && 0 < r.len <= |s|
  {
    var n := DigitRun(s);
    if n < |s| && s[n] == '.' then
      var f := DigitRun(s[n + 1..]);
      Lexeme(Decimal(NumberValue(s[..n] + s[n + 1..n + 1 + f]), f), n + 1 + f)
    else
      Lexeme(Whole(NumberValue(s[..n])), n)
  }

  lemma {:induction false} DigitRunIs(s: string, n: nat)
    requires n <= |s| && (forall i :: 0 <= i < n ==> IsDigit(s[i])) && (n < |s| ==> !IsDigit(s[n]))
    ensures DigitRun(s) == n
  {
  }

  lemma {:induction false} WordRunIs(s: string, n: nat)
    requires n <= |s| && (forall i :: 0 <= i < n ==> IsWordChar(s[i])) && (n < |s| ==> !IsWordChar(s[n]))
    ensures WordRun(s) == n
  {
  }

  lemma {:induction false} WholeIs(s: string, n: nat)
    requires 0 < n <= |s| && (forall i :: 0 <= i < n ==> IsDigit(s[i]))
    requires n < |s| ==> !IsDigit(s[n]) && s[n] != '.'
    ensures NumberLexeme(s) == Lexeme(Whole(NumberValue(s[..n])), n)
  {
    DigitRunIs(s, n);
  }

  lemma {:induction false} DecimalIs(s: string, k: nat, n: nat)
    requires 0 < k < n <= |s| && s[k] == '.'
    requires (forall i :: 0 <= i < k ==> IsDigit(s[i])) && (forall i :: k < i < n ==> IsDigit(s[i]))
    requires n < |s| ==> !IsDigit(s[n])
    ensures NumberLexeme(s) == Lexeme(Decimal(NumberValue(s[..k] + s[k + 1..n]), n - k - 1), n)
  {
    DigitRunIs(s, k);
    DigitRunIs(s[k + 1..], n - k - 1);
    assert s[k + 1..n] == s[k + 1..][..n - k - 1];
  }

  function WordLexeme(s: string): (r: Step)
    requires s != [] && IsWordStart(s[0])
    ensures r.Lexeme? && 0 < r.len <= |s|
  {
    var w := s[..WordRun(s)];
    match KeywordOf(Upper(w))
    case Some(t) => Lexeme(Fixed(t), |w|)
    case None => Lexeme(Ident(w), |w|)
  }

  function SingleChar(c: char): Option<TokenType> {
    if c == '=' then Some(EQ) else if c == '>' then Some(GT) else if c == '<' then Some(LT)
    else if c == '(' then Some(LPAREN) else if c == ')' then Some(RPAREN)
    else if c == '[' then Some(LBRACKET) else if c == ']' then Some(RBRACKET)
    else if c == ',' then Some(COMMA) else if c == ':' then Some(COLON) else if c == '.' then Some(DOT)
    else None
  }

  function OperatorLexeme(s: string): (r: Step)
    requires s != []
    ensures r.Bad? || (r.Lexeme? && 0 < r.len <= |s|)
  {
    var equals := |s| > 1 && s[1] == '=';
    if s[0] == '!' && equals then Lexeme(Fixed(NEQ), 2)
    else if s[0] == '>' && equals then Lexeme(Fixed(GTE), 2)
    else if s[0] == '<' && equals then Lexeme(Fixed(LTE), 2)
    else match SingleChar(s[0])
      case Some(t) => Lexeme(Fixed(t), 1)
      case None => Bad
  }

  function Next(s: string): (r: Step)
    requires s != []
    ensures !r.Bad? ==> 0 < r.len <= |s|
  {
    if IsBlank(s[0]) then Skip(1)
    else if s[0] == '#' then Skip(CommentRun(s))
    else if IsQuote(s[0]) then
      match StringBody(s[1..], s[0])
      case Some(p) => Lexeme(Str(p.0), 1 + p.1)
      case None => Bad
    else if IsDigit(s[0]) then NumberLexeme(s)
    else if IsWordStart(s[0]) then WordLexeme(s)
    else OperatorLexeme(s)
  }

  // ---------- The whole text ----------

  /** The pieces a text falls into, from the left: symbols, blanks and comments. */
  function Scan(s: string): Result<seq<Step>> {
    if s == [] then Ok([])
    else
      var step := Next(s);
      if step.Bad? then Err else Prepend([step], Scan(s[step.len..]))
  }

  function Prepend<T>(xs: seq<T>, r: Result<seq<T>>): Result<seq<T>> {
    match r
    case Ok(ys) => Ok(xs + ys)
    case Err => Err
  }

  lemma {:induction false} PrependNone<T>(r: Result<seq<T>>)
    ensures Prepend([], r) == r
  {
    if r.Ok? {
      assert [] + r.value == r.value;
    }
  }

  lemma {:induction false} PrependTwice<T>(xs: seq<T>, ys: seq<T>, r: Result<seq<T>>)
    ensures Prepend(xs, Prepend(ys, r)) == Prepend(xs + ys, r)
  {
    if r.Ok? {
      assert xs + (ys + r.value) == xs + ys + r.value;
    }
  }

  function Syms(pieces: seq<Step>): seq<Sym> {
    if pieces == [] then []
    else if pieces[0].Lexeme? then [pieces[0].sym] + Syms(pieces[1..])
    else Syms(pieces[1..])
  }

  lemma {:induction false} SymsCons(p: Step, ps: seq<Step>)
    ensures Syms([p] + ps) == if p.Lexeme? then [p.sym] + Syms(ps) else Syms(ps)
  {
    assert ([p] + ps)[1..] == ps;
  }

  function Len(p: Step): nat {
    if p.Bad? then 0 else p.len
  }

  function Width(pieces: seq<Step>): nat {
    if pieces == [] then 0 else Len(pieces[0]) + Width(pieces[1..])
  }

  /** The symbol list the parser sees: the text's symbols, then the end mark. */
  function Lex(text: string): Result<seq<Sym>> {
    match Scan(text)
    case Err => Err
    case Ok(pieces) => Ok(Syms(pieces) + [Eof])
  }

  function Line(text: string, i: nat): nat
    requires i <= |text|
  {
    if i == 0 then 1 else Line(text, i - 1) + if text[i - 1] == '\n' then 1 else 0
  }

  function Column(text: string, i: nat): nat
    requires i <= |text|
  {
    if i == 0 || text[i - 1] == '\n' then 1 else Column(text, i - 1) + 1
  }

  function Placed(text: string, i: nat, sym: Sym): Token
    requires i <= |text|
  {
    Token(sym, Line(text, i), Column(text, i))
  }

  /** The tokens of pieces that start at offset off: each symbol at the line and column its piece starts on. */
  function Places(text: string, off: nat, pieces: seq<Step>): seq<Token>
    requires off + Width(pieces) <= |text|
    decreases pieces
  {
    if pieces == [] then []
    else
      var rest := Places(text, off + Len(pieces[0]), pieces[1..]);
      if pieces[0].Lexeme? then [Placed(text, off, pieces[0].sym)] + rest else rest
  }

  lemma {:induction false} PiecesFillText(s: string)
    ensures Scan(s).Ok? ==> Width(Scan(s).value) == |s|
  {
    if s != [] && !Next(s).Bad? {
      PiecesFillText(s[Next(s).len..]);
    }
  }

  /** The token list of a text: its symbols in place, then EOF at the end. */
  function Tokenized(text: string): Result<seq<Token>> {
    match Scan(text)
    case Err => Err
    case Ok(pieces) =>
      PiecesFillText(text);
      Ok(Places(text, 0, pieces) + [Placed(text, |text|, Eof)])
  }

  lemma {:induction false} WidthSnoc(pieces: seq<Step>, p: Step)
    ensures Width(pieces + [p]) == Width(pieces) + Len(p)
  {
    if pieces != [] {
      assert (pieces + [p])[1..] == pieces[1..] + [p];
      WidthSnoc(pieces[1..], p);
    }
  }

  lemma {:induction false} PlacesSnoc(text: string, off: nat, pieces: seq<Step>, p: Step)
    requires off + Width(pieces + [p]) <= |text|
    ensures off + Width(pieces) <= |text|
    ensures Places(text, off, pieces + [p]) == Places(text, off, pieces) +
            if p.Lexeme? then [Placed(text, off + Width(pieces), p.sym)] else []
    decreases pieces
  {
    WidthSnoc(pieces, p);
    if pieces != [] {
      assert (pieces + [p])[1..] == pieces[1..] + [p];
      PlacesSnoc(text, off + Len(pieces[0]), pieces[1..], p);
    }
  }

  function SymbolsOf(tokens: seq<Token>): (r: seq<Sym>)
    ensures |r| == |tokens| && forall i :: 0 <= i < |r| ==> r[i] == tokens[i].sym
  {
    seq(|tokens|, i requires 0 <= i < |tokens| => tokens[i].sym)
  }

  lemma {:induction false} SymbolsOfConcat(a: seq<Token>, b: seq<Token>)
    ensures SymbolsOf(a + b) == SymbolsOf(a) + SymbolsOf(b)
  {
  }

  lemma {:induction false} PlacesSymbols(text: string, off: nat, pieces: seq<Step>)
    requires off + Width(pieces) <= |text|
    ensures SymbolsOf(Places(text, off, pieces)) == Syms(pieces)
    decreases pieces
  {
    if pieces != [] {
      var rest := Places(text, off + Len(pieces[0]), pieces[1..]);
      PlacesSymbols(text, off + Len(pieces[0]), pieces[1..]);
      if pieces[0].Lexeme? {
        SymbolsOfConcat([Placed(text, off, pieces[0].sym)], rest);
      }
    }
  }

  /** Leaving out lines and columns, the tokens of a text are its symbols. */
  lemma {:induction false} TokensAreSymbols(text: string)
    ensures Tokenized(text).Ok? == Lex(text).Ok?
    ensures Tokenized(text).Ok? ==> SymbolsOf(Tokenized(text).value) == Lex(text).value
  {
    if Scan(text).Ok? {
      PiecesFillText(text);
      PlacesSymbols(text, 0, Scan(text).value);
      SymbolsOfConcat(Places(text, 0, Scan(text).value), [Placed(text, |text|, Eof)]);
    }
  }

  // ---------- Steps of the lexer ----------

  /** The pieces end at pos, and the rest of the text gives the others. */
  ghost predicate SoFar(text: string, pos: nat, pieces: seq<Step>) {
    pos <= |text| && Width(pieces) == pos && Scan(text) == Prepend(pieces, Scan(text[pos..]))
  }

  lemma {:induction false} OnePieceMore(text: string, pos: nat, pieces: seq<Step>, p: Step)
    requires SoFar(text, pos, pieces) && pos < |text| && Next(text[pos..]) == p && !p.Bad?
    ensures SoFar(text, pos + p.len, pieces + [p])
    ensures Places(text, 0, pieces + [p]) ==
            Places(text, 0, pieces) + if p.Lexeme? then [Placed(text, pos, p.sym)] else []
  {
    WidthSnoc(pieces, p);
    PlacesSnoc(text, 0, pieces, p);
    assert text[pos..][p.len..] == text[pos + p.len..];
    PrependTwice(pieces, [p], Scan(text[pos + p.len..]));
  }

  /** One piece more was read, from pos up to end, and placed if it is a symbol. */
  ghost predicate PieceAdded(text: string, pos: nat, pieces: seq<Step>, p: Step, end: nat) {
    && pos < end && SoFar(text, pos, pieces) && SoFar(text, end, pieces + [p])
    && Places(text, 0, pieces + [p]) == Places(text, 0, pieces) + if p.Lexeme? then [Placed(text, pos, p.sym)] else []
  }

  lemma {:induction false} SymbolRead(text: string, pos: nat, pieces: seq<Step>, sym: Sym, end: nat)
    requires SoFar(text, pos, pieces) && pos < |text| && pos <= end && Next(text[pos..]) == Lexeme(sym, end - pos)
    ensures PieceAdded(text, pos, pieces, Lexeme(sym, end - pos), end)
  {
    OnePieceMore(text, pos, pieces, Lexeme(sym, end - pos));
  }

  lemma {:induction false} BadStops(text: string, pos: nat, pieces: seq<Step>)
    requires SoFar(text, pos, pieces) && pos < |text| && Next(text[pos..]).Bad?
    ensures Scan(text).Err?
  {
  }

  lemma {:induction false} BlankSkipped(text: string, pos: nat, pieces: seq<Step>)
    requires SoFar(text, pos, pieces) && pos < |text| && IsBlank(text[pos])
    ensures PieceAdded(text, pos, pieces, Skip(1), pos + 1)
  {
    OnePieceMore(text, pos, pieces, Skip(1));
  }

  /** A comment, as far as it was read. */
  ghost predicate CommentSoFar(text: string, start: nat, pos: nat) {
    start < |text| && text[start] == '#' && start <= pos <= |text| && '\n' !in text[start..pos]
  }

  lemma {:induction false} CommentCharRead(text: string, start: nat, pos: nat)
    requires CommentSoFar(text, start, pos) && pos < |text| && text[pos] != '\n'
    ensures CommentSoFar(text, start, pos + 1)
  {
    assert text[start..pos + 1] == text[start..pos] + [text[pos]];
  }

  lemma {:induction false} CommentRunIs(s: string, n: nat)
    requires n <= |s| && '\n' !in s[..n] && (n < |s| ==> s[n] == '\n')
    ensures CommentRun(s) == n
  {
  }

  lemma {:induction false} CommentEnds(text: string, start: nat, pos: nat, pieces: seq<Step>)
    requires CommentSoFar(text, start, pos) && (pos < |text| ==> text[pos] == '\n') && SoFar(text, start, pieces)
    ensures PieceAdded(text, start, pieces, Skip(pos - start), pos)
  {
    assert text[start..][..pos - start] == text[start..pos];
    CommentRunIs(text[start..], pos - start);
    OnePieceMore(text, start, pieces, Skip(pos - start));
  }

  /** A string body, as far as it was read: up to pos the text has this value, and the rest of the body follows. */
  ghost predicate StringSoFar(text: string, start: nat, pos: nat, value: string, quote: char) {
    && start <= pos <= |text|
    && StringBody(text[start..], quote) == Extend(value, pos - start, StringBody(text[pos..], quote))
  }

  lemma {:induction false} StringStarts(text: string, start: nat, quote: char)
    requires start <= |text|
    ensures StringSoFar(text, start, start, [], quote)
  {
    ExtendNothing(StringBody(text[start..], quote));
  }

  lemma {:induction false} StringUnended(text: string, start: nat, value: string, quote: char)
    requires StringSoFar(text, start, |text|, value, quote)
    ensures StringBody(text[start..], quote).None?
  {
  }

  lemma {:induction false} StringEnds(text: string, start: nat, pos: nat, value: string, quote: char)
    requires StringSoFar(text, start, pos, value, quote) && pos < |text| && text[pos] == quote
    ensures StringBody(text[start..], quote) == Some((value, pos + 1 - start))
  {
    assert value + [] == value;
  }

  lemma {:induction false} PlainRead(text: string, start: nat, pos: nat, value: string, quote: char)
    requires StringSoFar(text, start, pos, value, quote) && pos < |text| && text[pos] != quote && text[pos] != '\\'
    ensures StringSoFar(text, start, pos + 1, value + [text[pos]], quote)
  {
    assert text[pos..][1..] == text[pos + 1..];
    ExtendExtend(value, pos - start, [text[pos]], 1, StringBody(text[pos + 1..], quote));
  }

  lemma {:induction false} EscapeRead(text: string, start: nat, pos: nat, value: string, quote: char)
    requires StringSoFar(text, start, pos, value, quote) && pos + 1 < |text| && text[pos] != quote && text[pos] == '\\'
    ensures StringSoFar(text, start, pos + 2, value + [Decoded(text[pos + 1])], quote)
  {
    assert text[pos..][2..] == text[pos + 2..];
    ExtendExtend(value, pos - start, [Decoded(text[pos + 1])], 2, StringBody(text[pos + 2..], quote));
  }

  lemma {:induction false} BackslashLast(text: string, start: nat, pos: nat, value: string, quote: char)
    requires StringSoFar(text, start, pos, value, quote) && pos + 1 == |text| && text[pos] != quote && text[pos] == '\\'
    ensures StringSoFar(text, start, pos + 1, value, quote)
  {
  }

  /** A word, as far as it was read. */
  ghost predicate WordSoFar(text: string, start: nat, pos: nat, w: string) {
    start <= pos <= |text| && w == text[start..pos] && forall i :: 0 <= i < |w| ==> IsWordChar(w[i])
  }

  lemma {:induction false} WordCharRead(text: string, start: nat, pos: nat, w: string)
    requires WordSoFar(text, start, pos, w) && pos < |text| && IsWordChar(text[pos])
    ensures WordSoFar(text, start, pos + 1, w + [text[pos]])
  {
  }

  lemma {:induction false} WordEnds(text: string, start: nat, pos: nat, w: string)
    requires WordSoFar(text, start, pos, w) && (pos < |text| ==> !IsWordChar(text[pos]))
    ensures w == text[start..][..WordRun(text[start..])] && pos == start + |w|
  {
    WordRunIs(text[start..], pos - start);
  }

  /** A number's text, its digits, and how many of them stand before its dot. */
  ghost predicate NumberText(s: string, value: string, dot: Option<nat>) {
    && (forall i :: 0 <= i < |value| ==> IsDigit(value[i]))
    && match dot
       case None => value == s
       case Some(k) =>
         && 0 < k < |s| == |value| + 1 && s[k] == '.'
         && forall i :: 0 <= i < |value| ==> value[i] == s[if i < k then i else i + 1]
  }

  /** A number, as far as it was read; it starts with a digit. */
  ghost predicate NumberSoFar(text: string, start: nat, pos: nat, value: string, dot: Option<nat>) {
    start < |text| && IsDigit(text[start]) && start <= pos <= |text| && NumberText(text[start..pos], value, dot)
  }

  lemma {:induction false} DigitRead(text: string, start: nat, pos: nat, value: string, dot: Option<nat>)
    requires NumberSoFar(text, start, pos, value, dot) && pos < |text| && IsDigit(text[pos])
    ensures NumberSoFar(text, start, pos + 1, value + [text[pos]], dot)
  {
    assert text[start..pos + 1] == text[start..pos] + [text[pos]];
  }

  lemma {:induction false} DotRead(text: string, start: nat, pos: nat, value: string)
    requires NumberSoFar(text, start, pos, value, None) && pos < |text| && text[pos] == '.'
    ensures NumberSoFar(text, start, pos + 1, value, Some(|value|))
  {
    assert text[start..pos + 1] == text[start..pos] + [text[pos]];
  }

  lemma {:induction false} NumberEnds(text: string, start: nat, pos: nat, value: string, dot: Option<nat>)
    requires NumberSoFar(text, start, pos, value, dot)
    requires pos < |text| ==> !IsDigit(text[pos]) && (text[pos] == '.' ==> dot.Some?)
    ensures forall i :: 0 <= i < |value| ==> IsDigit(value[i])
    ensures start < pos && (dot.Some? ==> dot.value <= |value|)
    ensures NumberLexeme(text[start..]) ==
            Lexeme(
              if dot.None? then Whole(NumberValue(value)) else Decimal(NumberValue(value), |value| - dot.value),
              pos - start)
  {
    var s := text[start..];
    assert s[..pos - start] == text[start..pos];
    NumberRead(s, pos - start, value, dot);
  }

  lemma {:induction false} NumberRead(s: string, n: nat, value: string, dot: Option<nat>)
    requires 0 < n <= |s| && IsDigit(s[0]) && NumberText(s[..n], value, dot)
    requires n < |s| ==> !IsDigit(s[n]) && (s[n] == '.' ==> dot.Some?)
    ensures dot.Some? ==> dot.value <= |value|
    ensures NumberLexeme(s) ==
            Lexeme(if dot.None? then Whole(NumberValue(value)) else Decimal(NumberValue(value), |value| - dot.value), n)
  {
    match dot
    case None => WholeIs(s, n);
    case Some(k) =>
      forall i | 0 <= i < n && i != k ensures IsDigit(s[i]) {
        assert value[if i < k then i else i - 1] == s[i];
      }
      assert value == s[..k] + s[k + 1..n];
      DecimalIs(s, k, n);
  }

  // ---------- The lexer object ----------

  class Lexer {
    const text: string
    var pos: nat
    var line: nat
    var column: nat
    /** The pieces read so far. */
    ghost var seen: seq<Step>

    ghost predicate Valid()
      reads this
    {
      pos <= |text| && line == Line(text, pos) && column == Column(text, pos)
    }

    /** Between two pieces: those read so far end at pos, and the rest of the text gives the others. */
    ghost predicate Between()
      reads this
    {
      Valid() && SoFar(text, pos, seen)
    }

    constructor (text: string)
      ensures Between() && this.text == text && pos == 0 && seen == []
    {
      this.text := text;
      pos, line, column := 0, 1, 1;
      seen := [];
      new;
      PrependNone(Scan(text));
    }

    function Peek(offset: nat): (c: Option<char>)
      reads this
      ensures c == if pos + offset < |text| then Some(text[pos + offset]) else None
    {
      if pos + offset < |text| then Some(text[pos + offset]) else None
    }

    /** Steps over one character, if there is one, keeping line and column in step with pos. */
    method Advance() returns (c: Option<char>)
      requires Valid()
      modifies this`pos, this`line, this`column
      ensures Valid() && pos == if old(pos) < |text| then old(pos) + 1 else old(pos)
      ensures c == if old(pos) < |text| then Some(text[old(pos)]) else None
    {
      if pos >= |text| {
        return None;
      }
      var ch := text[pos];
      pos := pos + 1;
      if ch == '\n' {
        line, column := line + 1, 1;
      } else {
        column := column + 1;
      }
      return Some(ch);
    }

    /** Skips blanks other than newlines; no token is passed over. */
    method SkipWhitespace()
      requires Between()
      modifies this
      ensures Between() && old(pos) <= pos
      ensures Places(text, 0, seen) == old(Places(text, 0, seen))
      ensures pos < |text| ==> !IsLineBlank(text[pos])
    {
      while pos < |text| && IsLineBlank(text[pos])
        invariant Between() && old(pos) <= pos
        invariant Places(text, 0, seen) == old(Places(text, 0, seen))
        decreases |text| - pos
      {
        BlankSkipped(text, pos, seen);
        var _ := Advance();
        seen := seen + [Skip(1)];
      }
    }

    /** Skips the comment at pos, up to the end of its line. */
    method SkipComment()
      requires Between() && pos < |text| && text[pos] == '#'
      modifies this
      ensures Between() && old(pos) < pos
      ensures Places(text, 0, seen) == old(Places(text, 0, seen))
    {
      ghost var start := pos;
      while pos < |text| && text[pos] != '\n'
        invariant Valid() && CommentSoFar(text, start, pos) && seen == old(seen)
        decreases |text| - pos
      {
        CommentCharRead(text, start, pos);
        var _ := Advance();
      }
      CommentEnds(text, start, pos, seen);
      seen := seen + [Skip(pos - start)];
    }

    /** Reads the string literal at pos: its value and extent as `StringBody` says, Err if it does not end. */
    method ReadString(quote: char) returns (r: Result<string>)
      requires Valid() && pos < |text| && quote != '\\'
      modifies this`pos, this`line, this`column
      ensures Valid() && old(pos) < pos
      ensures match StringBody(text[old(pos) + 1..], quote)
              case Some(p) => r == Ok(p.0) && pos == old(pos) + 1 + p.1
              case None => r.Err?
    {
      var value := [];
      var _ := Advance();
      ghost var start := pos;
      StringStarts(text, start, quote);
      while true
        invariant Valid() && StringSoFar(text, start, pos, value, quote)
        decreases |text| - pos
      {
        var ch := Peek(0);
        if ch.None? {
          StringUnended(text, start, value, quote);
          return Err;
        }
        if ch.value == quote {
          StringEnds(text, start, pos, value, quote);
          var _ := Advance();
          break;
        }
        var read := ReadCharacter(start, value, quote);
        value := value + read;
      }
      return Ok(value);
    }

    /** Reads one character of a string, escaped or not; a backslash that ends the text stands for none. */
    method ReadCharacter(ghost start: nat, ghost value: string, quote: char) returns (read: string)
      requires Valid() && StringSoFar(text, start, pos, value, quote) && pos < |text| && text[pos] != quote
      modifies this`pos, this`line, this`column
      ensures Valid() && old(pos) < pos && StringSoFar(text, start, pos, value + read, quote)
    {
      if text[pos] != '\\' {
        PlainRead(text, start, pos, value, quote);
        var plain := Advance();
        return [plain.value];
      }
      if pos + 1 < |text| {
        EscapeRead(text, start, pos, value, quote);
      } else {
        BackslashLast(text, start, pos, value, quote);
        assert value + [] == value;
      }
      var _ := Advance();
      var escaped := Advance();
      return if escaped.Some? then [Decoded(escaped.value)] else [];
    }

    /** Reads the number at pos: digits with at most one dot among them. */
    method ReadNumber() returns (sym: Sym)
      requires Valid() && pos < |text| && IsDigit(text[pos])
      modifies this`pos, this`line, this`column
      ensures Valid() && old(pos) < pos && Lexeme(sym, pos - old(pos)) == NumberLexeme(text[old(pos)..])
    {
      ghost var start := pos;
      var value, dot := ReadDigits();
      NumberEnds(text, start, pos, value, dot);
      sym := if dot.None? then Whole(NumberValue(value)) else Decimal(NumberValue(value), |value| - dot.value);
    }

    method ReadDigits() returns (value: string, dot: Option<nat>)
      requires Valid() && pos < |text| && IsDigit(text[pos])
      modifies this`pos, this`line, this`column
      ensures Valid() && NumberSoFar(text, old(pos), pos, value, dot)
      ensures pos < |text| ==> !IsDigit(text[pos]) && (text[pos] == '.' ==> dot.Some?)
    {
      ghost var start := pos;
      value, dot := [], None;
      while pos < |text| && (IsDigit(text[pos]) || text[pos] == '.')
        invariant Valid() && NumberSoFar(text, start, pos, value, dot)
        decreases |text| - pos
      {
        var ch := text[pos];
        if ch == '.' {
          if dot.Some? {
            break;
          }
          DotRead(text, start, pos, value);
          dot := Some(|value|);
        } else {
          DigitRead(text, start, pos, value, dot);
          value := value + [ch];
        }
        var _ := Advance();
      }
    }

    method ReadIdentifier() returns (w: string)
      requires Valid()
      modifies this`pos, this`line, this`column
      ensures Valid() && w == text[old(pos)..][..WordRun(text[old(pos)..])] && pos == old(pos) + |w|
    {
      ghost var start := pos;
      w := [];
      while pos < |text| && IsWordChar(text[pos])
        invariant Valid() && WordSoFar(text, start, pos, w)
        decreases |text| - pos
      {
        WordCharRead(text, start, pos, w);
        w := w + [text[pos]];
        var _ := Advance();
      }
      WordEnds(text, start, pos, w);
    }

    /** Reads the symbol at pos, as `Next` says. */
    method ReadSymbol() returns (r: Result<Sym>)
      requires Valid() && pos < |text| && !IsBlank(text[pos]) && text[pos] != '#'
      modifies this`pos, this`line, this`column
      ensures Valid() && old(pos) <= pos
      ensures match Next(text[old(pos)..])
              case Lexeme(sym, n) => r == Ok(sym) && pos == old(pos) + n
              case _ => r.Err?
    {
      var ch := text[pos];
      ghost var s := text[pos..];
      if IsQuote(ch) {
        var value := ReadString(ch);
        assert s[1..] == text[old(pos) + 1..];
        return if value.Ok? then Ok(Str(value.value)) else Err;
      }
      if IsDigit(ch) {
        var number := ReadNumber();
        return Ok(number);
      }
      if IsWordStart(ch) {
        var w := ReadIdentifier();
        var keyword := KeywordOf(Upper(w));
        return Ok(if keyword.Some? then Fixed(keyword.value) else Ident(w));
      }
      if Peek(1) == Some('=') && (ch == '!' || ch == '>' || ch == '<') {
        var _ := Advance();
        var _ := Advance();
        return Ok(Fixed(if ch == '!' then NEQ else if ch == '>' then GTE else LTE));
      }
      var single := SingleChar(ch);
      if single.None? {
        return Err;
      }
      var _ := Advance();
      return Ok(Fixed(single.value));
    }

    /** Reads the symbol at pos, which is one piece more. */
    method ReadSymbolAt() returns (r: Result<Sym>)
      requires Between() && pos < |text| && !IsBlank(text[pos]) && text[pos] != '#'
      modifies this`pos, this`line, this`column
      ensures Valid() && old(pos) <= pos
      ensures r.Ok? ==> PieceAdded(text, old(pos), seen, Lexeme(r.value, pos - old(pos)), pos)
      ensures r.Err? ==> Scan(text).Err?
    {
      ghost var start := pos;
      r := ReadSymbol();
      if r.Ok? { SymbolRead(text, start, seen, r.value, pos); } else { BadStops(text, start, seen); }
    }

    /** Reads the symbol at pos into a token that stands there. */
    method ReadToken() returns (r: Result<Token>)
      requires Between() && pos < |text| && !IsBlank(text[pos]) && text[pos] != '#'
      modifies this
      ensures r.Ok? ==> Between() && old(pos) < pos && Places(text, 0, seen) == old(Places(text, 0, seen)) + [r.value]
      ensures r.Err? ==> Scan(text).Err?
    {
      ghost var start := pos;
      var startLine, startColumn := line, column;
      var sym := ReadSymbolAt();
      if sym.Err? {
        return Err;
      }
      seen := seen + [Lexeme(sym.value, pos - start)];
      return Ok(Token(sym.value, startLine, startColumn));
    }

    /** One turn of the loop, past the blanks: a newline, a comment or a token. */
    method ReadPiece(tokens: seq<Token>) returns (r: Result<seq<Token>>)
      requires Between() && tokens == Places(text, 0, seen)
      requires pos < |text| && !IsLineBlank(text[pos])
      modifies this
      ensures r.Ok? ==> Between() && r.value == Places(text, 0, seen) && old(pos) < pos
      ensures r.Err? ==> Scan(text).Err?
    {
      if text[pos] == '\n' {
        BlankSkipped(text, pos, seen);
        var _ := Advance();
        seen := seen + [Skip(1)];
        return Ok(tokens);
      }
      if text[pos] == '#' {
        SkipComment();
        return Ok(tokens);
      }
      var token := ReadToken();
      if token.Err? {
        return Err;
      }
      return Ok(tokens + [token.value]);
    }

    /** Tokenizes the whole text, as `Tokenized` says. */
    method Tokenize() returns (r: Result<seq<Token>>)
      requires Between() && pos == 0 && seen == []
      modifies this
      ensures r == Tokenized(text)
    {
      var tokens := [];
      while pos < |text|
        invariant Between() && tokens == Places(text, 0, seen)
        decreases |text| - pos
      {
        SkipWhitespace();
        if pos >= |text| {
          break;
        }
        var more := ReadPiece(tokens);
        if more.Err? {
          return Err;
        }
        tokens := more.value;
      }
      assert text[pos..] == [] && seen + [] == seen;
      tokens := tokens + [Token(Eof, line, column)];
      return Ok(tokens);
    }
  }
}
