/**
 The expression parser: syntax trees, the recursive-descent functions on symbol
 lists, and class `Parser`, which computes them by moving `pos` over its tokens.
 */
module Parsing {
  import opened Symbols
  import opened Lexing

  datatype Lit = StrLit(text: string) | IntLit(n: nat) | DecLit(mantissa: nat, scale: nat)

  datatype Expr =
    | Literal(value: Lit)
    | ListLiteral(values: seq<Expr>)
    | PropertyAccess(obj: string, property: string)
    | FunctionCall(name: TokenType, args: seq<Expr>)
    | UnaryOp(op: TokenType, operand: Expr)
    | BinaryOp(op: TokenType, left: Expr, right: Expr)
    | CaseExpression(subject: Option<Expr>, whens: seq<When>, otherwise: Option<Expr>)

  datatype When = When(condition: Expr, result: Expr)

  /** A parsed value and the symbols left over, or an error. */
  datatype Parsed<+T> = Done(value: T, rest: seq<Sym>) | Fail

  /** The current symbol; past the end it is EOF, the last token, again. */
  function Head(s: seq<Sym>): Sym {
    if s == [] then Eof else s[0]
  }

  predicate At(s: seq<Sym>, t: TokenType) {
    s != [] && s[0] == Fixed(t)
  }

  // ---------- The grammar's functions ----------

  function ParsePrimary(s: seq<Sym>): (r: Parsed<Expr>)
    ensures r.Done? ==> |r.rest| < |s|
    decreases |s|, 0
  {
    match Head(s)
    case Str(text) => Done(Literal(StrLit(text)), s[1..])
    case Whole(n) => Done(Literal(IntLit(n)), s[1..])
    case Decimal(m, scale) => Done(Literal(DecLit(m, scale)), s[1..])
    case Ident(name) =>
      if At(s[1..], DOT) then
        if Head(s[2..]).Ident? then Done(PropertyAccess(name, s[2].name), s[3..]) else Fail
      else Done(Literal(StrLit(name)), s[1..])
    case Eof => Fail
    case Fixed(t) =>
      if t.LBRACKET? then AsList(ParseItems(s[1..]))
      else if t.LPAREN? then
        match ParseOr(s[1..])
        case Done(e, rest) => if At(rest, RPAREN) then Done(e, rest[1..]) else Fail
        case Fail => Fail
      else if t.CASE? then ParseCase(s[1..])
      else if IsFunction(t) then ParseCall(t, s[1..])
      else Fail
  }

  /** A call of the function called name, after the name. */
  function ParseCall(name: TokenType, s: seq<Sym>): (r: Parsed<Expr>)
    ensures r.Done? ==> |r.rest| < |s|
    decreases |s|, 0
  {
    if !At(s, LPAREN) then Fail
    else
      match ParseArgs(s[1..])
      case Done(args, rest) => Done(FunctionCall(name, args), rest)
      case Fail => Fail
  }

  function AsList(p: Parsed<seq<Expr>>): Parsed<Expr> {
    match p
    case Done(values, rest) => Done(ListLiteral(values), rest)
    case Fail => Fail
  }

  /** List elements up to and including the closing bracket. */
  function ParseItems(s: seq<Sym>): (r: Parsed<seq<Expr>>)
    ensures r.Done? ==> |r.rest| < |s|
    decreases |s|, 1
  {
    if At(s, RBRACKET) then Done([], s[1..])
    else
      match ParsePrimary(s)
      case Fail => Fail
      case Done(v, rest) =>
        if At(rest, COMMA) then
          match ParseItems(rest[1..])
          case Done(vs, rest') => Done([v] + vs, rest')
          case Fail => Fail
        else if At(rest, RBRACKET) then Done([v], rest[1..])
        else Fail
  }

  /** Call arguments up to and including the closing parenthesis. */
  function ParseArgs(s: seq<Sym>): (r: Parsed<seq<Expr>>)
    ensures r.Done? ==> |r.rest| < |s|
    decreases |s|, 6
  {
    if At(s, RPAREN) then Done([], s[1..])
    else
      match ParseOr(s)
      case Fail => Fail
      case Done(v, rest) =>
        if At(rest, COMMA) then
          match ParseArgs(rest[1..])
          case Done(vs, rest') => Done([v] + vs, rest')
          case Fail => Fail
        else if At(rest, RPAREN) then Done([v], rest[1..])
        else Fail
  }

  /** The rest of a CASE expression, after the word CASE. */
  function ParseCase(s: seq<Sym>): (r: Parsed<Expr>)
    ensures r.Done? ==> |r.rest| < |s|
    decreases |s|, 2
  {
    if At(s, WHEN) then ParseBranches(None, s)
    else
      match ParsePrimary(s)
      case Done(subject, rest) => ParseBranches(Some(subject), rest)
      case Fail => Fail
  }

  function ParseBranches(subject: Option<Expr>, s: seq<Sym>): (r: Parsed<Expr>)
    ensures r.Done? ==> |r.rest| < |s|
    decreases |s|, 1
  {
    match ParseWhens(s)
    case Fail => Fail
    case Done(whens, rest) =>
      if At(rest, ELSE) then
        match ParseOr(rest[1..])
        case Fail => Fail
        case Done(e, rest') =>
          if At(rest', END) then Done(CaseExpression(subject, whens, Some(e)), rest'[1..]) else Fail
      else if At(rest, END) then Done(CaseExpression(subject, whens, None), rest[1..])
      else Fail
  }

  function ParseWhens(s: seq<Sym>): (r: Parsed<seq<When>>)
    ensures r.Done? ==> |r.rest| <= |s|
    decreases |s|, 0
  {
    if !At(s, WHEN) then Done([], s)
    else
      match ParseOr(s[1..])
      case Fail => Fail
      case Done(c, rest) =>
        if !At(rest, THEN) then Fail
        else
          match ParseOr(rest[1..])
          case Fail => Fail
          case Done(v, rest') =>
            match ParseWhens(rest')
            case Done(ws, rest'') => Done([When(c, v)] + ws, rest'')
            case Fail => Fail
  }

  function ParseComparison(s: seq<Sym>): (r: Parsed<Expr>)
    ensures r.Done? ==> |r.rest| < |s|
    decreases |s|, 2
  {
    match ParsePrimary(s)
    case Fail => Fail
    case Done(left, rest) =>
      match Head(rest)
      case Fixed(op) =>
        if IsComparison(op) then
          match ParsePrimary(rest[1..])
          case Done(right, rest') => Done(BinaryOp(op, left, right), rest')
          case Fail => Fail
        else Done(left, rest)
      case _ => Done(left, rest)
  }

  function ParseNot(s: seq<Sym>): (r: Parsed<Expr>)
    ensures r.Done? ==> |r.rest| < |s|
    decreases |s|, 3
  {
    if At(s, NOT) then
      match ParseComparison(s[1..])
      case Done(e, rest) => Done(UnaryOp(NOT, e), rest)
      case Fail => Fail
    else ParseComparison(s)
  }

  function ParseAnd(s: seq<Sym>): (r: Parsed<Expr>)
    ensures r.Done? ==> |r.rest| < |s|
    decreases |s|, 4
  {
    match ParseNot(s)
    case Done(left, rest) => ParseAndRest(left, rest)
    case Fail => Fail
  }

  function ParseAndRest(left: Expr, s: seq<Sym>): (r: Parsed<Expr>)
    ensures r.Done? ==> |r.rest| <= |s|
    decreases |s|, 0
  {
    if At(s, AND) then
      match ParseNot(s[1..])
      case Done(right, rest) => ParseAndRest(BinaryOp(AND, left, right), rest)
      case Fail => Fail
    else Done(left, s)
  }

  /** A full expression. */
  function ParseOr(s: seq<Sym>): (r: Parsed<Expr>)
    ensures r.Done? ==> |r.rest| < |s|
    decreases |s|, 5
  {
    match ParseAnd(s)
    case Done(left, rest) => ParseOrRest(left, rest)
    case Fail => Fail
  }

  function ParseOrRest(left: Expr, s: seq<Sym>): (r: Parsed<Expr>)
    ensures r.Done? ==> |r.rest| <= |s|
    decreases |s|, 0
  {
    if At(s, OR) then
      match ParseAnd(s[1..])
      case Done(right, rest) => ParseOrRest(BinaryOp(OR, left, right), rest)
      case Fail => Fail
    else Done(left, s)
  }

  // ---------- The parser object ----------

  /** r is the outcome p foretells, with the symbols it leaves still to be read. */
  ghost predicate Agrees<T(!new)>(r: Result<T>, rest: seq<Sym>, p: Parsed<T>) {
    match p
    case Done(v, left) => r == Ok(v) && rest == left
    case Fail => r.Err?
  }

  class Parser {
    const tokens: seq<Token>
    var pos: nat

    ghost predicate Valid()
      reads this
    {
      pos < |tokens| && tokens[|tokens| - 1].sym == Eof
    }

    /** The symbols from pos on. */
    ghost function Rest(): (s: seq<Sym>)
      requires Valid()
      reads this
      ensures s != [] && |s| == |tokens| - pos && s[0] == tokens[pos].sym
    {
      SymbolsOf(tokens)[pos..]
    }

    constructor (tokens: seq<Token>)
      requires tokens != [] && tokens[|tokens| - 1].sym == Eof
      ensures Valid() && this.tokens == tokens && Rest() == SymbolsOf(tokens)
    {
      this.tokens := tokens;
      pos := 0;
    }

    function Current(): (s: Sym)
      requires Valid()
      reads this
      ensures s == Head(Rest())
    {
      tokens[pos].sym
    }

    predicate Is(t: TokenType)
      requires Valid()
      reads this
      ensures Is(t) == At(Rest(), t)
    {
      tokens[pos].sym == Fixed(t)
    }

    /** Consumes the current token; EOF stays. */
    method Advance() returns (sym: Sym)
      requires Valid()
      modifies this
      ensures Valid() && sym == Head(old(Rest()))
      ensures sym != Eof ==> Rest() == old(Rest())[1..]
      ensures sym == Eof ==> old(pos) <= pos
    {
      sym := tokens[pos].sym;
      if pos < |tokens| - 1 {
        pos := pos + 1;
      }
    }

    method Expect(t: TokenType) returns (r: Result<()>)
      requires Valid()
      modifies this
      ensures Valid()
      ensures if At(old(Rest()), t) then r.Ok? && Rest() == old(Rest())[1..] else r.Err? && pos == old(pos)
    {
      if !Is(t) {
        return Err;
      }
      var _ := Advance();
      return Ok(());
    }

    /** expect(IDENTIFIER), giving its value. */
    method ExpectName() returns (r: Result<string>)
      requires Valid()
      modifies this
      ensures Valid()
      ensures match Head(old(Rest()))
              case Ident(name) => r == Ok(name) && Rest() == old(Rest())[1..]
              case _ => r.Err? && pos == old(pos)
    {
      var token := Current();
      if !token.Ident? {
        return Err;
      }
      var _ := Advance();
      return Ok(token.name);
    }

    /** expect(STRING), giving its value. */
    method ExpectString() returns (r: Result<string>)
      requires Valid()
      modifies this
      ensures Valid()
      ensures match Head(old(Rest()))
              case Str(text) => r == Ok(text) && Rest() == old(Rest())[1..]
              case _ => r.Err? && pos == old(pos)
    {
      var token := Current();
      if !token.Str? {
        return Err;
      }
      var _ := Advance();
      return Ok(token.text);
    }

    method ParsePrimaryExpression() returns (r: Result<Expr>)
      requires Valid()
      modifies this
      ensures Valid() && Agrees(r, Rest(), ParsePrimary(old(Rest())))
      decreases |tokens| - pos, 1
    {
      var token := Current();
      match token
      case Str(text) =>
        var _ := Advance();
        return Ok(Literal(StrLit(text)));
      case Whole(n) =>
        var _ := Advance();
        return Ok(Literal(IntLit(n)));
      case Decimal(m, scale) =>
        var _ := Advance();
        return Ok(Literal(DecLit(m, scale)));
      case Ident(name) =>
        var _ := Advance();
        if Is(DOT) {
          var _ := Advance();
          var property := ExpectName();
          return if property.Ok? then Ok(PropertyAccess(name, property.value)) else Err;
        }
        return Ok(Literal(StrLit(name)));
      case Eof =>
        return Err;
      case Fixed(t) =>
        if t.LBRACKET? {
          r := ParseList();
        } else if t.LPAREN? {
          var _ := Advance();
          r := ParseOrExpression();
          if r.Ok? {
            var close := Expect(RPAREN);
            if close.Err? {
              r := Err;
            }
          }
        } else if t.CASE? {
          r := ParseCaseExpression();
        } else if IsFunction(t) {
          r := ParseFunctionCall();
        } else {
          r := Err;
        }
    }

    method ParseList() returns (r: Result<Expr>)
      requires Valid() && At(Rest(), LBRACKET)
      modifies this
      ensures Valid() && Agrees(r, Rest(), AsList(ParseItems(old(Rest())[1..])))
      decreases |tokens| - pos, 0
    {
      ghost var whole := Rest();
      var _ := Advance();
      var values: seq<Expr> := [];
      ItemsAfterNone([], ParseItems(whole[1..]));
      while !Is(RBRACKET)
        invariant Valid() && |tokens| - pos < |whole|
        invariant ParseItems(whole[1..]) == ItemsAfter(values, ParseItems(Rest()))
        decreases |tokens| - pos
      {
        ghost var before := values;
        var v := ParsePrimaryExpression();
        if v.Err? {
          return Err;
        }
        values := values + [v.value];
        if Is(COMMA) {
          var _ := Advance();
          ItemsAfterTwice(before, [v.value], ParseItems(Rest()));
        } else if !Is(RBRACKET) {
          return Err;
        } else {
          ItemsAfterTwice(before, [v.value], Done([], Rest()[1..]));
          assert [v.value] + [] == [v.value];
        }
      }
      assert values + [] == values;
      var _ := Advance();
      return Ok(ListLiteral(values));
    }

    method ParseFunctionCall() returns (r: Result<Expr>)
      requires Valid() && Current().Fixed? && IsFunction(Current().typ)
      modifies this
      ensures Valid() && Agrees(r, Rest(), ParseCall(old(Current().typ), old(Rest())[1..]))
      decreases |tokens| - pos, 0
    {
      var name := Advance();
      var open := Expect(LPAREN);
      if open.Err? {
        return Err;
      }
      var args := ParseArguments();
      return if args.Ok? then Ok(FunctionCall(name.typ, args.value)) else Err;
    }

    /** The argument loop of a call, closing parenthesis included. */
    method ParseArguments() returns (r: Result<seq<Expr>>)
      requires Valid()
      modifies this
      ensures Valid() && Agrees(r, Rest(), ParseArgs(old(Rest())))
      decreases |tokens| - pos, 6
    {
      ghost var whole := Rest();
      var args: seq<Expr> := [];
      ItemsAfterNone([], ParseArgs(whole));
      while !Is(RPAREN)
        invariant Valid() && |tokens| - pos <= |whole|
        invariant ParseArgs(whole) == ItemsAfter(args, ParseArgs(Rest()))
        decreases |tokens| - pos
      {
        ghost var before := args;
        var v := ParseOrExpression();
        if v.Err? {
          return Err;
        }
        args := args + [v.value];
        if Is(COMMA) {
          var _ := Advance();
          ItemsAfterTwice(before, [v.value], ParseArgs(Rest()));
        } else if !Is(RPAREN) {
          return Err;
        } else {
          ItemsAfterTwice(before, [v.value], Done([], Rest()[1..]));
          assert [v.value] + [] == [v.value];
        }
      }
      assert args + [] == args;
      var _ := Advance();
      return Ok(args);
    }

    method ParseCaseExpression() returns (r: Result<Expr>)
      requires Valid() && At(Rest(), CASE)
      modifies this
      ensures Valid() && Agrees(r, Rest(), ParseCase(old(Rest())[1..]))
      decreases |tokens| - pos, 0
    {
      var _ := Advance();
      var subject := None;
      if !Is(WHEN) {
        var s := ParsePrimaryExpression();
        if s.Err? {
          return Err;
        }
        subject := Some(s.value);
      }
      assert ParseCase(old(Rest())[1..]) == ParseBranches(subject, Rest());
      var whens := ParseWhenClauses();
      if whens.Err? {
        return Err;
      }
      var otherwise := None;
      if Is(ELSE) {
        var _ := Advance();
        var e := ParseOrExpression();
        if e.Err? {
          return Err;
        }
        otherwise := Some(e.value);
      }
      var end := Expect(END);
      return if end.Ok? then Ok(CaseExpression(subject, whens.value, otherwise)) else Err;
    }

    /** The WHEN loop of a CASE expression. */
    method ParseWhenClauses() returns (r: Result<seq<When>>)
      requires Valid()
      modifies this
      ensures Valid() && Agrees(r, Rest(), ParseWhens(old(Rest())))
      decreases |tokens| - pos, 0
    {
      ghost var whole := Rest();
      var whens: seq<When> := [];
      ItemsAfterNone([], ParseWhens(whole));
      while Is(WHEN)
        invariant Valid() && |tokens| - pos <= |whole|
        invariant ParseWhens(whole) == ItemsAfter(whens, ParseWhens(Rest()))
        decreases |tokens| - pos
      {
        ghost var before := whens;
        var _ := Advance();
        var condition := ParseOrExpression();
        if condition.Err? {
          return Err;
        }
        var arrow := Expect(THEN);
        if arrow.Err? {
          return Err;
        }
        var result := ParseOrExpression();
        if result.Err? {
          return Err;
        }
        whens := whens + [When(condition.value, result.value)];
        ItemsAfterTwice(before, [When(condition.value, result.value)], ParseWhens(Rest()));
      }
      assert whens + [] == whens;
      return Ok(whens);
    }

    method ParseComparisonExpression() returns (r: Result<Expr>)
      requires Valid()
      modifies this
      ensures Valid() && Agrees(r, Rest(), ParseComparison(old(Rest())))
      decreases |tokens| - pos, 2
    {
      var left := ParsePrimaryExpression();
      if left.Err? {
        return Err;
      }
      var op := Current();
      if op.Fixed? && IsComparison(op.typ) {
        var _ := Advance();
        var right := ParsePrimaryExpression();
        if right.Err? {
          return Err;
        }
        return Ok(BinaryOp(op.typ, left.value, right.value));
      }
      return left;
    }

    method ParseNotExpression() returns (r: Result<Expr>)
      requires Valid()
      modifies this
      ensures Valid() && Agrees(r, Rest(), ParseNot(old(Rest())))
      decreases |tokens| - pos, 3
    {
      if Is(NOT) {
        var _ := Advance();
        var e := ParseComparisonExpression();
        return if e.Ok? then Ok(UnaryOp(NOT, e.value)) else Err;
      }
      r := ParseComparisonExpression();
    }

    method ParseAndExpression() returns (r: Result<Expr>)
      requires Valid()
      modifies this
      ensures Valid() && Agrees(r, Rest(), ParseAnd(old(Rest())))
      decreases |tokens| - pos, 4
    {
      ghost var whole := Rest();
      r := ParseNotExpression();
      if r.Err? {
        return;
      }
      while Is(AND)
        invariant Valid() && r.Ok? && |tokens| - pos < |whole|
        invariant ParseAnd(whole) == ParseAndRest(r.value, Rest())
        decreases |tokens| - pos
      {
        var _ := Advance();
        var right := ParseNotExpression();
        if right.Err? {
          return Err;
        }
        r := Ok(BinaryOp(AND, r.value, right.value));
      }
    }

    method ParseOrExpression() returns (r: Result<Expr>)
      requires Valid()
      modifies this
      ensures Valid() && Agrees(r, Rest(), ParseOr(old(Rest())))
      decreases |tokens| - pos, 5
    {
      ghost var whole := Rest();
      r := ParseAndExpression();
      if r.Err? {
        return;
      }
      while Is(OR)
        invariant Valid() && r.Ok? && |tokens| - pos < |whole|
        invariant ParseOr(whole) == ParseOrRest(r.value, Rest())
        decreases |tokens| - pos
      {
        var _ := Advance();
        var right := ParseAndExpression();
        if right.Err? {
          return Err;
        }
        r := Ok(BinaryOp(OR, r.value, right.value));
      }
    }
  }

  /** The items read so far, put before those still to come. */
  function ItemsAfter<T>(vs: seq<T>, p: Parsed<seq<T>>): Parsed<seq<T>> {
    match p
    case Done(ws, rest) => Done(vs + ws, rest)
    case Fail => Fail
  }

  lemma {:induction false} ItemsAfterNone<T>(none: seq<T>, p: Parsed<seq<T>>)
    requires none == []
    ensures ItemsAfter(none, p) == p
  {
    if p.Done? {
      assert none + p.value == p.value;
    }
  }

  lemma {:induction false} ItemsAfterTwice<T>(vs: seq<T>, ws: seq<T>, p: Parsed<seq<T>>)
    ensures ItemsAfter(vs, ItemsAfter(ws, p)) == ItemsAfter(vs + ws, p)
  {
    if p.Done? {
      assert vs + (ws + p.value) == vs + ws + p.value;
    }
  }
}
