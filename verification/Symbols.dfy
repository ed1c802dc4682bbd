/**
 The vocabulary of the compliance language: token types, lexed symbols, and the
 ASCII text operations the lexer relies on.

 Keywords and operators are told apart by a fixed spelling each; no two share
 one, and no keyword's spelling looks like an operator's. Identifiers, strings
 and numbers carry what was read. Option and Result are used by every module:
 errors are modelled, their messages are not.
 */
module Symbols {

  datatype Option<+T> = None | Some(value: T)

  /** A computation that may raise; error messages are not modelled. */
  datatype Result<+T> = Ok(value: T) | Err {
    predicate IsFailure() { Err? }
    function PropagateFailure<U>(): Result<U> requires Err? { Err }
    function Extract(): T requires Ok? { value }
  }

  lemma {:induction false} Associates<T>(a: seq<T>, b: seq<T>, c: seq<T>)
    ensures (a + b) + c == a + (b + c)
  {
  }

  /** Token types with a fixed spelling, keywords first. */
  datatype TokenType =
    | MATCH | WHERE | ASSERT | ON_PASS | ON_FAIL
    | CASE | WHEN | THEN | ELSE | END
    | MATCHES | IN | CONTAINS | AND | OR | NOT
    | HAS_TAG | TAG | LENGTH | UPPER | LOWER
    | PASS | FAIL | ASSIGN_TAG | REMOVE_TAG | NOTIFY
    | EQ | NEQ | GT | LT | GTE | LTE
    | LPAREN | RPAREN | LBRACKET | RBRACKET | COMMA | COLON | DOT

  /** What a token carries, apart from its place in the text. */
  datatype Sym =
    | Fixed(typ: TokenType)
    | Ident(name: string)
    | Str(text: string)
    | Whole(n: nat)
      // mantissa / 10^scale, as written
    | Decimal(mantissa: nat, scale: nat)
    | Eof

  function Spelling(t: TokenType): string {
    match t
    case MATCH => "MATCH" case WHERE => "WHERE" case ASSERT => "ASSERT"
    case ON_PASS => "ON_PASS" case ON_FAIL => "ON_FAIL"
    case CASE => "CASE" case WHEN => "WHEN" case THEN => "THEN" case ELSE => "ELSE" case END => "END"
    case MATCHES => "MATCHES" case IN => "IN" case CONTAINS => "CONTAINS"
    case AND => "AND" case OR => "OR" case NOT => "NOT"
    case HAS_TAG => "HAS_TAG" case TAG => "TAG" case LENGTH => "LENGTH"
    case UPPER => "UPPER" case LOWER => "LOWER"
    case PASS => "PASS" case FAIL => "FAIL"
    case ASSIGN_TAG => "ASSIGN_TAG" case REMOVE_TAG => "REMOVE_TAG" case NOTIFY => "NOTIFY"
    case EQ => "=" case NEQ => "!=" case GT => ">" case LT => "<" case GTE => ">=" case LTE => "<="
    case LPAREN => "(" case RPAREN => ")" case LBRACKET => "[" case RBRACKET => "]"
    case COMMA => "," case COLON => ":" case DOT => "."
  }

  predicate IsKeyword(t: TokenType) {
    !(t.EQ? || t.NEQ? || t.GT? || t.LT? || t.GTE? || t.LTE? || t.LPAREN? || t.RPAREN?
      || t.LBRACKET? || t.RBRACKET? || t.COMMA? || t.COLON? || t.DOT?)
  }

  predicate IsAction(t: TokenType) {
    t.PASS? || t.FAIL? || t.ASSIGN_TAG? || t.REMOVE_TAG? || t.NOTIFY?
  }

  predicate IsFunction(t: TokenType) {
    t.HAS_TAG? || t.TAG? || t.LENGTH? || t.UPPER? || t.LOWER?
  }

  predicate IsComparison(t: TokenType) {
    t.EQ? || t.NEQ? || t.GT? || t.LT? || t.GTE? || t.LTE? || t.MATCHES? || t.IN? || t.CONTAINS?
  }

  predicate Names(t: TokenType, w: string) {
    IsKeyword(t) && Spelling(t) == w
  }

  /** The keyword an upper-cased word names, if any. */
  function KeywordOf(w: string): (r: Option<TokenType>)
    ensures r.Some? ==> Names(r.value, w)
    ensures r.None? ==> forall t :: !Names(t, w)
  {
    if exists t :: Names(t, w) then
      SpellingsDiffer(w);
      var t :| Names(t, w);
      Some(t)
    else None
  }

  lemma {:induction false} KeywordOfSpelling(t: TokenType)
    requires IsKeyword(t)
    ensures KeywordOf(Spelling(t)) == Some(t)
  {
    assert Names(t, Spelling(t));
    SpellingsDiffer(Spelling(t));
  }

  lemma {:induction false} SpellingsDiffer(w: string)
    ensures forall t, u :: Names(t, w) && Names(u, w) ==> t == u
  {
    forall t, u | Names(t, w) && Names(u, w) ensures t == u {
      SpellingInjective(t, u);
    }
  }

  /** Length, first and last letter already tell the keywords apart. */
  function Shape(t: TokenType): (int, char, char)
    requires IsKeyword(t)
  {
    match t
    case MATCH => (5, 'M', 'H') case WHERE => (5, 'W', 'E') case ASSERT => (6, 'A', 'T')
    case ON_PASS => (7, 'O', 'S') case ON_FAIL => (7, 'O', 'L')
    case CASE => (4, 'C', 'E') case WHEN => (4, 'W', 'N') case THEN => (4, 'T', 'N')
    case ELSE => (4, 'E', 'E') case END => (3, 'E', 'D')
    case MATCHES => (7, 'M', 'S') case IN => (2, 'I', 'N') case CONTAINS => (8, 'C', 'S')
    case AND => (3, 'A', 'D') case OR => (2, 'O', 'R') case NOT => (3, 'N', 'T')
    case HAS_TAG => (7, 'H', 'G') case TAG => (3, 'T', 'G') case LENGTH => (6, 'L', 'H')
    case UPPER => (5, 'U', 'R') case LOWER => (5, 'L', 'R')
    case PASS => (4, 'P', 'S') case FAIL => (4, 'F', 'L')
    case ASSIGN_TAG => (10, 'A', 'G') case REMOVE_TAG => (10, 'R', 'G') case NOTIFY => (6, 'N', 'Y')
  }

  lemma {:induction false} SpellingShape(t: TokenType)
    requires IsKeyword(t)
    ensures var w := Spelling(t); |w| > 0 && Shape(t) == (|w|, w[0], w[|w| - 1])
  {
  }

  lemma {:induction false} SpellingInjective(t: TokenType, u: TokenType)
    requires IsKeyword(t) && IsKeyword(u) && Spelling(t) == Spelling(u)
    ensures t == u
  {
    SpellingShape(t);
    SpellingShape(u);
    ShapeInjective(t, u);
  }

  lemma {:induction false} ShapeInjective(t: TokenType, u: TokenType)
    requires IsKeyword(t) && IsKeyword(u) && Shape(t) == Shape(u)
    ensures t == u
  {
  }

  predicate IsDigit(c: char) { '0' <= c <= '9' }
  predicate IsAlpha(c: char) { 'a' <= c <= 'z' || 'A' <= c <= 'Z' }
  predicate IsWordStart(c: char) { IsAlpha(c) || c == '_' }
  predicate IsWordChar(c: char) { IsAlpha(c) || IsDigit(c) || c == '_' }
  predicate IsQuote(c: char) { c == '"' || c == '\'' }
  /** What skip_whitespace steps over. */
  predicate IsLineBlank(c: char) { c == ' ' || c == '\t' || c == '\r' }
  /** Blanks the lexer steps over: skip_whitespace plus the newline branch. */
  predicate IsBlank(c: char) { IsLineBlank(c) || c == '\n' }
  /** What str.strip removes (ASCII): the blanks plus FS..US, VT and FF. */
  predicate IsSpace(c: char) { IsBlank(c) || c as int == 11 || c as int == 12 || 28 <= c as int <= 31 }

  function UpperChar(c: char): char { if 'a' <= c <= 'z' then (c as int - 32) as char else c }
  function LowerChar(c: char): char { if 'A' <= c <= 'Z' then (c as int + 32) as char else c }

  function Upper(s: string): (r: string)
    ensures |r| == |s|
    ensures forall i :: 0 <= i < |s| ==> r[i] == UpperChar(s[i])
  {
    seq(|s|, i requires 0 <= i < |s| => UpperChar(s[i]))
  }

  function Lower(s: string): (r: string)
    ensures |r| == |s|
    ensures forall i :: 0 <= i < |s| ==> r[i] == LowerChar(s[i])
  {
    seq(|s|, i requires 0 <= i < |s| => LowerChar(s[i]))
  }

  function StripLeft(s: string): string {
    if s != [] && IsSpace(s[0]) then StripLeft(s[1..]) else s
  }

  function StripRight(s: string): string {
    if s != [] && IsSpace(s[|s| - 1]) then StripRight(s[..|s| - 1]) else s
  }

  /** s.strip() */
  function Strip(s: string): string {
    StripRight(StripLeft(s))
  }

  /** A name the lexer reads back as an identifier: word characters, no keyword in any case. */
  predicate IsName(s: string) {
    s != [] && IsWordStart(s[0]) && (forall i :: 0 <= i < |s| ==> IsWordChar(s[i])) && KeywordOf(Upper(s)).None?
  }
}
