/**
 Cutting a rule's text at the word ASSERT: what str.split and str.strip do to
 its symbols.

 Cutting after the first ASSERT symbol leaves the symbols that follow it,
 because lexing goes on from the end of one symbol without looking back;
 stripping takes away blanks only, which stand between symbols. Where the
 first ASSERT of the text is no symbol, neither holds.
 */
module TextSplit {
  import opened Symbols
  import opened Lexing
  import opened Lexemes
  import opened Parsing
  import opened Grammar

  /** Where needle first stands in hay. */
  function FirstIndex(needle: string, hay: string): (r: Option<nat>)
    ensures r.Some? ==> r.value + |needle| <= |hay| && hay[r.value..r.value + |needle|] == needle
    decreases |hay|
  {
    if needle <= hay then Some(0)
    else if hay == [] then None
    else match FirstIndex(needle, hay[1..]) case Some(i) => Some(i + 1) case None => None
  }

  /** rule.split('ASSERT', 1)[1].strip(), if the rule contains ASSERT. */
  function AssertPart(rule: string): Option<string> {
    match FirstIndex("ASSERT", rule)
    case Some(i) => Some(Strip(rule[i + 6..]))
    case None => None
  }

  /** Where the first ASSERT symbol stands in a text that lexes up to it. */
  function AssertOffset(s: string): Option<nat> {
    if s == [] || Next(s).Bad? then None
    else if Next(s).Lexeme? && Next(s).sym == Fixed(ASSERT) then Some(0)
    else match AssertOffset(s[Next(s).len..]) case Some(i) => Some(Next(s).len + i) case None => None
  }

  // ---------- After the first ASSERT symbol ----------

  lemma {:induction false} LexStep(s: string)
    requires s != [] && Lex(s).Ok?
    ensures !Next(s).Bad? && Lex(s[Next(s).len..]).Ok?
    ensures Lex(s).value == if Next(s).Skip? then Lex(s[Next(s).len..]).value
                            else [Next(s).sym] + Lex(s[Next(s).len..]).value
  {
    var n := Next(s).len;
    SymsCons(Next(s), Scan(s[n..]).value);
    if Next(s).Lexeme? {
      assert [Next(s).sym] + Syms(Scan(s[n..]).value) + [Eof] == [Next(s).sym] + (Syms(Scan(s[n..]).value) + [Eof]);
    }
  }

  lemma {:induction false} AssertIsSix(s: string)
    requires s != [] && Next(s).Lexeme? && Next(s).sym == Fixed(ASSERT)
    ensures Next(s).len == 6
  {
    LexemeSound(s);
    assert |Upper(s[..Next(s).len])| == |"ASSERT"|;
  }

  lemma {:induction false} DropTwice<T>(s: seq<T>, n: nat, k: nat)
    requires n + k <= |s|
    ensures s[n..][k..] == s[n + k..]
  {
  }

  lemma {:induction false} AfterAssertStep(whole: seq<Sym>, first: Sym, rest: seq<Sym>)
    requires whole == [first] + rest
    ensures AfterAssert(whole) == if first == Fixed(ASSERT) then rest else AfterAssert(rest)
  {
    assert whole[1..] == rest;
  }

  /** The symbols after the first ASSERT of s are those of the text six characters after i. */
  ghost predicate SplitsAt(s: string, i: nat) {
    && Lex(s).Ok? && i + 6 <= |s| && Lex(s[i + 6..]).Ok?
    && AfterAssert(Lex(s).value) == Lex(s[i + 6..]).value
  }

  lemma {:induction false} SplitsLater(s: string, n: nat, i: nat)
    requires n <= |s| && Lex(s).Ok? && SplitsAt(s[n..], i)
    requires AfterAssert(Lex(s).value) == AfterAssert(Lex(s[n..]).value)
    ensures SplitsAt(s, n + i)
  {
    DropTwice(s, n, i + 6);
  }

  lemma {:induction false} SplitsHere(s: string)
    requires Lex(s).Ok? && s != [] && Next(s).Lexeme? && Next(s).sym == Fixed(ASSERT)
    ensures SplitsAt(s, 0)
  {
    LexStep(s);
    AssertIsSix(s);
    AfterAssertStep(Lex(s).value, Fixed(ASSERT), Lex(s[6..]).value);
  }

  lemma {:induction false} AfterPiece(s: string)
    requires Lex(s).Ok? && s != [] && !(Next(s).Lexeme? && Next(s).sym == Fixed(ASSERT))
    ensures !Next(s).Bad? && AfterAssert(Lex(s).value) == AfterAssert(Lex(s[Next(s).len..]).value)
  {
    LexStep(s);
    if Next(s).Lexeme? {
      AfterAssertStep(Lex(s).value, Next(s).sym, Lex(s[Next(s).len..]).value);
    }
  }

  /** The symbols after the first ASSERT are those of the text after it. */
  lemma {:induction false} SymbolsAfterAssert(s: string)
    requires Lex(s).Ok? && AssertOffset(s).Some?
    ensures SplitsAt(s, AssertOffset(s).value)
    decreases |s|
  {
    if AssertOffset(s) == Some(0) {
      OffsetHere(s);
      SplitsHere(s);
    } else {
      var n, i := OffsetLater(s);
      SymbolsAfterAssert(s[n..]);
      SplitsLater(s, n, i);
    }
  }

  lemma {:induction false} OffsetHere(s: string)
    requires AssertOffset(s) == Some(0)
    ensures s != [] && Next(s).Lexeme? && Next(s).sym == Fixed(ASSERT)
  {
  }

  /** The first ASSERT symbol stands behind the first piece of s. */
  lemma {:induction false} OffsetLater(s: string) returns (n: nat, i: nat)
    requires Lex(s).Ok? && AssertOffset(s).Some? && AssertOffset(s) != Some(0)
    ensures 0 < n <= |s| && Lex(s[n..]).Ok? && AssertOffset(s[n..]) == Some(i) && AssertOffset(s) == Some(n + i)
    ensures AfterAssert(Lex(s).value) == AfterAssert(Lex(s[n..]).value)
  {
    AfterPiece(s);
    LexStep(s);
    n := Next(s).len;
    i := AssertOffset(s[n..]).value;
  }

  // ---------- Stripping ----------

  lemma {:induction false} StripLeftKeepsSymbols(s: string)
    requires Lex(s).Ok?
    ensures Lex(StripLeft(s)) == Lex(s)
  {
    if s != [] && IsSpace(s[0]) {
      LexStep(s);
      LexSkip(s);
      StripLeftKeepsSymbols(s[1..]);
    }
  }

  lemma {:induction false} CommentBefore(s: string, c: char)
    requires s != [] && s[0] == '#'
    ensures CommentRun(s) < |s| ==> CommentRun(s + [c]) == CommentRun(s)
    ensures CommentRun(s) == |s| ==> |s| <= CommentRun(s + [c]) <= |s| + 1
  {
    if CommentRun(s) < |s| { CommentRunStays(s, [c]); } else { CommentRunGoesOn(s, c); }
  }

  lemma {:induction false} CommentRunGoesOn(s: string, c: char)
    requires CommentRun(s) == |s|
    ensures |s| <= CommentRun(s + [c]) <= |s| + 1
  {
    if s != [] {
      assert (s + [c])[1..] == s[1..] + [c];
      CommentRunGoesOn(s[1..], c);
    }
  }

  lemma {:induction false} StringBefore(s: string, quote: char, c: char)
    requires quote != c && quote != '\\' && StringBody(s + [c], quote).Some?
    ensures StringBody(s, quote) == StringBody(s + [c], quote)
  {
    var t := s + [c];
    if s == [] {
      assert t[1..] == [];
    } else if s[0] == quote {
    } else if s[0] == '\\' {
      if |s| > 1 {
        assert t[2..] == s[2..] + [c];
        StringBefore(s[2..], quote, c);
      }
    } else {
      assert t[1..] == s[1..] + [c];
      StringBefore(s[1..], quote, c);
    }
  }

  lemma {:induction false} SliceBefore(s: string, c: char, i: nat, j: nat)
    requires i <= j <= |s|
    ensures (s + [c])[i..j] == s[i..j]
  {
  }

  lemma {:induction false} WholeBefore(s: string, c: char, n: nat)
    requires IsSpace(c) && s != [] && IsDigit(s[0]) && n == DigitRun(s) && (n < |s| ==> s[n] != '.')
    ensures NumberLexeme(s + [c]) == NumberLexeme(s)
  {
    WholeIs(s + [c], n);
    SliceBefore(s, c, 0, n);
  }

  /** A number with its dot at k, ending before n. */
  ghost predicate DecimalShape(s: string, k: nat, n: nat) {
    && 0 < k < n <= |s| && s[k] == '.' && (n < |s| ==> !IsDigit(s[n]))
    && (forall i :: 0 <= i < k ==> IsDigit(s[i])) && (forall i :: k < i < n ==> IsDigit(s[i]))
  }

  lemma {:induction false} DecimalThere(s: string, k: nat, n: nat)
    requires 0 < k == DigitRun(s) < |s| && s[k] == '.' && n == k + 1 + DigitRun(s[k + 1..])
    ensures DecimalShape(s, k, n)
  {
    var tail := s[k + 1..];
    forall i | k < i < n ensures IsDigit(s[i]) { assert s[i] == tail[i - k - 1]; }
    if n < |s| { assert s[n] == tail[n - k - 1]; }
  }

  lemma {:induction false} DecimalStays(s: string, c: char, k: nat, n: nat)
    requires DecimalShape(s, k, n) && IsSpace(c)
    ensures DecimalShape(s + [c], k, n)
  {
  }

  lemma {:induction false} DecimalBefore(s: string, c: char, n: nat, m: nat)
    requires IsSpace(c) && s != [] && IsDigit(s[0]) && n == DigitRun(s) < |s| && s[n] == '.'
    requires m == n + 1 + DigitRun(s[n + 1..])
    ensures NumberLexeme(s + [c]) == NumberLexeme(s)
  {
    DecimalThere(s, n, m);
    DecimalIs(s, n, m);
    DecimalStays(s, c, n, m);
    DecimalIs(s + [c], n, m);
    SliceBefore(s, c, 0, n);
    SliceBefore(s, c, n + 1, m);
  }

  lemma {:induction false} NumberBefore(s: string, c: char)
    requires s != [] && IsSpace(c) && IsDigit(s[0])
    ensures NumberLexeme(s + [c]) == NumberLexeme(s)
  {
    var n := DigitRun(s);
    if n < |s| && s[n] == '.' {
      DecimalBefore(s, c, n, n + 1 + DigitRun(s[n + 1..]));
    } else {
      WholeBefore(s, c, n);
    }
  }

  lemma {:induction false} WordBefore(s: string, c: char)
    requires s != [] && IsSpace(c) && IsWordStart(s[0])
    ensures WordLexeme(s + [c]) == WordLexeme(s)
  {
    WordRunIs(s + [c], WordRun(s));
    assert (s + [c])[..WordRun(s)] == s[..WordRun(s)];
  }

  lemma {:induction false} OperatorBefore(s: string, c: char)
    requires s != [] && IsSpace(c)
    ensures OperatorLexeme(s + [c]) == OperatorLexeme(s)
  {
  }

  /** A space character at the end of a text is no part of the symbol or blank before it. */
  lemma {:induction false} NextBefore(s: string, c: char)
    requires s != [] && IsSpace(c) && !Next(s + [c]).Bad?
    ensures Next(s) == Next(s + [c])
            || (Next(s) == Skip(|s|) && Next(s + [c]).Skip? && |s| <= Next(s + [c]).len)
  {
    var t := s + [c];
    if s[0] == '#' {
      CommentBefore(s, c);
    } else if IsQuote(s[0]) {
      assert t[1..] == s[1..] + [c];
      StringBefore(s[1..], s[0], c);
    } else if IsDigit(s[0]) {
      NumberBefore(s, c);
    } else if IsWordStart(s[0]) {
      WordBefore(s, c);
    } else {
      OperatorBefore(s, c);
    }
  }

  lemma {:induction false} LastSpaceKeepsSymbols(s: string, c: char)
    requires IsSpace(c) && Lex(s + [c]).Ok?
    ensures Lex(s) == Lex(s + [c])
    decreases |s|
  {
    var t := s + [c];
    LexStep(t);
    if s == [] {
      assert t[1..] == [];
    } else {
      NextBefore(s, c);
      var n := Next(t).len;
      if Next(s) == Next(t) {
        assert t[n..] == s[n..] + [c];
        LastSpaceKeepsSymbols(s[n..], c);
        LexAgain(s, t);
      } else {
        LexSkip(s);
        assert t[n..] == [];
      }
    }
  }

  lemma {:induction false} LexAgain(s: string, t: string)
    requires s != [] && t != [] && Next(s) == Next(t) && !Next(s).Bad?
    requires Lex(s[Next(s).len..]) == Lex(t[Next(s).len..]) && Lex(t).Ok?
    ensures Lex(s) == Lex(t)
  {
    LexStep(t);
    if Next(s).Skip? {
      LexSkip(s);
    } else {
      var r := Scan(s[Next(s).len..]);
      SymsCons(Next(s), r.value);
      assert [Next(s).sym] + Syms(r.value) + [Eof] == [Next(s).sym] + (Syms(r.value) + [Eof]);
    }
  }

  lemma {:induction false} StripRightKeepsSymbols(s: string)
    requires Lex(s).Ok?
    ensures Lex(StripRight(s)) == Lex(s)
  {
    if s != [] && IsSpace(s[|s| - 1]) {
      assert s == s[..|s| - 1] + [s[|s| - 1]];
      LastSpaceKeepsSymbols(s[..|s| - 1], s[|s| - 1]);
      StripRightKeepsSymbols(s[..|s| - 1]);
    }
  }

  /** Stripping a text that lexes leaves its symbols as they are. */
  lemma {:induction false} StripKeepsSymbols(s: string)
    requires Lex(s).Ok?
    ensures Lex(Strip(s)) == Lex(s)
  {
    StripLeftKeepsSymbols(s);
    StripRightKeepsSymbols(StripLeft(s));
  }
}
