/**
  The Rat25S tokenizer.

  Every scanner is a pure function that walks an index over the source text:
  a whitespace-and-comment skipper, an identifier/keyword recogniser, an
  integer/real recogniser, a table-driven operator/separator step and a step
  that groups a run of unrecognised characters into one token. `Tokenize`
  drives them, stamps line numbers and closes the sequence with one `Eof`.
 */
module Lexer {
  import opened Wrappers
  import opened Chars
  import opened Tokens

  /** The fourteen reserved words, in lower case. */
  const Keywords: set<string> := {
    "integer", "real", "boolean",
    "function", "if", "else", "endif",
    "while", "endwhile", "return",
    "scan", "print", "true", "false"
  }

  /**
    The operator and separator tables. Every multi-character entry is two
    characters long and is given as its pair of characters; membership in
    a table is written out as a disjunction over its entries.
   */
  predicate IsMultiCharOperator(p: (char, char)) {
    p == ('<', '=') || p == ('>', '=') || p == ('=', '=') || p == ('<', '>') || p == ('!', '=') || p == ('=', '>')
  }

  predicate IsMultiCharSeparator(p: (char, char)) {
    p == ('$', '$')
  }

  predicate IsSingleCharOperator(c: char) {
    c == '=' || c == '+' || c == '-' || c == '*' || c == '/' || c == '<' || c == '>'
  }

  predicate IsSingleCharSeparator(c: char) {
    c == '(' || c == ')' || c == '{' || c == '}' || c == ';' || c == ',' || c == '$'
  }

  /** The lexeme of the error token reported for a comment that never closes. */
  const UnterminatedComment: string := "unterminated comment"

  /** That error token, on the default line 1 until the driver stamps it. */
  const UnterminatedCommentToken: Token := Token(Unknown, UnterminatedComment, 1)

  /** Every keyword is spelled in lower-case letters only. */
  lemma KeywordsAreLowerCase()
    ensures forall w, i :: w in Keywords && 0 <= i < |w| ==> 'a' <= w[i] <= 'z'
  {
  }

  /** Keyword classification ignores case: a keyword is a table entry up to the case of its letters. */
  predicate IsKeyword(lexeme: string): (r: bool)
    ensures r <==> exists w :: w in Keywords && SameIgnoringCase(lexeme, w)
  {
    KeywordsAreLowerCase();
    assert forall w :: w in Keywords && SameIgnoringCase(lexeme, w) ==> Lower(lexeme) == w;
    assert SameIgnoringCase(lexeme, Lower(lexeme));
    Lower(lexeme) in Keywords
  }

  /** A comment opener `[*` starts at `i`. */
  predicate OpensComment(src: string, i: nat) {
    i + 1 < |src| && src[i] == '[' && src[i + 1] == '*'
  }

  /** A comment closer `*]` starts at `i`. */
  predicate ClosesComment(src: string, i: nat) {
    i + 1 < |src| && src[i] == '*' && src[i + 1] == ']'
  }

  /** Index `k` holds a character that is neither whitespace nor the start of a comment opener. */
  predicate Significant(src: string, k: nat) {
    k < |src| && !IsSpace(src[k]) && !OpensComment(src, k)
  }

  /** Index `i` is the end of the text or a significant character: the skipper has nothing to do there. */
  predicate NothingToSkip(src: string, i: nat) {
    i == |src| || Significant(src, i)
  }

  /** The index just past the first `*]` found from `i` on, if there is one. */
  function CommentEnd(src: string, i: nat): (r: Option<nat>)
    requires i <= |src|
    ensures r.Some? ==> i + 2 <= r.value <= |src| && ClosesComment(src, r.value - 2)
    ensures r.Some? ==> forall k :: i <= k < r.value - 2 ==> !ClosesComment(src, k)
    ensures r.None? ==> forall k :: i <= k < |src| ==> !ClosesComment(src, k)
    decreases |src| - i
  {
    if i >= |src| then None
    else if ClosesComment(src, i) then Some(i + 2)
    else CommentEnd(src, i + 1)
  }

  /** Where skipping stopped, and the error token if an unclosed comment ran to the end. */
  datatype Skipped = Skipped(next: nat, error: Option<Token>)

  /**
    Skips whitespace and `[* ... *]` comments from `i`. The search for the
    closing `*]` starts just after the opening `[*`, so `[*]` does not close
    itself.
   */
  function SkipWsAndComments(src: string, i: nat): (r: Skipped)
    requires i <= |src|
    ensures i <= r.next <= |src|
    ensures r.error.Some? ==> r.next == |src| && r.error.value == UnterminatedCommentToken
    ensures r.error.None? ==> NothingToSkip(src, r.next)
    decreases |src| - i
  {
    if i >= |src| then Skipped(i, None)
    else if IsSpace(src[i]) then SkipWsAndComments(src, i + 1)
    else if OpensComment(src, i) then
      match CommentEnd(src, i + 2)
      case Some(j) => SkipWsAndComments(src, j)
      case None => Skipped(|src|, Some(UnterminatedCommentToken))
    else Skipped(i, None)
  }

  /** A recognised token and the index just past it. */
  datatype Lexed = Lexed(token: Token, next: nat)

  /** Index `k` holds a letter, digit or `_`. */
  predicate WordCharAt(src: string, k: nat) {
    k < |src| && IsWordChar(src[k])
  }

  /** Index `k` holds a digit. */
  predicate DigitAt(src: string, k: nat) {
    k < |src| && IsDigit(src[k])
  }

  /** The first index from `i` on that cannot continue an identifier. */
  function WordEnd(src: string, i: nat): (e: nat)
    requires i <= |src|
    ensures i <= e <= |src|
    ensures forall k :: i <= k < e ==> WordCharAt(src, k)
    ensures !WordCharAt(src, e)
    decreases |src| - i
  {
    if WordCharAt(src, i) then WordEnd(src, i + 1) else i
  }

  /** The first index from `i` on that does not hold a digit. */
  function DigitsEnd(src: string, i: nat): (e: nat)
    requires i <= |src|
    ensures i <= e <= |src|
    ensures forall k :: i <= k < e ==> DigitAt(src, k)
    ensures !DigitAt(src, e)
    decreases |src| - i
  {
    if DigitAt(src, i) then DigitsEnd(src, i + 1) else i
  }

  predicate AllDigits(s: string) {
    forall k :: 0 <= k < |s| ==> IsDigit(s[k])
  }

  /** A stretch of digit positions, cut out of the text, is a digit string. */
  lemma DigitRunIsAllDigits(src: string, a: nat, e: nat)
    requires a <= e <= |src|
    requires forall k :: a <= k < e ==> DigitAt(src, k)
    ensures AllDigits(src[a..e])
  {
    forall k | 0 <= k < e - a
      ensures IsDigit(src[a..e][k])
    {
      assert DigitAt(src, a + k);
    }
  }

  /** Letters, digits and `_` are neither blanks nor comment openers. */
  lemma WordRunIsSignificant(src: string, a: nat, e: nat)
    requires forall k :: a <= k < e ==> WordCharAt(src, k)
    ensures forall k :: a <= k < e ==> Significant(src, k)
  {
    forall k | a <= k < e
      ensures Significant(src, k)
    {
      assert WordCharAt(src, k);
    }
  }

  /** Digits are neither blanks nor comment openers. */
  lemma DigitRunIsSignificant(src: string, a: nat, e: nat)
    requires forall k :: a <= k < e ==> DigitAt(src, k)
    ensures forall k :: a <= k < e ==> Significant(src, k)
  {
    forall k | a <= k < e
      ensures Significant(src, k)
    {
      assert DigitAt(src, k);
    }
  }

  /** A non-empty digit run, a dot, and a non-empty digit run. */
  predicate IsRealLiteral(s: string) {
    exists d :: 0 < d < |s| - 1 && s[d] == '.' && AllDigits(s[..d]) && AllDigits(s[d + 1..])
  }

  /** A dot followed by a digit starts at `i`: the one-character lookahead of the number scanner. */
  predicate FractionAt(src: string, i: nat) {
    i + 1 < |src| && src[i] == '.' && DigitAt(src, i + 1)
  }

  /** Identifier/keyword scanner: a letter, then the longest run of letters, digits and `_`. */
  function LexWord(src: string, begin: nat): (r: Lexed)
    requires begin < |src| && IsAlpha(src[begin])
    ensures begin < r.next <= |src| && r.token.lexeme == src[begin..r.next] && r.token.line == 1
    ensures forall k :: begin < k < r.next ==> WordCharAt(src, k)
    ensures !WordCharAt(src, r.next)
    ensures forall k :: begin <= k < r.next ==> Significant(src, k)
    ensures r.token.kind == (if IsKeyword(r.token.lexeme) then Keyword else Identifier)
  {
    var end := WordEnd(src, begin + 1);
    var lexeme := src[begin..end];
    WordRunIsSignificant(src, begin + 1, end);
    Lexed(Token(if IsKeyword(lexeme) then Keyword else Identifier, lexeme, 1), end)
  }

  /**
    Number scanner: the longest digit run, extended by `.` and a second digit
    run only when the dot is immediately followed by a digit.
   */
  function LexNumber(src: string, begin: nat): (r: Lexed)
    requires begin < |src| && IsDigit(src[begin])
    ensures begin < r.next <= |src| && r.token.lexeme == src[begin..r.next] && r.token.line == 1
    ensures r.token.kind == Integer || r.token.kind == Real
    ensures r.token.kind == Integer ==> AllDigits(r.token.lexeme) && !FractionAt(src, r.next)
    ensures r.token.kind == Real ==> IsRealLiteral(r.token.lexeme)
    ensures !DigitAt(src, r.next)
    ensures forall k :: begin <= k < r.next ==> Significant(src, k)
  {
    var end := DigitsEnd(src, begin + 1);
    DigitRunIsSignificant(src, begin + 1, end);
    if FractionAt(src, end) then
      var fracEnd := DigitsEnd(src, end + 1);
      var lexeme := src[begin..fracEnd];
      assert lexeme[..end - begin] == src[begin..end];
      assert lexeme[end - begin + 1..] == src[end + 1..fracEnd];
      DigitRunIsAllDigits(src, begin, end);
      DigitRunIsAllDigits(src, end + 1, fracEnd);
      DigitRunIsSignificant(src, end + 1, fracEnd);
      Lexed(Token(Real, lexeme, 1), fracEnd)
    else
      DigitRunIsAllDigits(src, begin, end);
      Lexed(Token(Integer, src[begin..end], 1), end)
  }

  /** The pair of characters at `i`, when there are two. */
  function PairAt(src: string, i: nat): (char, char)
    requires i + 1 < |src|
  {
    (src[i], src[i + 1])
  }

  /** Some multi-character operator or separator starts at `i` (Python's `startswith` on each entry). */
  predicate StartsMultiChar(src: string, i: nat) {
    i + 1 < |src| && (IsMultiCharOperator(PairAt(src, i)) || IsMultiCharSeparator(PairAt(src, i)))
  }

  /** The multi-character table step: the operator or separator whose two characters start at `i`. */
  function MultiCharAt(src: string, i: nat): (r: Option<Token>)
    ensures r.Some? <==> StartsMultiChar(src, i)
    ensures r.Some? ==> r.value.lexeme == src[i..i + 2] && r.value.line == 1
    ensures r.Some? ==>
              || (r.value.kind == Operator && IsMultiCharOperator(PairAt(src, i)))
              || (r.value.kind == Separator && IsMultiCharSeparator(PairAt(src, i)))
  {
    if i + 1 < |src| && IsMultiCharOperator(PairAt(src, i)) then Some(Token(Operator, src[i..i + 2], 1))
    else if i + 1 < |src| && IsMultiCharSeparator(PairAt(src, i)) then Some(Token(Separator, src[i..i + 2], 1))
    else None
  }

  /** A character at `i` that ends a run of unrecognised characters. */
  predicate EndsUnknownRun(src: string, i: nat)
    requires i < |src|
  {
    || IsSpace(src[i])
    || IsAlpha(src[i]) || IsDigit(src[i])
    || OpensComment(src, i)
    || StartsMultiChar(src, i)
    || IsSingleCharOperator(src[i]) || IsSingleCharSeparator(src[i])
  }

  /** The first index from `i` on that is the end of the text or ends an unknown run. */
  function UnknownRunEnd(src: string, i: nat): (e: nat)
    requires i <= |src|
    ensures i <= e <= |src|
    ensures forall k :: i <= k < e ==> !EndsUnknownRun(src, k)
    ensures forall k :: i <= k < e ==> Significant(src, k)
    ensures e == |src| || EndsUnknownRun(src, e)
    decreases |src| - i
  {
    if i < |src| && !EndsUnknownRun(src, i) then UnknownRunEnd(src, i + 1) else i
  }

  /** Unknown grouping: the maximal run of unrecognised characters, but never less than one character. */
  function LexUnknown(src: string, begin: nat): (r: Lexed)
    requires begin < |src|
    ensures begin < r.next <= |src| && r.token == Token(Unknown, src[begin..r.next], 1)
    ensures !EndsUnknownRun(src, begin) ==>
              (forall k :: begin <= k < r.next ==> !EndsUnknownRun(src, k))
              && (r.next == |src| || EndsUnknownRun(src, r.next))
    ensures !EndsUnknownRun(src, begin) ==>
              forall k :: begin <= k < r.next ==> Significant(src, k)
  {
    var end := UnknownRunEnd(src, begin);
    var next := if end > begin then end else begin + 1;
    Lexed(Token(Unknown, src[begin..next], 1), next)
  }

  /** The scanner that handles a token, as told by the token's kind. */
  datatype Scanner = WordScanner | NumberScanner | OperatorStep | SeparatorStep | UnknownStep

  function ScannerOf(k: TokenKind): Scanner
    requires k != Eof
  {
    match k
    case Keyword => WordScanner
    case Identifier => WordScanner
    case Integer => NumberScanner
    case Real => NumberScanner
    case Operator => OperatorStep
    case Separator => SeparatorStep
    case Unknown => UnknownStep
  }

  /**
    The scanner that claims index `b`: letters start words and digits
    numbers; otherwise the two-character tables are tried before the
    one-character ones, operators before separators, and what is left is
    unknown.
   */
  function ScannerAt(src: string, b: nat): Scanner
    requires b < |src|
  {
    var ch := src[b];
    if IsAlpha(ch) then WordScanner
    else if IsDigit(ch) then NumberScanner
    else if StartsMultiChar(src, b) then
      if IsMultiCharOperator(PairAt(src, b)) then OperatorStep else SeparatorStep
    else if IsSingleCharOperator(ch) then OperatorStep
    else if IsSingleCharSeparator(ch) then SeparatorStep
    else UnknownStep
  }

  /** A token starting at `b` has the kind of the scanner there, and an operator or separator is as long as its table entry. */
  predicate ClassifiedAt(src: string, b: nat, t: Token)
    requires b < |src|
  {
    && t.kind != Eof
    && ScannerOf(t.kind) == ScannerAt(src, b)
    && ((t.kind == Operator || t.kind == Separator) ==> |t.lexeme| == if StartsMultiChar(src, b) then 2 else 1)
  }

  /** The scanners tried in order at an index that holds neither whitespace nor a comment opener. */
  function LexAt(src: string, begin: nat): (r: Lexed)
    requires begin < |src| && NothingToSkip(src, begin)
    ensures begin < r.next <= |src| && r.token.lexeme == src[begin..r.next] && r.token.line == 1
    ensures r.token.kind != Eof
    ensures forall k :: begin <= k < r.next ==> Significant(src, k)
  {
    var ch := src[begin];
    if IsAlpha(ch) then LexWord(src, begin)
    else if IsDigit(ch) then LexNumber(src, begin)
    else match MultiCharAt(src, begin)
      case Some(tok) => Lexed(tok, begin + |tok.lexeme|)
      case None =>
        if IsSingleCharOperator(ch) then Lexed(Token(Operator, [ch], 1), begin + 1)
        else if IsSingleCharSeparator(ch) then Lexed(Token(Separator, [ch], 1), begin + 1)
        else
          assert !EndsUnknownRun(src, begin);
          LexUnknown(src, begin)
  }

  /** The kind `LexAt` gives a token is the one the scanner claiming its first character produces. */
  lemma LexAtClassified(src: string, begin: nat)
    requires begin < |src| && NothingToSkip(src, begin)
    ensures ClassifiedAt(src, begin, LexAt(src, begin).token)
  {
  }

  /**
    The next token from `start`: the unclosed-comment error if skipping ran
    into one, `Eof` if only blanks remain, otherwise the token the scanners
    recognise after the blanks.
   */
  function LexToken(src: string, start: nat): (r: Lexed)
    requires start <= |src|
    ensures start <= r.next <= |src|
    ensures r.token.kind == Eof <==> SkipWsAndComments(src, start) == Skipped(|src|, None)
    ensures r.token.kind == Eof ==> r == Lexed(Token(Eof, "", 1), |src|)
    ensures r.token.kind != Eof ==> start < r.next
    ensures SkipWsAndComments(src, start).error.Some? ==> r == Lexed(UnterminatedCommentToken, |src|)
    ensures var skipped := SkipWsAndComments(src, start);
              skipped.error.None? && r.token.kind != Eof ==>
                skipped.next < r.next && r.token.lexeme == src[skipped.next..r.next]
                && ClassifiedAt(src, skipped.next, r.token)
  {
    var skipped := SkipWsAndComments(src, start);
    if skipped.error.Some? then Lexed(skipped.error.value, skipped.next)
    else if skipped.next >= |src| then Lexed(Token(Eof, "", 1), skipped.next)
    else
      LexAtClassified(src, skipped.next);
      LexAt(src, skipped.next)
  }

  /**
    Tokenizes a whole text. Each token carries the line count as it stood
    at the start of its driver iteration, that is before the blanks that
    precede it; the closing `Eof` carries the final count.
   */
  function Tokenize(text: string): (toks: seq<Token>)
    ensures |toks| > 0 && toks[|toks| - 1].kind == Eof && toks[|toks| - 1].lexeme == ""
  {
    TokenizeFrom(text, 0, 1)
  }

  /** The driver loop from index `i` with line counter `line`: it runs while text remains. */
  function TokenizeFrom(text: string, i: nat, line: nat): (toks: seq<Token>)
    requires i <= |text|
    ensures |toks| > 0 && toks[|toks| - 1].kind == Eof && toks[|toks| - 1].lexeme == ""
    decreases |text| - i, 2
  {
    if i >= |text| then [Token(Eof, "", line)] else LoopBody(text, i, line)
  }

  /**
    One iteration of the driver loop: skip blanks, counting their line
    breaks; then report an unclosed comment and go on, stop at the end of
    the text, or scan a token.
   */
  function LoopBody(text: string, i: nat, line: nat): (toks: seq<Token>)
    requires i < |text|
    ensures |toks| > 0 && toks[|toks| - 1].kind == Eof && toks[|toks| - 1].lexeme == ""
    decreases |text| - i, 1
  {
    var skipped := SkipWsAndComments(text, i);
    var afterBlanks := line + NewlinesIn(text[i..skipped.next]);
    if skipped.error.Some? then
      [skipped.error.value.(line := line)] + TokenizeFrom(text, skipped.next, afterBlanks)
    else if skipped.next >= |text| then
      [Token(Eof, "", afterBlanks)]
    else
      TokenizeAt(text, skipped.next, line, afterBlanks)
  }

  /**
    The rest of a driver iteration once skipping stopped at `b` inside the
    text: scan one token, stamp it with `line` (the count from before the
    blanks), and continue with the count past the token.
   */
  function TokenizeAt(text: string, b: nat, line: nat, afterBlanks: nat): (toks: seq<Token>)
    requires b < |text| && NothingToSkip(text, b)
    ensures |toks| > 1 && toks[|toks| - 1].kind == Eof && toks[|toks| - 1].lexeme == ""
    decreases |text| - b, 0
  {
    // The source calls `lex_token` here; its own skip is a no-op at this
    // index, so it runs the scanners directly (LexerProofs.DriverCallsLexToken),
    // and the source's test for an `Eof` token from that call never fires.
    var lexed := LexAt(text, b);
    [lexed.token.(line := line)] + TokenizeFrom(text, lexed.next, afterBlanks + NewlinesIn(text[b..lexed.next]))
  }
}
