/**
  Properties of the tokenizer: what the skipper leaves behind, that no
  significant character is lost, that every token is self-delimiting, and
  how the driver numbers lines and closes the token sequence.
 */
module LexerProofs {
  import opened Wrappers
  import opened Chars
  import opened Tokens
  import opened Lexer

  // ---------------------------------------------------------------------------
  // Keywords
  // ---------------------------------------------------------------------------

  /** Changing the case of letters never changes whether a lexeme is a keyword. */
  lemma KeywordIgnoresCase(a: string, b: string)
    requires SameIgnoringCase(a, b)
    ensures IsKeyword(a) <==> IsKeyword(b)
  {
    assert Lower(a) == Lower(b);
  }

  /** `IF`, `If` and `if` are all scanned as one keyword token spanning the input. */
  lemma IfInAnyCaseIsKeyword()
    ensures LexToken("IF", 0) == Lexed(Token(Keyword, "IF", 1), 2)
    ensures LexToken("If", 0) == Lexed(Token(Keyword, "If", 1), 2)
    ensures LexToken("if", 0) == Lexed(Token(Keyword, "if", 1), 2)
  {
    IfSpelledIsKeyword("IF");
    IfSpelledIsKeyword("If");
    IfSpelledIsKeyword("if");
  }

  lemma IfSpelledIsKeyword(w: string)
    requires w == "IF" || w == "If" || w == "if"
    ensures LexToken(w, 0) == Lexed(Token(Keyword, w, 1), 2)
  {
    assert w[0..2] == w && Lower(w) == "if";
  }

  // ---------------------------------------------------------------------------
  // Skipping blanks
  // ---------------------------------------------------------------------------

  /** Skipping again from where skipping stopped stops at once and reports nothing. */
  lemma SkipIdempotent(src: string, i: nat)
    requires i <= |src|
    ensures var r := SkipWsAndComments(src, i);
            SkipWsAndComments(src, r.next) == Skipped(r.next, None)
  {
  }

  /** A comment with no `*]` after its opening `[*` swallows the rest of the text and is reported. */
  lemma UnclosedCommentReported(src: string, i: nat)
    requires OpensComment(src, i)
    requires forall k :: i + 2 <= k < |src| ==> !ClosesComment(src, k)
    ensures SkipWsAndComments(src, i) == Skipped(|src|, Some(UnterminatedCommentToken))
  {
  }

  /** `[*]` is not a complete comment: the search for `*]` starts after the opener. */
  lemma BracketStarBracketIsUnclosed()
    ensures SkipWsAndComments("[*]", 0) == Skipped(3, Some(UnterminatedCommentToken))
  {
    UnclosedCommentReported("[*]", 0);
  }

  // ---------------------------------------------------------------------------
  // The multi-character table
  // ---------------------------------------------------------------------------

  /**
    No two-character literal is both an operator and a separator, so the
    order in which the two tables are tried does not matter.
   */
  lemma MultiCharTablesDisjoint(p: (char, char))
    ensures !(IsMultiCharOperator(p) && IsMultiCharSeparator(p))
  {
  }

  /** A multi-character literal is always scanned whole, never as its one-character prefix. */
  lemma MaximalMunch(src: string, i: nat)
    requires NothingToSkip(src, i) && StartsMultiChar(src, i)
    ensures LexToken(src, i).token.lexeme == src[i..i + 2]
    ensures LexToken(src, i).token.kind == (if IsMultiCharOperator(PairAt(src, i)) then Operator else Separator)
    ensures LexToken(src, i).next == i + 2
  {
    LexTokenAtTokenStart(src, i);
  }

  // ---------------------------------------------------------------------------
  // Nothing significant is dropped
  // ---------------------------------------------------------------------------

  /**
    The text from `i` with whitespace and comments removed. Like the
    skipper, an unclosed comment removes everything after its opener.
   */
  function Stripped(src: string, i: nat): string
    requires i <= |src|
    decreases |src| - i
  {
    if i >= |src| then ""
    else if IsSpace(src[i]) then Stripped(src, i + 1)
    else if OpensComment(src, i) then
      match CommentEnd(src, i + 2)
      case Some(j) => Stripped(src, j)
      case None => ""
    else [src[i]] + Stripped(src, i + 1)
  }

  predicate IsCommentError(t: Token) {
    t.kind == Unknown && t.lexeme == UnterminatedComment
  }

  /** The lexemes of a token sequence run together, leaving out `Eof` and unclosed-comment reports. */
  function Spelled(toks: seq<Token>): string {
    if |toks| == 0 then ""
    else (if toks[0].kind == Eof || IsCommentError(toks[0]) then "" else toks[0].lexeme) + Spelled(toks[1..])
  }

  /** The skipper only drops characters that `Stripped` drops too. */
  lemma {:induction false} SkipDropsOnlyBlanks(src: string, i: nat)
    requires i <= |src|
    ensures var r := SkipWsAndComments(src, i);
            Stripped(src, i) == if r.error.Some? then "" else Stripped(src, r.next)
    decreases |src| - i
  {
    if i >= |src| {
    } else if IsSpace(src[i]) {
      SkipDropsOnlyBlanks(src, i + 1);
    } else if OpensComment(src, i) {
      match CommentEnd(src, i + 2)
      case Some(j) => SkipDropsOnlyBlanks(src, j);
      case None =>
    } else {
    }
  }

  /** A significant character is kept by stripping. */
  lemma StrippedKeepsChar(src: string, a: nat)
    requires Significant(src, a)
    ensures Stripped(src, a) == [src[a]] + Stripped(src, a + 1)
  {
  }

  /** A stretch without whitespace or comment openers survives stripping unchanged. */
  lemma {:induction false} StrippedKeepsRun(src: string, a: nat, b: nat)
    requires a <= b <= |src|
    requires forall k :: a <= k < b ==> Significant(src, k)
    ensures Stripped(src, a) == src[a..b] + Stripped(src, b)
    decreases b - a
  {
    if a < b {
      StrippedKeepsRun(src, a + 1, b);
      StrippedKeepsChar(src, a);
      assert src[a..b] == [src[a]] + src[a + 1..b];
    }
  }

  /** A recognised token never looks like the unclosed-comment report, whose lexeme contains a space. */
  lemma LexAtIsNotCommentError(src: string, b: nat)
    requires b < |src| && NothingToSkip(src, b)
    ensures !IsCommentError(LexAt(src, b).token)
  {
  }

  /** After the skipper stops inside the text, `LexToken` runs the scanners right there. */
  lemma LexTokenAtTokenStart(src: string, b: nat)
    requires b < |src| && NothingToSkip(src, b)
    ensures SkipWsAndComments(src, b) == Skipped(b, None)
    ensures LexToken(src, b) == LexAt(src, b)
  {
  }

  /**
    Where the driver runs the scanners, the source's call to `LexToken`
    would give the same token and index, and never an `Eof` token.
   */
  lemma DriverCallsLexToken(text: string, i: nat)
    requires i < |text|
    requires var skipped := SkipWsAndComments(text, i);
             skipped.error.None? && skipped.next < |text|
    ensures var b := SkipWsAndComments(text, i).next;
            LexToken(text, b) == LexAt(text, b) && LexToken(text, b).token.kind != Eof
  {
    LexTokenAtTokenStart(text, SkipWsAndComments(text, i).next);
  }

  // ---------------------------------------------------------------------------
  // One turn of the driver
  // ---------------------------------------------------------------------------

  /** The turn of the driver from `i` scans a token (it does not end the sequence). */
  predicate TokenNext(text: string, i: nat) {
    i < |text| && SkipWsAndComments(text, i).error.None? && SkipWsAndComments(text, i).next < |text|
  }

  /** An unclosed comment ends the token sequence: its report, then `Eof` on the final line. */
  lemma TurnCommentError(text: string, i: nat, line: nat)
    requires i < |text| && SkipWsAndComments(text, i).error.Some?
    ensures TokenizeFrom(text, i, line)
            == [UnterminatedCommentToken.(line := line), Token(Eof, "", line + NewlinesIn(text[i..]))]
  {
    assert text[i..] == text[i..|text|];
    assert TokenizeFrom(text, |text|, line + NewlinesIn(text[i..])) == [Token(Eof, "", line + NewlinesIn(text[i..]))];
  }

  /** Only blanks left: the sequence ends with `Eof` on the final line. */
  lemma TurnBlanksToEnd(text: string, i: nat, line: nat)
    requires i < |text| && SkipWsAndComments(text, i) == Skipped(|text|, None)
    ensures TokenizeFrom(text, i, line) == [Token(Eof, "", line + NewlinesIn(text[i..]))]
  {
    assert text[i..] == text[i..|text|];
  }

  /**
    A turn that scans no token ends the sequence: with `Eof` alone, or with
    the unclosed-comment report and then `Eof`.
   */
  lemma LastTurn(text: string, i: nat, line: nat)
    requires i <= |text| && !TokenNext(text, i)
    ensures var toks := TokenizeFrom(text, i, line);
            || toks == [Token(Eof, "", line + NewlinesIn(text[i..]))]
            || toks == [UnterminatedCommentToken.(line := line), Token(Eof, "", line + NewlinesIn(text[i..]))]
  {
    if i == |text| {
      assert text[i..] == [];
    } else if SkipWsAndComments(text, i).error.Some? {
      TurnCommentError(text, i, line);
    } else {
      TurnBlanksToEnd(text, i, line);
    }
  }

  /**
    A token after the blanks: it is stamped with the line the turn started
    on, and the driver goes on after it with the line breaks of the blanks
    and of the token counted.
   */
  lemma TurnToken(text: string, i: nat, line: nat)
    requires i < |text|
    requires SkipWsAndComments(text, i).error.None? && SkipWsAndComments(text, i).next < |text|
    ensures var lexed := LexAt(text, SkipWsAndComments(text, i).next);
            TokenizeFrom(text, i, line)
            == [lexed.token.(line := line)] + TokenizeFrom(text, lexed.next, line + NewlinesIn(text[i..lexed.next]))
  {
    var b := SkipWsAndComments(text, i).next;
    var lexed := LexAt(text, b);
    var afterBlanks := line + NewlinesIn(text[i..b]);
    LoopBodyScans(text, i, line);
    TokenizeAtUnfolds(text, b, line, afterBlanks);
    NewlinesSplit(text, i, b, lexed.next);
    assert afterBlanks + NewlinesIn(text[b..lexed.next]) == line + NewlinesIn(text[i..lexed.next]);
  }

  /**
    The token case of a turn, with the scanned token (already stamped) and
    the index after it as results, so that callers need not scan again.
   */
  lemma TokenTurn(text: string, i: nat, line: nat) returns (tok: Token, next: nat)
    requires TokenNext(text, i)
    ensures i < next <= |text|
    ensures tok.line == line && tok.kind != Eof && !IsCommentError(tok)
    ensures TokenizeFrom(text, i, line) == [tok] + TokenizeFrom(text, next, line + NewlinesIn(text[i..next]))
    ensures Stripped(text, i) == tok.lexeme + Stripped(text, next)
  {
    var b := SkipWsAndComments(text, i).next;
    var lexed := LexAt(text, b);
    tok := lexed.token.(line := line);
    next := lexed.next;
    TurnToken(text, i, line);
    LexAtIsNotCommentError(text, b);
    TurnStripped(text, i);
  }

  /** Stripping the text of a turn keeps the token's lexeme and drops the blanks before it. */
  lemma TurnStripped(text: string, i: nat)
    requires i < |text|
    requires SkipWsAndComments(text, i).error.None? && SkipWsAndComments(text, i).next < |text|
    ensures var lexed := LexAt(text, SkipWsAndComments(text, i).next);
            Stripped(text, i) == lexed.token.lexeme + Stripped(text, lexed.next)
  {
    var b := SkipWsAndComments(text, i).next;
    SkipDropsOnlyBlanks(text, i);
    StrippedKeepsRun(text, b, LexAt(text, b).next);
  }

  lemma LoopBodyScans(text: string, i: nat, line: nat)
    requires i < |text|
    requires SkipWsAndComments(text, i).error.None? && SkipWsAndComments(text, i).next < |text|
    ensures var b := SkipWsAndComments(text, i).next;
            TokenizeFrom(text, i, line) == TokenizeAt(text, b, line, line + NewlinesIn(text[i..b]))
  {
    assert TokenizeFrom(text, i, line) == LoopBody(text, i, line);
  }

  lemma TokenizeAtUnfolds(text: string, b: nat, line: nat, afterBlanks: nat)
    requires b < |text| && NothingToSkip(text, b)
    ensures var lexed := LexAt(text, b);
            TokenizeAt(text, b, line, afterBlanks)
            == [lexed.token.(line := line)] + TokenizeFrom(text, lexed.next, afterBlanks + NewlinesIn(text[b..lexed.next]))
  {
    var lexed := LexAt(text, b);
    var rest := TokenizeFrom(text, lexed.next, afterBlanks + NewlinesIn(text[b..lexed.next]));
    assert TokenizeAt(text, b, line, afterBlanks) == [lexed.token.(line := line)] + rest;
  }

  lemma SpelledCons(t: Token, rest: seq<Token>)
    ensures Spelled([t] + rest) == (if t.kind == Eof || IsCommentError(t) then "" else t.lexeme) + Spelled(rest)
  {
    assert ([t] + rest)[1..] == rest;
  }

  /**
    Every character outside whitespace and comments appears, in order, in
    exactly one token lexeme: spelling the tokens out gives the stripped text.
   */
  lemma {:induction false} TokenizeFromSpellsText(text: string, i: nat, line: nat)
    requires i <= |text|
    ensures Spelled(TokenizeFrom(text, i, line)) == Stripped(text, i)
    decreases |text| - i
  {
    if TokenNext(text, i) {
      var tok, next := TokenTurn(text, i, line);
      var rest := TokenizeFrom(text, next, line + NewlinesIn(text[i..next]));
      TokenizeFromSpellsText(text, next, line + NewlinesIn(text[i..next]));
      SpelledCons(tok, rest);
    } else if i < |text| {
      if SkipWsAndComments(text, i).error.Some? {
        SpellsCommentError(text, i, line);
      } else {
        SpellsBlanksToEnd(text, i, line);
      }
    }
  }

  lemma SpellsCommentError(text: string, i: nat, line: nat)
    requires i < |text| && SkipWsAndComments(text, i).error.Some?
    ensures Spelled(TokenizeFrom(text, i, line)) == Stripped(text, i)
  {
    TurnCommentError(text, i, line);
    ReportThenEofSpellsNothing(line, line + NewlinesIn(text[i..]));
    SkipDropsOnlyBlanks(text, i);
  }

  lemma ReportThenEofSpellsNothing(line: nat, last: nat)
    ensures Spelled([UnterminatedCommentToken.(line := line), Token(Eof, "", last)]) == ""
  {
    var err := UnterminatedCommentToken.(line := line);
    var eof := Token(Eof, "", last);
    assert IsCommentError(err);
    SpelledCons(eof, []);
    SpelledCons(err, [eof]);
    assert [err] + [eof] == [err, eof];
  }

  lemma SpellsBlanksToEnd(text: string, i: nat, line: nat)
    requires i < |text| && SkipWsAndComments(text, i) == Skipped(|text|, None)
    ensures Spelled(TokenizeFrom(text, i, line)) == Stripped(text, i)
  {
    SkipDropsOnlyBlanks(text, i);
    TurnBlanksToEnd(text, i, line);
    SpelledCons(Token(Eof, "", line + NewlinesIn(text[i..])), []);
  }

  lemma TokenizeSpellsText(text: string)
    ensures Spelled(Tokenize(text)) == Stripped(text, 0)
  {
    TokenizeFromSpellsText(text, 0, 1);
  }

  // ---------------------------------------------------------------------------
  // Line numbers and the end of the sequence
  // ---------------------------------------------------------------------------

  /** Line stamps never go down from one token to the next. */
  predicate Ascending(toks: seq<Token>) {
    |toks| <= 1 || (toks[0].line <= toks[1].line && Ascending(toks[1..]))
  }

  /**
    Line stamps of a token sequence that starts at counter `line` and ends
    at counter `last`: a first token other than `Eof` carries `line`, `Eof`
    carries `last`, every stamp lies in between, and stamps never go down.
   */
  predicate StampedFrom(toks: seq<Token>, line: nat, last: nat) {
    && |toks| > 0
    && (toks[0].kind != Eof ==> toks[0].line == line)
    && toks[|toks| - 1].line == last
    && (forall k :: 0 <= k < |toks| ==> line <= toks[k].line <= last)
    && Ascending(toks)
  }

  /** The driver started at `i` on line `line` ends on that line plus the line breaks left in the text. */
  lemma {:induction false} TokenizeFromLines(text: string, i: nat, line: nat)
    requires i <= |text|
    ensures StampedFrom(TokenizeFrom(text, i, line), line, line + NewlinesIn(text[i..]))
    decreases |text| - i
  {
    if TokenNext(text, i) {
      var tok, next := TokenTurn(text, i, line);
      var mid := line + NewlinesIn(text[i..next]);
      var rest := TokenizeFrom(text, next, mid);
      TokenizeFromLines(text, next, mid);
      NewlinesSuffix(text, i, next);
      StampedCons(tok, rest, mid, mid + NewlinesIn(text[next..]));
    } else {
      LinesAtLastTurn(text, i, line);
    }
  }

  lemma LinesAtLastTurn(text: string, i: nat, line: nat)
    requires i <= |text| && !TokenNext(text, i)
    ensures StampedFrom(TokenizeFrom(text, i, line), line, line + NewlinesIn(text[i..]))
  {
    if i == |text| {
      LinesAtEnd(text, line);
    } else if SkipWsAndComments(text, i).error.Some? {
      LinesCommentError(text, i, line);
    } else {
      LinesBlanksToEnd(text, i, line);
    }
  }

  lemma LinesAtEnd(text: string, line: nat)
    ensures StampedFrom(TokenizeFrom(text, |text|, line), line, line + NewlinesIn(text[|text|..]))
  {
    assert text[|text|..] == [];
  }

  lemma LinesCommentError(text: string, i: nat, line: nat)
    requires i < |text| && SkipWsAndComments(text, i).error.Some?
    ensures StampedFrom(TokenizeFrom(text, i, line), line, line + NewlinesIn(text[i..]))
  {
    TurnCommentError(text, i, line);
  }

  lemma LinesBlanksToEnd(text: string, i: nat, line: nat)
    requires i < |text| && SkipWsAndComments(text, i) == Skipped(|text|, None)
    ensures StampedFrom(TokenizeFrom(text, i, line), line, line + NewlinesIn(text[i..]))
  {
    TurnBlanksToEnd(text, i, line);
  }

  /** Putting a token stamped no later than `mid` in front of a sequence stamped from `mid`. */
  lemma StampedCons(t: Token, rest: seq<Token>, mid: nat, last: nat)
    requires t.line <= mid && StampedFrom(rest, mid, last)
    ensures StampedFrom([t] + rest, t.line, last)
  {
    var toks := [t] + rest;
    assert toks[1..] == rest;
    assert toks[|toks| - 1] == rest[|rest| - 1];
    forall k | 0 <= k < |toks|
      ensures t.line <= toks[k].line <= last
    {
      if k > 0 {
        assert toks[k] == rest[k - 1];
      }
    }
  }

  /** Lines start at 1, never decrease, and `Eof` is on line 1 plus the number of line breaks. */
  lemma TokenizeLines(text: string)
    ensures StampedFrom(Tokenize(text), 1, 1 + NewlinesIn(text))
  {
    TokenizeFromLines(text, 0, 1);
    assert text[0..] == text;
  }

  /** `Eof` closes the token sequence and appears nowhere else in it. */
  lemma {:induction false} EofOnlyAtEnd(text: string, i: nat, line: nat)
    requires i <= |text|
    ensures var toks := TokenizeFrom(text, i, line);
            forall k :: 0 <= k < |toks| - 1 ==> toks[k].kind != Eof
    decreases |text| - i
  {
    if TokenNext(text, i) {
      var tok, next := TokenTurn(text, i, line);
      EofOnlyAtEnd(text, next, line + NewlinesIn(text[i..next]));
      NoEofBeforeEnd(tok, TokenizeFrom(text, next, line + NewlinesIn(text[i..next])));
    } else {
      LastTurn(text, i, line);
    }
  }

  /** A token other than `Eof` in front keeps `Eof` out of all but the last place. */
  lemma NoEofBeforeEnd(tok: Token, rest: seq<Token>)
    requires tok.kind != Eof && forall k :: 0 <= k < |rest| - 1 ==> rest[k].kind != Eof
    ensures var toks := [tok] + rest;
            forall k :: 0 <= k < |toks| - 1 ==> toks[k].kind != Eof
  {
    var toks := [tok] + rest;
    forall k | 0 <= k < |toks| - 1
      ensures toks[k].kind != Eof
    {
      if k > 0 {
        assert toks[k] == rest[k - 1];
      }
    }
  }

  /** The tokens of a text end with the only `Eof`. */
  lemma TokenizeEofOnlyAtEnd(text: string)
    ensures var toks := Tokenize(text);
            toks[|toks| - 1].kind == Eof && forall k :: 0 <= k < |toks| - 1 ==> toks[k].kind != Eof
  {
    EofOnlyAtEnd(text, 0, 1);
    assert Tokenize(text) == TokenizeFrom(text, 0, 1);
  }

  /** An unclosed-comment report can only be the last token before `Eof`. */
  lemma {:induction false} CommentErrorIsLast(text: string, i: nat, line: nat)
    requires i <= |text|
    ensures var toks := TokenizeFrom(text, i, line);
            forall k :: 0 <= k < |toks| && IsCommentError(toks[k]) ==> k == |toks| - 2
    decreases |text| - i
  {
    if TokenNext(text, i) {
      var tok, next := TokenTurn(text, i, line);
      CommentErrorIsLast(text, next, line + NewlinesIn(text[i..next]));
      CommentErrorStaysLast(tok, TokenizeFrom(text, next, line + NewlinesIn(text[i..next])));
    } else {
      LastTurn(text, i, line);
    }
  }

  /** A token that is no report in front keeps a report second to last. */
  lemma CommentErrorStaysLast(tok: Token, rest: seq<Token>)
    requires !IsCommentError(tok)
    requires forall k :: 0 <= k < |rest| && IsCommentError(rest[k]) ==> k == |rest| - 2
    ensures var toks := [tok] + rest;
            forall k :: 0 <= k < |toks| && IsCommentError(toks[k]) ==> k == |toks| - 2
  {
    var toks := [tok] + rest;
    forall k | 0 <= k < |toks| && IsCommentError(toks[k])
      ensures k == |toks| - 2
    {
      assert k > 0 && toks[k] == rest[k - 1];
    }
  }

  // ---------------------------------------------------------------------------
  // Every token is self-delimiting
  // ---------------------------------------------------------------------------

  /** A run boundary inside a slice is a run boundary in the whole text. */
  lemma EndsUnknownRunInSlice(src: string, b: nat, e: nat, k: nat)
    requires b <= e <= |src| && k < e - b
    ensures EndsUnknownRun(src[b..e], k) ==> EndsUnknownRun(src, b + k)
  {
    var s := src[b..e];
    if StartsMultiChar(s, k) {
      assert PairAt(s, k) == PairAt(src, b + k);
    }
  }

  /** Re-scanning the lexeme of a number on its own gives back the same token. */
  lemma RelexNumber(src: string, b: nat)
    requires b < |src| && IsDigit(src[b])
    ensures var r := LexNumber(src, b);
            LexNumber(r.token.lexeme, 0) == Lexed(r.token, |r.token.lexeme|)
  {
    var r := LexNumber(src, b);
    var s := r.token.lexeme;
    var end := DigitsEnd(src, b + 1);
    var e := DigitsEnd(s, 1);
    if FractionAt(src, end) {
      assert e == end - b by {
        forall k | 1 <= k < end - b ensures DigitAt(s, k) {
          assert s[k] == src[b + k] && DigitAt(src, b + k);
        }
        assert r.next == DigitsEnd(src, end + 1) && end < r.next;
        assert s[end - b] == src[end] == '.';
        assert !DigitAt(s, end - b);
      }
      assert s[end - b + 1] == src[end + 1];
      assert FractionAt(s, e);
      var f := DigitsEnd(s, e + 1);
      forall k | e + 1 <= k < |s| ensures DigitAt(s, k) {
        assert s[k] == src[b + k] && DigitAt(src, b + k);
      }
      assert f == |s|;
      assert s[0..f] == s;
    } else {
      forall k | 1 <= k < |s| ensures DigitAt(s, k) {
        assert s[k] == src[b + k] && DigitAt(src, b + k);
      }
      assert e == |s|;
      assert s[0..e] == s;
    }
  }

  /** Re-scanning the lexeme of an unknown run on its own gives back the same token. */
  lemma RelexUnknown(src: string, b: nat)
    requires b < |src| && !EndsUnknownRun(src, b)
    ensures var r := LexUnknown(src, b);
            LexUnknown(r.token.lexeme, 0) == Lexed(r.token, |r.token.lexeme|)
  {
    var r := LexUnknown(src, b);
    var s := r.token.lexeme;
    forall k | 0 <= k < |s|
      ensures !EndsUnknownRun(s, k)
    {
      EndsUnknownRunInSlice(src, b, r.next, k);
    }
    assert UnknownRunEnd(s, 0) == |s|;
    assert s[0..|s|] == s;
  }

  /**
    Self-delimitation: scanning the lexeme of any token the scanners
    recognise, on its own, reproduces that token and consumes the whole
    lexeme. So `123.` splits into `123` and `.`, and `@@@` stays one token.
   */
  lemma RelexAt(src: string, b: nat)
    requires b < |src| && NothingToSkip(src, b)
    ensures var r := LexAt(src, b);
            LexToken(r.token.lexeme, 0) == Lexed(r.token, |r.token.lexeme|)
  {
    var r := LexAt(src, b);
    var s := r.token.lexeme;
    assert s[0] == src[b];
    assert NothingToSkip(s, 0);
    LexTokenAtTokenStart(s, 0);
    var ch := src[b];
    if IsAlpha(ch) {
      assert WordEnd(s, 1) == |s| by {
        forall k | 1 <= k < |s| ensures WordCharAt(s, k) {
          assert s[k] == src[b + k] && WordCharAt(src, b + k);
        }
      }
      assert s[0..|s|] == s;
    } else if IsDigit(ch) {
      RelexNumber(src, b);
    } else if MultiCharAt(src, b).Some? {
      assert PairAt(s, 0) == PairAt(src, b);
      assert s[0..2] == s;
    } else if IsSingleCharOperator(ch) || IsSingleCharSeparator(ch) {
      assert MultiCharAt(s, 0) == None;
    } else {
      assert !EndsUnknownRun(src, b);
      RelexUnknown(src, b);
      assert !StartsMultiChar(s, 0) by {
        EndsUnknownRunInSlice(src, b, r.next, 0);
      }
      assert MultiCharAt(s, 0) == None;
    }
  }

  // ---------------------------------------------------------------------------
  // Worked examples
  // ---------------------------------------------------------------------------

  /** The driver at the end of the text produces the closing `Eof`. */
  lemma TurnAtEnd(text: string, line: nat)
    ensures TokenizeFrom(text, |text|, line) == [Token(Eof, "", line)]
  {
  }

  /** One turn of the driver, with the skip and the scan given as facts. */
  lemma Step(text: string, i: nat, line: nat, b: nat, tok: Token, n: nat)
    requires i < |text| && SkipWsAndComments(text, i) == Skipped(b, None)
    requires b < |text| && NothingToSkip(text, b) && LexAt(text, b) == Lexed(tok, n)
    ensures TokenizeFrom(text, i, line) == [tok.(line := line)] + TokenizeFrom(text, n, line + NewlinesIn(text[i..n]))
  {
    TurnToken(text, i, line);
  }

  lemma LessEqualScan()
    ensures SkipWsAndComments("<=", 0) == Skipped(0, None)
    ensures NothingToSkip("<=", 0) && LexAt("<=", 0) == Lexed(Token(Operator, "<=", 1), 2)
  {
    var t := "<=";
    assert PairAt(t, 0) == ('<', '=');
    assert t[0..2] == t;
  }

  /** `<=` is a single operator token. */
  lemma LessEqualIsOneToken()
    ensures Tokenize("<=") == [Token(Operator, "<=", 1), Token(Eof, "", 1)]
  {
    var t := "<=";
    LessEqualScan();
    Step(t, 0, 1, 0, Token(Operator, "<=", 1), 2);
    NewlinesNone(t[0..2]);
    TurnAtEnd(t, 1);
  }

  lemma TrailingDotScanNumber()
    ensures SkipWsAndComments("123.", 0) == Skipped(0, None)
    ensures NothingToSkip("123.", 0) && LexAt("123.", 0) == Lexed(Token(Integer, "123", 1), 3)
  {
    var t := "123.";
    assert DigitsEnd(t, 3) == 3;
    assert DigitsEnd(t, 2) == 3;
    assert DigitsEnd(t, 1) == 3;
    assert t[0..3] == "123";
  }

  lemma TrailingDotScanDot()
    ensures SkipWsAndComments("123.", 3) == Skipped(3, None)
    ensures NothingToSkip("123.", 3) && LexAt("123.", 3) == Lexed(Token(Unknown, ".", 1), 4)
  {
    var t := "123.";
    assert MultiCharAt(t, 3) == None;
    assert !EndsUnknownRun(t, 3);
    assert UnknownRunEnd(t, 4) == 4;
    assert t[3..4] == ".";
  }

  /** `123.` is an integer followed by an unknown `.`: a dot needs a digit after it to make a real. */
  lemma TrailingDotSplits()
    ensures Tokenize("123.") == [Token(Integer, "123", 1), Token(Unknown, ".", 1), Token(Eof, "", 1)]
  {
    var t := "123.";
    TrailingDotScanNumber();
    Step(t, 0, 1, 0, Token(Integer, "123", 1), 3);
    NewlinesNone(t[0..3]);
    TrailingDotScanDot();
    Step(t, 3, 1, 3, Token(Unknown, ".", 1), 4);
    NewlinesNone(t[3..4]);
    TurnAtEnd(t, 1);
  }

  lemma IllegalRunScan()
    ensures SkipWsAndComments("@@@", 0) == Skipped(0, None)
    ensures NothingToSkip("@@@", 0) && LexAt("@@@", 0) == Lexed(Token(Unknown, "@@@", 1), 3)
  {
    var t := "@@@";
    assert PairAt(t, 0) == ('@', '@');
    assert MultiCharAt(t, 0) == None;
    assert !EndsUnknownRun(t, 2) && !EndsUnknownRun(t, 1) && !EndsUnknownRun(t, 0);
    assert UnknownRunEnd(t, 2) == 3;
    assert UnknownRunEnd(t, 0) == 3;
    assert t[0..3] == t;
  }

  /** `@@@` is grouped into one unknown token. */
  lemma IllegalRunGrouped()
    ensures Tokenize("@@@") == [Token(Unknown, "@@@", 1), Token(Eof, "", 1)]
  {
    var t := "@@@";
    IllegalRunScan();
    Step(t, 0, 1, 0, Token(Unknown, "@@@", 1), 3);
    NewlinesNone(t[0..3]);
    TurnAtEnd(t, 1);
  }

  /** An unclosed comment yields one error token and then only `Eof`. */
  lemma UnclosedCommentExample()
    ensures Tokenize("[* abc") == [Token(Unknown, UnterminatedComment, 1), Token(Eof, "", 1)]
  {
    var t := "[* abc";
    UnclosedCommentReported(t, 0);
    TurnCommentError(t, 0, 1);
    NewlinesNone(t[0..]);
  }

  lemma LineScanFirst()
    ensures SkipWsAndComments("a\nb", 0) == Skipped(0, None)
    ensures NothingToSkip("a\nb", 0) && LexAt("a\nb", 0) == Lexed(Token(Identifier, "a", 1), 1)
  {
    var t := "a\nb";
    assert WordEnd(t, 1) == 1;
    assert t[0..1] == "a" && Lower("a") == "a";
  }

  lemma LineScanSecond()
    ensures SkipWsAndComments("a\nb", 1) == Skipped(2, None)
    ensures NothingToSkip("a\nb", 2) && LexAt("a\nb", 2) == Lexed(Token(Identifier, "b", 1), 3)
  {
    var t := "a\nb";
    assert SkipWsAndComments(t, 2) == Skipped(2, None);
    assert WordEnd(t, 3) == 3;
    assert t[2..3] == "b" && Lower("b") == "b";
  }

  lemma OneLineBreak()
    ensures NewlinesIn("a\nb"[1..3]) == 1
  {
    var t := "a\nb";
    assert t[1..3][..1] == "\n";
    assert NewlinesIn("\n") == 1 by { assert "\n"[..0] == ""; }
  }

  /** A token after a line break is stamped with the line before the break; `Eof` gets the final count. */
  lemma LineStampedBeforeBlanks()
    ensures Tokenize("a\nb") == [Token(Identifier, "a", 1), Token(Identifier, "b", 1), Token(Eof, "", 2)]
  {
    var t := "a\nb";
    LineScanFirst();
    Step(t, 0, 1, 0, Token(Identifier, "a", 1), 1);
    NewlinesNone(t[0..1]);
    LineScanSecond();
    Step(t, 1, 1, 2, Token(Identifier, "b", 1), 3);
    OneLineBreak();
    TurnAtEnd(t, 2);
  }

  lemma DelimiterScan(t: string, b: nat)
    requires t == "$$ $$ $$ $$" && (b == 0 || b == 3 || b == 6 || b == 9)
    ensures NothingToSkip(t, b) && LexAt(t, b) == Lexed(Token(Separator, "$$", 1), b + 2)
  {
    assert PairAt(t, b) == ('$', '$');
    assert t[b..b + 2] == "$$";
  }

  lemma DelimiterSkip(t: string, i: nat)
    requires t == "$$ $$ $$ $$" && (i == 2 || i == 5 || i == 8)
    ensures SkipWsAndComments(t, i) == Skipped(i + 1, None)
    ensures NewlinesIn(t[i..i + 3]) == 0
  {
    assert SkipWsAndComments(t, i + 1) == Skipped(i + 1, None);
    NewlinesNone(t[i..i + 3]);
  }

  /** The driver over `$$ $$ $$ $$` from the blank at `i`: one `$$` per delimiter left, then `Eof`. */
  lemma DelimitersFrom(t: string, i: nat)
    requires t == "$$ $$ $$ $$" && (i == 2 || i == 5 || i == 8)
    ensures var d := Token(Separator, "$$", 1);
            TokenizeFrom(t, i, 1) == (if i == 8 then [d] else if i == 5 then [d, d] else [d, d, d]) + [Token(Eof, "", 1)]
    decreases 11 - i
  {
    var d := Token(Separator, "$$", 1);
    DelimiterSkip(t, i);
    DelimiterScan(t, i + 1);
    Step(t, i, 1, i + 1, d, i + 3);
    if i == 8 {
      TurnAtEnd(t, 1);
    } else {
      DelimitersFrom(t, i + 3);
    }
  }

  lemma DelimitersFirstTurn(t: string)
    requires t == "$$ $$ $$ $$"
    ensures TokenizeFrom(t, 0, 1) == [Token(Separator, "$$", 1)] + TokenizeFrom(t, 2, 1)
  {
    assert SkipWsAndComments(t, 0) == Skipped(0, None);
    DelimiterScan(t, 0);
    Step(t, 0, 1, 0, Token(Separator, "$$", 1), 2);
    NewlinesNone(t[0..2]);
  }

  /** `$$ $$ $$ $$` is four `$$` separators, then `Eof`. */
  lemma FourDelimitersTokenize(t: string)
    requires t == "$$ $$ $$ $$"
    ensures var d := Token(Separator, "$$", 1);
            Tokenize(t) == [d, d, d, d, Token(Eof, "", 1)]
  {
    DelimitersFirstTurn(t);
    DelimitersFrom(t, 2);
  }

  /** The text of the one-assignment program, and its tokens, all on line 1. */
  const OneAssignment: string := "$$ $$ $$ x = 1 ; $$"

  const OneAssignmentTokens: seq<Token> :=
    [Token(Separator, "$$", 1), Token(Separator, "$$", 1), Token(Separator, "$$", 1),
     Token(Identifier, "x", 1), Token(Operator, "=", 1), Token(Integer, "1", 1),
     Token(Separator, ";", 1), Token(Separator, "$$", 1), Token(Eof, "", 1)]

  /** Where each turn of the driver over `OneAssignment` starts: at 0, then at each blank. */
  function TurnStart(k: nat): nat
    requires k < 8
  {
    [0, 2, 5, 8, 10, 12, 14, 16][k]
  }

  lemma OneAssignmentSkip(t: string, k: nat)
    requires t == OneAssignment && k < 8
    ensures var i := TurnStart(k);
            SkipWsAndComments(t, i) == Skipped(if k == 0 then 0 else i + 1, None)
  {
    var i := TurnStart(k);
    if k > 0 {
      assert SkipWsAndComments(t, i + 1) == Skipped(i + 1, None);
    }
  }

  lemma OneAssignmentScanWord(t: string)
    requires t == OneAssignment
    ensures NothingToSkip(t, 9) && LexAt(t, 9) == Lexed(Token(Identifier, "x", 1), 10)
  {
    assert WordEnd(t, 10) == 10;
    assert t[9..10] == "x" && Lower("x") == "x";
  }

  lemma OneAssignmentScanNumber(t: string)
    requires t == OneAssignment
    ensures NothingToSkip(t, 13) && LexAt(t, 13) == Lexed(Token(Integer, "1", 1), 14)
  {
    assert DigitsEnd(t, 14) == 14;
    assert t[13..14] == "1";
  }

  lemma OneAssignmentScanSingle(t: string, b: nat)
    requires t == OneAssignment && (b == 11 || b == 15)
    ensures NothingToSkip(t, b)
    ensures LexAt(t, b) == Lexed(if b == 11 then Token(Operator, "=", 1) else Token(Separator, ";", 1), b + 1)
  {
    assert PairAt(t, b) == (t[b], ' ');
    assert MultiCharAt(t, b) == None;
  }

  lemma OneAssignmentScanDelimiter(t: string, b: nat)
    requires t == OneAssignment && (b == 0 || b == 3 || b == 6 || b == 17)
    ensures NothingToSkip(t, b) && LexAt(t, b) == Lexed(Token(Separator, "$$", 1), b + 2)
  {
    assert PairAt(t, b) == ('$', '$');
    assert t[b..b + 2] == "$$";
  }

  /** The scan of turn `k`: the token it yields and where it ends. */
  lemma OneAssignmentScan(t: string, k: nat) returns (b: nat, n: nat)
    requires t == OneAssignment && k < 8
    ensures b == (if k == 0 then 0 else TurnStart(k) + 1) && n <= |t|
    ensures b < |t| && NothingToSkip(t, b) && LexAt(t, b) == Lexed(OneAssignmentTokens[k], n)
    ensures n == (if k == 7 then |t| else TurnStart(k + 1))
  {
    b := if k == 0 then 0 else TurnStart(k) + 1;
    if k == 3 {
      OneAssignmentScanWord(t);
      n := 10;
    } else if k == 5 {
      OneAssignmentScanNumber(t);
      n := 14;
    } else if k == 4 || k == 6 {
      OneAssignmentScanSingle(t, b);
      n := b + 1;
    } else {
      OneAssignmentScanDelimiter(t, b);
      n := b + 2;
    }
  }

  /** `OneAssignment` is one line: no slice of it holds a line break. */
  lemma OneAssignmentNoBreaks(t: string, i: nat, n: nat)
    requires t == OneAssignment && i <= n <= |t|
    ensures NewlinesIn(t[i..n]) == 0
  {
    assert forall k :: 0 <= k < |t| ==> t[k] != '\n';
    NewlinesNone(t[i..n]);
  }

  /** The driver over `OneAssignment` from turn `k` on: the tokens from the `k`-th. */
  lemma OneAssignmentFrom(t: string, k: nat)
    requires t == OneAssignment && k < 8
    ensures TokenizeFrom(t, TurnStart(k), 1) == OneAssignmentTokens[k..]
    decreases 8 - k
  {
    var i := TurnStart(k);
    OneAssignmentSkip(t, k);
    var b, n := OneAssignmentScan(t, k);
    var tok := OneAssignmentTokens[k];
    Step(t, i, 1, b, tok, n);
    OneAssignmentNoBreaks(t, i, n);
    assert tok.(line := 1) == tok;
    assert TokenizeFrom(t, i, 1) == [tok] + TokenizeFrom(t, n, 1);
    assert OneAssignmentTokens[k..] == [tok] + OneAssignmentTokens[k + 1..];
    if k == 7 {
      TurnAtEnd(t, 1);
      assert OneAssignmentTokens[k + 1..] == [Token(Eof, "", 1)];
    } else {
      OneAssignmentFrom(t, k + 1);
    }
  }

  /** `$$ $$ $$ x = 1 ; $$` tokenizes into its eight tokens and `Eof`, all on line 1. */
  lemma OneAssignmentTokenize(t: string)
    requires t == OneAssignment
    ensures Tokenize(t) == OneAssignmentTokens
  {
    OneAssignmentFrom(t, 0);
  }
}
