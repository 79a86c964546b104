/**
 * The behaviour the repository's unit tests describe, derived from the
 * general lemmas. Kotlin's `isLetter` is only pinned down on ASCII here:
 * any letter test that agrees with it there gives the same results.
 */
module Examples {
  import opened Wrappers
  import opened Tokens
  import opened Nodes
  import opened Lexer
  import opened LexerProperties
  import opened Parser
  import opened Balance

  lemma LexPlainText(isLetter: char -> bool)
    ensures Lex("Hello world", isLetter) == [Token.Text("Hello world")]
  {
    LexPlainInput("Hello world", isLetter);
  }

  /** `\bold` is one command, for any letter test that counts `b`, `o`, `l`, `d` as letters. */
  lemma LexSimpleCommand(isLetter: char -> bool)
    requires AllLetters("bold", isLetter) && !isLetter('\\')
    ensures Lex("\\bold", isLetter) == [Token.Command("bold")]
  {
    RenderLex([Token.Command("bold")], isLetter);
    assert Render([Token.Command("bold")]) == "\\bold";
  }

  lemma LexEscapedBackslash(isLetter: char -> bool)
    ensures Lex("\\\\", isLetter) == [Token.Text("\\")]
  {
    LexEscapeFirst("", isLetter);
    assert "\\\\" + "" == "\\\\";
  }

  /**
   * Text, a comment, then text on the next line: the comment disappears and
   * the newline that ends it starts the second text token.
   */
  lemma LexTextCommentText(p: string, c: string, w: string, isLetter: char -> bool)
    requires |p| > 0 && IsPlain(p) && NoNewline(c) && IsPlain(w)
    ensures Lex(p + ("%" + c + ("\n" + w)), isLetter) == [Token.Text(p), Token.Text("\n" + w)]
  {
    LexComment(c, "\n" + w, isLetter);
    assert IsPlain("\n" + w) by {
      assert forall i :: 1 <= i < |"\n" + w| ==> ("\n" + w)[i] == w[i - 1];
    }
    LexPlainInput("\n" + w, isLetter);
    LexPlainThen(p, "%" + c + ("\n" + w), isLetter);
  }

  /**
   * The escaped backslash is a token of its own: the text around it is not
   * joined into one text token.
   */
  lemma LexEscapeSplitsText(isLetter: char -> bool)
    ensures Lex(" \\\\ ", isLetter) == [Token.Text(" "), Token.Text("\\"), Token.Text(" ")]
  {
    LexPlainThen(" ", "\\\\ ", isLetter);
    LexEscapeFirst(" ", isLetter);
    LexPlainInput(" ", isLetter);
    assert " " + "\\\\ " == " \\\\ " && "\\\\" + " " == "\\\\ ";
  }

  lemma ParseEmptyInput(isLetter: char -> bool)
    ensures Parse(Lex("", isLetter)) == Ok([])
  {
  }

  /** `\linebreak`: a command with neither attribute nor arguments, at the end of the input. */
  lemma ParseBareCommand(isLetter: char -> bool)
    requires AllLetters("linebreak", isLetter) && !isLetter('\\')
    ensures Parse(Lex("\\linebreak", isLetter)) == Ok([Node.Command("linebreak", None, [])])
  {
    var toks := [Token.Command("linebreak")];
    RenderLex(toks, isLetter);
    assert Render(toks) == "\\linebreak";
    BareCommandTokens(toks);
  }

  lemma BareCommandTokens(toks: seq<Token>)
    requires toks == [Token.Command("linebreak")]
    ensures Parse(toks) == Ok([Node.Command("linebreak", None, [])])
  {
    assert ParseArguments(toks, 1) == Ok(([], 1));
    FromStep(toks, 0, Node.Command("linebreak", None, []), 1, []);
    assert [Node.Command("linebreak", None, [])] + [] == [Node.Command("linebreak", None, [])];
  }

  /** `\textbf{unclosed`: the brace group runs to the end of the tokens. */
  lemma ParseUnclosedCommand(s: string, isLetter: char -> bool)
    requires s == "\\textbf{unclosed"
    requires AllLetters("textbf", isLetter) && !isLetter('\\') && !isLetter('{')
    ensures Parse(Lex(s, isLetter)) == Err(ParseError(Unterminated, Brace, 3))
  {
    assert s == "\\" + "textbf" + "{" + "unclosed";
    UnclosedCommandLex("textbf", "unclosed", s, isLetter);
    UnclosedCommandTokens();
  }

  /** A command, `{` and plain text lex into exactly those three tokens. */
  lemma UnclosedCommandLex(n: string, v: string, s: string, isLetter: char -> bool)
    requires s == "\\" + n + "{" + v
    requires AllLetters(n, isLetter) && |v| > 0 && IsPlain(v) && !isLetter('\\') && !isLetter('{')
    ensures Lex(s, isLetter) == [Token.Command(n), OpenBrace, Token.Text(v)]
  {
    var ts := [Token.Command(n), OpenBrace, Token.Text(v)];
    CanonicalCons(Token.Text(v), [], isLetter);
    CanonicalCons(OpenBrace, ts[2..], isLetter);
    CanonicalCons(Token.Command(n), ts[1..], isLetter);
    assert [Token.Command(n)] + ts[1..] == ts;
    UnclosedCommandRender(n, v);
    RenderLex(ts, isLetter);
  }

  lemma UnclosedCommandRender(n: string, v: string)
    requires IsPlain(v)
    ensures Render([Token.Command(n), OpenBrace, Token.Text(v)]) == "\\" + n + "{" + v
  {
    EscapePlain(v);
    RenderCons(Token.Text(v), []);
    RenderCons(OpenBrace, [Token.Text(v)]);
    RenderCons(Token.Command(n), [OpenBrace, Token.Text(v)]);
  }

  lemma UnclosedCommandTokens()
    ensures Parse([Token.Command("textbf"), OpenBrace, Token.Text("unclosed")])
            == Err(ParseError(Unterminated, Brace, 3))
  {
  }

  /**
   * `\begin[unclosed{document}`: the `}` closes the brace group and cannot
   * close the bracket, which is still open at the end.
   */
  lemma ParseUnclosedAttribute(s: string, isLetter: char -> bool)
    requires s == "\\begin[unclosed{document}"
    requires AllLetters("begin", isLetter) && !isLetter('\\') && !isLetter('[')
    ensures Parse(Lex(s, isLetter)) == Err(ParseError(Unterminated, Bracket, 6))
  {
    assert s == "\\" + "begin" + "[" + "unclosed" + "{" + "document" + "}";
    UnclosedAttributeLex("begin", "unclosed", "document", s, isLetter);
    UnclosedAttributeTokens([Token.Command("begin"), OpenBracket, Token.Text("unclosed"),
                             OpenBrace, Token.Text("document"), CloseBrace]);
  }

  /** A command, `[`, text, `{`, text and `}` lex into exactly those six tokens. */
  lemma UnclosedAttributeLex(n: string, a: string, b: string, s: string, isLetter: char -> bool)
    requires s == "\\" + n + "[" + a + "{" + b + "}"
    requires AllLetters(n, isLetter) && |a| > 0 && IsPlain(a) && |b| > 0 && IsPlain(b)
    requires !isLetter('\\') && !isLetter('[')
    ensures Lex(s, isLetter) == [Token.Command(n), OpenBracket, Token.Text(a), OpenBrace, Token.Text(b), CloseBrace]
  {
    var g := [OpenBrace, Token.Text(b), CloseBrace];
    GroupCanonical(b, isLetter);
    CanonicalCons(Token.Text(a), g, isLetter);
    CanonicalCons(OpenBracket, [Token.Text(a)] + g, isLetter);
    CanonicalCons(Token.Command(n), [OpenBracket] + ([Token.Text(a)] + g), isLetter);
    assert [Token.Command(n)] + ([OpenBracket] + ([Token.Text(a)] + g))
        == [Token.Command(n), OpenBracket, Token.Text(a), OpenBrace, Token.Text(b), CloseBrace];
    UnclosedAttributeRender(n, a, b);
    RenderLex([Token.Command(n), OpenBracket, Token.Text(a), OpenBrace, Token.Text(b), CloseBrace], isLetter);
  }

  lemma UnclosedAttributeRender(n: string, a: string, b: string)
    requires IsPlain(a) && IsPlain(b)
    ensures Render([Token.Command(n), OpenBracket, Token.Text(a), OpenBrace, Token.Text(b), CloseBrace])
            == "\\" + n + "[" + a + "{" + b + "}"
  {
    var g := [OpenBrace, Token.Text(b), CloseBrace];
    GroupRender(b);
    EscapePlain(a);
    RenderCons(Token.Text(a), g);
    RenderCons(OpenBracket, [Token.Text(a)] + g);
    RenderCons(Token.Command(n), [OpenBracket] + ([Token.Text(a)] + g));
    assert [Token.Command(n)] + ([OpenBracket] + ([Token.Text(a)] + g))
        == [Token.Command(n), OpenBracket, Token.Text(a), OpenBrace, Token.Text(b), CloseBrace];
    var x, p := "\\" + n, "\\" + n + "[" + a;
    AppendAssoc("{", b, "}");
    AppendAssoc(p, "{", b + "}");
    AppendAssoc(p + "{", b, "}");
    AppendAssoc(x + "[", a, "{" + b + "}");
    AppendAssoc(x, "[", a + ("{" + b + "}"));
  }

  /** The scan leaves the bracket open, so the parser reports it unterminated at the end. */
  lemma UnclosedAttributeTokens(toks: seq<Token>)
    requires toks == [Token.Command("begin"), OpenBracket, Token.Text("unclosed"),
                      OpenBrace, Token.Text("document"), CloseBrace]
    ensures Parse(toks) == Err(ParseError(Unterminated, Bracket, 6))
  {
    var inner := [Brace, Bracket];
    assert inner[1..] == [Bracket] && [Brace] + [Bracket] == inner && [Bracket] + [] == [Bracket];
    assert ScanFrom(toks, 5, inner) == ScanFrom(toks, 6, [Bracket]) == Open([Bracket]);
    assert ScanFrom(toks, 3, [Bracket]) == ScanFrom(toks, 4, inner) == ScanFrom(toks, 5, inner);
    assert Balanced(toks) == ScanFrom(toks, 1, []) == ScanFrom(toks, 2, [Bracket]) == ScanFrom(toks, 3, [Bracket]);
    ParseBalance(toks, Bracket, 0);
  }

  /** `\begin[center]{document}`: a one-node span collapses to that node. */
  lemma ParseCommandWithAttribute(s: string, isLetter: char -> bool)
    requires s == "\\begin[center]{document}"
    requires AllLetters("begin", isLetter) && !isLetter('\\') && !isLetter('[')
    ensures Parse(Lex(s, isLetter))
            == Ok([Node.Command("begin", Some(Node.Text("center")), [Node.Text("document")])])
  {
    assert s == "\\" + "begin" + "[" + "center" + "]" + "{" + "document" + "}";
    AttributeCommandLex("begin", "center", "document", s, isLetter);
    AttributeCommandTokens([Token.Command("begin"), OpenBracket, Token.Text("center"), CloseBracket,
                            OpenBrace, Token.Text("document"), CloseBrace]);
  }

  /** A command with a text attribute and one text argument lexes into its seven tokens. */
  lemma AttributeCommandLex(n: string, a: string, b: string, s: string, isLetter: char -> bool)
    requires s == "\\" + n + "[" + a + "]" + "{" + b + "}"
    requires AllLetters(n, isLetter) && |a| > 0 && IsPlain(a) && |b| > 0 && IsPlain(b)
    requires !isLetter('\\') && !isLetter('[')
    ensures Lex(s, isLetter)
            == [Token.Command(n), OpenBracket, Token.Text(a), CloseBracket, OpenBrace, Token.Text(b), CloseBrace]
  {
    var g := [OpenBrace, Token.Text(b), CloseBrace];
    GroupCanonical(b, isLetter);
    CanonicalCons(CloseBracket, g, isLetter);
    CanonicalCons(Token.Text(a), [CloseBracket] + g, isLetter);
    CanonicalCons(OpenBracket, [Token.Text(a)] + ([CloseBracket] + g), isLetter);
    CanonicalCons(Token.Command(n), [OpenBracket] + ([Token.Text(a)] + ([CloseBracket] + g)), isLetter);
    assert [Token.Command(n)] + ([OpenBracket] + ([Token.Text(a)] + ([CloseBracket] + g)))
        == [Token.Command(n), OpenBracket, Token.Text(a), CloseBracket, OpenBrace, Token.Text(b), CloseBrace];
    AttributeCommandRender(n, a, b);
    RenderLex([Token.Command(n), OpenBracket, Token.Text(a), CloseBracket, OpenBrace, Token.Text(b), CloseBrace],
              isLetter);
  }

  lemma AttributeCommandRender(n: string, a: string, b: string)
    requires IsPlain(a) && IsPlain(b)
    ensures Render([Token.Command(n), OpenBracket, Token.Text(a), CloseBracket, OpenBrace, Token.Text(b), CloseBrace])
            == "\\" + n + "[" + a + "]" + "{" + b + "}"
  {
    var g := [OpenBrace, Token.Text(b), CloseBrace];
    GroupRender(b);
    EscapePlain(a);
    RenderCons(CloseBracket, g);
    RenderCons(Token.Text(a), [CloseBracket] + g);
    RenderCons(OpenBracket, [Token.Text(a)] + ([CloseBracket] + g));
    RenderCons(Token.Command(n), [OpenBracket] + ([Token.Text(a)] + ([CloseBracket] + g)));
    assert [Token.Command(n)] + ([OpenBracket] + ([Token.Text(a)] + ([CloseBracket] + g)))
        == [Token.Command(n), OpenBracket, Token.Text(a), CloseBracket, OpenBrace, Token.Text(b), CloseBrace];
    var x, p := "\\" + n, "\\" + n + "[" + a + "]";
    AppendAssoc("{", b, "}");
    AppendAssoc(p, "{", b + "}");
    AppendAssoc(p + "{", b, "}");
    AppendAssoc(x + "[" + a, "]", "{" + b + "}");
    AppendAssoc(x + "[", a, "]" + ("{" + b + "}"));
    AppendAssoc(x, "[", a + ("]" + ("{" + b + "}")));
  }

  /** The parse of the tokens of `\begin[center]{document}`. */
  lemma AttributeCommandTokens(toks: seq<Token>)
    requires toks == [Token.Command("begin"), OpenBracket, Token.Text("center"), CloseBracket,
                      OpenBrace, Token.Text("document"), CloseBrace]
    ensures Parse(toks) == Ok([Node.Command("begin", Some(Node.Text("center")), [Node.Text("document")])])
  {
    var center, document := Node.Text("center"), Node.Text("document");
    ItemsStop(toks, 3, Bracket);
    ItemsStep(toks, 2, Bracket, center, 3, [], 3);
    UntilCloseStep(toks, 2, Bracket, [center] + [], 3);
    assert [center] + [] == [center];
    ItemsStop(toks, 6, Brace);
    ItemsStep(toks, 5, Brace, document, 6, [], 6);
    UntilCloseStep(toks, 5, Brace, [document] + [], 6);
    assert [document] + [] == [document];
    assert ParseArguments(toks, 7) == Ok(([], 7));
    ArgumentsStep(toks, 4, document, 7, [], 7);
    var x := Node.Command("begin", Some(center), [document]);
    assert ParseNode(toks, 0) == Ok((x, 7));
    FromStep(toks, 0, x, 7, []);
    assert [x] + [] == [x];
  }

  /** A brace group around plain text is canonical whatever counts as a letter. */
  lemma GroupCanonical(b: string, isLetter: char -> bool)
    requires |b| > 0 && IsPlain(b)
    ensures Canonical([OpenBrace, Token.Text(b), CloseBrace], isLetter)
  {
    CanonicalCons(CloseBrace, [], isLetter);
    CanonicalCons(Token.Text(b), [CloseBrace], isLetter);
    CanonicalCons(OpenBrace, [Token.Text(b), CloseBrace], isLetter);
  }

  /** A brace group around plain text spells as that text between braces. */
  lemma GroupRender(b: string)
    requires IsPlain(b)
    ensures Render([OpenBrace, Token.Text(b), CloseBrace]) == "{" + b + "}"
  {
    EscapePlain(b);
    RenderCons(CloseBrace, []);
    RenderCons(Token.Text(b), [CloseBrace]);
    RenderCons(OpenBrace, [Token.Text(b), CloseBrace]);
  }

  /** `{single}`: a bare brace group holding one node is that node, not a group around it. */
  lemma ParseSingleGroup(s: string, isLetter: char -> bool)
    requires s == "{single}" && !isLetter('\\')
    ensures Parse(Lex(s, isLetter)) == Ok([Node.Text("single")])
  {
    assert s == "{" + "single" + "}";
    SingleGroupLex("single", s, isLetter);
    SingleGroupTokens([OpenBrace, Token.Text("single"), CloseBrace]);
  }

  /** Plain text between braces lexes into exactly those three tokens. */
  lemma SingleGroupLex(b: string, s: string, isLetter: char -> bool)
    requires s == "{" + b + "}" && |b| > 0 && IsPlain(b) && !isLetter('\\')
    ensures Lex(s, isLetter) == [OpenBrace, Token.Text(b), CloseBrace]
  {
    GroupCanonical(b, isLetter);
    GroupRender(b);
    RenderLex([OpenBrace, Token.Text(b), CloseBrace], isLetter);
  }

  /** The parse of the tokens of `{single}`. */
  lemma SingleGroupTokens(toks: seq<Token>)
    requires toks == [OpenBrace, Token.Text("single"), CloseBrace]
    ensures Parse(toks) == Ok([Node.Text("single")])
  {
    var x := Node.Text("single");
    ItemsStop(toks, 2, Brace);
    ItemsStep(toks, 1, Brace, x, 2, [], 2);
    UntilCloseStep(toks, 1, Brace, [x] + [], 2);
    assert [x] + [] == [x];
    NodeOpenStep(toks, 0, Brace);
    FromStep(toks, 0, x, 3, []);
    assert [x] + [] == [x];
  }

  /** `a{}b`: an empty span is an empty group, not a missing node. */
  lemma ParseEmptyGroup()
    ensures Parse([Token.Text("a"), OpenBrace, CloseBrace, Token.Text("b")])
            == Ok([Node.Text("a"), Group([]), Node.Text("b")])
  {
    var toks := [Token.Text("a"), OpenBrace, CloseBrace, Token.Text("b")];
    var b := Node.Text("b");
    ItemsStop(toks, 2, Brace);
    assert ParseNode(toks, 1) == Ok((Group([]), 3));
    FromStep(toks, 3, b, 4, []);
    assert [b] + [] == [b];
    FromStep(toks, 1, Group([]), 3, [b]);
    assert [Group([])] + [b] == [Group([]), b];
    FromStep(toks, 0, Node.Text("a"), 1, [Group([]), b]);
    assert [Node.Text("a")] + [Group([]), b] == [Node.Text("a"), Group([]), b];
  }

  /** A stray `}` at the top level is reported where it stands. */
  lemma ParseStrayClose()
    ensures Parse([Token.Text("a"), CloseBrace]) == Err(ParseError(UnexpectedClose, Brace, 1))
  {
  }
}
