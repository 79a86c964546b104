/**
 * What every parse result satisfies, proved by one mutual induction that
 * follows the parser's own recursion: a successful parse builds only
 * well-shaped trees, and every error names a real defect of the tokens —
 * a closing delimiter that stands where a node should start, or the end
 * of the tokens inside an open group.
 */
module ParserProperties {
  import opened Wrappers
  import opened Tokens
  import opened Nodes
  import opened Parser

  /** The tokens of a group of kind `d` have ended at `p`: its closing token, or the end. */
  predicate StopsAt(toks: seq<Token>, p: nat, d: Delim) {
    p == |toks| || (p < |toks| && toks[p] == CloseOf(d))
  }

  lemma {:induction false} NodeSound(toks: seq<Token>, pos: nat)
    requires pos < |toks|
    ensures ParseNode(toks, pos).Ok? ==> WellShaped(ParseNode(toks, pos).value.0)
    ensures ParseNode(toks, pos).Err? ==> ErrorSound(toks, ParseNode(toks, pos).error)
    decreases |toks| - pos, 0
  {
    match toks[pos]
    case Command(_) =>
      AttributeSound(toks, pos + 1);
      var attr := ParseAttribute(toks, pos + 1);
      if attr.Ok? {
        ArgumentsSound(toks, attr.value.1);
      }
    case OpenBrace =>
      UntilCloseSound(toks, pos + 1, Brace);
    case OpenBracket =>
      UntilCloseSound(toks, pos + 1, Bracket);
    case _ =>
  }

  lemma {:induction false} AttributeSound(toks: seq<Token>, pos: nat)
    requires pos <= |toks|
    ensures ParseAttribute(toks, pos).Ok? ==> var a := ParseAttribute(toks, pos).value.0;
                                              a.Some? ==> WellShaped(a.value)
    ensures ParseAttribute(toks, pos).Err? ==> ErrorSound(toks, ParseAttribute(toks, pos).error)
    decreases |toks| - pos, 3
  {
    if pos < |toks| && toks[pos] == OpenBracket {
      UntilCloseSound(toks, pos + 1, Bracket);
    }
  }

  lemma {:induction false} ArgumentsSound(toks: seq<Token>, pos: nat)
    requires pos <= |toks|
    ensures ParseArguments(toks, pos).Ok? ==> AllWellShaped(ParseArguments(toks, pos).value.0)
    ensures ParseArguments(toks, pos).Err? ==> ErrorSound(toks, ParseArguments(toks, pos).error)
    decreases |toks| - pos, 3
  {
    if pos < |toks| && toks[pos] == OpenBrace {
      UntilCloseSound(toks, pos + 1, Brace);
      var g := ParseUntilClose(toks, pos + 1, Brace);
      if g.Ok? {
        ArgumentsSound(toks, g.value.1);
        var rest := ParseArguments(toks, g.value.1);
        if rest.Ok? {
          assert ([g.value.0] + rest.value.0)[1..] == rest.value.0;
        }
      }
    }
  }

  lemma {:induction false} ItemsSound(toks: seq<Token>, pos: nat, d: Delim)
    requires pos <= |toks|
    ensures ParseItems(toks, pos, d).Ok? ==> AllWellShaped(ParseItems(toks, pos, d).value.0)
    ensures ParseItems(toks, pos, d).Ok? ==> StopsAt(toks, ParseItems(toks, pos, d).value.1, d)
    ensures ParseItems(toks, pos, d).Err? ==> ErrorSound(toks, ParseItems(toks, pos, d).error)
    decreases |toks| - pos, 1
  {
    if pos < |toks| && toks[pos] != CloseOf(d) {
      NodeSound(toks, pos);
      var n := ParseNode(toks, pos);
      if n.Ok? {
        ItemsSound(toks, n.value.1, d);
        var rest := ParseItems(toks, n.value.1, d);
        if rest.Ok? {
          assert ([n.value.0] + rest.value.0)[1..] == rest.value.0;
        }
      }
    }
  }

  lemma {:induction false} UntilCloseSound(toks: seq<Token>, pos: nat, d: Delim)
    requires pos <= |toks|
    ensures ParseUntilClose(toks, pos, d).Ok? ==> WellShaped(ParseUntilClose(toks, pos, d).value.0)
    ensures ParseUntilClose(toks, pos, d).Err? ==> ErrorSound(toks, ParseUntilClose(toks, pos, d).error)
    decreases |toks| - pos, 2
  {
    ItemsSound(toks, pos, d);
  }

  lemma {:induction false} FromSound(toks: seq<Token>, pos: nat)
    requires pos <= |toks|
    ensures ParseFrom(toks, pos).Ok? ==> AllWellShaped(ParseFrom(toks, pos).value)
    ensures ParseFrom(toks, pos).Err? ==> ErrorSound(toks, ParseFrom(toks, pos).error)
    decreases |toks| - pos
  {
    if pos < |toks| {
      NodeSound(toks, pos);
      var n := ParseNode(toks, pos);
      if n.Ok? {
        FromSound(toks, n.value.1);
        var rest := ParseFrom(toks, n.value.1);
        if rest.Ok? {
          assert ([n.value.0] + rest.value)[1..] == rest.value;
        }
      }
    }
  }

  /**
   * Every tree the parser builds is well-shaped (no group holds exactly one
   * node, since such a span collapses to the node), and every error it
   * reports is a closing delimiter out of place or an input that ends
   * inside a group.
   */
  lemma ParseSound(toks: seq<Token>)
    ensures Parse(toks).Ok? ==> forall i :: 0 <= i < |Parse(toks).value| ==> WellShaped(Parse(toks).value[i])
    ensures Parse(toks).Err? ==> ErrorSound(toks, Parse(toks).error)
  {
    FromSound(toks, 0);
    if Parse(toks).Ok? {
      AllWellShapedIndex(Parse(toks).value);
    }
  }

  /**
   * The kind of node is decided by its first token: a text token is a text
   * node, a command token a command node of the same name, and only an
   * opening delimiter can give a group.
   */
  lemma NodeKind(toks: seq<Token>, pos: nat)
    requires pos < |toks| && ParseNode(toks, pos).Ok?
    ensures var x := ParseNode(toks, pos).value.0;
            && (toks[pos].Text? ==> x == Node.Text(toks[pos].value))
            && (toks[pos].Command? ==> x.Command? && x.name == toks[pos].name)
            && (x.Group? ==> toks[pos] == OpenBrace || toks[pos] == OpenBracket)
  {
  }

  /** The argument loop stops only where no `{` follows. */
  lemma {:induction false} ArgumentsStop(toks: seq<Token>, pos: nat)
    requires pos <= |toks| && ParseArguments(toks, pos).Ok?
    ensures NoBraceAt(toks, ParseArguments(toks, pos).value.1)
    ensures |ParseArguments(toks, pos).value.0| == 0 <==> NoBraceAt(toks, pos)
    decreases |toks| - pos
  {
    if pos < |toks| && toks[pos] == OpenBrace {
      var g := ParseUntilClose(toks, pos + 1, Brace);
      ArgumentsStop(toks, g.value.1);
    }
  }

  /**
   * A command takes an attribute exactly when `[` follows its token, and it
   * takes every `{...}` group that follows after that: the token after a
   * parsed command is never `{`.
   */
  lemma CommandShape(toks: seq<Token>, pos: nat)
    requires pos < |toks| && toks[pos].Command? && ParseNode(toks, pos).Ok?
    ensures var (x, q) := ParseNode(toks, pos).value;
            && x.Command?
            && (x.attribute.Some? <==> pos + 1 < |toks| && toks[pos + 1] == OpenBracket)
            && NoBraceAt(toks, q)
  {
    var attr := ParseAttribute(toks, pos + 1);
    ArgumentsStop(toks, attr.value.1);
  }

  /** A closing delimiter where a node should start is reported at once, with its kind. */
  lemma StrayClose(toks: seq<Token>, pos: nat)
    requires pos < |toks| && (toks[pos] == CloseBrace || toks[pos] == CloseBracket)
    ensures ParseFrom(toks, pos)
            == Err(ParseError(UnexpectedClose, if toks[pos] == CloseBrace then Brace else Bracket, pos))
  {
  }

  /** An unterminated group is reported at the end of the tokens, never earlier. */
  lemma UnterminatedAtEnd(toks: seq<Token>, pos: nat, d: Delim)
    requires pos <= |toks| && ParseUntilClose(toks, pos, d).Err?
    requires ParseUntilClose(toks, pos, d).error.kind == Unterminated
    ensures ParseUntilClose(toks, pos, d).error.pos == |toks|
  {
    UntilCloseSound(toks, pos, d);
  }
}
