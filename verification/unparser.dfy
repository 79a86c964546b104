/**
 * A canonical printer from trees back to tokens, and the round trip over it:
 * every well-shaped node sequence is parsed back from its printed tokens, and
 * every parse result is well-shaped. The round trip fixes the parse only of
 * printed token sequences; `Content.ParseLeaves` states, for every input,
 * which text and command tokens each parsed node holds.
 *
 * The printer writes a group as `[ ... ]`, the attribute as `[ ... ]`, each
 * argument as `{ ... }`, and a command with neither attribute nor arguments
 * as `[ \name ]`. So no printed node begins with `{`, and a printed node never
 * absorbs the next one as an attribute or an argument.
 */
module Unparser {
  import opened Wrappers
  import opened Tokens
  import opened Nodes
  import opened Parser

  /** A token a printed node may begin with. */
  predicate Opens(t: Token) {
    t.Text? || t.Command? || t == OpenBracket
  }

  function Unparse(x: Node): (u: seq<Token>)
    ensures |u| > 0 && Opens(u[0])
    decreases x, 0
  {
    match x
    case Text(v) => [Token.Text(v)]
    case Command(n, a, args) =>
      if a.None? && args == [] then [OpenBracket, Token.Command(n), CloseBracket]
      else [Token.Command(n)] + UnparseAttribute(a) + UnparseArguments(args)
    case Group(ns) => [OpenBracket] + UnparseSeq(ns) + [CloseBracket]
  }

  /** The tokens between the delimiters of a span that parses to `x`. */
  function UnparseSpan(x: Node): seq<Token>
    decreases x, 1
  {
    if x.Group? then UnparseSeq(x.nodes) else Unparse(x)
  }

  function UnparseAttribute(a: Option<Node>): seq<Token>
    decreases a, 2
  {
    match a
    case None => []
    case Some(y) => [OpenBracket] + UnparseSpan(y) + [CloseBracket]
  }

  function UnparseArguments(args: seq<Node>): (u: seq<Token>)
    ensures |args| > 0 ==> |u| > 0 && u[0] == OpenBrace
    decreases args, 2
  {
    if |args| == 0 then []
    else [OpenBrace] + UnparseSpan(args[0]) + [CloseBrace] + UnparseArguments(args[1..])
  }

  function UnparseSeq(ns: seq<Node>): (u: seq<Token>)
    ensures |ns| > 0 ==> |u| > 0 && Opens(u[0])
    decreases ns, 2
  {
    if |ns| == 0 then [] else Unparse(ns[0]) + UnparseSeq(ns[1..])
  }

  /** `u` occurs in `toks` at `pos`. */
  predicate At(toks: seq<Token>, pos: nat, u: seq<Token>)
    decreases |u|
  {
    pos + |u| <= |toks| && (|u| == 0 || (toks[pos] == u[0] && At(toks, pos + 1, u[1..])))
  }

  lemma {:induction false} AtSplit(toks: seq<Token>, pos: nat, a: seq<Token>, b: seq<Token>)
    requires At(toks, pos, a + b)
    ensures At(toks, pos, a) && At(toks, pos + |a|, b)
    decreases |a|
  {
    if |a| == 0 {
      assert a + b == b;
    } else {
      assert (a + b)[0] == a[0] && (a + b)[1..] == a[1..] + b;
      AtSplit(toks, pos + 1, a[1..], b);
    }
  }

  lemma AtHead(toks: seq<Token>, pos: nat, u: seq<Token>)
    requires At(toks, pos, u) && |u| > 0
    ensures toks[pos] == u[0]
  {
  }

  /** The closing token of a group of kind `d` sits at `p`. */
  predicate ClosesAt(toks: seq<Token>, p: nat, d: Delim) {
    p < |toks| && toks[p] == CloseOf(d)
  }

  /** A printed node, followed by anything but `{`, parses back to itself. */
  lemma ParseNodeUnparse(toks: seq<Token>, pos: nat, x: Node)
    requires WellShaped(x) && At(toks, pos, Unparse(x))
    requires NoBraceAt(toks, pos + |Unparse(x)|)
    ensures ParseNode(toks, pos) == Ok((x, pos + |Unparse(x)|))
    decreases x, 1
  {
    match x
    case Text(v) =>
      AtHead(toks, pos, Unparse(x));
    case Command(n, a, args) =>
      if a.None? && args == [] {
        ParseBareUnparse(toks, pos, n);
      } else {
        ParseCommandUnparse(toks, pos, x);
      }
    case Group(ns) =>
      ParseGroupUnparse(toks, pos, x);
  }

  /** A printed command without attribute and arguments, `[ \name ]`, parses back. */
  lemma ParseBareUnparse(toks: seq<Token>, pos: nat, n: string)
    requires At(toks, pos, [OpenBracket, Token.Command(n), CloseBracket])
    ensures ParseNode(toks, pos) == Ok((Node.Command(n, None, []), pos + 3))
  {
    var x := Node.Command(n, None, []);
    var u := [OpenBracket, Token.Command(n), CloseBracket];
    assert u[1..] == [Token.Command(n), CloseBracket] && u[1..][1..] == [CloseBracket];
    assert toks[pos] == OpenBracket && At(toks, pos + 1, u[1..]);
    assert toks[pos + 1] == Token.Command(n) && At(toks, pos + 2, u[1..][1..]);
    assert toks[pos + 2] == CloseBracket;
    assert ParseAttribute(toks, pos + 2) == Ok((None, pos + 2));
    assert ParseArguments(toks, pos + 2) == Ok(([], pos + 2));
    assert ParseNode(toks, pos + 1) == Ok((x, pos + 2));
    ItemsStop(toks, pos + 2, Bracket);
    ItemsStep(toks, pos + 1, Bracket, x, pos + 2, [], pos + 2);
    assert [x] + [] == [x];
    UntilCloseStep(toks, pos + 1, Bracket, [x], pos + 2);
  }

  /** A printed command with an attribute or arguments parses back. */
  lemma ParseCommandUnparse(toks: seq<Token>, pos: nat, x: Node)
    requires x.Command? && !(x.attribute.None? && x.arguments == [])
    requires WellShaped(x) && At(toks, pos, Unparse(x))
    requires NoBraceAt(toks, pos + |Unparse(x)|)
    ensures ParseNode(toks, pos) == Ok((x, pos + |Unparse(x)|))
    decreases x, 0
  {
    var ua := UnparseAttribute(x.attribute);
    var ug := UnparseArguments(x.arguments);
    AtSplit(toks, pos, [Token.Command(x.name)] + ua, ug);
    AtSplit(toks, pos, [Token.Command(x.name)], ua);
    AtHead(toks, pos, [Token.Command(x.name)]);
    if x.attribute.None? {
      AtHead(toks, pos + 1, ug);
    }
    ParseAttributeUnparse(toks, pos + 1, x.attribute);
    ParseArgumentsUnparse(toks, pos + 1 + |ua|, x.arguments);
  }

  /** A printed group, `[ ... ]`, parses back. */
  lemma ParseGroupUnparse(toks: seq<Token>, pos: nat, x: Node)
    requires x.Group? && WellShaped(x) && At(toks, pos, Unparse(x))
    ensures ParseNode(toks, pos) == Ok((x, pos + |Unparse(x)|))
    decreases x, 0
  {
    var us := UnparseSeq(x.nodes);
    assert toks[pos] == OpenBracket && At(toks, pos + 1, us) && ClosesAt(toks, pos + 1 + |us|, Bracket)
           && |Unparse(x)| == |us| + 2 by {
      AtSplit(toks, pos, [OpenBracket] + us, [CloseBracket]);
      AtSplit(toks, pos, [OpenBracket], us);
      AtHead(toks, pos, [OpenBracket]);
      AtHead(toks, pos + 1 + |us|, [CloseBracket]);
    }
    ParseItemsUnparse(toks, pos + 1, x.nodes, Bracket);
    UntilCloseStep(toks, pos + 1, Bracket, x.nodes, pos + 1 + |us|);
    NodeOpenStep(toks, pos, Bracket);
  }

  /** The printed body of a span, then its closing token, parses back to the span's node. */
  lemma ParseSpanUnparse(toks: seq<Token>, pos: nat, x: Node, d: Delim)
    requires WellShaped(x) && At(toks, pos, UnparseSpan(x))
    requires ClosesAt(toks, pos + |UnparseSpan(x)|, d)
    ensures ParseUntilClose(toks, pos, d) == Ok((x, pos + |UnparseSpan(x)| + 1))
    decreases x, 2
  {
    var u := UnparseSpan(x);
    var end := pos + |u|;
    if x.Group? {
      ParseItemsUnparse(toks, pos, x.nodes, d);
      UntilCloseStep(toks, pos, d, x.nodes, end);
    } else {
      ParseNodeUnparse(toks, pos, x);
      ItemsStop(toks, end, d);
      ItemsStep(toks, pos, d, x, end, [], end);
      assert [x] + [] == [x];
      UntilCloseStep(toks, pos, d, [x], end);
    }
  }

  /** Printed nodes, then a closing token of kind `d`, parse back to the nodes. */
  lemma ParseItemsUnparse(toks: seq<Token>, pos: nat, ns: seq<Node>, d: Delim)
    requires AllWellShaped(ns) && At(toks, pos, UnparseSeq(ns))
    requires ClosesAt(toks, pos + |UnparseSeq(ns)|, d)
    ensures ParseItems(toks, pos, d) == Ok((ns, pos + |UnparseSeq(ns)|))
    decreases ns, 4
  {
    if |ns| == 0 {
      ItemsStop(toks, pos, d);
    } else {
      ItemsSplit(toks, pos, ns, d);
      ParseItemsConsUnparse(toks, pos, ns, d);
    }
  }

  /** The step of `ParseItemsUnparse` for a non-empty sequence: its head, then the rest. */
  lemma {:induction false} ParseItemsConsUnparse(toks: seq<Token>, pos: nat, ns: seq<Node>, d: Delim)
    requires |ns| > 0 && WellShaped(ns[0]) && AllWellShaped(ns[1..])
    requires At(toks, pos, Unparse(ns[0])) && At(toks, pos + |Unparse(ns[0])|, UnparseSeq(ns[1..]))
    requires NoBraceAt(toks, pos + |Unparse(ns[0])|) && toks[pos] != CloseOf(d)
    requires ClosesAt(toks, pos + |Unparse(ns[0])| + |UnparseSeq(ns[1..])|, d)
    ensures ParseItems(toks, pos, d) == Ok((ns, pos + |Unparse(ns[0])| + |UnparseSeq(ns[1..])|))
    decreases ns, 3
  {
    var q := pos + |Unparse(ns[0])|;
    ParseNodeUnparse(toks, pos, ns[0]);
    ParseItemsUnparse(toks, q, ns[1..], d);
    ItemsCons(toks, pos, d, ns, q, q + |UnparseSeq(ns[1..])|);
  }

  /** Where the printed head and the printed rest of a non-empty item sequence sit. */
  lemma ItemsSplit(toks: seq<Token>, pos: nat, ns: seq<Node>, d: Delim)
    requires |ns| > 0 && At(toks, pos, UnparseSeq(ns))
    requires ClosesAt(toks, pos + |UnparseSeq(ns)|, d)
    ensures At(toks, pos, Unparse(ns[0])) && At(toks, pos + |Unparse(ns[0])|, UnparseSeq(ns[1..]))
    ensures NoBraceAt(toks, pos + |Unparse(ns[0])|) && toks[pos] != CloseOf(d)
    ensures ClosesAt(toks, pos + |Unparse(ns[0])| + |UnparseSeq(ns[1..])|, d)
    ensures |UnparseSeq(ns)| == |Unparse(ns[0])| + |UnparseSeq(ns[1..])|
  {
    var u0 := Unparse(ns[0]);
    var rest := UnparseSeq(ns[1..]);
    AtSplit(toks, pos, u0, rest);
    AtHead(toks, pos, u0);
    if |rest| > 0 {
      AtHead(toks, pos + |u0|, rest);
    }
  }

  /** One step of the item loop, with the items given as one sequence. */
  lemma ItemsCons(toks: seq<Token>, pos: nat, d: Delim, ns: seq<Node>, q: nat, end: nat)
    requires |ns| > 0 && pos < |toks| && toks[pos] != CloseOf(d) && q <= |toks|
    requires ParseNode(toks, pos) == Ok((ns[0], q)) && ParseItems(toks, q, d) == Ok((ns[1..], end))
    ensures ParseItems(toks, pos, d) == Ok((ns, end))
  {
    ItemsStep(toks, pos, d, ns[0], q, ns[1..], end);
    assert [ns[0]] + ns[1..] == ns;
  }

  /** A printed attribute parses back; an absent one leaves the cursor where it is. */
  lemma ParseAttributeUnparse(toks: seq<Token>, pos: nat, a: Option<Node>)
    requires a.Some? ==> WellShaped(a.value)
    requires At(toks, pos, UnparseAttribute(a))
    requires a.None? ==> pos >= |toks| || toks[pos] != OpenBracket
    ensures ParseAttribute(toks, pos) == Ok((a, pos + |UnparseAttribute(a)|))
    decreases a, 3
  {
    if a.Some? {
      var u := UnparseSpan(a.value);
      AtSplit(toks, pos, [OpenBracket] + u, [CloseBracket]);
      AtSplit(toks, pos, [OpenBracket], u);
      AtHead(toks, pos, [OpenBracket]);
      AtHead(toks, pos + 1 + |u|, [CloseBracket]);
      ParseSpanUnparse(toks, pos + 1, a.value, Bracket);
    }
  }

  /** Printed arguments, followed by anything but `{`, parse back to the arguments. */
  lemma ParseArgumentsUnparse(toks: seq<Token>, pos: nat, args: seq<Node>)
    requires AllWellShaped(args) && At(toks, pos, UnparseArguments(args))
    requires NoBraceAt(toks, pos + |UnparseArguments(args)|)
    ensures ParseArguments(toks, pos) == Ok((args, pos + |UnparseArguments(args)|))
    decreases args, 3
  {
    if |args| > 0 {
      ArgumentsSplit(toks, pos, args);
      ParseArgumentsConsUnparse(toks, pos, args);
    }
  }

  /** The step of `ParseArgumentsUnparse` for a non-empty sequence: its first argument, then the rest. */
  lemma {:induction false} ParseArgumentsConsUnparse(toks: seq<Token>, pos: nat, args: seq<Node>)
    requires |args| > 0 && WellShaped(args[0]) && AllWellShaped(args[1..])
    requires pos < |toks| && toks[pos] == OpenBrace && At(toks, pos + 1, UnparseSpan(args[0]))
    requires ClosesAt(toks, pos + 1 + |UnparseSpan(args[0])|, Brace)
    requires At(toks, pos + 1 + |UnparseSpan(args[0])| + 1, UnparseArguments(args[1..]))
    requires NoBraceAt(toks, pos + 1 + |UnparseSpan(args[0])| + 1 + |UnparseArguments(args[1..])|)
    ensures ParseArguments(toks, pos)
            == Ok((args, pos + 1 + |UnparseSpan(args[0])| + 1 + |UnparseArguments(args[1..])|))
    decreases args, 2
  {
    var q := pos + 1 + |UnparseSpan(args[0])| + 1;
    ParseSpanUnparse(toks, pos + 1, args[0], Brace);
    ParseArgumentsUnparse(toks, q, args[1..]);
    ArgumentsCons(toks, pos, args, q, q + |UnparseArguments(args[1..])|);
  }

  /** Where the first printed argument, its closing brace and the remaining arguments sit. */
  lemma ArgumentsSplit(toks: seq<Token>, pos: nat, args: seq<Node>)
    requires |args| > 0 && At(toks, pos, UnparseArguments(args))
    requires NoBraceAt(toks, pos + |UnparseArguments(args)|)
    ensures toks[pos] == OpenBrace && At(toks, pos + 1, UnparseSpan(args[0]))
    ensures ClosesAt(toks, pos + 1 + |UnparseSpan(args[0])|, Brace)
    ensures At(toks, pos + 1 + |UnparseSpan(args[0])| + 1, UnparseArguments(args[1..]))
    ensures |UnparseArguments(args)| == 1 + |UnparseSpan(args[0])| + 1 + |UnparseArguments(args[1..])|
  {
    var u := UnparseSpan(args[0]);
    AtSplit(toks, pos, [OpenBrace] + u + [CloseBrace], UnparseArguments(args[1..]));
    AtSplit(toks, pos, [OpenBrace] + u, [CloseBrace]);
    AtSplit(toks, pos, [OpenBrace], u);
    AtHead(toks, pos, [OpenBrace]);
    AtHead(toks, pos + 1 + |u|, [CloseBrace]);
  }

  /** One step of the argument loop, with the arguments given as one sequence. */
  lemma ArgumentsCons(toks: seq<Token>, pos: nat, args: seq<Node>, q: nat, end: nat)
    requires |args| > 0 && pos < |toks| && toks[pos] == OpenBrace && q <= |toks|
    requires ParseUntilClose(toks, pos + 1, Brace) == Ok((args[0], q))
    requires ParseArguments(toks, q) == Ok((args[1..], end))
    ensures ParseArguments(toks, pos) == Ok((args, end))
  {
    ArgumentsStep(toks, pos, args[0], q, args[1..], end);
    assert [args[0]] + args[1..] == args;
  }

  /** Printed nodes that run to the end of the tokens parse back to the nodes. */
  lemma {:induction false} ParseFromUnparse(toks: seq<Token>, pos: nat, ns: seq<Node>)
    requires AllWellShaped(ns) && At(toks, pos, UnparseSeq(ns))
    requires pos + |UnparseSeq(ns)| == |toks|
    ensures ParseFrom(toks, pos) == Ok(ns)
    decreases |ns|
  {
    if |ns| > 0 {
      var u0 := Unparse(ns[0]);
      var rest := UnparseSeq(ns[1..]);
      assert At(toks, pos, u0) && At(toks, pos + |u0|, rest) && NoBraceAt(toks, pos + |u0|)
             && pos + |u0| + |rest| == |toks| by {
        AtSplit(toks, pos, u0, rest);
        if |rest| > 0 {
          AtHead(toks, pos + |u0|, rest);
        }
      }
      ParseNodeUnparse(toks, pos, ns[0]);
      ParseFromUnparse(toks, pos + |u0|, ns[1..]);
      FromStep(toks, pos, ns[0], pos + |u0|, ns[1..]);
      assert [ns[0]] + ns[1..] == ns;
    }
  }

  /** Every sequence is found at the start of itself. */
  lemma {:induction false} AtSelf(toks: seq<Token>, pos: nat)
    requires pos <= |toks|
    ensures At(toks, pos, toks[pos..])
    decreases |toks| - pos
  {
    if pos < |toks| {
      AtSelf(toks, pos + 1);
      assert toks[pos..][1..] == toks[pos + 1..];
    }
  }

  /**
   * The round trip: parsing the printed form of well-shaped nodes gives the
   * nodes back. Together with `ParserProperties.ParseSound`, the printer is a right
   * inverse of the parser on exactly the trees the parser builds.
   */
  lemma ParseUnparse(ns: seq<Node>)
    requires AllWellShaped(ns)
    ensures Parse(UnparseSeq(ns)) == Ok(ns)
  {
    var toks := UnparseSeq(ns);
    AtSelf(toks, 0);
    assert toks[0..] == toks;
    ParseFromUnparse(toks, 0, ns);
  }
}
