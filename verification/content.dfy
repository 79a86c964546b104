/**
 * What a parse keeps of its tokens. The delimiters only shape the tree; the
 * text and command tokens all reappear in it, in their order, as its leaves.
 * This pins down what each span parses to, including a bare `{ ... }` group
 * and a span holding a single group, which the canonical printer never
 * produces.
 */
module Content {
  import opened Wrappers
  import opened Tokens
  import opened Nodes
  import opened Parser

  /** The text and command tokens a tree was built from, left to right: the attribute before the arguments. */
  function Leaves(x: Node): seq<Token>
    decreases x
  {
    match x
    case Text(v) => [Token.Text(v)]
    case Command(name, a, args) =>
      [Token.Command(name)] + (if a.Some? then Leaves(a.value) else []) + LeavesSeq(args)
    case Group(ns) => LeavesSeq(ns)
  }

  function LeavesSeq(ns: seq<Node>): seq<Token>
    decreases ns
  {
    if |ns| == 0 then [] else Leaves(ns[0]) + LeavesSeq(ns[1..])
  }

  /** The token `t` unless it is one of the four delimiters. */
  function Kept(t: Token): seq<Token> {
    if t.Text? || t.Command? then [t] else []
  }

  /** The text and command tokens of `toks[lo..hi]`, in order. */
  function Between(toks: seq<Token>, lo: nat, hi: nat): seq<Token>
    requires lo <= hi <= |toks|
    decreases hi - lo
  {
    if lo == hi then [] else Kept(toks[lo]) + Between(toks, lo + 1, hi)
  }

  /** The text and command tokens of a whole token sequence. */
  function NonDelimiters(toks: seq<Token>): seq<Token> {
    Between(toks, 0, |toks|)
  }

  lemma {:induction false} BetweenSplit(toks: seq<Token>, lo: nat, mid: nat, hi: nat)
    requires lo <= mid <= hi <= |toks|
    ensures Between(toks, lo, hi) == Between(toks, lo, mid) + Between(toks, mid, hi)
    decreases mid - lo
  {
    if lo < mid {
      BetweenSplit(toks, lo + 1, mid, hi);
      assert Kept(toks[lo]) + (Between(toks, lo + 1, mid) + Between(toks, mid, hi))
          == (Kept(toks[lo]) + Between(toks, lo + 1, mid)) + Between(toks, mid, hi);
    }
  }

  lemma LeavesCons(x: Node, ns: seq<Node>)
    ensures LeavesSeq([x] + ns) == Leaves(x) + LeavesSeq(ns)
  {
    assert ([x] + ns)[0] == x && ([x] + ns)[1..] == ns;
  }

  /** Collapsing a span keeps exactly the span's leaves. */
  lemma CollapseLeaves(ns: seq<Node>)
    ensures Leaves(Collapse(ns)) == LeavesSeq(ns)
  {
    if |ns| == 1 {
      assert LeavesSeq(ns) == Leaves(ns[0]) + LeavesSeq(ns[1..]);
      assert ns[1..] == [];
    }
  }

  lemma {:induction false} NodeLeaves(toks: seq<Token>, pos: nat)
    requires pos < |toks|
    ensures ParseNode(toks, pos).Ok? ==>
              Leaves(ParseNode(toks, pos).value.0) == Between(toks, pos, ParseNode(toks, pos).value.1)
    decreases |toks| - pos, 0
  {
    var r := ParseNode(toks, pos);
    if r.Ok? {
      var end := r.value.1;
      match toks[pos]
      case Text(_) =>
      case Command(name) =>
        AttributeLeaves(toks, pos + 1);
        var attr := ParseAttribute(toks, pos + 1);
        var q := attr.value.1;
        ArgumentsLeaves(toks, q);
        BetweenSplit(toks, pos + 1, q, end);
        assert Between(toks, pos, end) == [Token.Command(name)] + Between(toks, pos + 1, end);
      case OpenBrace =>
        UntilCloseLeaves(toks, pos + 1, Brace);
      case OpenBracket =>
        UntilCloseLeaves(toks, pos + 1, Bracket);
      case CloseBrace =>
      case CloseBracket =>
    }
  }

  lemma {:induction false} AttributeLeaves(toks: seq<Token>, pos: nat)
    requires pos <= |toks|
    ensures var r := ParseAttribute(toks, pos);
            r.Ok? ==> (if r.value.0.Some? then Leaves(r.value.0.value) else []) == Between(toks, pos, r.value.1)
    decreases |toks| - pos, 3
  {
    if pos < |toks| && toks[pos] == OpenBracket {
      UntilCloseLeaves(toks, pos + 1, Bracket);
    }
  }

  lemma {:induction false} ArgumentsLeaves(toks: seq<Token>, pos: nat)
    requires pos <= |toks|
    ensures ParseArguments(toks, pos).Ok? ==>
              LeavesSeq(ParseArguments(toks, pos).value.0) == Between(toks, pos, ParseArguments(toks, pos).value.1)
    decreases |toks| - pos, 3
  {
    var r := ParseArguments(toks, pos);
    if r.Ok? && pos < |toks| && toks[pos] == OpenBrace {
      UntilCloseLeaves(toks, pos + 1, Brace);
      var g := ParseUntilClose(toks, pos + 1, Brace);
      var q := g.value.1;
      ArgumentsLeaves(toks, q);
      LeavesCons(g.value.0, ParseArguments(toks, q).value.0);
      BetweenSplit(toks, pos + 1, q, r.value.1);
    }
  }

  lemma {:induction false} ItemsLeaves(toks: seq<Token>, pos: nat, d: Delim)
    requires pos <= |toks|
    ensures ParseItems(toks, pos, d).Ok? ==>
              LeavesSeq(ParseItems(toks, pos, d).value.0) == Between(toks, pos, ParseItems(toks, pos, d).value.1)
    decreases |toks| - pos, 1
  {
    var r := ParseItems(toks, pos, d);
    if r.Ok? && pos < |toks| && toks[pos] != CloseOf(d) {
      NodeLeaves(toks, pos);
      var n := ParseNode(toks, pos);
      var q := n.value.1;
      ItemsLeaves(toks, q, d);
      LeavesCons(n.value.0, ParseItems(toks, q, d).value.0);
      BetweenSplit(toks, pos, q, r.value.1);
    }
  }

  lemma {:induction false} UntilCloseLeaves(toks: seq<Token>, pos: nat, d: Delim)
    requires pos <= |toks|
    ensures ParseUntilClose(toks, pos, d).Ok? ==>
              Leaves(ParseUntilClose(toks, pos, d).value.0) == Between(toks, pos, ParseUntilClose(toks, pos, d).value.1)
    decreases |toks| - pos, 2
  {
    var items := ParseItems(toks, pos, d);
    if items.Ok? && items.value.1 < |toks| && toks[items.value.1] == CloseOf(d) {
      var q := items.value.1;
      ItemsLeaves(toks, pos, d);
      CollapseLeaves(items.value.0);
      BetweenSplit(toks, pos, q, q + 1);
      assert Between(toks, q, q + 1) == Kept(toks[q]) + Between(toks, q + 1, q + 1) == [];
      UntilCloseStep(toks, pos, d, items.value.0, q);
    }
  }

  lemma {:induction false} FromLeaves(toks: seq<Token>, pos: nat)
    requires pos <= |toks|
    ensures ParseFrom(toks, pos).Ok? ==> LeavesSeq(ParseFrom(toks, pos).value) == Between(toks, pos, |toks|)
    decreases |toks| - pos
  {
    var r := ParseFrom(toks, pos);
    if r.Ok? && pos < |toks| {
      NodeLeaves(toks, pos);
      var n := ParseNode(toks, pos);
      var q := n.value.1;
      FromLeaves(toks, q);
      LeavesCons(n.value.0, ParseFrom(toks, q).value);
      BetweenSplit(toks, pos, q, |toks|);
    }
  }

  /**
   * A successful parse keeps every text and command token, in order, as the
   * leaves of its trees, and makes no leaf of its own: only delimiters vanish.
   */
  lemma ParseLeaves(toks: seq<Token>)
    ensures Parse(toks).Ok? ==> LeavesSeq(Parse(toks).value) == NonDelimiters(toks)
  {
    FromLeaves(toks, 0);
  }
}
