/**
 * The parser: recursive descent over the token sequence with one token of
 * lookahead (Parser.kt). The Kotlin cursor is threaded explicitly: each
 * function takes the position it starts at and, on success, returns the
 * position after what it consumed.
 *
 * Kotlin throws on two structural errors; here both are a `ParseError`
 * carrying what went wrong, which delimiter kind, and the token position.
 */
module Parser {
  import opened Wrappers
  import opened Tokens
  import opened Nodes

  /** The two delimiter scopes: `{ }` and `[ ]`. */
  datatype Delim = Brace | Bracket

  datatype ErrorKind =
    | UnexpectedClose  // a closing delimiter where a node should start
    | Unterminated     // the tokens ended inside a group

  datatype ParseError = ParseError(kind: ErrorKind, delim: Delim, pos: nat)

  /** The token that closes a group of kind `d`. */
  function CloseOf(d: Delim): Token {
    match d
    case Brace => CloseBrace
    case Bracket => CloseBracket
  }

  /**
   * What an error says about the tokens: an unexpected closing delimiter is
   * at the reported position and of the reported kind, and an unterminated
   * group is only ever reported at the end of the tokens.
   */
  predicate ErrorSound(toks: seq<Token>, e: ParseError) {
    match e.kind
    case UnexpectedClose => e.pos < |toks| && toks[e.pos] == CloseOf(e.delim)
    case Unterminated => e.pos == |toks|
  }

  /** No `{` at position `p` (or `p` is the end). */
  predicate NoBraceAt(toks: seq<Token>, p: nat) {
    p >= |toks| || toks[p] != OpenBrace
  }

  /**
   * One node starting at `pos` (`parseNode`). A successful call consumes at
   * least one token; the result is a group only when `pos` opens a group.
   */
  function ParseNode(toks: seq<Token>, pos: nat): (r: Result<(Node, nat), ParseError>)
    requires pos < |toks|
    ensures r.Ok? ==> pos < r.value.1 <= |toks|
    decreases |toks| - pos, 0
  {
    match toks[pos]
    case Text(v) => Ok((Node.Text(v), pos + 1))
    case Command(name) =>
      var attr := ParseAttribute(toks, pos + 1);
      if attr.Err? then Err(attr.error)
      else
        var args := ParseArguments(toks, attr.value.1);
        if args.Err? then Err(args.error)
        else Ok((Node.Command(name, attr.value.0, args.value.0), args.value.1))
    case OpenBrace => ParseUntilClose(toks, pos + 1, Brace)
    case OpenBracket => ParseUntilClose(toks, pos + 1, Bracket)
    case CloseBrace => Err(ParseError(UnexpectedClose, Brace, pos))
    case CloseBracket => Err(ParseError(UnexpectedClose, Bracket, pos))
  }

  /** The optional `[...]` attribute right after a command token. */
  function ParseAttribute(toks: seq<Token>, pos: nat): (r: Result<(Option<Node>, nat), ParseError>)
    requires pos <= |toks|
    ensures r.Ok? ==> pos <= r.value.1 <= |toks|
    ensures r.Ok? ==> (r.value.0.None? <==> r.value.1 == pos)
    ensures r.Ok? && r.value.0.Some? ==> toks[pos] == OpenBracket && toks[r.value.1 - 1] == CloseBracket
    decreases |toks| - pos, 3
  {
    if pos < |toks| && toks[pos] == OpenBracket then
      var g := ParseUntilClose(toks, pos + 1, Bracket);
      if g.Err? then Err(g.error) else Ok((Some(g.value.0), g.value.1))
    else Ok((None, pos))
  }

  /** Every `{...}` argument that immediately follows, in order. */
  function ParseArguments(toks: seq<Token>, pos: nat): (r: Result<(seq<Node>, nat), ParseError>)
    requires pos <= |toks|
    ensures r.Ok? ==> pos <= r.value.1 <= |toks|
    decreases |toks| - pos, 3
  {
    if pos < |toks| && toks[pos] == OpenBrace then
      var g := ParseUntilClose(toks, pos + 1, Brace);
      if g.Err? then Err(g.error)
      else
        var rest := ParseArguments(toks, g.value.1);
        if rest.Err? then rest else Ok(([g.value.0] + rest.value.0, rest.value.1))
    else Ok(([], pos))
  }

  /** The nodes of a group of kind `d`, up to (not including) its closing token. */
  function ParseItems(toks: seq<Token>, pos: nat, d: Delim): (r: Result<(seq<Node>, nat), ParseError>)
    requires pos <= |toks|
    ensures r.Ok? ==> pos <= r.value.1 <= |toks|
    decreases |toks| - pos, 1
  {
    if pos < |toks| && toks[pos] != CloseOf(d) then
      var n := ParseNode(toks, pos);
      if n.Err? then Err(n.error)
      else
        var rest := ParseItems(toks, n.value.1, d);
        if rest.Err? then rest else Ok(([n.value.0] + rest.value.0, rest.value.1))
    else Ok(([], pos))
  }

  /**
   * A group of kind `d` whose opening token has been consumed
   * (`parseUntilClose`): its nodes, the closing token, and the collapsing rule.
   */
  function ParseUntilClose(toks: seq<Token>, pos: nat, d: Delim): (r: Result<(Node, nat), ParseError>)
    requires pos <= |toks|
    ensures r.Ok? ==> pos < r.value.1 <= |toks| && toks[r.value.1 - 1] == CloseOf(d)
    decreases |toks| - pos, 2
  {
    var items := ParseItems(toks, pos, d);
    if items.Err? then Err(items.error)
    else
      var q := items.value.1;
      if q >= |toks| || toks[q] != CloseOf(d) then Err(ParseError(Unterminated, d, q))
      else Ok((Collapse(items.value.0), q + 1))
  }

  /** The top-level loop of `parse`, from `pos` to the end of the tokens. */
  function ParseFrom(toks: seq<Token>, pos: nat): (r: Result<seq<Node>, ParseError>)
    requires pos <= |toks|
    ensures r.Ok? ==> |r.value| <= |toks| - pos
    ensures r.Ok? && pos < |toks| ==> |r.value| > 0
    decreases |toks| - pos
  {
    if pos < |toks| then
      var n := ParseNode(toks, pos);
      if n.Err? then Err(n.error)
      else
        var rest := ParseFrom(toks, n.value.1);
        if rest.Err? then rest else Ok([n.value.0] + rest.value)
    else Ok([])
  }

  /** The whole token sequence as top-level nodes (`parse`). */
  function Parse(toks: seq<Token>): (r: Result<seq<Node>, ParseError>)
    ensures r.Ok? ==> |r.value| <= |toks|
    ensures r.Ok? ==> (r.value == [] <==> toks == [])
  {
    ParseFrom(toks, 0)
  }

  /** One step of the argument loop: a brace group, then the remaining arguments. */
  lemma ArgumentsStep(toks: seq<Token>, pos: nat, g: Node, q: nat, rest: seq<Node>, end: nat)
    requires pos < |toks| && toks[pos] == OpenBrace
    requires ParseUntilClose(toks, pos + 1, Brace) == Ok((g, q))
    requires q <= |toks| && ParseArguments(toks, q) == Ok((rest, end))
    ensures ParseArguments(toks, pos) == Ok(([g] + rest, end))
  {
  }

  /** One step of the item loop: a node, then the remaining items. */
  lemma ItemsStep(toks: seq<Token>, pos: nat, d: Delim, x: Node, q: nat, rest: seq<Node>, end: nat)
    requires pos < |toks|
    requires toks[pos] != CloseOf(d)
    requires ParseNode(toks, pos) == Ok((x, q))
    requires q <= |toks|
    requires ParseItems(toks, q, d) == Ok((rest, end))
    ensures ParseItems(toks, pos, d) == Ok(([x] + rest, end))
  {
  }

  /** The item loop stops at the closing token. */
  lemma ItemsStop(toks: seq<Token>, pos: nat, d: Delim)
    requires pos < |toks| && toks[pos] == CloseOf(d)
    ensures ParseItems(toks, pos, d) == Ok(([], pos))
  {
  }

  /** A node that starts with an opening token is the group it opens. */
  lemma NodeOpenStep(toks: seq<Token>, pos: nat, d: Delim)
    requires pos < |toks| && toks[pos] == (if d == Brace then OpenBrace else OpenBracket)
    ensures ParseNode(toks, pos) == ParseUntilClose(toks, pos + 1, d)
  {
  }

  /** A group whose items end at its closing token is collapsed. */
  lemma UntilCloseStep(toks: seq<Token>, pos: nat, d: Delim, ns: seq<Node>, q: nat)
    requires pos <= |toks|
    requires ParseItems(toks, pos, d) == Ok((ns, q))
    requires q < |toks| && toks[q] == CloseOf(d)
    ensures ParseUntilClose(toks, pos, d) == Ok((Collapse(ns), q + 1))
  {
  }

  /** One step of the top-level loop: a node, then the rest of the input. */
  lemma FromStep(toks: seq<Token>, pos: nat, x: Node, q: nat, rest: seq<Node>)
    requires pos < |toks|
    requires ParseNode(toks, pos) == Ok((x, q))
    requires q <= |toks| && ParseFrom(toks, q) == Ok(rest)
    ensures ParseFrom(toks, pos) == Ok([x] + rest)
  {
  }
}
