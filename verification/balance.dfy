/**
 * An independent account of when the parser fails: a left-to-right scan of
 * the delimiter tokens with a stack of open groups. `{` and `[` push their
 * kind; a closing token pops when it matches the innermost open group and is
 * a mismatch otherwise (also when no group is open); every other token is
 * skipped. The parser succeeds exactly when the scan ends with no group open,
 * reports an unexpected close exactly at the scan's first mismatch, and
 * reports an unterminated group of exactly the kind left innermost.
 */
module Balance {
  import opened Wrappers
  import opened Tokens
  import opened Parser
  import opened ParserProperties

  /** How a scan ends: at a closing token that closes nothing open, or with `stack` still open (innermost first). */
  datatype Scan = Mismatch(delim: Delim, pos: nat) | Open(stack: seq<Delim>)

  /** The scan from `pos` with the groups `stack` open. */
  function ScanFrom(toks: seq<Token>, pos: nat, stack: seq<Delim>): (r: Scan)
    requires pos <= |toks|
    ensures r.Mismatch? ==> pos <= r.pos < |toks| && toks[r.pos] == CloseOf(r.delim)
    decreases |toks| - pos
  {
    if pos == |toks| then Open(stack)
    else match toks[pos]
      case OpenBrace => ScanFrom(toks, pos + 1, [Brace] + stack)
      case OpenBracket => ScanFrom(toks, pos + 1, [Bracket] + stack)
      case CloseBrace =>
        if |stack| > 0 && stack[0] == Brace then ScanFrom(toks, pos + 1, stack[1..])
        else Mismatch(Brace, pos)
      case CloseBracket =>
        if |stack| > 0 && stack[0] == Bracket then ScanFrom(toks, pos + 1, stack[1..])
        else Mismatch(Bracket, pos)
      case _ => ScanFrom(toks, pos + 1, stack)
  }

  /** The scan of the whole token sequence, with nothing open at the start. */
  function Balanced(toks: seq<Token>): Scan {
    ScanFrom(toks, 0, [])
  }

  /** The error `e` is the one the scan result `s` predicts. */
  predicate Agrees(s: Scan, e: ParseError) {
    match e.kind
    case UnexpectedClose => s == Mismatch(e.delim, e.pos)
    case Unterminated => s.Open? && |s.stack| > 0 && s.stack[0] == e.delim
  }

  lemma {:induction false} NodeBalance(toks: seq<Token>, pos: nat, stack: seq<Delim>)
    requires pos < |toks|
    requires |stack| > 0 ==> toks[pos] != CloseOf(stack[0])
    ensures ParseNode(toks, pos).Ok? ==>
              ScanFrom(toks, pos, stack) == ScanFrom(toks, ParseNode(toks, pos).value.1, stack)
    ensures ParseNode(toks, pos).Err? ==> Agrees(ScanFrom(toks, pos, stack), ParseNode(toks, pos).error)
    decreases |toks| - pos, 0
  {
    match toks[pos]
    case Command(_) =>
      AttributeBalance(toks, pos + 1, stack);
      var attr := ParseAttribute(toks, pos + 1);
      if attr.Ok? {
        ArgumentsBalance(toks, attr.value.1, stack);
      }
    case OpenBrace =>
      UntilCloseBalance(toks, pos + 1, Brace, stack);
    case OpenBracket =>
      UntilCloseBalance(toks, pos + 1, Bracket, stack);
    case _ =>
  }

  lemma {:induction false} AttributeBalance(toks: seq<Token>, pos: nat, stack: seq<Delim>)
    requires pos <= |toks|
    ensures ParseAttribute(toks, pos).Ok? ==>
              ScanFrom(toks, pos, stack) == ScanFrom(toks, ParseAttribute(toks, pos).value.1, stack)
    ensures ParseAttribute(toks, pos).Err? ==> Agrees(ScanFrom(toks, pos, stack), ParseAttribute(toks, pos).error)
    decreases |toks| - pos, 3
  {
    if pos < |toks| && toks[pos] == OpenBracket {
      UntilCloseBalance(toks, pos + 1, Bracket, stack);
    }
  }

  lemma {:induction false} ArgumentsBalance(toks: seq<Token>, pos: nat, stack: seq<Delim>)
    requires pos <= |toks|
    ensures ParseArguments(toks, pos).Ok? ==>
              ScanFrom(toks, pos, stack) == ScanFrom(toks, ParseArguments(toks, pos).value.1, stack)
    ensures ParseArguments(toks, pos).Err? ==> Agrees(ScanFrom(toks, pos, stack), ParseArguments(toks, pos).error)
    decreases |toks| - pos, 3
  {
    if pos < |toks| && toks[pos] == OpenBrace {
      UntilCloseBalance(toks, pos + 1, Brace, stack);
      var g := ParseUntilClose(toks, pos + 1, Brace);
      if g.Ok? {
        ArgumentsBalance(toks, g.value.1, stack);
      }
    }
  }

  lemma {:induction false} ItemsBalance(toks: seq<Token>, pos: nat, d: Delim, stack: seq<Delim>)
    requires pos <= |toks| && |stack| > 0 && stack[0] == d
    ensures ParseItems(toks, pos, d).Ok? ==>
              ScanFrom(toks, pos, stack) == ScanFrom(toks, ParseItems(toks, pos, d).value.1, stack)
    ensures ParseItems(toks, pos, d).Err? ==> Agrees(ScanFrom(toks, pos, stack), ParseItems(toks, pos, d).error)
    decreases |toks| - pos, 1
  {
    if pos < |toks| && toks[pos] != CloseOf(d) {
      NodeBalance(toks, pos, stack);
      var n := ParseNode(toks, pos);
      if n.Ok? {
        ItemsBalance(toks, n.value.1, d, stack);
      }
    }
  }

  lemma {:induction false} UntilCloseBalance(toks: seq<Token>, pos: nat, d: Delim, stack: seq<Delim>)
    requires pos <= |toks|
    ensures ParseUntilClose(toks, pos, d).Ok? ==>
              ScanFrom(toks, pos, [d] + stack) == ScanFrom(toks, ParseUntilClose(toks, pos, d).value.1, stack)
    ensures ParseUntilClose(toks, pos, d).Err? ==>
              Agrees(ScanFrom(toks, pos, [d] + stack), ParseUntilClose(toks, pos, d).error)
    decreases |toks| - pos, 2
  {
    ItemsBalance(toks, pos, d, [d] + stack);
    ItemsSound(toks, pos, d);
    var items := ParseItems(toks, pos, d);
    if items.Ok? && items.value.1 < |toks| {
      var q := items.value.1;
      assert ScanFrom(toks, q, [d] + stack) == ScanFrom(toks, q + 1, stack) by {
        assert ([d] + stack)[1..] == stack;
      }
    }
  }

  lemma {:induction false} FromBalance(toks: seq<Token>, pos: nat)
    requires pos <= |toks|
    ensures ParseFrom(toks, pos).Ok? ==> ScanFrom(toks, pos, []) == Open([])
    ensures ParseFrom(toks, pos).Err? ==> Agrees(ScanFrom(toks, pos, []), ParseFrom(toks, pos).error)
    decreases |toks| - pos
  {
    if pos < |toks| {
      NodeBalance(toks, pos, []);
      var n := ParseNode(toks, pos);
      if n.Ok? {
        FromBalance(toks, n.value.1);
      }
    }
  }

  /**
   * The parser's verdict is the delimiter scan's: success exactly when every
   * group is closed by its own kind; an unexpected close of kind `d` at `p`
   * exactly when that is the scan's first mismatch; an unterminated group of
   * kind `d` exactly when the scan ends with `d` innermost.
   */
  lemma ParseBalance(toks: seq<Token>, d: Delim, p: nat)
    ensures Parse(toks).Ok? <==> Balanced(toks) == Open([])
    ensures Parse(toks) == Err(ParseError(UnexpectedClose, d, p)) <==> Balanced(toks) == Mismatch(d, p)
    ensures Parse(toks) == Err(ParseError(Unterminated, d, |toks|))
            <==> Balanced(toks).Open? && |Balanced(toks).stack| > 0 && Balanced(toks).stack[0] == d
  {
    FromBalance(toks, 0);
    ParseSound(toks);
  }
}
