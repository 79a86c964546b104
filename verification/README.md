# SyNthTeX lexer and parser, in Dafny

SyNthTeX reads a TeX-like markup language in two stages:

- The **lexer** (`Lexer.tokenize`) turns a string into tokens:
  - text runs;
  - commands `\name`;
  - the four delimiters `{ } [ ]`;
  - the escaped backslash `\\`, which gives the text token `\`.

  Comments from `%` to the end of the line are dropped.
- The **parser** (`Parser.parse`) turns tokens into a tree of nodes by recursive descent:
  - text nodes;
  - command nodes, with an optional `[...]` attribute and any number of `{...}` arguments;
  - groups.

  A delimited span holding exactly one node collapses to that node.

The project models both stages as pure functions and proves what they guarantee.

| file | module | contents |
|---|---|---|
| `wrappers.dfy` | `Wrappers` | `Option`, `Result` |
| `token.dfy` | `Tokens` | the `Token` datatype, how a token is spelled in the source text, and what a well-formed and a canonical token sequence are |
| `lexer.dfy` | `Lexer` | `Lex`, the lexer as a function of the remaining input; `Tokenize`, the cursor loop of the Kotlin code, proved to compute `Lex`; one lemma per branch of the scan |
| `lexer_props.dfy` | `LexerProperties` | the lexer round trips: render ∘ lex and lex ∘ render; delimiter order; comments; escapes |
| `node.dfy` | `Nodes` | the `Node` datatype, the collapsing rule, and well-shaped trees |
| `parser.dfy` | `Parser` | the parser functions, one per Kotlin function, with the cursor passed in and returned; errors as `ParseError` values |
| `parser_props.dfy` | `ParserProperties` | soundness: trees are well-shaped and errors are genuine; node kinds; command shape |
| `balance.dfy` | `Balance` | a delimiter scan with a stack of open groups, and the theorem that the parser succeeds or fails exactly as the scan predicts |
| `content.dfy` | `Content` | the leaves of a tree, and the theorem that a parse keeps every text and command token, in order, as its leaves |
| `unparser.dfy` | `Unparser` | a printer from trees back to tokens, and the theorem that parsing its output gives the tree back |
| `examples.dfy` | `Examples` | the behaviour the repository's unit tests describe, stated on the test strings themselves, with the parser tests going through the lexer; `ParseSingleGroup` is the collapsing rule's own case, and `ParseEmptyGroup` and `ParseStrayClose` are two extra cases stated on token lists; the proofs use the general lemmas plus a few unfolding steps |

Kotlin's `Char.isLetter()` decides where a command name ends. It is a Unicode table applied to UTF-16 code units, so here it is the parameter `isLetter: char -> bool` over Dafny's `char` (a Unicode scalar value); the difference is under "Left out". A lemma that depends on the letter test says which characters it must reject; Kotlin's test rejects all of them:

- the lexer ∘ render round trip needs `!isLetter('\\')`;
- the delimiter lemma needs each of `{ } [ ]` to be a non-letter.

Where the code and its documentation disagree, the model follows the code:

- The class comment of the lexer (Lexer.kt:33) shows `Text(" \\ ")`: the text around an escaped backslash joined into one token. The code emits a separate `Text("\\")` token and so splits the text into three tokens. `Examples.LexEscapeSplitsText` proves the code's behaviour.
- Token.kt:18-19 says a text token contains no special characters. The escape branch makes the text token `\`. `Tokens.WellFormed` allows exactly that one exception.
- The message for an unterminated group says "group starting at token position …". The position in the message is the cursor when the tokens run out, which is always the end of the tokens, not the group's start. `ParseError.pos` carries that value, and `ParserProperties.UnterminatedAtEnd` proves it is `|toks|`.

## Model

| member | source | states |
|---|---|---|
| Lexer.Lex | src/commonMain/kotlin/net/blusutils/synthtex/Lexer.kt:66-127 | Every token is well-formed: a text token is `\` or a non-empty run free of `\ { } [ ] %`, and a command name consists of letters. There are never more tokens than characters. |
| Lexer.Tokenize | src/commonMain/kotlin/net/blusutils/synthtex/Lexer.kt:66-127 | The cursor loop, with its inner scans, returns exactly the tokens `Lex` defines for the whole input. |
| Lexer.ScanLetters | src/commonMain/kotlin/net/blusutils/synthtex/Lexer.kt:78-81 | The command-name scan stops at the first non-letter or at the end; every character it passed is a letter. |
| Lexer.ScanPlain | src/commonMain/kotlin/net/blusutils/synthtex/Lexer.kt:111-121 | The text scan stops at the first special character or at the end; none of the characters it passed is special. |
| Lexer.ScanLine | src/commonMain/kotlin/net/blusutils/synthtex/Lexer.kt:104-107 | The comment scan stops at the first newline or at the end, without consuming the newline. |
| Lexer.LetterRun | src/commonMain/kotlin/net/blusutils/synthtex/Lexer.kt:78-82 | The command name is the longest prefix made of letters. |
| Lexer.PlainRun | src/commonMain/kotlin/net/blusutils/synthtex/Lexer.kt:111-122 | A text token is the longest prefix without a special character. |
| Lexer.LineRun | src/commonMain/kotlin/net/blusutils/synthtex/Lexer.kt:104-107 | A comment extends to just before the next newline, or to the end. |
| Lexer.LexEscapeAt | src/commonMain/kotlin/net/blusutils/synthtex/Lexer.kt:70-74 | Two backslashes give the text token `\` and lexing resumes two characters later. |
| Lexer.LexCommandAt | src/commonMain/kotlin/net/blusutils/synthtex/Lexer.kt:75-84 | A backslash not followed by a backslash gives a command named by the maximal letter run after it, possibly empty. Lexing resumes at the first non-letter. |
| Lexer.LexDelimiterAt | src/commonMain/kotlin/net/blusutils/synthtex/Lexer.kt:86-101 | Each of `{ } [ ]` gives its own delimiter token and consumes one character. |
| Lexer.DelimiterToken | src/commonMain/kotlin/net/blusutils/synthtex/Token.kt:38-74 | Each delimiter token is spelled by exactly the character it is lexed from. |
| Lexer.LexCommentAt | src/commonMain/kotlin/net/blusutils/synthtex/Lexer.kt:102-108 | A comment produces no token; what follows it, including the newline, is lexed as if the comment were absent. |
| Lexer.LexPlainAt | src/commonMain/kotlin/net/blusutils/synthtex/Lexer.kt:109-123 | A maximal run of ordinary characters is one text token with exactly those characters. |
| Lexer.LetterRunUnique | src/commonMain/kotlin/net/blusutils/synthtex/Lexer.kt:78-81 | Any letter prefix that ends at a non-letter or at the end is the command-name scan's stopping point. |
| Lexer.PlainRunUnique | src/commonMain/kotlin/net/blusutils/synthtex/Lexer.kt:111-121 | Any special-character-free prefix that ends at a special character or at the end is the text scan's stopping point. |
| Lexer.LineRunUnique | src/commonMain/kotlin/net/blusutils/synthtex/Lexer.kt:104-107 | Any newline-free prefix that ends at a newline or at the end is the comment scan's stopping point. |
| LexerProperties.FirstToken | src/commonMain/kotlin/net/blusutils/synthtex/Lexer.kt:69-123 | Input that does not start with `%` begins with one token spelled by a non-empty prefix. A command ends at a non-letter, a text run ends at a special character, and an empty command name is a lone backslash. |
| LexerProperties.LexRender | src/commonMain/kotlin/net/blusutils/synthtex/Lexer.kt:66-127 | On input without comments, spelling the tokens out again gives back the input exactly: no character is lost or reordered. |
| LexerProperties.LexCanonical | src/commonMain/kotlin/net/blusutils/synthtex/Lexer.kt:66-127 | On input without comments, the tokens are canonical. No two text runs are adjacent, and no command is followed by a letter. |
| LexerProperties.LexSpellThen | src/commonMain/kotlin/net/blusutils/synthtex/Lexer.kt:69-123 | A well-formed token followed by text that cannot extend it lexes back as that token, followed by the text's tokens. |
| LexerProperties.LexSpellEscape | src/commonMain/kotlin/net/blusutils/synthtex/Lexer.kt:70-74 | The spelling `\\` of the text token `\` lexes back as that token, whatever follows. |
| LexerProperties.LexSpellPlain | src/commonMain/kotlin/net/blusutils/synthtex/Lexer.kt:109-123 | The spelling of a plain text token lexes back as that token when a special character or the end follows. |
| LexerProperties.LexSpellCommand | src/commonMain/kotlin/net/blusutils/synthtex/Lexer.kt:75-84 | The spelling of a command lexes back as that command when a non-letter follows (and not a backslash, for the empty name). |
| LexerProperties.LexSpellDelimiter | src/commonMain/kotlin/net/blusutils/synthtex/Lexer.kt:86-101 | The spelling of a delimiter lexes back as that delimiter, whatever follows. |
| LexerProperties.RenderLex | src/commonMain/kotlin/net/blusutils/synthtex/Lexer.kt:66-127 | Lexing the spelling of a canonical token sequence gives back that sequence; the lexer is onto the canonical sequences. |
| LexerProperties.LexEmpty | src/commonMain/kotlin/net/blusutils/synthtex/Lexer.kt:67-68 | Empty input gives no tokens. |
| LexerProperties.LexPlainInput | src/commonMain/kotlin/net/blusutils/synthtex/Lexer.kt:109-123 | Non-empty input free of special characters is exactly one text token holding the whole input. |
| LexerProperties.LexPlainThen | src/commonMain/kotlin/net/blusutils/synthtex/Lexer.kt:111-122 | A plain prefix followed by a special character or by the end lexes as one text token for the prefix, then the rest. |
| LexerProperties.LexComment | src/commonMain/kotlin/net/blusutils/synthtex/Lexer.kt:102-108 | `%`, a comment and the rest lex as the rest alone. If the rest is non-empty, it starts with the newline, which begins a text token. |
| LexerProperties.LexEscapeFirst | src/commonMain/kotlin/net/blusutils/synthtex/Lexer.kt:70-74 | `\\` is checked before the command branch, so it is always the escape and never a command. |
| LexerProperties.LexDelimiters | src/commonMain/kotlin/net/blusutils/synthtex/Lexer.kt:86-101 | On input without comments, the delimiter tokens match the input's delimiter characters one for one, in order. Text and command tokens never contain a delimiter. |
| LexerProperties.DelimiterSpell | src/commonMain/kotlin/net/blusutils/synthtex/Token.kt:16-74 | A well-formed token's spelling contains exactly the delimiter characters the token stands for. |
| Tokens.EscapePlain | src/commonMain/kotlin/net/blusutils/synthtex/Token.kt:17-26 | A text token without special characters is spelled exactly as its content. |
| Tokens.SpellNonEmpty | src/commonMain/kotlin/net/blusutils/synthtex/Token.kt:16-74 | Every well-formed token stands for at least one character. |
| Tokens.CanonicalTail | src/commonMain/kotlin/net/blusutils/synthtex/Lexer.kt:66-127 | Every suffix of a canonical token sequence is canonical. |
| Nodes.Collapse | src/commonMain/kotlin/net/blusutils/synthtex/Parser.kt:110 | A span holding exactly one node yields that very node, even when it is a group. Otherwise collapsing loses nothing: the members of the result are the span's nodes in order. Collapsing well-shaped nodes gives a well-shaped node. |
| Nodes.CollapseMembers | src/commonMain/kotlin/net/blusutils/synthtex/Node.kt:33-40 | For a well-shaped node, collapsing its members gives the node back. |
| Nodes.AllWellShapedIndex | src/commonMain/kotlin/net/blusutils/synthtex/Node.kt:40 | A sequence is well-shaped exactly when each of its nodes is. |
| Parser.ParseNode | src/commonMain/kotlin/net/blusutils/synthtex/Parser.kt:43-86 | A successful node parse consumes at least one token and stays within the tokens, so the loops that call it make progress. |
| Parser.ParseAttribute | src/commonMain/kotlin/net/blusutils/synthtex/Parser.kt:52-57 | The attribute step stays within the tokens. It finds no attribute exactly when it consumes nothing; an attribute found starts at `[` and ends just after a `]`. |
| Parser.ParseArguments | src/commonMain/kotlin/net/blusutils/synthtex/Parser.kt:59-64 | The argument loop never moves backwards and stays within the tokens. |
| Parser.ParseItems | src/commonMain/kotlin/net/blusutils/synthtex/Parser.kt:103-105 | The item loop never moves backwards and stays within the tokens. |
| Parser.ParseUntilClose | src/commonMain/kotlin/net/blusutils/synthtex/Parser.kt:94-111 | A closed group consumes at least its closing token, and the last token it consumes is the closing token of its own kind. |
| Parser.ParseFrom | src/commonMain/kotlin/net/blusutils/synthtex/Parser.kt:31-35 | The top-level loop gives at most one node per token, and at least one node when tokens remain. |
| Parser.Parse | src/commonMain/kotlin/net/blusutils/synthtex/Parser.kt:30-35 | A successful parse gives no nodes exactly when there are no tokens, and never more nodes than tokens. |
| ParserProperties.NodeSound | src/commonMain/kotlin/net/blusutils/synthtex/Parser.kt:43-86 | A parsed node is well-shaped, and a node error is genuine; which error, exactly, is stated by `Balance.NodeBalance`. |
| ParserProperties.AttributeSound | src/commonMain/kotlin/net/blusutils/synthtex/Parser.kt:52-57 | A parsed attribute is well-shaped, and an attribute error is genuine; which error, exactly, is stated by `Balance.AttributeBalance`. |
| ParserProperties.ArgumentsSound | src/commonMain/kotlin/net/blusutils/synthtex/Parser.kt:59-64 | Parsed arguments are well-shaped, and an argument error is genuine; which error, exactly, is stated by `Balance.ArgumentsBalance`. |
| ParserProperties.ItemsSound | src/commonMain/kotlin/net/blusutils/synthtex/Parser.kt:103-105 | The item loop yields well-shaped nodes and stops only at the group's own closing token or at the end. The closing-token test at Parser.kt:106 therefore fails only at the end of the tokens. |
| ParserProperties.UntilCloseSound | src/commonMain/kotlin/net/blusutils/synthtex/Parser.kt:94-111 | A parsed group is well-shaped, and a group error is genuine; which error, exactly, is stated by `Balance.UntilCloseBalance`. |
| ParserProperties.FromSound | src/commonMain/kotlin/net/blusutils/synthtex/Parser.kt:31-35 | The top-level nodes are well-shaped, and a top-level error is genuine; which error, exactly, is stated by `Balance.FromBalance`. |
| ParserProperties.ParseSound | src/commonMain/kotlin/net/blusutils/synthtex/Parser.kt:30-35 | Every tree the parser returns is well-shaped: no group at any depth has exactly one child. Every error is either a closing delimiter of the named kind at the named position, or an unterminated group reported at the end. Which error, exactly, is stated by `Balance.ParseBalance`. |
| ParserProperties.NodeKind | src/commonMain/kotlin/net/blusutils/synthtex/Parser.kt:44-78 | A text token becomes a text node with the same content, and a command token a command node with the same name. Only an opening delimiter yields a group. |
| ParserProperties.ArgumentsStop | src/commonMain/kotlin/net/blusutils/synthtex/Parser.kt:59-64 | The argument loop stops only where no `{` follows, and it takes no arguments exactly when no `{` follows at the start. |
| ParserProperties.CommandShape | src/commonMain/kotlin/net/blusutils/synthtex/Parser.kt:49-66 | A command has an attribute exactly when `[` immediately follows its token. It takes every `{...}` that follows, so no `{` comes right after a parsed command. |
| ParserProperties.StrayClose | src/commonMain/kotlin/net/blusutils/synthtex/Parser.kt:79-84 | A closing delimiter where a node should start is an error of its own kind at its own position. |
| ParserProperties.UnterminatedAtEnd | src/commonMain/kotlin/net/blusutils/synthtex/Parser.kt:106-108 | A missing closing delimiter is reported at the end of the tokens. |
| Balance.ScanFrom | src/commonMain/kotlin/net/blusutils/synthtex/Parser.kt:96-108 | The reference scan: a mismatch it reports is a closing token of the reported kind at the reported position, at or after the start. |
| Balance.ParseBalance | src/commonMain/kotlin/net/blusutils/synthtex/Parser.kt:30-111 | The parser succeeds exactly when the scan ends with no group open. It reports an unexpected close of kind `d` at `p` exactly when the scan's first mismatch is `d` at `p`. It reports an unterminated group of kind `d` exactly when the scan ends with `d` innermost. |
| Balance.NodeBalance | src/commonMain/kotlin/net/blusutils/synthtex/Parser.kt:43-86 | Scanning across a parsed node leaves the open groups as they were, and a node error is the one the scan predicts. |
| Balance.AttributeBalance | src/commonMain/kotlin/net/blusutils/synthtex/Parser.kt:52-57 | Scanning across a parsed attribute leaves the open groups as they were, and an attribute error is the one the scan predicts. |
| Balance.ArgumentsBalance | src/commonMain/kotlin/net/blusutils/synthtex/Parser.kt:59-64 | Scanning across parsed arguments leaves the open groups as they were, and an argument error is the one the scan predicts. |
| Balance.ItemsBalance | src/commonMain/kotlin/net/blusutils/synthtex/Parser.kt:103-105 | Scanning across the items of a group leaves that group innermost, and an item error is the one the scan predicts. |
| Balance.UntilCloseBalance | src/commonMain/kotlin/net/blusutils/synthtex/Parser.kt:94-111 | Scanning across a parsed group opens and closes it, and a group error is the one the scan predicts: an unterminated group is left innermost. |
| Balance.FromBalance | src/commonMain/kotlin/net/blusutils/synthtex/Parser.kt:31-35 | A successful top-level parse leaves no group open, and a top-level error is the one the scan predicts. |
| Content.ParseLeaves | src/commonMain/kotlin/net/blusutils/synthtex/Parser.kt:30-111 | The leaves of a successful parse, read left to right, are exactly the text and command tokens of the input in order: the parser drops only delimiters and never loses, reorders or invents content. This also holds for input the printer never produces, such as a bare `{...}` group or a span holding a single group. |
| Content.NodeLeaves | src/commonMain/kotlin/net/blusutils/synthtex/Parser.kt:43-86 | The leaves of a parsed node are the text and command tokens it consumed. For a bare `{...}` or `[...]` this is the content of the group. |
| Content.AttributeLeaves | src/commonMain/kotlin/net/blusutils/synthtex/Parser.kt:52-57 | A parsed attribute's leaves are the text and command tokens of its bracket group; no attribute consumes none. |
| Content.ArgumentsLeaves | src/commonMain/kotlin/net/blusutils/synthtex/Parser.kt:59-64 | The leaves of the parsed arguments are the text and command tokens of their brace groups, in order. |
| Content.ItemsLeaves | src/commonMain/kotlin/net/blusutils/synthtex/Parser.kt:103-105 | The leaves of a group's items are the text and command tokens up to its closing token. |
| Content.UntilCloseLeaves | src/commonMain/kotlin/net/blusutils/synthtex/Parser.kt:94-111 | A parsed group, collapsed or not, keeps exactly the text and command tokens of its span. |
| Content.FromLeaves | src/commonMain/kotlin/net/blusutils/synthtex/Parser.kt:31-35 | The top-level nodes keep exactly the text and command tokens from the start position to the end. |
| Content.CollapseLeaves | src/commonMain/kotlin/net/blusutils/synthtex/Parser.kt:110 | Collapsing a span keeps exactly the span's leaves, whether it keeps a single node or builds a group. |
| Unparser.ParseUnparse | src/commonMain/kotlin/net/blusutils/synthtex/Parser.kt:30-111 | Parsing the printed form of any well-shaped node sequence gives that sequence back. Together with `ParseSound`, the parser's successful results are exactly the well-shaped trees. |
| Unparser.ParseNodeUnparse | src/commonMain/kotlin/net/blusutils/synthtex/Parser.kt:43-86 | A printed node that is not followed by `{` parses back as that node, consuming exactly its tokens. |
| Unparser.ParseBareUnparse | src/commonMain/kotlin/net/blusutils/synthtex/Parser.kt:49-78 | `[ \cmd ]` parses as the bare command: the one-node bracket span collapses to it. |
| Unparser.ParseCommandUnparse | src/commonMain/kotlin/net/blusutils/synthtex/Parser.kt:49-66 | A printed command with an attribute or arguments parses back with the same attribute and arguments. |
| Unparser.ParseGroupUnparse | src/commonMain/kotlin/net/blusutils/synthtex/Parser.kt:72-78 | A printed group parses back as the same group. |
| Unparser.ParseSpanUnparse | src/commonMain/kotlin/net/blusutils/synthtex/Parser.kt:94-111 | A printed span followed by its closing token parses back to the node, through the collapsing rule. |
| Unparser.ParseItemsUnparse | src/commonMain/kotlin/net/blusutils/synthtex/Parser.kt:103-105 | Printed nodes followed by a closing token parse back as those nodes, in order, and the loop stops at the closing token. |
| Unparser.ParseItemsConsUnparse | src/commonMain/kotlin/net/blusutils/synthtex/Parser.kt:103-105 | One step of the item loop over printed nodes recovers the first node and then the rest. |
| Unparser.ItemsCons | src/commonMain/kotlin/net/blusutils/synthtex/Parser.kt:103-105 | One step of the item loop, with the node list as a whole: the first node, then the rest, give the whole list. |
| Unparser.ParseAttributeUnparse | src/commonMain/kotlin/net/blusutils/synthtex/Parser.kt:52-57 | A printed attribute parses back as the same attribute, and no attribute is found where no `[` stands. |
| Unparser.ParseArgumentsUnparse | src/commonMain/kotlin/net/blusutils/synthtex/Parser.kt:59-64 | Printed arguments not followed by another `{` parse back as the same arguments, in order. |
| Unparser.ParseArgumentsConsUnparse | src/commonMain/kotlin/net/blusutils/synthtex/Parser.kt:59-64 | One step of the argument loop over printed arguments recovers the first argument and then the rest. |
| Unparser.ArgumentsCons | src/commonMain/kotlin/net/blusutils/synthtex/Parser.kt:59-64 | One step of the argument loop, with the argument list as a whole: the first argument, then the rest, give the whole list. |
| Unparser.ParseFromUnparse | src/commonMain/kotlin/net/blusutils/synthtex/Parser.kt:31-35 | Printed top-level nodes that run to the end of the tokens parse back as those nodes. |
| Examples.LexPlainText | src/commonTest/kotlin/LexerTests.kt:14-19 | `Hello world` is one text token. |
| Examples.LexSimpleCommand | src/commonTest/kotlin/LexerTests.kt:22-27 | `\bold` is one command token. |
| Examples.LexEscapedBackslash | src/commonTest/kotlin/LexerTests.kt:30-35 | `\\` is the text token `\`. |
| Examples.LexTextCommentText | src/commonTest/kotlin/LexerTests.kt:38-44 | Text, a comment and a next line give two text tokens; the second starts with the newline. |
| Examples.LexEscapeSplitsText | src/commonMain/kotlin/net/blusutils/synthtex/Lexer.kt:33 | ` \\ ` gives three text tokens, not the single token the class comment shows. |
| Examples.ParseEmptyInput | src/commonTest/kotlin/ParserTests.kt:120-125 | The empty string gives no nodes. |
| Examples.ParseBareCommand | src/commonTest/kotlin/ParserTests.kt:144-154 | `\linebreak` is one command named `linebreak`, with no attribute and no arguments. |
| Examples.ParseUnclosedCommand | src/commonTest/kotlin/ParserTests.kt:156-161 | `\textbf{unclosed` is an unterminated brace group, reported at the end of its three tokens. |
| Examples.UnclosedCommandLex | src/commonMain/kotlin/net/blusutils/synthtex/Lexer.kt:66-127 | A command, `{` and plain text lex into exactly those three tokens. |
| Examples.ParseUnclosedAttribute | src/commonTest/kotlin/ParserTests.kt:163-168 | In `\begin[unclosed{document}`, the `}` closes the brace group and cannot close the bracket, so the bracket group is unterminated. |
| Examples.UnclosedAttributeLex | src/commonMain/kotlin/net/blusutils/synthtex/Lexer.kt:66-127 | A command, `[`, text, `{`, text and `}` lex into exactly those six tokens. |
| Examples.UnclosedAttributeTokens | src/commonMain/kotlin/net/blusutils/synthtex/Parser.kt:94-111 | The scan of those six tokens leaves the bracket open, so the parser reports it unterminated at the end. |
| Examples.ParseCommandWithAttribute | src/commonTest/kotlin/ParserTests.kt:106-118 | `\begin[center]{document}` is one command with the text attribute `center` and one text argument; both one-node spans collapse. |
| Examples.AttributeCommandLex | src/commonMain/kotlin/net/blusutils/synthtex/Lexer.kt:66-127 | A command with a text attribute and one text argument lexes into its seven tokens. |
| Examples.ParseSingleGroup | src/commonMain/kotlin/net/blusutils/synthtex/Parser.kt:94-111 | `{single}` lexes and parses to the bare text node `single`, not a group around it. |
| Examples.SingleGroupLex | src/commonMain/kotlin/net/blusutils/synthtex/Lexer.kt:66-127 | Plain text between braces lexes into `{`, one text token and `}`. |
| Examples.SingleGroupTokens | src/commonMain/kotlin/net/blusutils/synthtex/Parser.kt:67-71 | A bare brace group around one text token is that text node. |
| Examples.ParseEmptyGroup | src/commonMain/kotlin/net/blusutils/synthtex/Parser.kt:110 | An empty brace span is an empty group, not a missing node. |
| Examples.ParseStrayClose | src/commonMain/kotlin/net/blusutils/synthtex/Parser.kt:79-81 | A stray `}` after text is an unexpected-close error at its position. |

## Left out

- PrintAST.kt, the debugging printer, is not part of this model. `Unparser` is a separate printer, written only to state the parser's round trip.
- Kotlin's `Char.isLetter()` is a Unicode table and is not modelled. It is the parameter `isLetter`, and the lemmas name the characters it must reject.
- UTF-16: Kotlin strings are sequences of UTF-16 code units and the lexer tests one code unit at a time; Dafny's `char` is a whole Unicode scalar value. So a letter test that matches Kotlin must be false for every character above U+FFFF: Kotlin sees its two surrogate halves, which are not letters, and a command name ends there. Input holding a lone surrogate cannot be written as a Dafny string at all.
- Exceptions: the two Kotlin exception classes and their messages are not modelled. Both become a returned `ParseError`:
  - `RuntimeException` for an unexpected close is `UnexpectedClose`;
  - `IllegalStateException` for an unterminated group is `Unterminated`.

  The delimiter kind and the token position in the message are kept.
- The JVM stack limit on deeply nested input is not modelled; the recursion is unbounded here.
- The mutable cursor of `Parser` is not modelled as state. Each function takes the position and returns the new one, which is the same computation.
- Parser.Parse: the Kotlin parser's cursor `pos` is a field (Parser.kt:20). A second `parse()` on the same object returns an empty list, and a call after an exception resumes where the failed call stopped. The model has no such object, and `Parse` always starts at position 0.
- Lexer.Tokenize: the Kotlin lexer's cursor is a field, so a second call on the same `Lexer` object returns no tokens. The model has no such object, and `Tokenize` always starts at position 0.
- LexerProperties.LexRender: stated only for input without `%`, because a comment is deleted and cannot be recovered.
- LexerProperties.LexCanonical: stated only for input without `%`, for the same reason. Deleting a comment can leave two text runs side by side, e.g. `a%x` followed by a newline.
- LexerProperties.LexDelimiters: stated only for input without `%`, because delimiters inside a comment are dropped with it.
- Parser.ParseNode: the ensures state only the position bounds. What the node is, is stated separately. `ParserProperties.NodeKind` and `CommandShape` give its kind and shape, `NodeSound` says it is well-shaped, and `Content.NodeLeaves` says which text and command tokens it holds, for every input. The `Unparser` round trip gives the exact tree, but only for printed token sequences, and the printer never starts a node with `{`.
- ParserProperties.ParseSound: for an unterminated group, `ErrorSound` fixes only the position (the end of the tokens). Which delimiter kind is reported, and that a group of that kind is really open, is stated by `Balance.ParseBalance`.
- ParserProperties.NodeSound: the same gap in `ErrorSound`; the reported kind is stated by `Balance.NodeBalance`.
- ParserProperties.AttributeSound: the same gap in `ErrorSound`; the reported kind is stated by `Balance.AttributeBalance`.
- ParserProperties.ArgumentsSound: the same gap in `ErrorSound`; the reported kind is stated by `Balance.ArgumentsBalance`.
- ParserProperties.UntilCloseSound: the same gap in `ErrorSound`; the reported kind is stated by `Balance.UntilCloseBalance`.
- ParserProperties.FromSound: the same gap in `ErrorSound`; the reported kind is stated by `Balance.FromBalance`.
- Parser.ParseUntilClose: the ensures state the position bounds and the closing token. Collapsing is stated by `Nodes.Collapse`, the error position by `ParserProperties.UnterminatedAtEnd`, and which error by `Balance.ParseBalance`.
- The lexer unit tests for brackets, braces, the long structure and mixed content are not restated as examples. `LexerProperties.LexDelimiters`, `LexPlainThen` and `RenderLex` cover them in general.
