/**
 * The lexer: one forward scan of a character string into a flat token
 * sequence (Lexer.kt, `tokenize`).
 *
 * At each position the first matching rule applies:
 *   1. `\\` (two backslashes) gives `Text("\")`;
 *   2. a single `\` gives `Command(name)` for the maximal run of letters after it;
 *   3. each of `{ } [ ]` gives its delimiter token;
 *   4. `%` skips up to, not including, the next newline and gives nothing;
 *   5. anything else gives `Text` for the maximal run of non-special characters.
 * The lexer never fails. Kotlin's `Char.isLetter` is the parameter `isLetter`.
 */
module Lexer {
  import opened Tokens

  /** Length of the maximal prefix of `s` made of letters. */
  function LetterRun(s: string, isLetter: char -> bool): (n: nat)
    ensures n <= |s|
    ensures forall i :: 0 <= i < n ==> isLetter(s[i])
    ensures n == |s| || !isLetter(s[n])
    decreases |s|
  {
    if |s| == 0 || !isLetter(s[0]) then 0 else 1 + LetterRun(s[1..], isLetter)
  }

  /** Length of the maximal prefix of `s` without special characters. */
  function PlainRun(s: string): (n: nat)
    ensures n <= |s|
    ensures forall i :: 0 <= i < n ==> !IsSpecial(s[i])
    ensures n == |s| || IsSpecial(s[n])
    decreases |s|
  {
    if |s| == 0 || IsSpecial(s[0]) then 0 else 1 + PlainRun(s[1..])
  }

  /** Length of the prefix of `s` before the first newline (all of `s` if none). */
  function LineRun(s: string): (n: nat)
    ensures n <= |s|
    ensures forall i :: 0 <= i < n ==> s[i] != '\n'
    ensures n == |s| || s[n] == '\n'
    decreases |s|
  {
    if |s| == 0 || s[0] == '\n' then 0 else 1 + LineRun(s[1..])
  }

  /** The maximal letter prefix is the only prefix of letters followed by a non-letter or the end. */
  lemma LetterRunUnique(s: string, k: nat, isLetter: char -> bool)
    requires k <= |s|
    requires forall i :: 0 <= i < k ==> isLetter(s[i])
    requires k == |s| || !isLetter(s[k])
    ensures LetterRun(s, isLetter) == k
  {
  }

  /** Likewise for the maximal prefix without special characters. */
  lemma PlainRunUnique(s: string, k: nat)
    requires k <= |s|
    requires forall i :: 0 <= i < k ==> !IsSpecial(s[i])
    requires k == |s| || IsSpecial(s[k])
    ensures PlainRun(s) == k
  {
  }

  /** Likewise for the prefix before the first newline. */
  lemma LineRunUnique(s: string, k: nat)
    requires k <= |s|
    requires forall i :: 0 <= i < k ==> s[i] != '\n'
    requires k == |s| || s[k] == '\n'
    ensures LineRun(s) == k
  {
  }

  /** The tokens of `s`; the functional definition of the scan. */
  function Lex(s: string, isLetter: char -> bool): (ts: seq<Token>)
    ensures forall i :: 0 <= i < |ts| ==> WellFormed(ts[i], isLetter)
    ensures |ts| <= |s|
    decreases |s|
  {
    if |s| == 0 then []
    else if s[0] == '\\' then
      if |s| > 1 && s[1] == '\\' then
        [Text("\\")] + Lex(s[2..], isLetter)
      else
        var n := LetterRun(s[1..], isLetter);
        [Command(s[1..n + 1])] + Lex(s[n + 1..], isLetter)
    else if s[0] == '{' then [OpenBrace] + Lex(s[1..], isLetter)
    else if s[0] == '}' then [CloseBrace] + Lex(s[1..], isLetter)
    else if s[0] == '[' then [OpenBracket] + Lex(s[1..], isLetter)
    else if s[0] == ']' then [CloseBracket] + Lex(s[1..], isLetter)
    else if s[0] == '%' then
      Lex(s[1 + LineRun(s[1..])..], isLetter)
    else
      var n := PlainRun(s);
      [Text(s[..n])] + Lex(s[n..], isLetter)
  }

  /** Position of the first non-letter at or after `start` (or the end of `input`). */
  method ScanLetters(input: string, start: nat, isLetter: char -> bool) returns (end: nat)
    requires start <= |input|
    ensures start <= end <= |input|
    ensures forall i :: start <= i < end ==> isLetter(input[i])
    ensures end == |input| || !isLetter(input[end])
  {
    end := start;
    while end < |input| && isLetter(input[end])
      invariant start <= end <= |input|
      invariant forall i :: start <= i < end ==> isLetter(input[i])
      decreases |input| - end
    {
      end := end + 1;
    }
  }

  /** Position of the first special character at or after `start` (or the end of `input`). */
  method ScanPlain(input: string, start: nat) returns (end: nat)
    requires start <= |input|
    ensures start <= end <= |input|
    ensures forall i :: start <= i < end ==> !IsSpecial(input[i])
    ensures end == |input| || IsSpecial(input[end])
  {
    end := start;
    while end < |input| && !IsSpecial(input[end])
      invariant start <= end <= |input|
      invariant forall i :: start <= i < end ==> !IsSpecial(input[i])
      decreases |input| - end
    {
      end := end + 1;
    }
  }

  /** Position of the first newline at or after `start` (or the end of `input`). */
  method ScanLine(input: string, start: nat) returns (end: nat)
    requires start <= |input|
    ensures start <= end <= |input|
    ensures forall i :: start <= i < end ==> input[i] != '\n'
    ensures end == |input| || input[end] == '\n'
  {
    end := start;
    while end < |input| && input[end] != '\n'
      invariant start <= end <= |input|
      invariant forall i :: start <= i < end ==> input[i] != '\n'
      decreases |input| - end
    {
      end := end + 1;
    }
  }

  /** One step of `Lex` on a lone backslash whose name is `name`, followed by `t`. */
  lemma LexCommandHead(s: string, name: string, t: string, isLetter: char -> bool)
    requires |s| > 0 && s[0] == '\\' && !(|s| > 1 && s[1] == '\\')
    requires name == s[1..LetterRun(s[1..], isLetter) + 1]
    requires t == s[LetterRun(s[1..], isLetter) + 1..]
    ensures Lex(s, isLetter) == [Command(name)] + Lex(t, isLetter)
  {
  }

  /** One step of `Lex` on a `%` whose comment is followed by `t`. */
  lemma LexCommentHead(s: string, t: string, isLetter: char -> bool)
    requires |s| > 0 && s[0] == '%'
    requires t == s[1 + LineRun(s[1..])..]
    ensures Lex(s, isLetter) == Lex(t, isLetter)
  {
  }

  /** One step of `Lex` on an ordinary character: the run `v`, followed by `t`. */
  lemma LexPlainHead(s: string, v: string, t: string, isLetter: char -> bool)
    requires |s| > 0 && !IsSpecial(s[0])
    requires v == s[..PlainRun(s)] && t == s[PlainRun(s)..]
    ensures Lex(s, isLetter) == [Text(v)] + Lex(t, isLetter)
  {
  }

  /** The scan from `pos` on a lone backslash and the letters up to `end`. */
  lemma LexCommandAt(s: string, pos: nat, end: nat, isLetter: char -> bool)
    requires pos < |s| && s[pos] == '\\' && !(pos + 1 < |s| && s[pos + 1] == '\\')
    requires pos + 1 <= end <= |s|
    requires forall i :: pos + 1 <= i < end ==> isLetter(s[i])
    requires end == |s| || !isLetter(s[end])
    ensures Lex(s[pos..], isLetter) == [Command(s[pos + 1..end])] + Lex(s[end..], isLetter)
  {
    var rest, k := s[pos..], end - pos - 1;
    assert && rest[0] == '\\' && !(|rest| > 1 && rest[1] == '\\')
           && LetterRun(rest[1..], isLetter) == k
           && rest[1..k + 1] == s[pos + 1..end] && rest[k + 1..] == s[end..] by {
      assert rest[1..] == s[pos + 1..];
      LetterRunUnique(s[pos + 1..], k, isLetter);
    }
    LexCommandHead(rest, s[pos + 1..end], s[end..], isLetter);
  }

  /** The scan from `pos` on a `%` whose comment ends at `end`. */
  lemma LexCommentAt(s: string, pos: nat, end: nat, isLetter: char -> bool)
    requires pos < |s| && s[pos] == '%'
    requires pos + 1 <= end <= |s|
    requires forall i :: pos + 1 <= i < end ==> s[i] != '\n'
    requires end == |s| || s[end] == '\n'
    ensures Lex(s[pos..], isLetter) == Lex(s[end..], isLetter)
  {
    var rest, k := s[pos..], end - pos - 1;
    assert rest[0] == '%' && LineRun(rest[1..]) == k && rest[1 + k..] == s[end..] by {
      assert rest[1..] == s[pos + 1..];
      LineRunUnique(s[pos + 1..], k);
    }
    LexCommentHead(rest, s[end..], isLetter);
  }

  /** The scan from `pos` on an ordinary character whose run ends at `end`. */
  lemma LexPlainAt(s: string, pos: nat, end: nat, isLetter: char -> bool)
    requires pos < end <= |s|
    requires forall i :: pos <= i < end ==> !IsSpecial(s[i])
    requires end == |s| || IsSpecial(s[end])
    ensures Lex(s[pos..], isLetter) == [Text(s[pos..end])] + Lex(s[end..], isLetter)
  {
    var rest, k := s[pos..], end - pos;
    assert !IsSpecial(rest[0]) && PlainRun(rest) == k && rest[..k] == s[pos..end] && rest[k..] == s[end..] by {
      assert rest[0] == s[pos];
      PlainRunUnique(rest, k);
    }
    LexPlainHead(rest, s[pos..end], s[end..], isLetter);
  }

  /** The scan from `pos` on two backslashes. */
  lemma LexEscapeAt(s: string, pos: nat, isLetter: char -> bool)
    requires pos + 1 < |s| && s[pos] == '\\' && s[pos + 1] == '\\'
    ensures Lex(s[pos..], isLetter) == [Text("\\")] + Lex(s[pos + 2..], isLetter)
  {
    assert s[pos..][2..] == s[pos + 2..];
  }

  /** The token a delimiter character stands for. */
  function DelimiterToken(c: char): (t: Token)
    requires c == '{' || c == '}' || c == '[' || c == ']'
    ensures Spell(t) == [c]
  {
    if c == '{' then OpenBrace else if c == '}' then CloseBrace
    else if c == '[' then OpenBracket else CloseBracket
  }

  /** The scan from `pos` on a delimiter character. */
  lemma LexDelimiterAt(s: string, pos: nat, isLetter: char -> bool)
    requires pos < |s| && (s[pos] == '{' || s[pos] == '}' || s[pos] == '[' || s[pos] == ']')
    ensures Lex(s[pos..], isLetter) == [DelimiterToken(s[pos])] + Lex(s[pos + 1..], isLetter)
  {
    assert s[pos..][1..] == s[pos + 1..];
  }

  lemma AppendAssoc<T>(a: seq<T>, b: seq<T>, c: seq<T>)
    ensures (a + b) + c == a + (b + c)
  {
  }

  /** The lexer as written in Kotlin: a cursor loop over the input. */
  method Tokenize(input: string, isLetter: char -> bool) returns (tokens: seq<Token>)
    ensures tokens == Lex(input, isLetter)
  {
    tokens := [];
    var pos: nat := 0;
    assert input[pos..] == input;
    while pos < |input|
      invariant pos <= |input|
      invariant tokens + Lex(input[pos..], isLetter) == Lex(input, isLetter)
      decreases |input| - pos
    {
      var c := input[pos];
      var emitted: seq<Token>;
      var next: nat;
      if c == '\\' {
        if pos + 1 < |input| && input[pos + 1] == '\\' {
          LexEscapeAt(input, pos, isLetter);
          emitted, next := [Text("\\")], pos + 2;
        } else {
          next := ScanLetters(input, pos + 1, isLetter);
          LexCommandAt(input, pos, next, isLetter);
          emitted := [Command(input[pos + 1..next])];
        }
      } else if c == '{' || c == '}' || c == '[' || c == ']' {
        LexDelimiterAt(input, pos, isLetter);
        emitted, next := [DelimiterToken(c)], pos + 1;
      } else if c == '%' {
        next := ScanLine(input, pos + 1);
        LexCommentAt(input, pos, next, isLetter);
        emitted := [];
      } else {
        next := ScanPlain(input, pos);
        LexPlainAt(input, pos, next, isLetter);
        emitted := [Text(input[pos..next])];
      }
      assert Lex(input[pos..], isLetter) == emitted + Lex(input[next..], isLetter);
      AppendAssoc(tokens, emitted, Lex(input[next..], isLetter));
      tokens := tokens + emitted;
      pos := next;
    }
  }
}
