/**
 * Tokens of the TeX-like markup, and their concrete spelling.
 *
 * `Spell` gives the characters a token stands for in the input: a text token
 * writes each backslash doubled, a command is a backslash followed by its
 * name, and each delimiter is its own character. `Render` spells a whole
 * token sequence; it is the inverse the lexer is proved against.
 */
module Tokens {

  datatype Token =
    | Text(value: string)
    | Command(name: string)
    | OpenBrace
    | CloseBrace
    | OpenBracket
    | CloseBracket

  /** The characters that end a plain-text run: `\ { } [ ] %`. */
  predicate IsSpecial(c: char) {
    c == '\\' || c == '{' || c == '}' || c == '[' || c == ']' || c == '%'
  }

  /** A string with none of the special characters. */
  predicate IsPlain(v: string) {
    forall i :: 0 <= i < |v| ==> !IsSpecial(v[i])
  }

  /** A string made only of letters (possibly empty). */
  predicate AllLetters(n: string, isLetter: char -> bool) {
    forall i :: 0 <= i < |n| ==> isLetter(n[i])
  }

  /** A string without the `%` comment character. */
  predicate NoPercent(s: string) {
    forall i :: 0 <= i < |s| ==> s[i] != '%'
  }

  /** `v` with every backslash written twice. */
  function Escape(v: string): (e: string)
    ensures |e| >= |v|
    ensures |v| > 0 ==> |e| > 0 && e[0] == v[0]
  {
    if |v| == 0 then ""
    else (if v[0] == '\\' then "\\\\" else [v[0]]) + Escape(v[1..])
  }

  /** The input characters a token stands for. */
  function Spell(t: Token): string {
    match t
    case Text(v) => Escape(v)
    case Command(n) => "\\" + n
    case OpenBrace => "{"
    case CloseBrace => "}"
    case OpenBracket => "["
    case CloseBracket => "]"
  }

  /** The concatenated spelling of a token sequence. */
  function Render(ts: seq<Token>): string {
    if |ts| == 0 then "" else Spell(ts[0]) + Render(ts[1..])
  }

  /**
   * The token shapes the lexer can emit: a text token is either the single
   * escaped backslash or a non-empty plain run, and a command name consists
   * of letters.
   */
  predicate WellFormed(t: Token, isLetter: char -> bool) {
    match t
    case Text(v) => v == "\\" || (|v| > 0 && IsPlain(v))
    case Command(n) => AllLetters(n, isLetter)
    case _ => true
  }

  /**
   * What may follow `a` directly in a lexer result for `%`-free input: a
   * plain text run is never followed by another plain run (runs are
   * maximal), and a command name is never followed by a letter (names are
   * maximal) nor, when the name is empty, by a backslash (that would have
   * been an escaped backslash).
   */
  predicate Adjacent(a: Token, b: Token, isLetter: char -> bool) {
    match a
    case Text(v) => v != "\\" ==> !(b.Text? && b.value != "\\")
    case Command(n) =>
      var s := Spell(b);
      |s| > 0 && !isLetter(s[0]) && (n == "" ==> s[0] != '\\')
    case _ => true
  }

  /** A token sequence that `Lex` produces from some `%`-free input. */
  predicate Canonical(ts: seq<Token>, isLetter: char -> bool) {
    && (forall i :: 0 <= i < |ts| ==> WellFormed(ts[i], isLetter))
    && (forall i :: 0 <= i < |ts| - 1 ==> Adjacent(ts[i], ts[i + 1], isLetter))
  }

  /** Escaping leaves a string without backslashes unchanged. */
  lemma {:induction false} EscapePlain(v: string)
    requires IsPlain(v)
    ensures Escape(v) == v
    decreases |v|
  {
    if |v| > 0 {
      assert IsPlain(v[1..]) by {
        forall i | 0 <= i < |v[1..]| ensures !IsSpecial(v[1..][i]) {
          assert v[1..][i] == v[i + 1];
        }
      }
      EscapePlain(v[1..]);
      assert v == [v[0]] + v[1..];
    }
  }

  /** Every well-formed token is spelled by at least one character. */
  lemma SpellNonEmpty(t: Token, isLetter: char -> bool)
    requires WellFormed(t, isLetter)
    ensures |Spell(t)| > 0
  {
  }

  /** The first character of a rendering is the first character of its first token. */
  lemma RenderHead(ts: seq<Token>)
    requires |ts| > 0 && |Spell(ts[0])| > 0
    ensures |Render(ts)| > 0 && Render(ts)[0] == Spell(ts[0])[0]
  {
  }

  /** A spelling that begins with a special character: what may follow a plain run. */
  lemma SpellHeadSpecial(b: Token, isLetter: char -> bool)
    requires WellFormed(b, isLetter) && !(b.Text? && b.value != "\\")
    ensures |Spell(b)| > 0 && IsSpecial(Spell(b)[0])
  {
  }

  /** Prepending a well-formed token that fits before the head keeps a sequence canonical. */
  lemma CanonicalCons(t: Token, ts: seq<Token>, isLetter: char -> bool)
    requires WellFormed(t, isLetter) && Canonical(ts, isLetter)
    requires |ts| > 0 ==> Adjacent(t, ts[0], isLetter)
    ensures Canonical([t] + ts, isLetter)
  {
    var us := [t] + ts;
    forall i | 0 <= i < |us| - 1
      ensures Adjacent(us[i], us[i + 1], isLetter)
    {
      if i > 0 {
        assert us[i] == ts[i - 1] && us[i + 1] == ts[i];
      }
    }
    forall i | 0 <= i < |us|
      ensures WellFormed(us[i], isLetter)
    {
      if i > 0 {
        assert us[i] == ts[i - 1];
      }
    }
  }

  /** The tail of a canonical sequence is canonical. */
  lemma CanonicalTail(ts: seq<Token>, isLetter: char -> bool)
    requires |ts| > 0 && Canonical(ts, isLetter)
    ensures Canonical(ts[1..], isLetter)
  {
    var us := ts[1..];
    forall i | 0 <= i < |us| - 1
      ensures Adjacent(us[i], us[i + 1], isLetter)
    {
      assert us[i] == ts[i + 1] && us[i + 1] == ts[i + 2];
    }
  }
}
