/**
 * Properties of the lexer.
 *
 * The central pair: on `%`-free input, spelling the tokens back reproduces
 * the input (`LexRender`), the tokens are canonical (`LexCanonical`), and
 * lexing the spelling of any canonical token sequence gives that sequence
 * back (`RenderLex`). So `Lex` and `Render` are mutually inverse between
 * `%`-free strings and canonical token sequences.
 */
module LexerProperties {
  import opened Tokens
  import opened Lexer

  /** A string without newlines (the body of a comment). */
  predicate NoNewline(c: string) {
    forall i :: 0 <= i < |c| ==> c[i] != '\n'
  }

  lemma NoPercentSuffix(s: string, k: nat)
    requires NoPercent(s) && k <= |s|
    ensures NoPercent(s[k..])
  {
    forall i | 0 <= i < |s[k..]| ensures s[k..][i] != '%' {
      assert s[k..][i] == s[k + i];
    }
  }

  lemma RenderCons(t: Token, ts: seq<Token>)
    ensures Render([t] + ts) == Spell(t) + Render(ts)
  {
    assert ([t] + ts)[0] == t;
    assert ([t] + ts)[1..] == ts;
  }

  /**
   * The first step of the scan of a non-empty input that does not start a
   * comment: one token `t`, spelled by the first `k` characters, and what
   * the scan knows about the character that ends it.
   */
  lemma FirstToken(s: string, isLetter: char -> bool) returns (t: Token, k: nat)
    requires |s| > 0 && s[0] != '%'
    ensures 0 < k <= |s|
    ensures Lex(s, isLetter) == [t] + Lex(s[k..], isLetter)
    ensures Spell(t) == s[..k]
    ensures t.Command? ==> k == |s| || !isLetter(s[k])
    ensures t.Command? && t.name == "" ==> k == 1 && (|s| > 1 ==> s[1] != '\\')
    ensures t.Text? && t.value != "\\" ==> k == |s| || IsSpecial(s[k])
  {
    assert s[0..] == s;
    if s[0] == '\\' {
      if |s| > 1 && s[1] == '\\' {
        LexEscapeAt(s, 0, isLetter);
        t, k := Text("\\"), 2;
        assert Escape("\\") == "\\\\" + Escape("");
      } else {
        k := LetterRun(s[1..], isLetter) + 1;
        LexCommandAt(s, 0, k, isLetter);
        t := Command(s[1..k]);
        assert s[..k] == "\\" + s[1..k];
      }
    } else if s[0] == '{' || s[0] == '}' || s[0] == '[' || s[0] == ']' {
      LexDelimiterAt(s, 0, isLetter);
      t, k := DelimiterToken(s[0]), 1;
    } else {
      k := PlainRun(s);
      LexPlainAt(s, 0, k, isLetter);
      t := Text(s[..k]);
      EscapePlain(s[..k]);
    }
  }

  /** Spelling the tokens of a `%`-free input gives the input back. */
  lemma {:induction false} LexRender(s: string, isLetter: char -> bool)
    requires NoPercent(s)
    ensures Render(Lex(s, isLetter)) == s
    decreases |s|
  {
    if |s| > 0 {
      var t, k := FirstToken(s, isLetter);
      NoPercentSuffix(s, k);
      LexRender(s[k..], isLetter);
      RenderCons(t, Lex(s[k..], isLetter));
      assert s == s[..k] + s[k..];
    }
  }

  /** The tokens of a `%`-free input are canonical: well-formed, maximal runs. */
  lemma {:induction false} LexCanonical(s: string, isLetter: char -> bool)
    requires NoPercent(s)
    ensures Canonical(Lex(s, isLetter), isLetter)
    decreases |s|
  {
    if |s| > 0 {
      var t, k := FirstToken(s, isLetter);
      var rest := Lex(s[k..], isLetter);
      NoPercentSuffix(s, k);
      LexCanonical(s[k..], isLetter);
      assert WellFormed(t, isLetter) by {
        assert Lex(s, isLetter)[0] == t;
      }
      if |rest| > 0 {
        var b := rest[0];
        SpellNonEmpty(b, isLetter);
        LexRender(s[k..], isLetter);
        RenderHead(rest);
        assert k < |s| && Spell(b)[0] == s[k];
      }
      CanonicalCons(t, rest, isLetter);
    }
  }

  /**
   * What the lexer needs to see after the spelling of `t` to stop exactly
   * there: a special character after a plain run, and a non-letter (and, for
   * an empty name, not a backslash) after a command.
   */
  predicate StopsAfter(t: Token, r: string, isLetter: char -> bool) {
    match t
    case Text(v) => v != "\\" ==> |r| == 0 || IsSpecial(r[0])
    case Command(n) => |r| == 0 || (!isLetter(r[0]) && (n == "" ==> r[0] != '\\'))
    case _ => true
  }

  /** The escaped backslash, spelled and followed by anything, lexes back to itself. */
  lemma LexSpellEscape(r: string, isLetter: char -> bool)
    ensures Lex(Spell(Text("\\")) + r, isLetter) == [Text("\\")] + Lex(r, isLetter)
  {
    var s := Spell(Text("\\")) + r;
    assert s[0..] == s && s[2..] == r by {
      assert Escape("\\") == "\\\\" + Escape("");
    }
    LexEscapeAt(s, 0, isLetter);
  }

  /** A plain run, followed by a special character or nothing, lexes back to itself. */
  lemma LexSpellPlain(v: string, r: string, isLetter: char -> bool)
    requires |v| > 0 && IsPlain(v)
    requires |r| == 0 || IsSpecial(r[0])
    ensures Lex(Spell(Text(v)) + r, isLetter) == [Text(v)] + Lex(r, isLetter)
  {
    var s := Spell(Text(v)) + r;
    assert s[0..] == s && s[..|v|] == v && s[|v|..] == r by {
      EscapePlain(v);
    }
    LexPlainAt(s, 0, |v|, isLetter);
  }

  /** A command, followed by a non-letter (not a backslash when the name is empty), lexes back to itself. */
  lemma LexSpellCommand(n: string, r: string, isLetter: char -> bool)
    requires AllLetters(n, isLetter) && !isLetter('\\')
    requires |r| == 0 || (!isLetter(r[0]) && (n == "" ==> r[0] != '\\'))
    ensures Lex(Spell(Command(n)) + r, isLetter) == [Command(n)] + Lex(r, isLetter)
  {
    var s := Spell(Command(n)) + r;
    assert s[0..] == s && s[1..1 + |n|] == n && s[1 + |n|..] == r;
    LexCommandAt(s, 0, 1 + |n|, isLetter);
  }

  /** A delimiter token, followed by anything, lexes back to itself. */
  lemma LexSpellDelimiter(t: Token, r: string, isLetter: char -> bool)
    requires t == OpenBrace || t == CloseBrace || t == OpenBracket || t == CloseBracket
    ensures Lex(Spell(t) + r, isLetter) == [t] + Lex(r, isLetter)
  {
    var s := Spell(t) + r;
    assert s[0..] == s && s[1..] == r;
    LexDelimiterAt(s, 0, isLetter);
  }

  /** One well-formed token, spelled and followed by a fitting rest, lexes back to itself. */
  lemma LexSpellThen(t: Token, r: string, isLetter: char -> bool)
    requires WellFormed(t, isLetter) && !isLetter('\\')
    requires StopsAfter(t, r, isLetter)
    ensures Lex(Spell(t) + r, isLetter) == [t] + Lex(r, isLetter)
  {
    match t
    case Text(v) =>
      if v == "\\" {
        LexSpellEscape(r, isLetter);
      } else {
        LexSpellPlain(v, r, isLetter);
      }
    case Command(n) =>
      LexSpellCommand(n, r, isLetter);
    case _ =>
      LexSpellDelimiter(t, r, isLetter);
  }

  /** Lexing the spelling of a canonical token sequence gives the sequence back. */
  lemma {:induction false} RenderLex(ts: seq<Token>, isLetter: char -> bool)
    requires Canonical(ts, isLetter)
    requires !isLetter('\\')
    ensures Lex(Render(ts), isLetter) == ts
    decreases |ts|
  {
    if |ts| > 0 {
      var t := ts[0];
      var r := Render(ts[1..]);
      CanonicalTail(ts, isLetter);
      RenderLex(ts[1..], isLetter);
      // When more tokens follow, `r` starts with the first character of the next spelling.
      if |ts| > 1 {
        SpellNonEmpty(ts[1], isLetter);
        RenderHead(ts[1..]);
        assert Adjacent(t, ts[1], isLetter);
        if t.Text? && t.value != "\\" {
          SpellHeadSpecial(ts[1], isLetter);
        }
      }
      assert StopsAfter(t, r, isLetter);
      LexSpellThen(t, r, isLetter);
      assert ts == [t] + ts[1..];
    }
  }

  /** The empty input has no tokens. */
  lemma LexEmpty(isLetter: char -> bool)
    ensures Lex("", isLetter) == []
  {
  }

  /** A non-empty input without special characters is one text token. */
  lemma LexPlainInput(p: string, isLetter: char -> bool)
    requires |p| > 0 && IsPlain(p)
    ensures Lex(p, isLetter) == [Text(p)]
  {
    assert p[0..] == p && p[0..|p|] == p;
    LexPlainAt(p, 0, |p|, isLetter);
  }

  /** A plain run is cut by the special character that follows it. */
  lemma LexPlainThen(p: string, b: string, isLetter: char -> bool)
    requires |p| > 0 && IsPlain(p)
    requires |b| == 0 || IsSpecial(b[0])
    ensures Lex(p + b, isLetter) == [Text(p)] + Lex(b, isLetter)
  {
    var s := p + b;
    assert s[0..] == s && s[0..|p|] == p && s[|p|..] == b;
    LexPlainAt(s, 0, |p|, isLetter);
  }

  /**
   * A `%` comment gives no token and stops before the newline, which then
   * begins the next text run.
   */
  lemma LexComment(c: string, r: string, isLetter: char -> bool)
    requires NoNewline(c)
    requires |r| == 0 || r[0] == '\n'
    ensures Lex("%" + c + r, isLetter) == Lex(r, isLetter)
    ensures |r| > 0 ==> |Lex(r, isLetter)| > 0 && Lex(r, isLetter)[0].Text?
                        && Lex(r, isLetter)[0].value[0] == '\n'
  {
    var s := "%" + c + r;
    assert s[0..] == s && s[1 + |c|..] == r;
    LexCommentAt(s, 0, 1 + |c|, isLetter);
    if |r| > 0 {
      var t, k := FirstToken(r, isLetter);
      assert Lex(r, isLetter)[0] == t;
    }
  }

  /** Two backslashes are an escaped backslash even when letters follow. */
  lemma LexEscapeFirst(r: string, isLetter: char -> bool)
    ensures Lex("\\\\" + r, isLetter) == [Text("\\")] + Lex(r, isLetter)
  {
    var s := "\\\\" + r;
    assert s[0..] == s && s[2..] == r;
    LexEscapeAt(s, 0, isLetter);
  }

  /** The delimiter characters of a string, in order. */
  function DelimiterChars(s: string): (d: string)
    ensures |d| <= |s|
  {
    if |s| == 0 then ""
    else (if s[0] in "{}[]" then [s[0]] else "") + DelimiterChars(s[1..])
  }

  /** The characters of the delimiter tokens of a sequence, in order. */
  function DelimiterTokens(ts: seq<Token>): (d: string)
    ensures |d| <= |ts|
  {
    if |ts| == 0 then ""
    else (if ts[0].OpenBrace? || ts[0].CloseBrace? || ts[0].OpenBracket? || ts[0].CloseBracket?
          then Spell(ts[0]) else "") + DelimiterTokens(ts[1..])
  }

  lemma {:induction false} DelimiterCharsAppend(a: string, b: string)
    ensures DelimiterChars(a + b) == DelimiterChars(a) + DelimiterChars(b)
    decreases |a|
  {
    if |a| > 0 {
      assert (a + b)[0] == a[0] && (a + b)[1..] == a[1..] + b;
      DelimiterCharsAppend(a[1..], b);
    } else {
      assert a + b == b;
    }
  }

  lemma {:induction false} DelimiterCharsNone(v: string)
    requires forall i :: 0 <= i < |v| ==> v[i] !in "{}[]"
    ensures DelimiterChars(v) == ""
    decreases |v|
  {
    if |v| > 0 {
      assert forall i :: 0 <= i < |v[1..]| ==> v[1..][i] !in "{}[]" by {
        forall i | 0 <= i < |v[1..]| ensures v[1..][i] !in "{}[]" {
          assert v[1..][i] == v[i + 1];
        }
      }
      DelimiterCharsNone(v[1..]);
    }
  }

  lemma DelimiterSpellText(v: string)
    requires v == "\\" || IsPlain(v)
    ensures DelimiterChars(Escape(v)) == ""
  {
    if v == "\\" {
      assert Escape(v) == "\\\\" + Escape("");
      assert Escape("") == "";
      assert Escape(v) == ['\\', '\\'];
    } else {
      EscapePlain(v);
      DelimiterCharsNone(v);
    }
  }

  lemma DelimiterSpellCommand(n: string, isLetter: char -> bool)
    requires AllLetters(n, isLetter)
    requires !isLetter('{') && !isLetter('}') && !isLetter('[') && !isLetter(']')
    ensures DelimiterChars("\\" + n) == ""
  {
    DelimiterCharsAppend("\\", n);
    DelimiterCharsNone(n);
  }

  /** The delimiter characters in the spelling of one token are those of the token itself. */
  lemma DelimiterSpell(t: Token, isLetter: char -> bool)
    requires WellFormed(t, isLetter)
    requires !isLetter('{') && !isLetter('}') && !isLetter('[') && !isLetter(']')
    ensures DelimiterChars(Spell(t)) == DelimiterTokens([t])
  {
    assert [t][1..] == [];
    if t.Text? {
      DelimiterSpellText(t.value);
    } else if t.Command? {
      DelimiterSpellCommand(t.name, isLetter);
    }
  }

  /**
   * Each `{ } [ ]` of a `%`-free input becomes exactly one delimiter token,
   * in input order, provided no delimiter counts as a letter.
   */
  lemma {:induction false} LexDelimiters(s: string, isLetter: char -> bool)
    requires NoPercent(s)
    requires !isLetter('{') && !isLetter('}') && !isLetter('[') && !isLetter(']')
    ensures DelimiterTokens(Lex(s, isLetter)) == DelimiterChars(s)
    decreases |s|
  {
    if |s| > 0 {
      var t, k := FirstToken(s, isLetter);
      var rest := Lex(s[k..], isLetter);
      NoPercentSuffix(s, k);
      LexDelimiters(s[k..], isLetter);
      assert ([t] + rest)[0] == t && ([t] + rest)[1..] == rest;
      assert s == s[..k] + s[k..];
      DelimiterCharsAppend(s[..k], s[k..]);
      assert WellFormed(t, isLetter) by {
        assert Lex(s, isLetter)[0] == t;
      }
      DelimiterSpell(t, isLetter);
    }
  }
}
