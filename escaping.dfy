/**
 * The escaping that the handlers apply to a path or argument before embedding
 * it between single quotes in a PowerShell command:
 * every `'` becomes `''`, then every `$` becomes `` `$ ``.
 */
module Escaping {

  /** Python's `s.replace(c, with)` for a one-character pattern `c`. */
  function ReplaceChar(s: string, c: char, with: string): (r: string)
    ensures c !in s ==> r == s
  {
    if s == [] then [] else (if s[0] == c then with else [s[0]]) + ReplaceChar(s[1..], c, with)
  }

  /** Number of occurrences of `c` in `s`. */
  function Count(s: string, c: char): (n: nat)
    ensures n <= |s|
    ensures n == 0 <==> c !in s
  {
    if s == [] then 0 else (if s[0] == c then 1 else 0) + Count(s[1..], c)
  }

  lemma {:induction false} ReplaceCharAppend(a: string, b: string, c: char, with: string)
    ensures ReplaceChar(a + b, c, with) == ReplaceChar(a, c, with) + ReplaceChar(b, c, with)
  {
    if a != [] {
      assert (a + b)[0] == a[0] && (a + b)[1..] == a[1..] + b;
      ReplaceCharAppend(a[1..], b, c, with);
    } else {
      assert a + b == b;
    }
  }

  /** Replacing a character by a two-character string adds one character per occurrence. */
  lemma {:induction false} ReplaceCharLength(s: string, c: char, with: string)
    requires |with| == 2
    ensures |ReplaceChar(s, c, with)| == |s| + Count(s, c)
  {
    if s != [] {
      ReplaceCharLength(s[1..], c, with);
    }
  }

  /** The escaping as written: `s.replace("'", "''").replace('$', '`$')`. */
  function Escape(s: string): string
  {
    ReplaceChar(ReplaceChar(s, '\'', "''"), '$', "`$")
  }

  function EscapeChar(c: char): (t: string)
    ensures t != [] && t[0] != '$'
  {
    if c == '\'' then "''" else if c == '$' then "`$" else [c]
  }

  /** The same escaping as one left-to-right pass, character by character. */
  function EscapeEach(s: string): (t: string)
    ensures t == [] || t[0] != '$'
  {
    if s == [] then [] else EscapeChar(s[0]) + EscapeEach(s[1..])
  }

  /** The two chained replacements act on each character independently. */
  lemma {:induction false} EscapeIsPerCharacter(s: string)
    ensures Escape(s) == EscapeEach(s)
  {
    if s != [] {
      var first := if s[0] == '\'' then "''" else [s[0]];
      calc {
        Escape(s);
        ReplaceChar(first + ReplaceChar(s[1..], '\'', "''"), '$', "`$");
        { ReplaceCharAppend(first, ReplaceChar(s[1..], '\'', "''"), '$', "`$"); }
        ReplaceChar(first, '$', "`$") + Escape(s[1..]);
        { EscapeIsPerCharacter(s[1..]); }
        EscapeChar(s[0]) + EscapeEach(s[1..]);
      }
    }
  }

  /**
   * The strings Escape can produce: a sequence of the tokens `''`, `` `$ ``
   * and single characters other than `'` and `$`. In particular no `'` is
   * left unpaired and no `$` is left without its backtick.
   */
  predicate WellEscaped(t: string)
    decreases |t|
  {
    if t == [] then true
    else if t[0] == '\'' then |t| >= 2 && t[1] == '\'' && WellEscaped(t[2..])
    else if t[0] == '$' then false
    else if t[0] == '`' && |t| >= 2 && t[1] == '$' then WellEscaped(t[2..])
    else WellEscaped(t[1..])
  }

  /** Undoing the escaping: `''` reads as `'`, `` `$ `` as `$`, anything else as itself. */
  function Unescape(t: string): string
    decreases |t|
  {
    if |t| >= 2 && t[0] == '\'' && t[1] == '\'' then "'" + Unescape(t[2..])
    else if |t| >= 2 && t[0] == '`' && t[1] == '$' then "$" + Unescape(t[2..])
    else if t == [] then []
    else [t[0]] + Unescape(t[1..])
  }

  lemma {:induction false} EscapeEachWellEscaped(s: string)
    ensures WellEscaped(EscapeEach(s))
    ensures Unescape(EscapeEach(s)) == s
  {
    if s != [] {
      EscapeEachWellEscaped(s[1..]);
      var rest := EscapeEach(s[1..]);
      var t := EscapeChar(s[0]) + rest;
      assert t == EscapeEach(s);
      if s[0] == '\'' {
        assert t[2..] == rest;
      } else if s[0] == '$' {
        assert t[2..] == rest;
      } else {
        assert t[1..] == rest;
        assert s == [s[0]] + s[1..];
      }
    }
  }

  /** Every escaped string is well formed, and unescaping gives back the original. */
  lemma EscapeRoundTrip(s: string)
    ensures WellEscaped(Escape(s))
    ensures Unescape(Escape(s)) == s
  {
    EscapeIsPerCharacter(s);
    EscapeEachWellEscaped(s);
  }

  /** Conversely, every well-formed string is the escaping of its unescaping. */
  lemma {:induction false} WellEscapedIsImage(t: string)
    requires WellEscaped(t)
    ensures Escape(Unescape(t)) == t
  {
    EscapeIsPerCharacter(Unescape(t));
    WellEscapedEach(t);
  }

  lemma {:induction false} WellEscapedEach(t: string)
    requires WellEscaped(t)
    ensures EscapeEach(Unescape(t)) == t
    decreases |t|
  {
    if t != [] {
      if t[0] == '\'' {
        WellEscapedEach(t[2..]);
        assert ("'" + Unescape(t[2..]))[1..] == Unescape(t[2..]);
        assert t == "''" + t[2..];
      } else if t[0] == '`' && |t| >= 2 && t[1] == '$' {
        WellEscapedEach(t[2..]);
        assert ("$" + Unescape(t[2..]))[1..] == Unescape(t[2..]);
        assert t == "`$" + t[2..];
      } else {
        WellEscapedEach(t[1..]);
        assert ([t[0]] + Unescape(t[1..]))[1..] == Unescape(t[1..]);
        assert t == [t[0]] + t[1..];
      }
    }
  }

  /**
   * The characters PowerShell's tokenizer takes for a single quote: the ASCII
   * apostrophe and the four typographic single quotes U+2018, U+2019, U+201A
   * and U+201B.
   */
  predicate IsQuote(c: char)
  {
    c == '\'' || TypographicQuote(c)
  }

  predicate TypographicQuote(c: char)
  {
    c == '\U{2018}' || c == '\U{2019}' || c == '\U{201A}' || c == '\U{201B}'
  }

  predicate NoTypographicQuote(s: string)
  {
    forall i :: 0 <= i < |s| ==> !TypographicQuote(s[i])
  }

  /**
   * How PowerShell reads the body of a single-quoted string: two quote
   * characters in a row stand for the second of them; a quote character not
   * followed by another ends the literal; every other character, the backtick
   * and `$` included, stands for itself (no escape sequences, no variable
   * expansion).
   */
  function SingleQuotedValue(t: string): string
    decreases |t|
  {
    if t == [] then []
    else if IsQuote(t[0]) then (if |t| >= 2 && IsQuote(t[1]) then [t[1]] + SingleQuotedValue(t[2..]) else [])
    else [t[0]] + SingleQuotedValue(t[1..])
  }

  lemma {:induction false} SingleQuotedValueOfEach(s: string)
    requires NoTypographicQuote(s)
    ensures SingleQuotedValue(EscapeEach(s)) == ReplaceChar(s, '$', "`$")
  {
    if s != [] {
      SingleQuotedValueOfEach(s[1..]);
      var rest := EscapeEach(s[1..]);
      var t := EscapeChar(s[0]) + rest;
      assert t == EscapeEach(s);
      if s[0] == '\'' {
        assert t == "''" + rest;
        assert t[2..] == rest;
        assert SingleQuotedValue(t) == "'" + SingleQuotedValue(rest);
      } else if s[0] == '$' {
        assert t == "`$" + rest;
        assert t[1..] == "$" + rest;
        assert t[1..][1..] == rest;
        assert SingleQuotedValue(t) == "`" + SingleQuotedValue(t[1..]);
        assert SingleQuotedValue(t[1..]) == "$" + SingleQuotedValue(rest);
      } else {
        assert !IsQuote(s[0]);
        assert t == [s[0]] + rest;
        assert t[1..] == rest;
        assert SingleQuotedValue(t) == [s[0]] + SingleQuotedValue(rest);
      }
    }
  }

  /**
   * As written, a path without typographic quotes embedded between single
   * quotes is read back by PowerShell with a backtick in front of every `$`:
   * the text differs from the path whenever the path holds a `$`.
   */
  lemma EscapedPathReadsWithBackticks(s: string)
    requires NoTypographicQuote(s)
    ensures SingleQuotedValue(Escape(s)) == ReplaceChar(s, '$', "`$")
    ensures |SingleQuotedValue(Escape(s))| == |s| + Count(s, '$')
    ensures '$' in s ==> SingleQuotedValue(Escape(s)) != s
  {
    EscapeIsPerCharacter(s);
    SingleQuotedValueOfEach(s);
    ReplaceCharLength(s, '$', "`$");
  }

  /** A concrete path that shows it: `a$b.exe` is read as `` a`$b.exe ``. */
  lemma DollarPathCounterexample(path: string)
    requires path == "a$b.exe"
    ensures SingleQuotedValue(Escape(path)) == "a`$b.exe"
  {
    EscapedPathReadsWithBackticks(path);
    assert ReplaceChar(path, '$', "`$") == "a`$b.exe";
  }

  /**
   * As written, a typographic quote is not doubled, so it ends the literal:
   * `Bob’s.exe` is read as `Bob`.
   */
  lemma TypographicQuoteCounterexample(path: string)
    requires path == "Bob\U{2019}s.exe"
    ensures Escape(path) == path
    ensures SingleQuotedValue(Escape(path)) == "Bob"
  {
    assert '\'' !in path && '$' !in path;
    assert ReplaceChar(path, '\'', "''") == path;
    var t3 := path[3..];
    assert IsQuote(t3[0]) && !IsQuote(t3[1]);
    assert SingleQuotedValue(t3) == [];
    assert path[1..][1..] == path[2..] && path[2..][1..] == t3;
    assert SingleQuotedValue(path[2..]) == "b";
    assert SingleQuotedValue(path[1..]) == "ob";
  }

  /** The quoting a single-quoted PowerShell literal needs: double every quote character, nothing else. */
  function QuoteForSingleQuoted(s: string): string
  {
    if s == [] then []
    else (if IsQuote(s[0]) then [s[0], s[0]] else [s[0]]) + QuoteForSingleQuoted(s[1..])
  }

  /** Quote pairing of a single-quoted body: every quote character comes in a pair. */
  predicate QuotesPaired(t: string)
    decreases |t|
  {
    if t == [] then true
    else if IsQuote(t[0]) then |t| >= 2 && IsQuote(t[1]) && QuotesPaired(t[2..])
    else QuotesPaired(t[1..])
  }

  /**
   * The corrected quoting leaves no quote character unpaired and is read back
   * as exactly the original text, typographic quotes included.
   */
  lemma {:induction false} QuoteForSingleQuotedRoundTrip(s: string)
    ensures QuotesPaired(QuoteForSingleQuoted(s))
    ensures SingleQuotedValue(QuoteForSingleQuoted(s)) == s
  {
    if s != [] {
      QuoteForSingleQuotedRoundTrip(s[1..]);
      var rest := QuoteForSingleQuoted(s[1..]);
      var t := QuoteForSingleQuoted(s);
      if IsQuote(s[0]) {
        assert t == [s[0], s[0]] + rest;
        assert t[2..] == rest;
      } else {
        assert t == [s[0]] + rest;
        assert t[1..] == rest;
      }
      assert s == [s[0]] + s[1..];
    }
  }
}
