/** The SQL template object of the entity store's SQL layer: the argument and
    scan-destination lists a template fills while it is rendered, the call that
    renders a template, and the formatter applied to rendered SQL. */
module SqlTemplate {
  import opened Wrappers
  import SqlDialect

  // ---------------------------------------------------------------------------
  // The template object
  // ---------------------------------------------------------------------------

  /** A template's bindings: `args` are the values bound to placeholders (Go's
      `Args []any`), `scanDest` the destinations a result row is scanned into
      (Go's `ScanDest []any`). `V` stands for Go's `any`. */
  class SQLTemplate<V> {
    const dialect: SqlDialect.Dialect
    var args: seq<V>
    var scanDest: seq<V>

    constructor New(d: SqlDialect.Dialect)
      ensures dialect == d
      ensures args == [] && scanDest == []
    {
      dialect := d;
      args := [];
      scanDest := [];
    }

    function GetArgs(): seq<V>
      reads this
    {
      args
    }

    function GetScanDest(): seq<V>
      reads this
    {
      scanDest
    }

    /** Binds one more argument; the scan destinations are untouched. */
    method Arg(x: V)
      modifies this
      ensures GetArgs() == old(GetArgs()) + [x]
      ensures GetScanDest() == old(GetScanDest())
    {
      args := args + [x];
    }

    /** Registers one more scan destination for the column `colName`; the
        arguments are untouched. */
    method Into(dest: V, colName: string)
      modifies this
      ensures GetScanDest() == old(GetScanDest()) + [dest]
      ensures GetArgs() == old(GetArgs())
    {
      scanDest := scanDest + [dest];
    }

    /** Forgets every argument and every scan destination. */
    method Reset()
      modifies this
      ensures GetArgs() == [] && GetScanDest() == []
    {
      args := [];
      scanDest := [];
    }
  }

  /** The template object's life cycle as its unit test drives it: one argument
      and one destination are bound, then `Reset` leaves both lists empty. */
  method ResetAfterBinding(d: SqlDialect.Dialect) returns (a: seq<int>, dest: seq<int>)
    ensures a == [] && dest == []
  {
    var t := new SQLTemplate<int>.New(d);
    t.Arg(1);
    t.Into(0, "colname");
    assert |t.GetArgs()| == 1 && |t.GetScanDest()| == 1;
    t.Reset();
    a := t.GetArgs();
    dest := t.GetScanDest();
  }

  // ---------------------------------------------------------------------------
  // Rendering a template
  // ---------------------------------------------------------------------------

  /** A parsed Go `text/template`. The template engine itself is foreign code:
      `render(data)` is the text the engine writes for `data`, or None when the
      engine refuses the data (a field the data does not have, an undefined
      template). */
  datatype Template<!D> = Template(name: string, render: D -> Option<string>)

  /** The error the template engine reports (Go's `template.ExecError`). */
  datatype ExecError = ExecError(templateName: string)

  /** Renders `tmpl` with `data`: the rendered text and no error when the engine
      accepts the data, otherwise the empty string (never a partial rendering)
      and an `ExecError` naming the template. */
  function Execute<D>(tmpl: Template<D>, data: D): (r: (string, Option<ExecError>))
    ensures r.1.None? <==> tmpl.render(data).Some?
    ensures r.1.None? ==> r.0 == tmpl.render(data).value
    ensures r.1.Some? ==> r.0 == "" && r.1.value.templateName == tmpl.name
  {
    match tmpl.render(data)
    case Some(text) => (text, None)
    case None => ("", Some(ExecError(tmpl.name)))
  }

  // ---------------------------------------------------------------------------
  // Formatting rendered SQL
  // ---------------------------------------------------------------------------

  /** Characters fall into four classes: blank space, operator characters,
      the statement terminator `;`, and everything else (identifiers, quoted
      names, literals, placeholders). */
  datatype CharClass = Blank | Operator | Terminator | Word

  predicate IsBlank(c: char) {
    c == ' ' || c == '\t' || c == '\n' || c == '\r'
  }

  predicate IsOperatorChar(c: char) {
    c == '+' || c == '-' || c == '*' || c == '/' || c == '=' || c == '<' || c == '>'
    || c == '%' || c == '!' || c == '~'
  }

  function ClassOf(c: char): CharClass {
    if IsBlank(c) then Blank
    else if c == ';' then Terminator
    else if IsOperatorChar(c) then Operator
    else Word
  }

  /** Every character of `s` is of class `k`. */
  predicate AllOf(s: string, k: CharClass) {
    forall i :: 0 <= i < |s| ==> ClassOf(s[i]) == k
  }

  /** A token: a non-empty run of one non-blank class; a terminator token is a
      single `;`. */
  predicate IsToken(t: string) {
    && t != []
    && ClassOf(t[0]) != Blank
    && AllOf(t, ClassOf(t[0]))
    && (ClassOf(t[0]) == Terminator ==> |t| == 1)
  }

  /** The token `t` cannot run on into `rest`. */
  predicate EndsBefore(t: string, rest: string)
    requires t != []
  {
    rest == [] || ClassOf(rest[0]) != ClassOf(t[0]) || ClassOf(t[0]) == Terminator
  }

  /** Length of the longest prefix of `s` made of characters of class `k`. */
  function RunLength(s: string, k: CharClass): nat {
    if s == [] || ClassOf(s[0]) != k then 0 else 1 + RunLength(s[1..], k)
  }

  lemma {:induction false} RunLengthBounds(s: string, k: CharClass)
    ensures RunLength(s, k) <= |s|
    ensures AllOf(s[..RunLength(s, k)], k)
    ensures RunLength(s, k) < |s| ==> ClassOf(s[RunLength(s, k)]) != k
  {
    if s != [] && ClassOf(s[0]) == k {
      RunLengthBounds(s[1..], k);
      assert s[..RunLength(s, k)][1..] == s[1..][..RunLength(s[1..], k)];
    }
  }

  /** A run of class `k` followed by a character of another class has exactly
      the run's length. */
  lemma {:induction false} RunLengthOfRun(w: string, rest: string, k: CharClass)
    requires AllOf(w, k)
    requires rest == [] || ClassOf(rest[0]) != k
    ensures RunLength(w + rest, k) == |w|
  {
    if w == [] {
      assert w + rest == rest;
    } else {
      assert (w + rest)[1..] == w[1..] + rest;
      RunLengthOfRun(w[1..], rest, k);
    }
  }

  /** Length of the token at the front of `s`. */
  function TokenLength(s: string): (n: nat)
    requires s != [] && !IsBlank(s[0])
    ensures 1 <= n <= |s|
    ensures IsToken(s[..n]) && EndsBefore(s[..n], s[n..])
  {
    RunLengthBounds(s, ClassOf(s[0]));
    if ClassOf(s[0]) == Terminator then 1 else RunLength(s, ClassOf(s[0]))
  }

  /** Splits SQL text into its tokens, dropping all blank space. */
  function Lex(s: string): (ts: seq<string>)
    ensures forall i :: 0 <= i < |ts| ==> IsToken(ts[i])
    decreases |s|
  {
    if s == [] then []
    else if IsBlank(s[0]) then Lex(s[1..])
    else
      var n := TokenLength(s);
      [s[..n]] + Lex(s[n..])
  }

  /** The keywords that start a new, indented line. */
  const ClauseKeywords: set<string> :=
    {"FROM", "WHERE", "GROUP", "HAVING", "ORDER", "LIMIT", "OFFSET"}

  /** The blank space written before a token that is not the first: none before
      the terminator, a line break and four spaces before a clause keyword, one
      space otherwise. */
  function Separator(t: string): string {
    if t == ";" then "" else if t in ClauseKeywords then "\n    " else " "
  }

  function Join(ts: seq<string>): string {
    if ts == [] then "" else Separator(ts[0]) + ts[0] + Join(ts[1..])
  }

  function Render(ts: seq<string>): string {
    if ts == [] then "" else ts[0] + Join(ts[1..])
  }

  /** Normalises rendered SQL the way the package's test example shows:
      surrounding blank space is trimmed, every run of blank space between
      tokens becomes one space, operators stand apart from their operands,
      the terminator follows the statement directly, and each clause keyword
      starts an indented line.
      The token classes and clause keywords are this model's reading; quoted
      literals are not told apart from other text. */
  function FormatSQL(s: string): string {
    Render(Lex(s))
  }

  // Lexing lemmas

  lemma {:induction false} LexSkipsBlanks(ws: string, rest: string)
    requires AllOf(ws, Blank)
    ensures Lex(ws + rest) == Lex(rest)
  {
    if ws == [] {
      assert ws + rest == rest;
    } else {
      assert (ws + rest)[1..] == ws[1..] + rest;
      LexSkipsBlanks(ws[1..], rest);
    }
  }

  lemma LexTakesToken(t: string, rest: string)
    requires IsToken(t) && EndsBefore(t, rest)
    ensures Lex(t + rest) == [t] + Lex(rest)
  {
    var s := t + rest;
    assert s[0] == t[0];
    if ClassOf(t[0]) != Terminator {
      RunLengthOfRun(t, rest, ClassOf(t[0]));
    }
    assert TokenLength(s) == |t|;
    assert s[..|t|] == t && s[|t|..] == rest;
  }

  lemma {:induction false} LexOfJoin(ts: seq<string>)
    requires forall i :: 0 <= i < |ts| ==> IsToken(ts[i])
    ensures Lex(Join(ts)) == ts
  {
    if ts != [] {
      var t := ts[0];
      var sep := Separator(t);
      assert AllOf(sep, Blank) by {
        assert AllOf("", Blank);
        assert AllOf("\n    ", Blank);
        assert AllOf(" ", Blank);
      }
      LexOfJoin(ts[1..]);
      var rest := Join(ts[1..]);
      assert EndsBefore(t, rest) by {
        if ts[1..] != [] {
          var u := ts[1..][0];
          assert IsToken(u);
          if u != ";" {
            assert Separator(u) == " " || Separator(u) == "\n    ";
            assert rest[0] == Separator(u)[0];
          } else {
            assert rest[0] == ';';
          }
        }
      }
      LexTakesToken(t, rest);
      Associative(sep, t, rest);
      LexSkipsBlanks(sep, t + rest);
    }
  }

  /** Lexing a rendering gives back the tokens that were rendered. */
  lemma LexOfRender(ts: seq<string>)
    requires forall i :: 0 <= i < |ts| ==> IsToken(ts[i])
    ensures Lex(Render(ts)) == ts
  {
    if ts != [] {
      LexOfJoin(ts[1..]);
      var rest := Join(ts[1..]);
      assert EndsBefore(ts[0], rest) by {
        if ts[1..] != [] {
          var u := ts[1..][0];
          assert IsToken(u);
          if u != ";" {
            assert Separator(u) == " " || Separator(u) == "\n    ";
            assert rest[0] == Separator(u)[0];
          } else {
            assert rest[0] == ';';
          }
        }
      }
      LexTakesToken(ts[0], rest);
    }
  }

  /** The token sequence of the formatted text is that of the input. */
  lemma FormatSQLKeepsTokens(s: string)
    ensures Lex(FormatSQL(s)) == Lex(s)
  {
    LexOfRender(Lex(s));
  }

  /** Formatting is idempotent. */
  lemma FormatSQLIdempotent(s: string)
    ensures FormatSQL(FormatSQL(s)) == FormatSQL(s)
  {
    FormatSQLKeepsTokens(s);
  }

  // Keeping the text

  /** `s` with its blank space removed. */
  function NonBlank(s: string): string {
    if s == [] then "" else (if IsBlank(s[0]) then "" else [s[0]]) + NonBlank(s[1..])
  }

  /** The tokens written without separation. */
  function Glue(ts: seq<string>): string {
    if ts == [] then "" else ts[0] + Glue(ts[1..])
  }

  lemma {:induction false} NonBlankAppend(a: string, b: string)
    ensures NonBlank(a + b) == NonBlank(a) + NonBlank(b)
  {
    if a == [] {
      assert a + b == b;
    } else {
      assert (a + b)[0] == a[0] && (a + b)[1..] == a[1..] + b;
      NonBlankAppend(a[1..], b);
      Associative(if IsBlank(a[0]) then "" else [a[0]], NonBlank(a[1..]), NonBlank(b));
    }
  }

  /** Text of one non-blank class loses nothing. */
  lemma {:induction false} NonBlankOfRun(t: string, k: CharClass)
    requires k != Blank && AllOf(t, k)
    ensures NonBlank(t) == t
  {
    if t != [] {
      assert AllOf(t[1..], k) by {
        forall i | 0 <= i < |t[1..]| ensures ClassOf(t[1..][i]) == k {
          assert t[1..][i] == t[i + 1];
        }
      }
      NonBlankOfRun(t[1..], k);
    }
  }

  /** Lexing drops exactly the blank space: the tokens, written one after
      the other, are the input's other characters, in order. */
  lemma {:induction false} LexKeepsText(s: string)
    ensures Glue(Lex(s)) == NonBlank(s)
    decreases |s|
  {
    if s != [] {
      if IsBlank(s[0]) {
        LexKeepsText(s[1..]);
      } else {
        var n := TokenLength(s);
        var t, rest := s[..n], s[n..];
        assert s == t + rest;
        assert IsToken(t);
        NonBlankOfRun(t, ClassOf(t[0]));
        NonBlankAppend(t, rest);
        LexKeepsText(rest);
        var ts := [t] + Lex(rest);
        assert ts[0] == t && ts[1..] == Lex(rest);
      }
    }
  }

  /** Blank space has no non-blank characters. */
  lemma {:induction false} NonBlankOfBlank(ws: string)
    requires AllOf(ws, Blank)
    ensures NonBlank(ws) == ""
  {
    if ws != [] {
      assert AllOf(ws[1..], Blank) by {
        forall i | 0 <= i < |ws[1..]| ensures ClassOf(ws[1..][i]) == Blank {
          assert ws[1..][i] == ws[i + 1];
        }
      }
      NonBlankOfBlank(ws[1..]);
    }
  }

  /** A separator is blank space only. */
  lemma NonBlankOfSeparator(t: string)
    ensures NonBlank(Separator(t)) == ""
  {
    assert AllOf(Separator(t), Blank) by {
      assert AllOf("", Blank);
      assert AllOf("\n    ", Blank);
      assert AllOf(" ", Blank);
    }
    NonBlankOfBlank(Separator(t));
  }

  lemma {:induction false} NonBlankOfJoin(ts: seq<string>)
    requires forall i :: 0 <= i < |ts| ==> IsToken(ts[i])
    ensures NonBlank(Join(ts)) == Glue(ts)
  {
    if ts != [] {
      var t := ts[0];
      NonBlankOfJoin(ts[1..]);
      NonBlankOfSeparator(t);
      NonBlankOfRun(t, ClassOf(t[0]));
      NonBlankAppend(Separator(t) + t, Join(ts[1..]));
      NonBlankAppend(Separator(t), t);
    }
  }

  /** Formatting changes only blank space: the formatted text holds the
      input's non-blank characters, in order, and no others. */
  lemma FormatSQLKeepsText(s: string)
    ensures NonBlank(FormatSQL(s)) == NonBlank(s)
  {
    var ts := Lex(s);
    LexKeepsText(s);
    if ts != [] {
      assert IsToken(ts[0]);
      NonBlankOfRun(ts[0], ClassOf(ts[0][0]));
      NonBlankOfJoin(ts[1..]);
      NonBlankAppend(ts[0], Join(ts[1..]));
    }
  }

  lemma TokenEndsInToken(t: string)
    requires IsToken(t)
    ensures !IsBlank(t[|t| - 1])
  {
    assert ClassOf(t[|t| - 1]) == ClassOf(t[0]);
  }

  lemma {:induction false} JoinEndsInToken(ts: seq<string>)
    requires forall i :: 0 <= i < |ts| ==> IsToken(ts[i])
    requires ts != []
    ensures |Join(ts)| > 0 && !IsBlank(Join(ts)[|Join(ts)| - 1])
  {
    var t := ts[0];
    if ts[1..] == [] {
      assert Join(ts) == Separator(t) + t;
      TokenEndsInToken(t);
    } else {
      JoinEndsInToken(ts[1..]);
      assert Join(ts) == (Separator(t) + t) + Join(ts[1..]);
    }
  }

  /** The formatted text neither starts nor ends with blank space. */
  lemma {:induction false} FormatSQLTrims(s: string)
    ensures var r := FormatSQL(s); r == [] || (!IsBlank(r[0]) && !IsBlank(r[|r| - 1]))
  {
    var ts := Lex(s);
    if ts != [] {
      assert IsToken(ts[0]);
      var r := FormatSQL(s);
      assert r == ts[0] + Join(ts[1..]);
      if ts[1..] != [] {
        JoinEndsInToken(ts[1..]);
      } else {
        TokenEndsInToken(ts[0]);
      }
    }
  }
}
