/** The formatter's unit-test example, `FormatSQL(input) == expected`,
    proved by cutting the input into stretches: tokens written without blank
    space between them, followed by a run of blank space. Lexing such text
    gives the stretches' tokens, whatever the text is; the example is then
    one instance, checked piece by piece. */
module SqlFormatExample {
  import opened Wrappers
  import opened SqlTemplate

  /** A stretch of SQL text: `tokens` written one after the other, then the
      non-empty blank space `blank`. */
  datatype Stretch = Stretch(tokens: seq<string>, blank: string)

  /** `ts` are tokens, each of a different class from the next, so that
      written without blank space between them they still lex apart. */
  predicate Adjacent(ts: seq<string>) {
    ts == [] || (IsToken(ts[0]) && Adjacent(ts[1..]) && (|ts| > 1 ==> ClassOf(ts[0][0]) != ClassOf(ts[1][0])))
  }

  /** `st` is a stretch in the sense above: its tokens lex apart and its
      blank space is blank. */
  predicate StretchOk(st: Stretch) {
    Adjacent(st.tokens) && st.blank != [] && AllOf(st.blank, Blank)
  }

  predicate AllOk(sts: seq<Stretch>) {
    sts == [] || (StretchOk(sts[0]) && AllOk(sts[1..]))
  }

  /** The text a sequence of stretches spells. */
  function Text(sts: seq<Stretch>): string {
    if sts == [] then "" else Glue(sts[0].tokens) + sts[0].blank + Text(sts[1..])
  }

  /** The tokens the stretches hold, in order. */
  function Tokens(sts: seq<Stretch>): seq<string> {
    if sts == [] then [] else sts[0].tokens + Tokens(sts[1..])
  }

  lemma GlueFront(ts: seq<string>, rest: string)
    requires ts != [] && ts[0] != []
    ensures Glue(ts) + rest == ts[0] + (Glue(ts[1..]) + rest)
    ensures (Glue(ts) + rest)[0] == ts[0][0]
  {
    Associative(ts[0], Glue(ts[1..]), rest);
  }

  /** The first of tokens that lex apart cannot run on into the rest of
      their text, when blank space or the end follows. */
  lemma GlueEndsBefore(ts: seq<string>, rest: string)
    requires Adjacent(ts) && ts != []
    requires rest == [] || IsBlank(rest[0])
    ensures IsToken(ts[0]) && EndsBefore(ts[0], Glue(ts[1..]) + rest)
  {
    var tail := ts[1..];
    if tail != [] {
      assert IsToken(tail[0]);
      GlueFront(tail, rest);
    } else {
      assert Glue(tail) + rest == rest;
    }
  }

  /** Tokens that lex apart, followed by blank space or the end, lex back to
      themselves. */
  lemma {:induction false} LexGlue(ts: seq<string>, rest: string)
    requires Adjacent(ts)
    requires rest == [] || IsBlank(rest[0])
    ensures Lex(Glue(ts) + rest) == ts + Lex(rest)
  {
    if ts == [] {
      assert Glue(ts) + rest == rest;
    } else {
      var tail := ts[1..];
      assert Adjacent(tail);
      LexGlue(tail, rest);
      GlueFront(ts, rest);
      GlueEndsBefore(ts, rest);
      LexTakesToken(ts[0], Glue(tail) + rest);
      assert ts == [ts[0]] + tail;
      Associative([ts[0]], tail, Lex(rest));
    }
  }

  /** Lexing the text of well-formed stretches gives exactly their tokens. */
  lemma {:induction false} LexText(sts: seq<Stretch>)
    requires AllOk(sts)
    ensures Lex(Text(sts)) == Tokens(sts)
  {
    if sts != [] {
      var st := sts[0];
      var rest := Text(sts[1..]);
      LexText(sts[1..]);
      assert IsBlank(st.blank[0]);
      assert (st.blank + rest)[0] == st.blank[0];
      LexGlue(st.tokens, st.blank + rest);
      LexSkipsBlanks(st.blank, rest);
      assert Text(sts) == Glue(st.tokens) + (st.blank + rest);
    }
  }

  lemma {:induction false} TextAppend(a: seq<Stretch>, b: seq<Stretch>)
    ensures Text(a + b) == Text(a) + Text(b)
  {
    if a == [] {
      assert a + b == b;
    } else {
      assert (a + b)[0] == a[0] && (a + b)[1..] == a[1..] + b;
      TextAppend(a[1..], b);
      Associative(Glue(a[0].tokens) + a[0].blank, Text(a[1..]), Text(b));
    }
  }

  lemma {:induction false} TokensAppend(a: seq<Stretch>, b: seq<Stretch>)
    ensures Tokens(a + b) == Tokens(a) + Tokens(b)
  {
    if a == [] {
      assert a + b == b;
    } else {
      assert (a + b)[0] == a[0] && (a + b)[1..] == a[1..] + b;
      TokensAppend(a[1..], b);
      Associative(a[0].tokens, Tokens(a[1..]), Tokens(b));
    }
  }

  lemma {:induction false} AllOkAppend(a: seq<Stretch>, b: seq<Stretch>)
    requires AllOk(a) && AllOk(b)
    ensures AllOk(a + b)
  {
    if a == [] {
      assert a + b == b;
    } else {
      assert (a + b)[0] == a[0] && (a + b)[1..] == a[1..] + b;
      AllOkAppend(a[1..], b);
    }
  }

  // The test's input, written line by line as it appears in sqltemplate_test.go.
  const Line1 := "\n\t\t\tSELECT *\n\t\t\t\t"
  const Line2 := "FROM \"mytab\" AS t\n\t\t\t\t"
  const Line3 := "WHERE \"id\">= 3 AND   \"str\" = ?  ;\n\t\t"
  const TestInput := Line1 + Line2 + Line3

  const Part1: seq<Stretch> := [Stretch([], "\n\t\t\t"), Stretch(["SELECT"], " "), Stretch(["*"], "\n\t\t\t\t")]
  const Part2: seq<Stretch> := [Stretch(["FROM"], " "), Stretch(["\"mytab\""], " "), Stretch(["AS"], " "), Stretch(["t"], "\n\t\t\t\t")]
  const Part3: seq<Stretch> := [Stretch(["WHERE"], " "), Stretch(["\"id\"", ">="], " "), Stretch(["3"], " ")]
  const Part4: seq<Stretch> := [Stretch(["AND"], "   "), Stretch(["\"str\""], " "), Stretch(["="], " "), Stretch(["?"], "  "), Stretch([";"], "\n\t\t")]

  lemma Part1Ok() ensures AllOk(Part1) {}
  lemma Part2Ok() ensures AllOk(Part2) {
    AllOkAppend(Part2[..2], Part2[2..]);
    assert Part2[..2] + Part2[2..] == Part2;
  }
  lemma Part3Ok() ensures AllOk(Part3) {}
  lemma Part4Ok() ensures AllOk(Part4) {}
  lemma Part1Text() ensures Text(Part1) == Line1 {}
  lemma Part2Text() ensures Text(Part2) == Line2 {}
  lemma Part3Text() ensures Text(Part3) == "WHERE \"id\">= 3 " {}
  lemma Part4Text() ensures Text(Part4) == "AND   \"str\" = ?  ;\n\t\t" {
    TextAppend(Part4[..2], Part4[2..]);
    assert Part4[..2] + Part4[2..] == Part4;
    assert Part4[..2] == [Stretch(["AND"], "   "), Stretch(["\"str\""], " ")];
    assert Part4[2..] == [Stretch(["="], " "), Stretch(["?"], "  "), Stretch([";"], "\n\t\t")];
    Part4aText(); Part4bText();
  }
  lemma Part4aText() ensures Text([Stretch(["AND"], "   "), Stretch(["\"str\""], " ")]) == "AND   \"str\" " {}
  lemma Part4bText() ensures Text([Stretch(["="], " "), Stretch(["?"], "  "), Stretch([";"], "\n\t\t")]) == "= ?  ;\n\t\t" {}
  lemma Line3Halves() ensures Line3 == "WHERE \"id\">= 3 " + "AND   \"str\" = ?  ;\n\t\t" {}

  const Line1Tokens := ["SELECT", "*"]
  const Line2Tokens := ["FROM", "\"mytab\"", "AS", "t"]
  const Line3Tokens := ["WHERE", "\"id\"", ">=", "3", "AND", "\"str\"", "=", "?", ";"]
  const TestTokens := Line1Tokens + Line2Tokens + Line3Tokens

  lemma Part1Tokens() ensures Tokens(Part1) == Line1Tokens {}
  lemma Part2Tokens() ensures Tokens(Part2) == Line2Tokens {}
  lemma Part34Tokens() ensures Tokens(Part3) + Tokens(Part4) == Line3Tokens {}

  /** Four well-formed pieces lex, together, to their tokens together. */
  lemma LexOfParts(p1: seq<Stretch>, p2: seq<Stretch>, p3: seq<Stretch>, p4: seq<Stretch>, input: string, tokens: seq<string>)
    requires AllOk(p1) && AllOk(p2) && AllOk(p3) && AllOk(p4)
    requires input == Text(p1) + Text(p2) + (Text(p3) + Text(p4))
    requires tokens == Tokens(p1) + Tokens(p2) + (Tokens(p3) + Tokens(p4))
    ensures Lex(input) == tokens
  {
    var sts := ((p1 + p2) + p3) + p4;
    Associative(Text(p1) + Text(p2), Text(p3), Text(p4));
    Associative(Tokens(p1) + Tokens(p2), Tokens(p3), Tokens(p4));
    TextAppend(p1, p2); TextAppend(p1 + p2, p3); TextAppend(p1 + p2 + p3, p4);
    TokensAppend(p1, p2); TokensAppend(p1 + p2, p3); TokensAppend(p1 + p2 + p3, p4);
    AllOkAppend(p1, p2); AllOkAppend(p1 + p2, p3); AllOkAppend(p1 + p2 + p3, p4);
    LexText(sts);
  }

  lemma LexTestInput()
    ensures Lex(TestInput) == TestTokens
  {
    Part1Ok(); Part2Ok(); Part3Ok(); Part4Ok();
    Part1Text(); Part2Text(); Part3Text(); Part4Text(); Line3Halves();
    Part1Tokens(); Part2Tokens(); Part34Tokens();
    LexOfParts(Part1, Part2, Part3, Part4, TestInput, TestTokens);
  }

  // The expected output, line by line as it appears in sqltemplate_test.go.
  const Expected1 := "SELECT *"
  const Expected2 := "\n    FROM \"mytab\" AS t"
  const Expected3 := "\n    WHERE \"id\" >= 3 AND \"str\" = ?;"
  const TestExpected := Expected1 + Expected2 + Expected3

  lemma {:induction false} JoinAppend(a: seq<string>, b: seq<string>)
    ensures Join(a + b) == Join(a) + Join(b)
  {
    if a == [] {
      assert a + b == b;
    } else {
      assert (a + b)[1..] == a[1..] + b;
      JoinAppend(a[1..], b);
    }
  }

  lemma RenderFront(l1: seq<string>, l2: seq<string>, l3: seq<string>)
    requires l1 != []
    ensures Render(l1 + l2 + l3) == l1[0] + Join(l1[1..] + l2 + l3)
  {
    var ts := l1 + l2 + l3;
    assert ts[0] == l1[0];
    assert ts[1..] == l1[1..] + l2 + l3;
  }

  lemma JoinOfLines(t1: seq<string>, l2: seq<string>, l3a: seq<string>, l3b: seq<string>)
    ensures Join(t1 + l2 + (l3a + l3b)) == Join(t1) + Join(l2) + (Join(l3a) + Join(l3b))
  {
    JoinAppend(t1 + l2, l3a + l3b);
    JoinAppend(t1, l2);
    JoinAppend(l3a, l3b);
  }

  /** Associativity, for the string shapes `RenderOfLines` needs. */
  lemma AppendAssoc(r: string, h: string, j1: string, j2: string, j3: string)
    requires r == h + (j1 + j2 + j3)
    ensures r == h + j1 + j2 + j3
  {
  }

  /** Rendering tokens cut into pieces is writing the first token and then
      joining each piece. */
  lemma RenderOfLines(l1: seq<string>, l2: seq<string>, l3a: seq<string>, l3b: seq<string>, out: string)
    requires l1 != []
    requires out == l1[0] + Join(l1[1..]) + Join(l2) + (Join(l3a) + Join(l3b))
    ensures Render(l1 + l2 + (l3a + l3b)) == out
  {
    RenderFront(l1, l2, l3a + l3b);
    JoinOfLines(l1[1..], l2, l3a, l3b);
    AppendAssoc(Render(l1 + l2 + (l3a + l3b)), l1[0], Join(l1[1..]), Join(l2), Join(l3a) + Join(l3b));
  }

  lemma Line1Rendered() ensures Line1Tokens[0] + Join(Line1Tokens[1..]) == Expected1 {}
  lemma Line2Rendered() ensures Join(Line2Tokens) == Expected2 {
    JoinAppend(["FROM", "\"mytab\""], ["AS", "t"]);
    assert ["FROM", "\"mytab\""] + ["AS", "t"] == Line2Tokens;
    assert Join(["FROM", "\"mytab\""]) == "\n    FROM \"mytab\"";
    assert Join(["AS", "t"]) == " AS t";
  }
  lemma Line3aRendered() ensures Join(["WHERE", "\"id\"", ">=", "3"]) == "\n    WHERE \"id\" >= 3" {
    JoinAppend(["WHERE", "\"id\""], [">=", "3"]);
    assert ["WHERE", "\"id\""] + [">=", "3"] == ["WHERE", "\"id\"", ">=", "3"];
    assert Join(["WHERE", "\"id\""]) == "\n    WHERE \"id\"";
    assert Join([">=", "3"]) == " >= 3";
  }
  lemma Line3bRendered() ensures Join(["AND", "\"str\"", "=", "?", ";"]) == " AND \"str\" = ?;" {}
  lemma Line3Split()
    ensures Line3Tokens == ["WHERE", "\"id\"", ">=", "3"] + ["AND", "\"str\"", "=", "?", ";"]
    ensures Expected3 == "\n    WHERE \"id\" >= 3" + " AND \"str\" = ?;"
  {}

  lemma RenderTestTokens()
    ensures Render(TestTokens) == TestExpected
  {
    Line1Rendered(); Line2Rendered(); Line3aRendered(); Line3bRendered(); Line3Split();
    RenderOfLines(Line1Tokens, Line2Tokens, ["WHERE", "\"id\"", ">=", "3"], ["AND", "\"str\"", "=", "?", ";"], TestExpected);
  }

  /** The formatter's unit-test example: the surrounding blank space is
      trimmed, runs of spaces collapse to one, `>=` stands apart from `"id"`,
      the space before `;` is gone and the `FROM` and `WHERE` clauses start
      lines indented by four spaces. */
  lemma FormatSQLTestExample()
    ensures FormatSQL(TestInput) == TestExpected
  {
    LexTestInput();
    RenderTestTokens();
  }
}
