/** Worked instances of the splicer and the walk under the behaviour the
    expression renamers are documented to have for the map
    {a: renamedA, longName: rb, three: renamed3}. */
module BindingExamples {
  import opened Types
  import opened Dom
  import opened Splice
  import opened Traversal

  function TestMap(): RenameMap
  {
    map["a" := "renamedA", "longName" := "rb", "three" := "renamed3"]
  }

  /** The documented behaviour the examples rely on: a property path renamed
      inside an expression and inside a script, and a malformed expression
      rejected. */
  ghost predicate RenamesAsDocumented(c: Collaborators)
  {
    && c.renamePolymerJsExpression(TestMap(), "exp.a") == Ok("exp.renamedA")
    && c.renamePolymerJsExpression(TestMap(), "InvalidJs)a,b,c(").Err?
    && c.renameProperties(TestMap(), "exp.a;") == "exp.renamedA;"
  }

  /** The tokens of `x=` followed by a binding of expr between the given delimiters. */
  function Binding(open: TokenKind, openText: string, expr: string, close: TokenKind, closeText: string): seq<Token>
  {
    [Token(Str, "x="), Token(open, openText), Token(Str, expr), Token(close, closeText)]
  }

  /** The spliced output of a four-token binding, spelled out. */
  lemma SplicedBinding(c: Collaborators, m: RenameMap, mode: RenameMode,
                       open: TokenKind, openText: string, expr: string, close: TokenKind, closeText: string)
    requires close != Str || !Opens(mode, Token(open, openText))
    ensures Spliced(c, m, mode, Binding(open, openText, expr, close, closeText)) ==
        match Render(c, m, Token(Str, expr), Opens(mode, Token(open, openText)))
        case Err(e) => Err(e)
        case Ok(p) => Ok("x=" + openText + p + closeText)
  {
    var t0, t1, t2, t3 := Token(Str, "x="), Token(open, openText), Token(Str, expr), Token(close, closeText);
    SplicedSnoc(c, m, mode, [], t0);
    assert [] + [t0] == [t0];
    assert [t0][..0] == [];
    SplicedSnoc(c, m, mode, [t0], t1);
    assert [t0] + [t1] == [t0, t1];
    assert [t0, t1][..1] == [t0];
    SplicedSnoc(c, m, mode, [t0, t1], t2);
    assert [t0, t1] + [t2] == [t0, t1, t2];
    assert [t0, t1, t2][..2] == [t0, t1];
    SplicedSnoc(c, m, mode, [t0, t1, t2], t3);
    assert [t0, t1, t2] + [t3] == Binding(open, openText, expr, close, closeText);
    assert !InsideAfter(mode, [t0]);
    assert InsideAfter(mode, [t0, t1]) == Opens(mode, t1);
    assert InsideAfter(mode, [t0, t1, t2]) == Opens(mode, t1);
    assert "" + "x=" == "x=";
    assert Spliced(c, m, mode, [t0]) == Ok("x=");
    assert Spliced(c, m, mode, [t0, t1]) == Ok("x=" + openText);
  }

  /** A curly binding is renamed in either dialect. */
  lemma CurlyBindingRenamed(c: Collaborators, mode: RenameMode)
    requires RenamesAsDocumented(c)
    ensures Spliced(c, TestMap(), mode, Binding(OpenCurlyBraces, "{{", "exp.a", CloseCurlyBraces, "}}"))
         == Ok("x=" + "{{" + "exp.renamedA" + "}}")
  {
    SplicedBinding(c, TestMap(), mode, OpenCurlyBraces, "{{", "exp.a", CloseCurlyBraces, "}}");
    assert Opens(mode, Token(OpenCurlyBraces, "{{"));
    assert Render(c, TestMap(), Token(Str, "exp.a"), true) == Ok("exp.renamedA");
  }

  /** A square binding is renamed in 0.8 ... */
  lemma SquareBindingRenamedIn08(c: Collaborators)
    requires RenamesAsDocumented(c)
    ensures Spliced(c, TestMap(), Polymer08, Binding(OpenSquareBraces, "[[", "exp.a", CloseSquareBraces, "]]"))
         == Ok("x=" + "[[" + "exp.renamedA" + "]]")
  {
    SplicedBinding(c, TestMap(), Polymer08, OpenSquareBraces, "[[", "exp.a", CloseSquareBraces, "]]");
    assert Render(c, TestMap(), Token(Str, "exp.a"), true) == Ok("exp.renamedA");
  }

  /** ... and copied as plain text in 0.5. */
  lemma SquareBindingKeptIn05(c: Collaborators)
    ensures Spliced(c, TestMap(), Polymer05, Binding(OpenSquareBraces, "[[", "exp.a", CloseSquareBraces, "]]"))
         == Ok("x=" + "[[" + "exp.a" + "]]")
  {
    SplicedBinding(c, TestMap(), Polymer05, OpenSquareBraces, "[[", "exp.a", CloseSquareBraces, "]]");
  }

  /** A malformed expression inside a binding aborts the splice with the renamer's error. */
  lemma MalformedBindingAborts(c: Collaborators, mode: RenameMode)
    requires RenamesAsDocumented(c)
    ensures Spliced(c, TestMap(), mode, Binding(OpenCurlyBraces, "{{", "InvalidJs)a,b,c(", CloseCurlyBraces, "}}"))
         == Err(c.renamePolymerJsExpression(TestMap(), "InvalidJs)a,b,c(").error)
  {
    SplicedBinding(c, TestMap(), mode, OpenCurlyBraces, "{{", "InvalidJs)a,b,c(", CloseCurlyBraces, "}}");
  }

  /** The same malformed text outside any binding is copied unchanged. */
  lemma MalformedTextOutsideBindingKept(c: Collaborators, mode: RenameMode)
    requires RenamesAsDocumented(c)
    ensures Spliced(c, TestMap(), mode, Binding(Str, "(", "InvalidJs)a,b,c(", Str, ")"))
         == Ok("x=" + "(" + "InvalidJs)a,b,c(" + ")")
  {
    SplicedBinding(c, TestMap(), mode, Str, "(", "InvalidJs)a,b,c(", Str, ")");
  }

  /** A style sheet that follows a script in one declaration is rewritten as script. */
  lemma StyleSheetAfterScriptExample(c: Collaborators, mode: RenameMode)
    requires RenamesAsDocumented(c)
    ensures Walk(c, TestMap(), mode, AsWritten, false, ScriptThenStyle("", "exp.a;"))
         == Ok((Element("dom-module", [], [Element("script", [], [Data(c.renameProperties(TestMap(), ""))]),
                                           Element("style", [], [Data("exp.renamedA;")])]), true))
  {
    StyleAfterScriptRewritten(c, TestMap(), mode, "", "exp.a;");
  }
}
