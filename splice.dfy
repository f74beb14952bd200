/** The binding-span splicer: which STRING tokens of a lexed attribute value or
    text node go through the binding-expression renamer, and how the pieces
    are put back together. */
module Splice {
  import opened Types

  /** The token sets `insideBraces`: a curly opener always, a square opener only in 0.8. */
  predicate Opens(mode: RenameMode, t: Token)
  {
    t.kind == OpenCurlyBraces || (mode == Polymer08 && t.kind == OpenSquareBraces)
  }

  /** The token clears `insideBraces`: a curly closer always, a square closer only in 0.8. */
  predicate Closes(mode: RenameMode, t: Token)
  {
    t.kind == CloseCurlyBraces || (mode == Polymer08 && t.kind == CloseSquareBraces)
  }

  predicate Toggles(mode: RenameMode, t: Token)
  {
    Opens(mode, t) || Closes(mode, t)
  }

  /** The value of `insideBraces` once the tokens ts have been consumed. */
  function InsideAfter(mode: RenameMode, ts: seq<Token>): bool
    decreases |ts|
  {
    if ts == [] then false
    else if Opens(mode, ts[|ts| - 1]) then true
    else if Closes(mode, ts[|ts| - 1]) then false
    else InsideAfter(mode, ts[..|ts| - 1])
  }

  /** What one token contributes to the output, given the flag before it. */
  function Render(c: Collaborators, m: RenameMap, t: Token, inside: bool): Result<string>
  {
    if t.kind == Str && inside then c.renamePolymerJsExpression(m, t.value) else Ok(t.value)
  }

  /** The output of the splicer over ts: the first renamer failure aborts. */
  function Spliced(c: Collaborators, m: RenameMap, mode: RenameMode, ts: seq<Token>): Result<string>
    decreases |ts|
  {
    if ts == [] then Ok("")
    else
      match Spliced(c, m, mode, ts[..|ts| - 1])
      case Err(e) => Err(e)
      case Ok(s) =>
        match Render(c, m, ts[|ts| - 1], InsideAfter(mode, ts[..|ts| - 1]))
        case Err(e) => Err(e)
        case Ok(p) => Ok(s + p)
  }

  /** No token after position j changes the flag. */
  ghost predicate NoToggleAfter(mode: RenameMode, ts: seq<Token>, j: int)
  {
    forall l :: 0 <= l < |ts| && j < l ==> !Toggles(mode, ts[l])
  }

  /** The last flag-changing token of ts exists and is an opener. */
  ghost predicate LastToggleOpens(mode: RenameMode, ts: seq<Token>)
  {
    exists j :: 0 <= j < |ts| && Opens(mode, ts[j]) && NoToggleAfter(mode, ts, j)
  }

  /** The flag is set exactly when the last flag-changing delimiter so far was an
      opener; closers of either counted kind end the span whatever the nesting. */
  lemma {:induction false} InsideAfterIffLastToggleOpens(mode: RenameMode, ts: seq<Token>)
    ensures InsideAfter(mode, ts) <==> LastToggleOpens(mode, ts)
    decreases |ts|
  {
    if ts != [] {
      var n := |ts| - 1;
      var init := ts[..n];
      InsideAfterIffLastToggleOpens(mode, init);
      if Opens(mode, ts[n]) {
        assert NoToggleAfter(mode, ts, n);
      } else if Closes(mode, ts[n]) {
        if LastToggleOpens(mode, ts) {
          var j :| 0 <= j < |ts| && Opens(mode, ts[j]) && NoToggleAfter(mode, ts, j);
          assert j < n && Toggles(mode, ts[n]);
        }
      } else {
        if LastToggleOpens(mode, init) {
          var j :| 0 <= j < |init| && Opens(mode, init[j]) && NoToggleAfter(mode, init, j);
          assert ts[j] == init[j];
          forall l | j < l < |ts| ensures !Toggles(mode, ts[l]) {
            if l < n {
              assert ts[l] == init[l];
            }
          }
        }
        if LastToggleOpens(mode, ts) {
          var j :| 0 <= j < |ts| && Opens(mode, ts[j]) && NoToggleAfter(mode, ts, j);
          assert j < n;
          assert init[j] == ts[j];
          forall l | j < l < |init| ensures !Toggles(mode, init[l]) {
            assert init[l] == ts[l];
          }
          assert NoToggleAfter(mode, init, j);
        }
      }
    }
  }

  /** An opener that is never closed leaves every later STRING inside a binding span. */
  lemma UnclosedOpenerSpansToEnd(mode: RenameMode, ts: seq<Token>, j: int, k: int)
    requires 0 <= j < k <= |ts|
    requires Opens(mode, ts[j])
    requires forall l :: j < l < k ==> !Toggles(mode, ts[l])
    ensures InsideAfter(mode, ts[..k])
  {
    var p := ts[..k];
    assert p[j] == ts[j];
    forall l | j < l < |p| ensures !Toggles(mode, p[l]) {
      assert p[l] == ts[l];
    }
    assert NoToggleAfter(mode, p, j);
    InsideAfterIffLastToggleOpens(mode, p);
  }

  /** In 0.5 mode a square-bracket token, wherever it is inserted, changes the
      flag at no later position, so it never starts or ends a rename. */
  lemma {:induction false} Polymer05SquareTokenInert(a: seq<Token>, sq: Token, b: seq<Token>)
    requires sq.kind == OpenSquareBraces || sq.kind == CloseSquareBraces
    ensures InsideAfter(Polymer05, a + [sq] + b) == InsideAfter(Polymer05, a + b)
    decreases |b|
  {
    if b == [] {
      assert (a + [sq] + b)[..|a + [sq] + b| - 1] == a;
      assert a + b == a;
    } else {
      var n := |b| - 1;
      Polymer05SquareTokenInert(a, sq, b[..n]);
      assert (a + [sq] + b)[..|a + [sq] + b| - 1] == a + [sq] + b[..n];
      assert (a + b)[..|a + b| - 1] == a + b[..n];
      assert (a + [sq] + b)[|a + [sq] + b| - 1] == b[n];
      assert (a + b)[|a + b| - 1] == b[n];
    }
  }

  /** One token appended: the splicer's output grows by that token's rendering. */
  lemma SplicedSnoc(c: Collaborators, m: RenameMap, mode: RenameMode, ts: seq<Token>, t: Token)
    ensures Spliced(c, m, mode, ts + [t]) ==
      match Spliced(c, m, mode, ts)
      case Err(e) => Err(e)
      case Ok(s) =>
        match Render(c, m, t, InsideAfter(mode, ts))
        case Err(e) => Err(e)
        case Ok(p) => Ok(s + p)
  {
    assert (ts + [t])[..|ts + [t]| - 1] == ts;
  }

  /** Once the splicer has failed on a prefix, the whole call fails with that error. */
  lemma {:induction false} SplicedErrSticky(c: Collaborators, m: RenameMap, mode: RenameMode, ts: seq<Token>, k: nat)
    requires k <= |ts|
    requires Spliced(c, m, mode, ts[..k]).Err?
    ensures Spliced(c, m, mode, ts) == Spliced(c, m, mode, ts[..k])
    decreases |ts| - k
  {
    if k < |ts| {
      SplicedSnoc(c, m, mode, ts[..k], ts[k]);
      assert ts[..k] + [ts[k]] == ts[..k + 1];
      SplicedErrSticky(c, m, mode, ts, k + 1);
    } else {
      assert ts[..k] == ts;
    }
  }

  /** A STRING token inside a binding span whose renaming fails. */
  ghost predicate FailsAt(c: Collaborators, m: RenameMap, mode: RenameMode, ts: seq<Token>, k: int)
    requires 0 <= k < |ts|
  {
    ts[k].kind == Str && InsideAfter(mode, ts[..k]) && c.renamePolymerJsExpression(m, ts[k].value).Err?
  }

  /** Whether a token fails depends only on the tokens before it. */
  lemma FailsAtPrefix(c: Collaborators, m: RenameMap, mode: RenameMode, ts: seq<Token>, j: int, k: int)
    requires 0 <= k < j <= |ts|
    ensures FailsAt(c, m, mode, ts[..j], k) == FailsAt(c, m, mode, ts, k)
  {
    assert ts[..j][..k] == ts[..k];
    assert ts[..j][k] == ts[k];
  }

  /** A failing STRING makes the whole splice fail. */
  lemma FailureAbortsSplice(c: Collaborators, m: RenameMap, mode: RenameMode, ts: seq<Token>, k: int)
    requires 0 <= k < |ts| && FailsAt(c, m, mode, ts, k)
    ensures Spliced(c, m, mode, ts).Err?
  {
    SplicedSnoc(c, m, mode, ts[..k], ts[k]);
    assert ts[..k] + [ts[k]] == ts[..k + 1];
    SplicedErrSticky(c, m, mode, ts, k + 1);
  }

  /** A failed splice has a failing STRING. */
  lemma {:induction false} SplicedErrHasFailure(c: Collaborators, m: RenameMap, mode: RenameMode, ts: seq<Token>)
    requires Spliced(c, m, mode, ts).Err?
    ensures exists k :: 0 <= k < |ts| && FailsAt(c, m, mode, ts, k)
    decreases |ts|
  {
    var n := |ts| - 1;
    var init := ts[..n];
    if Spliced(c, m, mode, init).Err? {
      SplicedErrHasFailure(c, m, mode, init);
      var k :| 0 <= k < |init| && FailsAt(c, m, mode, init, k);
      assert init == ts[..n];
      FailsAtPrefix(c, m, mode, ts, n, k);
    } else {
      assert FailsAt(c, m, mode, ts, n);
    }
  }

  /** The splicer fails exactly when some STRING inside a binding span fails to rename. */
  lemma SplicedFailsIff(c: Collaborators, m: RenameMap, mode: RenameMode, ts: seq<Token>)
    ensures Spliced(c, m, mode, ts).Err? <==> exists k :: 0 <= k < |ts| && FailsAt(c, m, mode, ts, k)
  {
    if Spliced(c, m, mode, ts).Err? {
      SplicedErrHasFailure(c, m, mode, ts);
    }
    if exists k :: 0 <= k < |ts| && FailsAt(c, m, mode, ts, k) {
      var k :| 0 <= k < |ts| && FailsAt(c, m, mode, ts, k);
      FailureAbortsSplice(c, m, mode, ts, k);
    }
  }

  /** Every STRING inside a binding span renames to itself. */
  ghost predicate SpansFixed(c: Collaborators, m: RenameMap, mode: RenameMode, ts: seq<Token>)
  {
    forall k :: 0 <= k < |ts| && ts[k].kind == Str && InsideAfter(mode, ts[..k]) ==>
      c.renamePolymerJsExpression(m, ts[k].value) == Ok(ts[k].value)
  }

  /** Delimiters and STRING tokens outside a binding are appended unchanged, so
      when the renamer leaves each in-span STRING alone the output is the
      concatenation of all token values. */
  lemma {:induction false} SplicedLossless(c: Collaborators, m: RenameMap, mode: RenameMode, ts: seq<Token>)
    requires SpansFixed(c, m, mode, ts)
    ensures Spliced(c, m, mode, ts) == Ok(ConcatValues(ts))
    decreases |ts|
  {
    if ts != [] {
      var n := |ts| - 1;
      var init := ts[..n];
      forall k | 0 <= k < |init| && init[k].kind == Str && InsideAfter(mode, init[..k])
        ensures c.renamePolymerJsExpression(m, init[k].value) == Ok(init[k].value)
      {
        assert init[..k] == ts[..k];
        assert init[k] == ts[k];
      }
      SplicedLossless(c, m, mode, init);
    }
  }

  /** With an identity expression renamer the splicer reproduces the token values. */
  lemma IdentityRenamerLossless(c: Collaborators, m: RenameMap, mode: RenameMode, ts: seq<Token>)
    requires forall s :: c.renamePolymerJsExpression(m, s) == Ok(s)
    ensures Spliced(c, m, mode, ts) == Ok(ConcatValues(ts))
  {
    SplicedLossless(c, m, mode, ts);
  }
}
