/** The declared-attribute list of a 0.5 declaration element: a space-separated
    list of published property names, split the way java.lang.String.split(" ")
    splits and joined again with single spaces. */
module AttributeList {
  import opened Dom

  /** Every piece between two spaces, empty pieces included: k spaces give k + 1 pieces. */
  function SplitAll(s: string): (r: seq<string>)
    ensures |r| >= 1
    ensures forall i :: 0 <= i < |r| ==> ' ' !in r[i]
    decreases |s|
  {
    if s == [] then [""]
    else
      var r := SplitAll(s[..|s| - 1]);
      if s[|s| - 1] == ' ' then r + [""]
      else r[..|r| - 1] + [r[|r| - 1] + [s[|s| - 1]]]
  }

  /** Java's split with limit 0 removes the empty strings at the end of the array. */
  function DropTrailingEmpty(ws: seq<string>): (r: seq<string>)
    ensures r <= ws
    ensures forall i :: |r| <= i < |ws| ==> ws[i] == ""
    ensures |r| == 0 || r[|r| - 1] != ""
    decreases |ws|
  {
    if |ws| > 0 && ws[|ws| - 1] == "" then DropTrailingEmpty(ws[..|ws| - 1]) else ws
  }

  /** String.split(" "): the whole string when it holds no space, else every
      piece with the trailing empty ones dropped (so " " splits into nothing). */
  function JavaSplit(s: string): (r: seq<string>)
    ensures forall i :: 0 <= i < |r| ==> ' ' !in r[i]
  {
    if ' ' in s then DropTrailingEmpty(SplitAll(s)) else [s]
  }

  /** Joiner.on(" ").join(ws). */
  function Join(ws: seq<string>): string
    decreases |ws|
  {
    if |ws| == 0 then ""
    else if |ws| == 1 then ws[0]
    else Join(ws[..|ws| - 1]) + " " + ws[|ws| - 1]
  }

  function TrimTrailingSpaces(s: string): string
    decreases |s|
  {
    if |s| > 0 && s[|s| - 1] == ' ' then TrimTrailingSpaces(s[..|s| - 1]) else s
  }

  /** Splitting at every space and joining again gives the string back. */
  /** The last piece of the split grows by one character that is not a space. */
  lemma SplitAllSnocChar(s: string)
    requires |s| > 0 && s[|s| - 1] != ' '
    ensures var r := SplitAll(s[..|s| - 1]);
      SplitAll(s) == r[..|r| - 1] + [r[|r| - 1] + [s[|s| - 1]]]
  {
  }

  /** Appending a character to the last word extends the joined string by it. */
  lemma JoinExtendLast(r: seq<string>, ch: char)
    requires |r| >= 1
    ensures Join(r[..|r| - 1] + [r[|r| - 1] + [ch]]) == Join(r) + [ch]
  {
    var r' := r[..|r| - 1] + [r[|r| - 1] + [ch]];
    if |r| > 1 {
      assert r'[..|r'| - 1] == r[..|r| - 1];
    }
  }

  lemma {:induction false} JoinSplitAll(s: string)
    ensures Join(SplitAll(s)) == s
    decreases |s|
  {
    if s != [] {
      var init := s[..|s| - 1];
      var ch := s[|s| - 1];
      var r := SplitAll(init);
      JoinSplitAll(init);
      assert init + [ch] == s;
      if ch == ' ' {
        assert SplitAll(s) == r + [""];
        assert (r + [""])[..|r|] == r;
      } else {
        SplitAllSnocChar(s);
        JoinExtendLast(r, ch);
      }
    }
  }

  /** A string that does not end in a space splits into pieces the last of which is not empty. */
  lemma SplitAllLastNonEmpty(s: string)
    requires |s| > 0 && s[|s| - 1] != ' '
    ensures var r := SplitAll(s); r[|r| - 1] != ""
  {
    var r := SplitAll(s[..|s| - 1]);
    var r' := r[..|r| - 1] + [r[|r| - 1] + [s[|s| - 1]]];
    assert SplitAll(s) == r';
    assert r'[|r'| - 1] == r[|r| - 1] + [s[|s| - 1]];
  }

  lemma {:induction false} JoinDropSplitAll(s: string)
    ensures Join(DropTrailingEmpty(SplitAll(s))) == TrimTrailingSpaces(s)
    decreases |s|
  {
    if s == [] {
    } else if s[|s| - 1] == ' ' {
      var init := s[..|s| - 1];
      var r := SplitAll(init);
      JoinDropSplitAll(init);
      assert SplitAll(s) == r + [""];
      assert (r + [""])[..|r|] == r;
      assert DropTrailingEmpty(r + [""]) == DropTrailingEmpty(r);
      assert TrimTrailingSpaces(s) == TrimTrailingSpaces(init);
    } else {
      SplitAllLastNonEmpty(s);
      assert DropTrailingEmpty(SplitAll(s)) == SplitAll(s);
      assert TrimTrailingSpaces(s) == s;
      JoinSplitAll(s);
    }
  }

  /** Joining what split(" ") returns gives the original value without its
      trailing spaces: the only text a rewrite of the list can lose. */
  lemma JoinJavaSplit(s: string)
    ensures Join(JavaSplit(s)) == TrimTrailingSpaces(s)
  {
    if ' ' in s {
      JoinDropSplitAll(s);
    }
  }

  lemma {:induction false} SplitAllWord(w: string)
    requires ' ' !in w
    ensures SplitAll(w) == [w]
    decreases |w|
  {
    if w != [] {
      SplitAllWord(w[..|w| - 1]);
      assert w[..|w| - 1] + [w[|w| - 1]] == w;
    }
  }

  lemma {:induction false} SplitAllAppendWord(x: string, w: string)
    requires ' ' !in w
    ensures SplitAll(x + " " + w) == SplitAll(x) + [w]
    decreases |w|
  {
    var s := x + " " + w;
    if w == [] {
      assert s[..|s| - 1] == x;
    } else {
      var w' := w[..|w| - 1];
      var ch := w[|w| - 1];
      SplitAllAppendWord(x, w');
      assert s[..|s| - 1] == x + " " + w';
      SplitAllSnocChar(s);
      var r := SplitAll(x) + [w'];
      assert r[..|r| - 1] == SplitAll(x);
      assert w' + [ch] == w;
    }
  }

  /** Joining space-free words and splitting at every space gives the words back. */
  lemma {:induction false} SplitAllJoin(ws: seq<string>)
    requires |ws| >= 1
    requires forall i :: 0 <= i < |ws| ==> ' ' !in ws[i]
    ensures SplitAll(Join(ws)) == ws
    decreases |ws|
  {
    if |ws| == 1 {
      SplitAllWord(ws[0]);
    } else {
      var init := ws[..|ws| - 1];
      SplitAllJoin(init);
      SplitAllAppendWord(Join(init), ws[|ws| - 1]);
      assert init + [ws[|ws| - 1]] == ws;
    }
  }

  /** A word replaced by its renamed form when it is exactly a key of the map. */
  function RenamedWord(m: map<string, string>, w: string): string
  {
    if w in m then m[w] else w
  }

  /** Each word replaced by its renamed form when it is exactly a key of the map. */
  function RenameWords(m: map<string, string>, ws: seq<string>): (r: seq<string>)
    ensures |r| == |ws|
    ensures forall i :: 0 <= i < |ws| ==> r[i] == RenamedWord(m, ws[i])
    decreases |ws|
  {
    if ws == [] then []
    else
      var w := ws[|ws| - 1];
      RenameWords(m, ws[..|ws| - 1]) + [RenamedWord(m, w)]
  }

  /** Some word is exactly a key of the map. */
  predicate AnyKey(m: map<string, string>, ws: seq<string>)
  {
    exists i :: 0 <= i < |ws| && ws[i] in m
  }

  /** One more word: some word is a key exactly when an earlier one was or this one is. */
  lemma AnyKeySnoc(m: map<string, string>, ws: seq<string>, i: int)
    requires 0 <= i < |ws|
    ensures AnyKey(m, ws[..i + 1]) <==> AnyKey(m, ws[..i]) || ws[i] in m
  {
    if AnyKey(m, ws[..i + 1]) && ws[i] !in m {
      var j :| 0 <= j < i + 1 && ws[..i + 1][j] in m;
      assert ws[..i][j] == ws[j];
    }
    if AnyKey(m, ws[..i]) {
      var j :| 0 <= j < i && ws[..i][j] in m;
      assert ws[..i + 1][j] == ws[j];
    }
    if ws[i] in m {
      assert ws[..i + 1][i] == ws[i];
    }
  }

  /** What renameAttributesAttributeValue leaves as the element's attributes:
      the list rewritten and stored only when some word was a key. */
  function DeclaredAttributesRenamed(m: map<string, string>, attrs: seq<Attribute>): (r: seq<Attribute>)
    ensures OnlyAttrChanged(attrs, r, "attributes")
    ensures !AnyKey(m, JavaSplit(AttrValue(attrs, "attributes"))) ==> r == attrs
  {
    var words := JavaSplit(AttrValue(attrs, "attributes"));
    if AnyKey(m, words) then SetAttr(attrs, "attributes", Join(RenameWords(m, words))) else attrs
  }

  /** When the map's values hold no space, splitting the rewritten list at
      every space recovers the renamed words: as many words as before, each
      replaced exactly when it is a key. */
  lemma DeclaredWordsRecoverable(m: map<string, string>, attrs: seq<Attribute>)
    requires forall k :: k in m ==> ' ' !in m[k]
    requires AnyKey(m, JavaSplit(AttrValue(attrs, "attributes")))
    ensures SplitAll(AttrValue(DeclaredAttributesRenamed(m, attrs), "attributes"))
         == RenameWords(m, JavaSplit(AttrValue(attrs, "attributes")))
  {
    var words := JavaSplit(AttrValue(attrs, "attributes"));
    var renamed := RenameWords(m, words);
    assert |renamed| >= 1;
    forall i | 0 <= i < |renamed| ensures ' ' !in renamed[i] {
      assert ' ' !in words[i];
    }
    SplitAllJoin(renamed);
  }
}
