/** The document-level passes of HtmlRenamer.rename as functions: the dialect
    chosen for the document, the walk over every declaration element with the
    custom tag names collected on the way, and the attribute-key remapping of
    the custom elements that follows. */
module DocumentPass {
  import opened Types
  import opened Dom
  import opened Traversal

  /** POLYMER_0_8 exactly when the document holds a dom-module element. */
  ghost function ModeOf(doc: Node): RenameMode
  {
    if HasTag(doc, "dom-module") then Polymer08 else Polymer05
  }

  /** The tag of the elements whose subtrees are walked. */
  function DeclarationTag(mode: RenameMode): string
  {
    if mode == Polymer08 then "dom-module" else "polymer-element"
  }

  /** The custom tag name a declaration adds to the list: its non-empty name, in 0.8 only. */
  function CollectedName(mode: RenameMode, attrs: seq<Attribute>): seq<string>
  {
    var name := AttrValue(attrs, "name");
    if mode == Polymer08 && name != "" then [name] else []
  }

  /** The first pass: every declaration element, in document order, has its
      name collected and its subtree walked by the one visitor, whose script
      flag carries over from one declaration to the next. A declaration nested
      in another is walked again after the outer walk, as the library hands
      both to the loop. */
  function Declarations(c: Collaborators, m: RenameMap, mode: RenameMode, inScript: bool, names: seq<string>, n: Node)
    : Result<(Node, bool, seq<string>)>
    decreases Size(n), 1
  {
    if n.Element? && n.tag == DeclarationTag(mode) then
      var names1 := names + CollectedName(mode, n.attrs);
      match Walk(c, m, mode, AsWritten, inScript, n)
      case Err(e) => Err(e)
      case Ok((n1, f1)) =>
        WalkPreservesShape(c, m, mode, AsWritten, inScript, n);
        SameShapeSize(n, n1);
        match DeclarationsIn(c, m, mode, f1, names1, n1.children)
        case Err(e) => Err(e)
        case Ok((cs, f2, names2)) => Ok((n1.(children := cs), f2, names2))
    else if n.Element? then
      match DeclarationsIn(c, m, mode, inScript, names, n.children)
      case Err(e) => Err(e)
      case Ok((cs, f, names1)) => Ok((n.(children := cs), f, names1))
    else Ok((n, inScript, names))
  }

  function DeclarationsIn(c: Collaborators, m: RenameMap, mode: RenameMode, inScript: bool, names: seq<string>, cs: seq<Node>)
    : Result<(seq<Node>, bool, seq<string>)>
    decreases SizeOf(cs), 2
  {
    if cs == [] then Ok(([], inScript, names))
    else
      match Declarations(c, m, mode, inScript, names, cs[0])
      case Err(e) => Err(e)
      case Ok((n0, f0, names0)) =>
        match DeclarationsIn(c, m, mode, f0, names0, cs[1..])
        case Err(e) => Err(e)
        case Ok((rest, f, names1)) => Ok(([n0] + rest, f, names1))
  }

  /** An attribute key after the second pass: its camel-case form looked up in
      the map and, when found, the renamed property in hyphenated form. */
  function RemappedKey(c: Collaborators, m: RenameMap, key: string): string
  {
    var camel := c.lowerHyphenToLowerCamel(key);
    if camel in m then c.lowerCamelToLowerHyphen(m[camel]) else key
  }

  function RemappedKeys(c: Collaborators, m: RenameMap, attrs: seq<Attribute>): seq<Attribute>
  {
    seq(|attrs|, i requires 0 <= i < |attrs| => Attribute(RemappedKey(c, m, attrs[i].key), attrs[i].value))
  }

  /** The keys of every element tagged name remapped. */
  function Remapped(c: Collaborators, m: RenameMap, name: string, n: Node): Node
    decreases n
  {
    match n
    case Element(tag, attrs, cs) =>
      Element(tag, if tag == name then RemappedKeys(c, m, attrs) else attrs,
              seq(|cs|, i requires 0 <= i < |cs| => Remapped(c, m, name, cs[i])))
    case _ => n
  }

  /** The second pass: one remapping per collected name, in order (a name
      collected twice is remapped twice). */
  function RemappedAll(c: Collaborators, m: RenameMap, names: seq<string>, doc: Node): Node
    decreases |names|
  {
    if names == [] then doc
    else Remapped(c, m, names[|names| - 1], RemappedAll(c, m, names[..|names| - 1], doc))
  }

  /** HtmlRenamer.rename on the parsed document. */
  ghost function Renamed(c: Collaborators, m: RenameMap, doc: Node): Result<Node>
  {
    match Declarations(c, m, ModeOf(doc), false, [], doc)
    case Err(e) => Err(e)
    case Ok((d, _, names)) => Ok(RemappedAll(c, m, names, d))
  }

  // ---------------------------------------------------------------------
  // The names collected by the first pass

  /** The first pass only appends to the name list, only non-empty names, and
      nothing at all in 0.5 mode. */
  lemma {:induction false} DeclarationsNames(c: Collaborators, m: RenameMap, mode: RenameMode, inScript: bool, names: seq<string>, n: Node)
    requires Declarations(c, m, mode, inScript, names, n).Ok?
    ensures var out := Declarations(c, m, mode, inScript, names, n).value.2;
      && names <= out
      && (mode == Polymer05 ==> out == names)
      && forall k :: |names| <= k < |out| ==> out[k] != ""
    decreases Size(n), 1
  {
    if n.Element? && n.tag == DeclarationTag(mode) {
      var names1 := names + CollectedName(mode, n.attrs);
      var w := Walk(c, m, mode, AsWritten, inScript, n).value;
      WalkPreservesShape(c, m, mode, AsWritten, inScript, n);
      SameShapeSize(n, w.0);
      DeclarationsInNames(c, m, mode, w.1, names1, w.0.children);
    } else if n.Element? {
      DeclarationsInNames(c, m, mode, inScript, names, n.children);
    }
  }

  lemma {:induction false} DeclarationsInNames(c: Collaborators, m: RenameMap, mode: RenameMode, inScript: bool, names: seq<string>, cs: seq<Node>)
    requires DeclarationsIn(c, m, mode, inScript, names, cs).Ok?
    ensures var out := DeclarationsIn(c, m, mode, inScript, names, cs).value.2;
      && names <= out
      && (mode == Polymer05 ==> out == names)
      && forall k :: |names| <= k < |out| ==> out[k] != ""
    decreases SizeOf(cs), 2
  {
    if cs != [] {
      DeclarationsNames(c, m, mode, inScript, names, cs[0]);
      var d := Declarations(c, m, mode, inScript, names, cs[0]).value;
      DeclarationsInNames(c, m, mode, d.1, d.2, cs[1..]);
    }
  }

  // ---------------------------------------------------------------------
  // What the first pass leaves alone

  lemma {:induction false} SameShapeTransitive(a: Node, b: Node, d: Node)
    requires SameShape(a, b) && SameShape(b, d)
    ensures SameShape(a, d)
    decreases a
  {
    if a.Element? {
      forall i | 0 <= i < |a.children| ensures SameShape(a.children[i], d.children[i]) {
        SameShapeTransitive(a.children[i], b.children[i], d.children[i]);
      }
    }
  }

  /** Outside the declaration subtrees nothing changes; a declaration subtree
      keeps its shape. */
  ghost predicate KeptOutside(declTag: string, n: Node, out: Node)
    decreases n
  {
    match n
    case Element(tag, attrs, cs) =>
      if tag == declTag then SameShape(n, out)
      else
        && out.Element? && out.tag == tag && out.attrs == attrs && |out.children| == |cs|
        && forall i :: 0 <= i < |cs| ==> KeptOutside(declTag, cs[i], out.children[i])
    case _ => out == n
  }

  /** Only subtrees rooted at declaration elements are visited, so every node
      outside them comes out as it went in. */
  lemma {:induction false} DeclarationsKeepOutside(c: Collaborators, m: RenameMap, mode: RenameMode, inScript: bool, names: seq<string>, n: Node)
    requires Declarations(c, m, mode, inScript, names, n).Ok?
    ensures var out := Declarations(c, m, mode, inScript, names, n).value.0;
      SameShape(n, out) && KeptOutside(DeclarationTag(mode), n, out)
    decreases Size(n), 1
  {
    if n.Element? && n.tag == DeclarationTag(mode) {
      var names1 := names + CollectedName(mode, n.attrs);
      var w := Walk(c, m, mode, AsWritten, inScript, n).value;
      WalkPreservesShape(c, m, mode, AsWritten, inScript, n);
      SameShapeSize(n, w.0);
      DeclarationsInKeepOutside(c, m, mode, w.1, names1, w.0.children);
      var out := Declarations(c, m, mode, inScript, names, n).value.0;
      assert SameShape(w.0, out);
      SameShapeTransitive(n, w.0, out);
    } else if n.Element? {
      DeclarationsInKeepOutside(c, m, mode, inScript, names, n.children);
    }
  }

  lemma {:induction false} DeclarationsInKeepOutside(c: Collaborators, m: RenameMap, mode: RenameMode, inScript: bool, names: seq<string>, cs: seq<Node>)
    requires DeclarationsIn(c, m, mode, inScript, names, cs).Ok?
    ensures var out := DeclarationsIn(c, m, mode, inScript, names, cs).value.0;
      && |out| == |cs|
      && forall i :: 0 <= i < |cs| ==> SameShape(cs[i], out[i]) && KeptOutside(DeclarationTag(mode), cs[i], out[i])
    decreases SizeOf(cs), 2
  {
    if cs != [] {
      DeclarationsKeepOutside(c, m, mode, inScript, names, cs[0]);
      var d := Declarations(c, m, mode, inScript, names, cs[0]).value;
      DeclarationsInKeepOutside(c, m, mode, d.1, d.2, cs[1..]);
      var out := DeclarationsIn(c, m, mode, inScript, names, cs).value.0;
      forall i | 0 <= i < |cs| ensures SameShape(cs[i], out[i]) && KeptOutside(DeclarationTag(mode), cs[i], out[i]) {
        if i > 0 {
          assert cs[i] == cs[1..][i - 1];
        }
      }
    }
  }

  /** A tree without declaration elements is kept whole. */
  lemma {:induction false} KeptOutsideWithoutDeclarations(declTag: string, n: Node, out: Node)
    requires !HasTag(n, declTag)
    requires KeptOutside(declTag, n, out)
    ensures out == n
    decreases n
  {
    if n.Element? {
      forall i | 0 <= i < |n.children| ensures out.children[i] == n.children[i] {
        KeptOutsideWithoutDeclarations(declTag, n.children[i], out.children[i]);
      }
      assert out.children == n.children;
    }
  }

  // ---------------------------------------------------------------------
  // The second pass

  /** out differs from n in attribute keys only, and only on elements whose
      tag is one of names. */
  ghost predicate KeysOnlyChanged(names: seq<string>, n: Node, out: Node)
    decreases n
  {
    match n
    case Element(tag, attrs, cs) =>
      && out.Element? && out.tag == tag && |out.attrs| == |attrs| && |out.children| == |cs|
      && (forall i :: 0 <= i < |attrs| ==> out.attrs[i].value == attrs[i].value)
      && (tag !in names ==> out.attrs == attrs)
      && forall i :: 0 <= i < |cs| ==> KeysOnlyChanged(names, cs[i], out.children[i])
    case _ => out == n
  }

  lemma {:induction false} KeysOnlyChangedReflexive(names: seq<string>, n: Node)
    ensures KeysOnlyChanged(names, n, n)
    decreases n
  {
    if n.Element? {
      forall i | 0 <= i < |n.children| ensures KeysOnlyChanged(names, n.children[i], n.children[i]) {
        KeysOnlyChangedReflexive(names, n.children[i]);
      }
    }
  }

  lemma {:induction false} KeysOnlyChangedCompose(ns1: seq<string>, ns2: seq<string>, a: Node, b: Node, d: Node)
    requires KeysOnlyChanged(ns1, a, b) && KeysOnlyChanged(ns2, b, d)
    ensures KeysOnlyChanged(ns1 + ns2, a, d)
    decreases a
  {
    if a.Element? {
      forall i | 0 <= i < |a.children| ensures KeysOnlyChanged(ns1 + ns2, a.children[i], d.children[i]) {
        KeysOnlyChangedCompose(ns1, ns2, a.children[i], b.children[i], d.children[i]);
      }
    }
  }

  /** One remapping changes attribute keys only, and only on elements tagged name. */
  lemma {:induction false} RemappedKeysOnly(c: Collaborators, m: RenameMap, name: string, n: Node)
    ensures KeysOnlyChanged([name], n, Remapped(c, m, name, n))
    decreases n
  {
    if n.Element? {
      forall i | 0 <= i < |n.children| ensures KeysOnlyChanged([name], n.children[i], Remapped(c, m, name, n).children[i]) {
        RemappedKeysOnly(c, m, name, n.children[i]);
      }
    }
  }

  /** The whole second pass changes attribute keys only, never values, and only
      on elements whose tag was collected. */
  lemma {:induction false} RemappedAllKeysOnly(c: Collaborators, m: RenameMap, names: seq<string>, doc: Node)
    ensures KeysOnlyChanged(names, doc, RemappedAll(c, m, names, doc))
    decreases |names|
  {
    if names == [] {
      KeysOnlyChangedReflexive(names, doc);
    } else {
      var init := names[..|names| - 1];
      RemappedAllKeysOnly(c, m, init, doc);
      var mid := RemappedAll(c, m, init, doc);
      RemappedKeysOnly(c, m, names[|names| - 1], mid);
      KeysOnlyChangedCompose(init, [names[|names| - 1]], doc, mid, Remapped(c, m, names[|names| - 1], mid));
      assert init + [names[|names| - 1]] == names;
    }
  }

  // ---------------------------------------------------------------------
  // The whole rename

  /** In 0.5 mode no name is collected, so the second pass changes nothing and
      the result is the first pass's; outside the polymer-element subtrees
      the document is unchanged. */
  lemma Polymer05OnlyFirstPass(c: Collaborators, m: RenameMap, doc: Node)
    requires !HasTag(doc, "dom-module")
    requires Declarations(c, m, Polymer05, false, [], doc).Ok?
    ensures Renamed(c, m, doc) == Ok(Declarations(c, m, Polymer05, false, [], doc).value.0)
    ensures KeptOutside("polymer-element", doc, Renamed(c, m, doc).value)
  {
    DeclarationsNames(c, m, Polymer05, false, [], doc);
    DeclarationsKeepOutside(c, m, Polymer05, false, [], doc);
  }

  /** The result has the document's shape; outside the declaration subtrees
      only attribute keys of collected custom elements may differ. */
  lemma RenamedKeepsOutside(c: Collaborators, m: RenameMap, doc: Node)
    requires Renamed(c, m, doc).Ok?
    ensures var d := Declarations(c, m, ModeOf(doc), false, [], doc).value;
      && KeptOutside(DeclarationTag(ModeOf(doc)), doc, d.0)
      && KeysOnlyChanged(d.2, d.0, Renamed(c, m, doc).value)
      && forall k :: 0 <= k < |d.2| ==> d.2[k] != ""
  {
    DeclarationsKeepOutside(c, m, ModeOf(doc), false, [], doc);
    DeclarationsNames(c, m, ModeOf(doc), false, [], doc);
    var d := Declarations(c, m, ModeOf(doc), false, [], doc).value;
    RemappedAllKeysOnly(c, m, d.2, d.0);
  }

  /** A document without any declaration element comes out unchanged. */
  lemma NoDeclarationsNoChange(c: Collaborators, m: RenameMap, doc: Node)
    requires !HasTag(doc, "dom-module") && !HasTag(doc, "polymer-element")
    ensures Renamed(c, m, doc) == Ok(doc)
  {
    DeclarationsWithoutDeclarationTag(c, m, Polymer05, false, [], doc);
  }

  /** With no declaration element in n the first pass leaves everything as it was. */
  lemma {:induction false} DeclarationsWithoutDeclarationTag(c: Collaborators, m: RenameMap, mode: RenameMode, inScript: bool, names: seq<string>, n: Node)
    requires !HasTag(n, DeclarationTag(mode))
    ensures Declarations(c, m, mode, inScript, names, n) == Ok((n, inScript, names))
    decreases Size(n), 1
  {
    if n.Element? {
      DeclarationsInWithoutDeclarationTag(c, m, mode, inScript, names, n.children);
    }
  }

  lemma {:induction false} DeclarationsInWithoutDeclarationTag(c: Collaborators, m: RenameMap, mode: RenameMode, inScript: bool, names: seq<string>, cs: seq<Node>)
    requires forall i :: 0 <= i < |cs| ==> !HasTag(cs[i], DeclarationTag(mode))
    ensures DeclarationsIn(c, m, mode, inScript, names, cs) == Ok((cs, inScript, names))
    decreases SizeOf(cs), 2
  {
    if cs != [] {
      DeclarationsWithoutDeclarationTag(c, m, mode, inScript, names, cs[0]);
      DeclarationsInWithoutDeclarationTag(c, m, mode, inScript, names, cs[1..]);
      assert [cs[0]] + cs[1..] == cs;
    }
  }

  /** With collaborators that change nothing under the empty map, rename
      returns the document it was given. */
  lemma RenamedTransparent(c: Collaborators, doc: Node)
    requires Transparent(c, map[])
    ensures Renamed(c, map[], doc) == Ok(doc)
  {
    var mode := ModeOf(doc);
    DeclarationsTransparent(c, mode, false, [], doc);
    var names := Declarations(c, map[], mode, false, [], doc).value.2;
    RemappedAllEmptyMap(c, names, doc);
  }

  lemma {:induction false} DeclarationsTransparent(c: Collaborators, mode: RenameMode, inScript: bool, names: seq<string>, n: Node)
    requires Transparent(c, map[])
    ensures Declarations(c, map[], mode, inScript, names, n).Ok?
    ensures Declarations(c, map[], mode, inScript, names, n).value.0 == n
    decreases Size(n), 1
  {
    if n.Element? && n.tag == DeclarationTag(mode) {
      WalkTransparent(c, mode, AsWritten, inScript, n);
      var f1 := Walk(c, map[], mode, AsWritten, inScript, n).value.1;
      DeclarationsInTransparent(c, mode, f1, names + CollectedName(mode, n.attrs), n.children);
    } else if n.Element? {
      DeclarationsInTransparent(c, mode, inScript, names, n.children);
    }
  }

  lemma {:induction false} DeclarationsInTransparent(c: Collaborators, mode: RenameMode, inScript: bool, names: seq<string>, cs: seq<Node>)
    requires Transparent(c, map[])
    ensures DeclarationsIn(c, map[], mode, inScript, names, cs).Ok?
    ensures DeclarationsIn(c, map[], mode, inScript, names, cs).value.0 == cs
    decreases SizeOf(cs), 2
  {
    if cs != [] {
      DeclarationsTransparent(c, mode, inScript, names, cs[0]);
      var d := Declarations(c, map[], mode, inScript, names, cs[0]).value;
      DeclarationsInTransparent(c, mode, d.1, d.2, cs[1..]);
      assert [cs[0]] + cs[1..] == cs;
    }
  }

  lemma {:induction false} RemappedEmptyMap(c: Collaborators, name: string, n: Node)
    ensures Remapped(c, map[], name, n) == n
    decreases n
  {
    if n.Element? {
      forall i | 0 <= i < |n.children| ensures Remapped(c, map[], name, n.children[i]) == n.children[i] {
        RemappedEmptyMap(c, name, n.children[i]);
      }
      assert RemappedKeys(c, map[], n.attrs) == n.attrs;
      assert Remapped(c, map[], name, n).children == n.children;
    }
  }

  lemma {:induction false} RemappedAllEmptyMap(c: Collaborators, names: seq<string>, doc: Node)
    ensures RemappedAll(c, map[], names, doc) == doc
    decreases |names|
  {
    if names != [] {
      RemappedAllEmptyMap(c, names[..|names| - 1], doc);
      RemappedEmptyMap(c, names[|names| - 1], doc);
    }
  }
}
