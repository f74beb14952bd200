/** HtmlRenamer: the node visitor with its script flag, and rename, which picks
    the dialect, walks the declarations and remaps the attribute keys of the
    custom elements. Each method is proved equal to the function in Splice,
    AttributeList, Traversal or DocumentPass that specifies it. */
module HtmlRenamer {
  import opened Types
  import opened Dom
  import opened Splice
  import opened AttributeList
  import opened Traversal
  import opened DocumentPass

  /** The wrapped outcome of a walk whose first children are already done. */
  function Prepend(done: seq<Node>, w: Result<(seq<Node>, bool)>): Result<(seq<Node>, bool)>
  {
    match w
    case Err(e) => Err(e)
    case Ok((rest, f)) => Ok((done + rest, f))
  }

  lemma PrependNothing(w: Result<(seq<Node>, bool)>)
    ensures Prepend([], w) == w
  {
    if w.Ok? {
      assert [] + w.value.0 == w.value.0;
    }
  }

  lemma PrependTwice(done: seq<Node>, n0: Node, w: Result<(seq<Node>, bool)>)
    ensures Prepend(done, Prepend([n0], w)) == Prepend(done + [n0], w)
  {
    if w.Ok? {
      assert done + ([n0] + w.value.0) == (done + [n0]) + w.value.0;
    }
  }

  /** The walk of the children from position i: child i, then the rest. */
  lemma WalkChildrenFrom(c: Collaborators, m: RenameMap, mode: RenameMode, f: bool, cs: seq<Node>, i: int)
    requires 0 <= i < |cs|
    ensures WalkChildren(c, m, mode, AsWritten, f, cs[i..]) ==
      match Walk(c, m, mode, AsWritten, f, cs[i])
      case Err(e) => Err(e)
      case Ok((n0, f0)) => Prepend([n0], WalkChildren(c, m, mode, AsWritten, f0, cs[i + 1..]))
  {
    assert cs[i..][0] == cs[i];
    assert cs[i..][1..] == cs[i + 1..];
  }

  /** The visitor handed to the traversal: the rename map and dialect are fixed,
      the script flag changes as the walk enters and leaves nodes. */
  class DatabindingRenamer {
    const renameMap: RenameMap
    const renameMode: RenameMode
    const collab: Collaborators

    /** Set while the walk is inside a script element. */
    var insideScriptElement: bool

    constructor (collab: Collaborators, renameMap: RenameMap, renameMode: RenameMode)
      ensures this.collab == collab && this.renameMap == renameMap && this.renameMode == renameMode
      ensures !insideScriptElement
    {
      this.collab := collab;
      this.renameMap := renameMap;
      this.renameMode := renameMode;
      insideScriptElement := false;
    }

    /** The visitor's entry action: the node as rewritten, with the flag set
        on entering a script element. */
    method Head(n: Node) returns (r: Result<Node>)
      modifies this
      ensures r == HeadNode(collab, renameMap, renameMode, old(insideScriptElement), n)
      ensures insideScriptElement == HeadFlag(old(insideScriptElement), n)
    {
      match n
      case Element(tag, attrs, cs) =>
        if tag == "polymer-element" {
          var a := RenameAttributesAttributeValue(attrs);
          r := Ok(Element(tag, a, cs));
        } else if tag == "script" {
          insideScriptElement := true;
          r := Ok(n);
        } else {
          var a := RenameAllAttributeValues(attrs);
          if a.Err? {
            r := Err(a.error);
          } else {
            r := Ok(Element(tag, a.value, cs));
          }
        }
      case Text(s) =>
        var t := RenameStringWithDatabindingDirectives(s);
        if t.Err? {
          r := Err(t.error);
        } else {
          r := Ok(Text(t.value));
        }
      case Data(d) =>
        if insideScriptElement {
          r := Ok(Data(collab.renameProperties(renameMap, d)));
        } else {
          r := Ok(n);
        }
    }

    /** The visitor's exit action: the element's Tag object is compared with
        the String "script", a comparison that is never true. */
    method Tail(n: Node)
      modifies this
      ensures insideScriptElement == TailFlag(AsWritten, old(insideScriptElement), n)
    {
      if n.Element? {
        insideScriptElement := if TagEquals(n.tag, StringObject("script")) then false else insideScriptElement;
      }
    }

    /** The declared-attribute list with every word that is a key renamed;
        the attribute is written back only when some word was renamed. */
    method RenameAttributesAttributeValue(attrs: seq<Attribute>) returns (r: seq<Attribute>)
      ensures r == DeclaredAttributesRenamed(renameMap, attrs)
    {
      var attributesValue := AttrValue(attrs, "attributes");
      var modified := false;
      var words := JavaSplit(attributesValue);
      var properties := new string[|words|](i requires 0 <= i < |words| => words[i]);
      for i := 0 to properties.Length
        invariant forall j :: 0 <= j < i ==> properties[j] == RenamedWord(renameMap, words[j])
        invariant forall j :: i <= j < properties.Length ==> properties[j] == words[j]
        invariant modified <==> AnyKey(renameMap, words[..i])
      {
        var property := properties[i];
        AnyKeySnoc(renameMap, words, i);
        if property in renameMap {
          properties[i] := renameMap[property];
          modified := true;
        }
        assert properties[i] == RenamedWord(renameMap, words[i]);
      }
      assert words[..properties.Length] == words;
      assert properties[..] == RenameWords(renameMap, words);
      if modified {
        r := SetAttr(attrs, "attributes", Join(properties[..]));
      } else {
        r := attrs;
      }
    }

    /** Every attribute value passed through the splicer, in order. */
    method RenameAllAttributeValues(attrs: seq<Attribute>) returns (r: Result<seq<Attribute>>)
      ensures r == SplicedAttributes(collab, renameMap, renameMode, attrs)
    {
      var done: seq<Attribute> := [];
      for i := 0 to |attrs|
        invariant SplicedAttributes(collab, renameMap, renameMode, attrs[..i]) == Ok(done)
      {
        assert attrs[..i + 1][..i] == attrs[..i];
        var v := RenameStringWithDatabindingDirectives(attrs[i].value);
        if v.Err? {
          SplicedAttributesErrSticky(collab, renameMap, renameMode, attrs, i + 1);
          return Err(v.error);
        }
        done := done + [Attribute(attrs[i].key, v.value)];
      }
      assert attrs[..|attrs|] == attrs;
      r := Ok(done);
    }

    /** The splicer over the lexed input: STRING tokens inside a binding span
        go through the expression renamer, everything else is copied. */
    method RenameStringWithDatabindingDirectives(input: string) returns (r: Result<string>)
      ensures r == Spliced(collab, renameMap, renameMode, collab.lex(input))
    {
      var tokens := collab.lex(input);
      var sb := "";
      var insideBraces := false;
      for i := 0 to |tokens|
        invariant Spliced(collab, renameMap, renameMode, tokens[..i]) == Ok(sb)
        invariant insideBraces == InsideAfter(renameMode, tokens[..i])
      {
        var t := tokens[i];
        SplicedSnoc(collab, renameMap, renameMode, tokens[..i], t);
        assert tokens[..i] + [t] == tokens[..i + 1];
        match t.kind
        case Str =>
          if insideBraces {
            var e := collab.renamePolymerJsExpression(renameMap, t.value);
            if e.Err? {
              SplicedErrSticky(collab, renameMap, renameMode, tokens, i + 1);
              return Err(e.error);
            }
            sb := sb + e.value;
          } else {
            sb := sb + t.value;
          }
        case OpenCurlyBraces =>
          insideBraces := true;
          sb := sb + t.value;
        case CloseCurlyBraces =>
          insideBraces := false;
          sb := sb + t.value;
        case OpenSquareBraces =>
          if renameMode == Polymer08 {
            insideBraces := true;
          }
          sb := sb + t.value;
        case CloseSquareBraces =>
          if renameMode == Polymer08 {
            insideBraces := false;
          }
          sb := sb + t.value;
      }
      assert tokens[..|tokens|] == tokens;
      r := Ok(sb);
    }

    /** NodeTraversor.traverse with this visitor: the subtree rewritten and the
        flag left as the walk leaves it; a failure aborts. */
    method Traverse(n: Node) returns (r: Result<Node>)
      modifies this
      ensures var w := Walk(collab, renameMap, renameMode, AsWritten, old(insideScriptElement), n);
        && (w.Err? ==> r == Err(w.error))
        && (w.Ok? ==> r == Ok(w.value.0) && insideScriptElement == w.value.1)
      decreases n
    {
      var h := Head(n);
      if h.Err? {
        return Err(h.error);
      }
      if !n.Element? {
        Tail(n);
        assert Walk(collab, renameMap, renameMode, AsWritten, old(insideScriptElement), n)
            == Ok((h.value, insideScriptElement));
        return h;
      }
      ghost var f1 := insideScriptElement;
      assert n.children[0..] == n.children;
      PrependNothing(WalkChildren(collab, renameMap, renameMode, AsWritten, f1, n.children));
      var done: seq<Node> := [];
      for i := 0 to |n.children|
        invariant WalkChildren(collab, renameMap, renameMode, AsWritten, f1, n.children)
               == Prepend(done, WalkChildren(collab, renameMap, renameMode, AsWritten, insideScriptElement, n.children[i..]))
      {
        WalkChildrenFrom(collab, renameMap, renameMode, insideScriptElement, n.children, i);
        var child := Traverse(n.children[i]);
        if child.Err? {
          return Err(child.error);
        }
        PrependTwice(done, child.value, WalkChildren(collab, renameMap, renameMode, AsWritten, insideScriptElement, n.children[i + 1..]));
        done := done + [child.value];
      }
      assert n.children[|n.children|..] == [];
      assert done + [] == done;
      assert WalkChildren(collab, renameMap, renameMode, AsWritten, f1, n.children) == Ok((done, insideScriptElement));
      Tail(n);
      r := Ok(h.value.(children := done));
    }
  }

  /** The declarations loop of rename: each declaration element, in document
      order, has its name collected (0.8 only, non-empty only) and is walked by
      the shared visitor; declarations inside it are reached in the walked
      subtree. */
  method TraverseDeclarations(renamer: DatabindingRenamer, names: seq<string>, n: Node)
    returns (r: Result<(Node, seq<string>)>)
    modifies renamer
    ensures var d := Declarations(renamer.collab, renamer.renameMap, renamer.renameMode, old(renamer.insideScriptElement), names, n);
      && (d.Err? ==> r == Err(d.error))
      && (d.Ok? ==> r == Ok((d.value.0, d.value.2)) && renamer.insideScriptElement == d.value.1)
    decreases Size(n), 1
  {
    if !n.Element? {
      return Ok((n, names));
    }
    var n1 := n;
    var names1 := names;
    if n.tag == DeclarationTag(renamer.renameMode) {
      if renamer.renameMode == Polymer08 {
        var polymerElementTagName := AttrValue(n.attrs, "name");
        if polymerElementTagName != "" {
          names1 := names1 + [polymerElementTagName];
        }
      }
      assert names1 == names + CollectedName(renamer.renameMode, n.attrs);
      ghost var f0 := renamer.insideScriptElement;
      var w := renamer.Traverse(n);
      if w.Err? {
        return Err(w.error);
      }
      assert Walk(renamer.collab, renamer.renameMap, renamer.renameMode, AsWritten, f0, n) == Ok((w.value, renamer.insideScriptElement));
      WalkPreservesShape(renamer.collab, renamer.renameMap, renamer.renameMode, AsWritten, f0, n);
      SameShapeSize(n, w.value);
      n1 := w.value;
    }
    var cs := TraverseDeclarationsIn(renamer, names1, n1.children);
    if cs.Err? {
      return Err(cs.error);
    }
    r := Ok((n1.(children := cs.value.0), cs.value.1));
  }

  method TraverseDeclarationsIn(renamer: DatabindingRenamer, names: seq<string>, cs: seq<Node>)
    returns (r: Result<(seq<Node>, seq<string>)>)
    modifies renamer
    ensures var d := DeclarationsIn(renamer.collab, renamer.renameMap, renamer.renameMode, old(renamer.insideScriptElement), names, cs);
      && (d.Err? ==> r == Err(d.error))
      && (d.Ok? ==> r == Ok((d.value.0, d.value.2)) && renamer.insideScriptElement == d.value.1)
    decreases SizeOf(cs), 2
  {
    if cs == [] {
      return Ok(([], names));
    }
    var first := TraverseDeclarations(renamer, names, cs[0]);
    if first.Err? {
      return Err(first.error);
    }
    var rest := TraverseDeclarationsIn(renamer, first.value.1, cs[1..]);
    if rest.Err? {
      return Err(rest.error);
    }
    r := Ok(([first.value.0] + rest.value.0, rest.value.1));
  }

  /** The key remapping of one custom element's attributes: a key whose
      camel-case form is in the map becomes the hyphenated renamed property;
      values and order are kept. */
  method RemapAttributeKeys(collab: Collaborators, renameMap: RenameMap, attrs: seq<Attribute>) returns (r: seq<Attribute>)
    ensures r == RemappedKeys(collab, renameMap, attrs)
    ensures |r| == |attrs|
    ensures forall i :: 0 <= i < |attrs| ==> r[i].value == attrs[i].value
    ensures forall i :: 0 <= i < |attrs| ==>
      var camel := collab.lowerHyphenToLowerCamel(attrs[i].key);
      r[i].key == if camel in renameMap then collab.lowerCamelToLowerHyphen(renameMap[camel]) else attrs[i].key
  {
    r := [];
    for i := 0 to |attrs|
      invariant r == RemappedKeys(collab, renameMap, attrs[..i])
    {
      var attribute := attrs[i];
      var camel := collab.lowerHyphenToLowerCamel(attribute.key);
      if camel in renameMap {
        var renamedProperty := renameMap[camel];
        attribute := attribute.(key := collab.lowerCamelToLowerHyphen(renamedProperty));
      }
      r := r + [attribute];
    }
    assert attrs[..|attrs|] == attrs;
  }

  /** Every element of the tree tagged name has its attribute keys remapped. */
  method RemapCustomElements(collab: Collaborators, renameMap: RenameMap, name: string, n: Node) returns (r: Node)
    ensures r == Remapped(collab, renameMap, name, n)
    decreases n
  {
    if !n.Element? {
      return n;
    }
    var attrs := n.attrs;
    if n.tag == name {
      attrs := RemapAttributeKeys(collab, renameMap, attrs);
    }
    var cs: seq<Node> := [];
    for i := 0 to |n.children|
      invariant |cs| == i
      invariant forall j :: 0 <= j < i ==> cs[j] == Remapped(collab, renameMap, name, n.children[j])
    {
      var c := RemapCustomElements(collab, renameMap, name, n.children[i]);
      cs := cs + [c];
    }
    r := Element(n.tag, attrs, cs);
  }

  /** HtmlRenamer.rename on a parsed document: 0.8 when a dom-module element
      is present, else 0.5; the declarations walked with one shared visitor;
      then, for each collected name in turn, the attribute keys of the
      elements so tagged remapped. */
  method Rename(collab: Collaborators, renameMap: RenameMap, document: Node) returns (r: Result<Node>)
    ensures r == Renamed(collab, renameMap, document)
  {
    var renameMode := Polymer08;
    var polymerDomElements := ElementsByTag(document, "dom-module");
    ElementsByTagEmptyIff(document, "dom-module");
    if |polymerDomElements| == 0 {
      renameMode := Polymer05;
    }
    var renamer := new DatabindingRenamer(collab, renameMap, renameMode);
    var first := TraverseDeclarations(renamer, [], document);
    if first.Err? {
      return Err(first.error);
    }
    var doc := first.value.0;
    var polymerCustomElements := first.value.1;
    for k := 0 to |polymerCustomElements|
      invariant doc == RemappedAll(collab, renameMap, polymerCustomElements[..k], first.value.0)
    {
      assert polymerCustomElements[..k + 1][..k] == polymerCustomElements[..k];
      doc := RemapCustomElements(collab, renameMap, polymerCustomElements[k], doc);
    }
    assert polymerCustomElements[..|polymerCustomElements|] == polymerCustomElements;
    r := Ok(doc);
  }
}
