/** The visitor's behaviour as functions: what `head` does to a node on entry,
    what `tail` does to the script flag on exit, and the depth-first walk that
    calls them. */
module Traversal {
  import opened Types
  import opened Dom
  import opened Splice
  import opened AttributeList

  /** Every attribute value passed through the splicer, keys and order kept;
      the first failing value aborts. */
  function SplicedAttributes(c: Collaborators, m: RenameMap, mode: RenameMode, attrs: seq<Attribute>)
    : (r: Result<seq<Attribute>>)
    ensures r.Ok? ==>
      && |r.value| == |attrs|
      && forall i :: 0 <= i < |attrs| ==>
           r.value[i].key == attrs[i].key && Spliced(c, m, mode, c.lex(attrs[i].value)) == Ok(r.value[i].value)
    ensures r.Err? <==> exists i :: 0 <= i < |attrs| && Spliced(c, m, mode, c.lex(attrs[i].value)).Err?
    decreases |attrs|
  {
    if attrs == [] then Ok([])
    else
      var init := attrs[..|attrs| - 1];
      var a := attrs[|attrs| - 1];
      match SplicedAttributes(c, m, mode, init)
      case Err(e) => Err(e)
      case Ok(done) =>
        match Spliced(c, m, mode, c.lex(a.value))
        case Err(e) => Err(e)
        case Ok(v) => Ok(done + [Attribute(a.key, v)])
  }

  /** Once a prefix of the attributes has failed, the whole list fails with that error. */
  lemma {:induction false} SplicedAttributesErrSticky(c: Collaborators, m: RenameMap, mode: RenameMode, attrs: seq<Attribute>, k: nat)
    requires k <= |attrs|
    requires SplicedAttributes(c, m, mode, attrs[..k]).Err?
    ensures SplicedAttributes(c, m, mode, attrs) == SplicedAttributes(c, m, mode, attrs[..k])
    decreases |attrs| - k
  {
    if k < |attrs| {
      assert attrs[..k + 1][..k] == attrs[..k];
      SplicedAttributesErrSticky(c, m, mode, attrs, k + 1);
    } else {
      assert attrs[..k] == attrs;
    }
  }

  /** What `head` makes of a node: a polymer-element gets its declared list
      renamed, a script element is left alone, any other element has every
      attribute value spliced, a text node is spliced, and a data node is
      rewritten as script only while inside a script element. */
  function HeadNode(c: Collaborators, m: RenameMap, mode: RenameMode, inScript: bool, n: Node): (r: Result<Node>)
    ensures r.Ok? && n.Element? ==>
      r.value.Element? && r.value.tag == n.tag && r.value.children == n.children
    ensures r.Ok? && n.Text? ==> r.value.Text?
    ensures r.Ok? && n.Data? ==> r.value.Data?
    ensures n.Element? && n.tag == "polymer-element" ==>
      r.Ok? && OnlyAttrChanged(n.attrs, r.value.attrs, "attributes")
    ensures n.Element? && n.tag == "script" ==> r == Ok(n)
    ensures n.Data? && !inScript ==> r == Ok(n)
    ensures n.Data? && inScript ==> r == Ok(Data(c.renameProperties(m, n.data)))
  {
    match n
    case Element(tag, attrs, cs) =>
      if tag == "polymer-element" then Ok(Element(tag, DeclaredAttributesRenamed(m, attrs), cs))
      else if tag == "script" then Ok(n)
      else
        (match SplicedAttributes(c, m, mode, attrs)
         case Err(e) => Err(e)
         case Ok(a) => Ok(Element(tag, a, cs)))
    case Text(s) =>
      (match Spliced(c, m, mode, c.lex(s))
       case Err(e) => Err(e)
       case Ok(v) => Ok(Text(v)))
    case Data(d) => Ok(if inScript then Data(c.renameProperties(m, d)) else n)
  }

  /** The script flag after `head`: set on entering a script element. */
  function HeadFlag(inScript: bool, n: Node): bool
  {
    if n.Element? && n.tag == "script" then true else inScript
  }

  /** The operand kinds of the comparison in `tail`: a jsoup Tag object or a Java String. */
  datatype JavaObject = TagObject(name: string) | StringObject(text: string)

  /** org.jsoup.parser.Tag.equals(o): true only when o is a Tag of the same name. */
  function TagEquals(tagName: string, o: JavaObject): bool
  {
    o.TagObject? && o.name == tagName
  }

  /** How `tail` treats the flag: as the code is written, comparing the element's
      Tag with the String "script"; or as evidently intended, comparing tag names. */
  datatype TailPolicy = AsWritten | Intended

  /** The script flag after `tail`. */
  function TailFlag(policy: TailPolicy, inScript: bool, n: Node): bool
  {
    match policy
    case AsWritten => if n.Element? && TagEquals(n.tag, StringObject("script")) then false else inScript
    case Intended => if n.Element? && n.tag == "script" then false else inScript
  }

  /** NodeTraversor.traverse: `head` on entry, the children in order, `tail` on
      exit, threading the script flag; the first failure aborts the walk. */
  function Walk(c: Collaborators, m: RenameMap, mode: RenameMode, policy: TailPolicy, inScript: bool, n: Node)
    : Result<(Node, bool)>
    decreases n
  {
    match HeadNode(c, m, mode, inScript, n)
    case Err(e) => Err(e)
    case Ok(h) =>
      if n.Element? then
        match WalkChildren(c, m, mode, policy, HeadFlag(inScript, n), n.children)
        case Err(e) => Err(e)
        case Ok((cs, f)) => Ok((h.(children := cs), TailFlag(policy, f, n)))
      else Ok((h, TailFlag(policy, HeadFlag(inScript, n), n)))
  }

  function WalkChildren(c: Collaborators, m: RenameMap, mode: RenameMode, policy: TailPolicy, inScript: bool, cs: seq<Node>)
    : Result<(seq<Node>, bool)>
    decreases cs
  {
    if cs == [] then Ok(([], inScript))
    else
      match Walk(c, m, mode, policy, inScript, cs[0])
      case Err(e) => Err(e)
      case Ok((n0, f0)) =>
        match WalkChildren(c, m, mode, policy, f0, cs[1..])
        case Err(e) => Err(e)
        case Ok((rest, f)) => Ok(([n0] + rest, f))
  }

  /** The tail comparison as written is never true: a Tag never equals a String. */
  lemma TailAsWrittenKeepsFlag(inScript: bool, n: Node)
    ensures TailFlag(AsWritten, inScript, n) == inScript
  {
  }

  /** The walk rewrites contents only: node kinds, tags and child counts are kept. */
  lemma {:induction false} WalkPreservesShape(
    c: Collaborators, m: RenameMap, mode: RenameMode, policy: TailPolicy, inScript: bool, n: Node)
    requires Walk(c, m, mode, policy, inScript, n).Ok?
    ensures SameShape(n, Walk(c, m, mode, policy, inScript, n).value.0)
    decreases n
  {
    if n.Element? {
      WalkChildrenPreservesShape(c, m, mode, policy, HeadFlag(inScript, n), n.children);
    }
  }

  lemma {:induction false} WalkChildrenPreservesShape(
    c: Collaborators, m: RenameMap, mode: RenameMode, policy: TailPolicy, inScript: bool, cs: seq<Node>)
    requires WalkChildren(c, m, mode, policy, inScript, cs).Ok?
    ensures var out := WalkChildren(c, m, mode, policy, inScript, cs).value.0;
      |out| == |cs| && forall i :: 0 <= i < |cs| ==> SameShape(cs[i], out[i])
    decreases cs
  {
    if cs != [] {
      WalkPreservesShape(c, m, mode, policy, inScript, cs[0]);
      var f0 := Walk(c, m, mode, policy, inScript, cs[0]).value.1;
      WalkChildrenPreservesShape(c, m, mode, policy, f0, cs[1..]);
      var out := WalkChildren(c, m, mode, policy, inScript, cs).value.0;
      forall i | 0 <= i < |cs| ensures SameShape(cs[i], out[i]) {
        if i > 0 {
          assert cs[i] == cs[1..][i - 1];
        }
      }
    }
  }

  /** As written, the flag is never cleared: after walking n it is set exactly
      when it was set before or n contains a script element. */
  lemma {:induction false} WalkFlagAsWritten(c: Collaborators, m: RenameMap, mode: RenameMode, inScript: bool, n: Node)
    requires Walk(c, m, mode, AsWritten, inScript, n).Ok?
    ensures Walk(c, m, mode, AsWritten, inScript, n).value.1 == (inScript || HasTag(n, "script"))
    decreases n
  {
    if n.Element? {
      WalkChildrenFlagAsWritten(c, m, mode, HeadFlag(inScript, n), n.children);
    }
  }

  lemma {:induction false} WalkChildrenFlagAsWritten(c: Collaborators, m: RenameMap, mode: RenameMode, inScript: bool, cs: seq<Node>)
    requires WalkChildren(c, m, mode, AsWritten, inScript, cs).Ok?
    ensures WalkChildren(c, m, mode, AsWritten, inScript, cs).value.1
         == (inScript || exists i :: 0 <= i < |cs| && HasTag(cs[i], "script"))
    decreases cs
  {
    if cs != [] {
      WalkFlagAsWritten(c, m, mode, inScript, cs[0]);
      var f0 := Walk(c, m, mode, AsWritten, inScript, cs[0]).value.1;
      WalkChildrenFlagAsWritten(c, m, mode, f0, cs[1..]);
      if exists i :: 0 <= i < |cs| && HasTag(cs[i], "script") {
        var i :| 0 <= i < |cs| && HasTag(cs[i], "script");
        if i > 0 {
          assert cs[1..][i - 1] == cs[i];
        }
      }
      if exists i :: 0 <= i < |cs[1..]| && HasTag(cs[1..][i], "script") {
        var i :| 0 <= i < |cs[1..]| && HasTag(cs[1..][i], "script");
        assert cs[i + 1] == cs[1..][i];
      }
    }
  }

  /** The policy for data nodes: one is rewritten as script exactly when it lies
      under a script element (or the walk started inside one). */
  ghost predicate DataPolicy(c: Collaborators, m: RenameMap, n: Node, out: Node, under: bool)
    decreases n
  {
    match n
    case Data(d) => out == Data(if under then c.renameProperties(m, d) else d)
    case Text(_) => out.Text?
    case Element(tag, _, cs) =>
      && out.Element? && |out.children| == |cs|
      && forall i :: 0 <= i < |cs| ==> DataPolicy(c, m, cs[i], out.children[i], under || tag == "script")
  }

  /** No script element holds another one (the HTML parser never nests them). */
  ghost predicate ScriptsDoNotNest(n: Node)
    decreases n
  {
    match n
    case Element(tag, _, cs) =>
      if tag == "script" then forall i :: 0 <= i < |cs| ==> !HasTag(cs[i], "script")
      else forall i :: 0 <= i < |cs| ==> ScriptsDoNotNest(cs[i])
    case _ => true
  }

  /** Under the intended tail, a subtree without script elements passes the flag through. */
  lemma {:induction false} IntendedWalkWithoutScript(c: Collaborators, m: RenameMap, mode: RenameMode, inScript: bool, n: Node)
    requires !HasTag(n, "script")
    requires Walk(c, m, mode, Intended, inScript, n).Ok?
    ensures var w := Walk(c, m, mode, Intended, inScript, n).value;
      w.1 == inScript && DataPolicy(c, m, n, w.0, inScript)
    decreases n
  {
    if n.Element? {
      forall i | 0 <= i < |n.children| ensures !HasTag(n.children[i], "script") {
      }
      IntendedWalkChildrenWithoutScript(c, m, mode, inScript, n.children);
    }
  }

  lemma {:induction false} IntendedWalkChildrenWithoutScript(c: Collaborators, m: RenameMap, mode: RenameMode, inScript: bool, cs: seq<Node>)
    requires forall i :: 0 <= i < |cs| ==> !HasTag(cs[i], "script")
    requires WalkChildren(c, m, mode, Intended, inScript, cs).Ok?
    ensures var w := WalkChildren(c, m, mode, Intended, inScript, cs).value;
      && w.1 == inScript && |w.0| == |cs|
      && forall i :: 0 <= i < |cs| ==> DataPolicy(c, m, cs[i], w.0[i], inScript)
    decreases cs
  {
    if cs != [] {
      IntendedWalkWithoutScript(c, m, mode, inScript, cs[0]);
      IntendedWalkChildrenWithoutScript(c, m, mode, inScript, cs[1..]);
      var out := WalkChildren(c, m, mode, Intended, inScript, cs).value.0;
      forall i | 0 <= i < |cs| ensures DataPolicy(c, m, cs[i], out[i], inScript) {
        if i > 0 {
          assert cs[i] == cs[1..][i - 1];
        }
      }
    }
  }

  /** Under the intended tail, a walk started outside any script rewrites
      exactly the data nodes that lie inside a script element, and leaves the
      flag cleared. */
  lemma {:induction false} IntendedWalkScopesScripts(c: Collaborators, m: RenameMap, mode: RenameMode, n: Node)
    requires ScriptsDoNotNest(n)
    requires Walk(c, m, mode, Intended, false, n).Ok?
    ensures var w := Walk(c, m, mode, Intended, false, n).value;
      !w.1 && DataPolicy(c, m, n, w.0, false)
    decreases n
  {
    if n.Element? {
      if n.tag == "script" {
        IntendedWalkChildrenWithoutScript(c, m, mode, true, n.children);
      } else {
        IntendedWalkChildrenScopesScripts(c, m, mode, n.children);
      }
    }
  }

  lemma {:induction false} IntendedWalkChildrenScopesScripts(c: Collaborators, m: RenameMap, mode: RenameMode, cs: seq<Node>)
    requires forall i :: 0 <= i < |cs| ==> ScriptsDoNotNest(cs[i])
    requires WalkChildren(c, m, mode, Intended, false, cs).Ok?
    ensures var w := WalkChildren(c, m, mode, Intended, false, cs).value;
      && !w.1 && |w.0| == |cs|
      && forall i :: 0 <= i < |cs| ==> DataPolicy(c, m, cs[i], w.0[i], false)
    decreases cs
  {
    if cs != [] {
      IntendedWalkScopesScripts(c, m, mode, cs[0]);
      IntendedWalkChildrenScopesScripts(c, m, mode, cs[1..]);
      var out := WalkChildren(c, m, mode, Intended, false, cs).value.0;
      forall i | 0 <= i < |cs| ensures DataPolicy(c, m, cs[i], out[i], false) {
        if i > 0 {
          assert cs[i] == cs[1..][i - 1];
        }
      }
    }
  }

  /** A declaration holding a script followed by a style element. */
  function ScriptThenStyle(script: string, css: string): Node
  {
    Element("dom-module", [], [Element("script", [], [Data(script)]), Element("style", [], [Data(css)])])
  }

  /** As written, the style sheet that follows a script is rewritten as script,
      breaking the data-node policy; under the intended tail it is left alone. */
  lemma StyleAfterScriptRewritten(c: Collaborators, m: RenameMap, mode: RenameMode, script: string, css: string)
    requires c.renameProperties(m, css) != css
    ensures Walk(c, m, mode, AsWritten, false, ScriptThenStyle(script, css))
         == Ok((Element("dom-module", [], [Element("script", [], [Data(c.renameProperties(m, script))]),
                                           Element("style", [], [Data(c.renameProperties(m, css))])]), true))
    ensures !DataPolicy(c, m, ScriptThenStyle(script, css),
                        Walk(c, m, mode, AsWritten, false, ScriptThenStyle(script, css)).value.0, false)
    ensures Walk(c, m, mode, Intended, false, ScriptThenStyle(script, css))
         == Ok((Element("dom-module", [], [Element("script", [], [Data(c.renameProperties(m, script))]),
                                           Element("style", [], [Data(css)])]), false))
  {
    var js, sheet := Data(script), Data(css);
    var jsOut, sheetOut := Data(c.renameProperties(m, script)), Data(c.renameProperties(m, css));
    var scriptEl, styleEl := Element("script", [], [js]), Element("style", [], [sheet]);
    var root := ScriptThenStyle(script, css);
    assert [js][1..] == [] && [sheet][1..] == [] && [styleEl][1..] == [];
    var styleOut := Element("style", [], [sheetOut]);
    assert [jsOut] + [] == [jsOut] && [sheetOut] + [] == [sheetOut] && [sheet] + [] == [sheet];
    assert [styleOut] + [] == [styleOut] && [styleEl] + [] == [styleEl];
    assert WalkChildren(c, m, mode, Intended, false, []) == Ok(([], false));
    assert [js][0] == js && [sheet][0] == sheet && [styleEl][0] == styleEl;
    assert root.children[1..] == [styleEl];
    assert SplicedAttributes(c, m, mode, []) == Ok([]);
    // as written: the flag survives the script element
    assert WalkChildren(c, m, mode, AsWritten, true, []) == Ok(([], true));
    assert Walk(c, m, mode, AsWritten, true, js) == Ok((jsOut, true));
    assert WalkChildren(c, m, mode, AsWritten, true, [js]) == Ok(([jsOut], true));
    assert Walk(c, m, mode, AsWritten, false, scriptEl) == Ok((Element("script", [], [jsOut]), true));
    assert Walk(c, m, mode, AsWritten, true, sheet) == Ok((sheetOut, true));
    assert WalkChildren(c, m, mode, AsWritten, true, [sheet]) == Ok(([sheetOut], true));
    assert Walk(c, m, mode, AsWritten, true, styleEl) == Ok((Element("style", [], [sheetOut]), true));
    assert WalkChildren(c, m, mode, AsWritten, true, [styleEl]) == Ok(([Element("style", [], [sheetOut])], true));
    var scriptOut := Element("script", [], [jsOut]);
    assert root.children[0] == scriptEl;
    assert [scriptOut] + [styleOut] == [scriptOut, styleOut];
    assert [scriptOut] + [styleEl] == [scriptOut, styleEl];
    assert WalkChildren(c, m, mode, AsWritten, false, root.children)
        == Ok(([Element("script", [], [jsOut]), styleOut], true));
    assert Walk(c, m, mode, AsWritten, false, root)
        == Ok((Element("dom-module", [], [Element("script", [], [jsOut]), styleOut]), true));
    var out := Walk(c, m, mode, AsWritten, false, root).value.0;
    assert out.children[1] == styleOut && root.children[1] == styleEl;
    assert !DataPolicy(c, m, sheet, sheetOut, false);
    assert !DataPolicy(c, m, styleEl, styleOut, false);
    // intended: the flag is cleared on leaving the script element
    assert Walk(c, m, mode, Intended, true, js) == Ok((jsOut, true));
    assert WalkChildren(c, m, mode, Intended, true, [js]) == Ok(([jsOut], true));
    assert Walk(c, m, mode, Intended, false, scriptEl) == Ok((Element("script", [], [jsOut]), false));
    assert Walk(c, m, mode, Intended, false, sheet) == Ok((sheet, false));
    assert WalkChildren(c, m, mode, Intended, false, [sheet]) == Ok(([sheet], false));
    assert Walk(c, m, mode, Intended, false, styleEl) == Ok((styleEl, false));
    assert WalkChildren(c, m, mode, Intended, false, [styleEl]) == Ok(([styleEl], false));
    assert WalkChildren(c, m, mode, Intended, false, root.children) == Ok(([scriptOut, styleEl], false));
  }

  /** With collaborators that change nothing under the empty map, the walk
      changes nothing either. */
  lemma {:induction false} WalkTransparent(c: Collaborators, mode: RenameMode, policy: TailPolicy, inScript: bool, n: Node)
    requires Transparent(c, map[])
    ensures Walk(c, map[], mode, policy, inScript, n).Ok?
    ensures Walk(c, map[], mode, policy, inScript, n).value.0 == n
    decreases n
  {
    match n
    case Element(tag, attrs, cs) =>
      if tag != "polymer-element" && tag != "script" {
        SplicedAttributesTransparent(c, mode, attrs);
      }
      WalkChildrenTransparent(c, mode, policy, HeadFlag(inScript, n), cs);
    case Text(s) =>
      IdentityRenamerLossless(c, map[], mode, c.lex(s));
    case Data(_) =>
  }

  lemma {:induction false} WalkChildrenTransparent(c: Collaborators, mode: RenameMode, policy: TailPolicy, inScript: bool, cs: seq<Node>)
    requires Transparent(c, map[])
    ensures WalkChildren(c, map[], mode, policy, inScript, cs).Ok?
    ensures WalkChildren(c, map[], mode, policy, inScript, cs).value.0 == cs
    decreases cs
  {
    if cs != [] {
      WalkTransparent(c, mode, policy, inScript, cs[0]);
      var f0 := Walk(c, map[], mode, policy, inScript, cs[0]).value.1;
      WalkChildrenTransparent(c, mode, policy, f0, cs[1..]);
      assert [cs[0]] + cs[1..] == cs;
    }
  }

  lemma SplicedAttributesTransparent(c: Collaborators, mode: RenameMode, attrs: seq<Attribute>)
    requires Transparent(c, map[])
    ensures SplicedAttributes(c, map[], mode, attrs) == Ok(attrs)
  {
    forall i | 0 <= i < |attrs| ensures Spliced(c, map[], mode, c.lex(attrs[i].value)) == Ok(attrs[i].value) {
      IdentityRenamerLossless(c, map[], mode, c.lex(attrs[i].value));
    }
    var r := SplicedAttributes(c, map[], mode, attrs);
    assert r.value == attrs;
  }
}
