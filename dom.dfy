/** The HTML tree the renamer works on as plain values, and the few queries
    of the HTML library that the coordinator relies on. */
module Dom {

  datatype Attribute = Attribute(key: string, value: string)

  /** A node of the parsed document: an element, a text node, or a data node
      (the raw body of a script or style element). */
  datatype Node =
    | Element(tag: string, attrs: seq<Attribute>, children: seq<Node>)
    | Text(text: string)
    | Data(data: string)

  /** Element.attr(key): the value of the first attribute named key, or "" when there is none. */
  function AttrValue(attrs: seq<Attribute>, key: string): string
  {
    if |attrs| == 0 then ""
    else if attrs[0].key == key then attrs[0].value
    else AttrValue(attrs[1..], key)
  }

  /** b is a, except possibly the value of attributes named key and one appended key attribute. */
  ghost predicate OnlyAttrChanged(a: seq<Attribute>, b: seq<Attribute>, key: string)
  {
    && |a| <= |b| <= |a| + 1
    && (forall i :: 0 <= i < |a| ==> b[i].key == a[i].key)
    && (forall i :: 0 <= i < |a| && a[i].key != key ==> b[i] == a[i])
    && (forall i :: |a| <= i < |b| ==> b[i].key == key)
  }

  /** Element.attr(key, value): overwrite the first attribute named key, or append one. */
  function SetAttr(attrs: seq<Attribute>, key: string, value: string): (r: seq<Attribute>)
    ensures AttrValue(r, key) == value
    ensures OnlyAttrChanged(attrs, r, key)
  {
    if |attrs| == 0 then [Attribute(key, value)]
    else if attrs[0].key == key then [Attribute(key, value)] + attrs[1..]
    else [attrs[0]] + SetAttr(attrs[1..], key, value)
  }

  /** Same node kinds, same tags and same number of children, all the way down. */
  ghost predicate SameShape(a: Node, b: Node)
    decreases a
  {
    match a
    case Element(tag, _, cs) =>
      && b.Element? && b.tag == tag && |b.children| == |cs|
      && forall i :: 0 <= i < |cs| ==> SameShape(cs[i], b.children[i])
    case Text(_) => b.Text?
    case Data(_) => b.Data?
  }

  /** Number of nodes in a tree. */
  function Size(n: Node): nat
    decreases n
  {
    1 + (if n.Element? then SizeOf(n.children) else 0)
  }

  function SizeOf(cs: seq<Node>): nat
    decreases cs
  {
    if cs == [] then 0 else Size(cs[0]) + SizeOf(cs[1..])
  }

  lemma {:induction false} SameShapeSize(a: Node, b: Node)
    requires SameShape(a, b)
    ensures Size(a) == Size(b)
    decreases a
  {
    if a.Element? {
      SameShapeSizeOf(a.children, b.children);
    }
  }

  lemma {:induction false} SameShapeSizeOf(xs: seq<Node>, ys: seq<Node>)
    requires |xs| == |ys|
    requires forall i :: 0 <= i < |xs| ==> SameShape(xs[i], ys[i])
    ensures SizeOf(xs) == SizeOf(ys)
    decreases xs
  {
    if xs != [] {
      SameShapeSize(xs[0], ys[0]);
      SameShapeSizeOf(xs[1..], ys[1..]);
    }
  }

  /** Some element of the tree rooted at n (n included) is tagged t. */
  ghost predicate HasTag(n: Node, t: string)
    decreases n
  {
    n.Element? && (n.tag == t || exists i :: 0 <= i < |n.children| && HasTag(n.children[i], t))
  }

  /** Element.getElementsByTag(t): the elements tagged t, n included, in document order. */
  function ElementsByTag(n: Node, t: string): seq<Node>
    decreases n
  {
    if n.Element? then
      (if n.tag == t then [n] else []) + ElementsByTagIn(n.children, t)
    else []
  }

  function ElementsByTagIn(cs: seq<Node>, t: string): seq<Node>
    decreases cs
  {
    if cs == [] then [] else ElementsByTag(cs[0], t) + ElementsByTagIn(cs[1..], t)
  }

  /** The element list the library returns is empty exactly when no element carries the tag. */
  lemma {:induction false} ElementsByTagEmptyIff(n: Node, t: string)
    ensures |ElementsByTag(n, t)| > 0 <==> HasTag(n, t)
    decreases n
  {
    if n.Element? {
      ElementsByTagInEmptyIff(n.children, t);
    }
  }

  lemma {:induction false} ElementsByTagInEmptyIff(cs: seq<Node>, t: string)
    ensures |ElementsByTagIn(cs, t)| > 0 <==> exists i :: 0 <= i < |cs| && HasTag(cs[i], t)
    decreases cs
  {
    if cs != [] {
      ElementsByTagEmptyIff(cs[0], t);
      ElementsByTagInEmptyIff(cs[1..], t);
      if exists i :: 0 <= i < |cs| && HasTag(cs[i], t) {
        var i :| 0 <= i < |cs| && HasTag(cs[i], t);
        if i > 0 {
          assert cs[1..][i - 1] == cs[i];
        }
      }
      if exists i :: 0 <= i < |cs[1..]| && HasTag(cs[1..][i], t) {
        var i :| 0 <= i < |cs[1..]| && HasTag(cs[1..][i], t);
        assert cs[i + 1] == cs[1..][i];
      }
    }
  }
}
