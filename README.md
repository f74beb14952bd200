# HtmlRenamer: a verified model of the Polymer binding renamer

PolymerRenamer rewrites an HTML document after the JavaScript beside it has
had its property names minified. Given a rename map (original property name to
renamed name), `HtmlRenamer.rename`:

- decides which dialect of the framework the document uses: 0.8 when a
  `dom-module` element exists, otherwise 0.5;
- walks every declaration element (`dom-module` in 0.8, `polymer-element` in
  0.5) with one `DatabindingRenamer` visitor. The visitor:
  - splices attribute values and text through the binding-expression renamer
    wherever they sit inside `{{ }}`, or inside `[[ ]]` in 0.8;
  - renames the words of a 0.5 declaration's `attributes` list;
  - rewrites inline script bodies with the script renamer while its
    `insideScriptElement` flag is set;
- in 0.8, remaps the attribute names of each custom element whose tag was
  declared, through the map and the hyphen/camel case conversions.

The model keeps the source's own shape.

- `Types`: the rename map, the dialect, the parse error, the lexer tokens, and
  the collaborators whose code is not part of this model. These are the
  databinding lexer, `JsRenamer.renamePolymerJsExpression` (which may fail),
  `JsRenamer.renameProperties`, and the two case conversions. Each is a
  function-valued field of `Collaborators`, so every result holds for every
  lexer and renamer.
- `Dom`: the parsed document as a value tree of elements, text nodes and data
  nodes. It also holds the jsoup queries the coordinator uses: `attr`, the
  `attr` setter, and `getElementsByTag`.
- `Splice`: the specification of `renameStringWithDatabindingDirectives`, a
  fold over the token list that carries the `insideBraces` flag.
- `AttributeList`: the specification of `renameAttributesAttributeValue`. It
  includes Java's `String.split(" ")`, which drops trailing empty strings, and
  Guava's `Joiner.on(" ")`.
- `Traversal`: what `head` and `tail` do to a node and to the flag, and the
  depth-first walk of `NodeTraversor`. The comparison in `tail` is modelled in
  two ways, as written and as evidently intended (see Findings).
- `DocumentPass`: the specification of `rename`. It covers the dialect, the
  walk over the declarations with the custom tag names collected on the way,
  and the key-remapping pass.
- `HtmlRenamer`: the class `DatabindingRenamer`. Its `insideScriptElement`
  field changes in `Head` and `Tail`. Its loops are written as the source's
  loops and are proved equal to the specification functions above, and the
  method `Rename` is proved equal to `DocumentPass.Renamed`.
- `BindingExamples`: instances worked through with the documented behaviour
  of the expression renamers for the map
  `{a: renamedA, longName: rb, three: renamed3}`. That behaviour enters as a
  hypothesis, never as a fact.

Where the written description of the renamer and the code disagree, the model
follows the code:

- The lexer takes no dialect. Only the splicer looks at the dialect, by
  ignoring square tokens in 0.5.
- An opener that is never closed does not fall back to plain text: every
  later STRING is renamed (`Splice.UnclosedOpenerSpansToEnd`). The flag is a
  single boolean, so any counted closer ends a span whatever the nesting.
- The `attributes` list of a 0.5 declaration is renamed word by word through
  the map, not through the binding-expression renamer.
- Attribute values of other elements are written back unconditionally. In a
  value model this cannot be told apart from writing them back only on change.
- Only the subtrees rooted at declaration elements are visited, not the whole
  document (`DocumentPass.DeclarationsKeepOutside`).
- The flag is not cleared on leaving a script element (see Findings).

## Model

| member | source | states |
|---|---|---|
| Dom.SetAttr | java/com/google/polymer/HtmlRenamer.java:100 | after `attr(key, value)` the key reads back as value; only that attribute's value changes, or one attribute is appended |
| Dom.ElementsByTagEmptyIff | java/com/google/polymer/HtmlRenamer.java:158-161 | the element list is empty exactly when no element carries the tag, so the dialect test decides "some dom-module exists" |
| Splice.InsideAfterIffLastToggleOpens | java/com/google/polymer/HtmlRenamer.java:116-145 | `insideBraces` is set exactly when the last flag-changing delimiter so far was an opener; curly always counts, square only in 0.8 |
| Splice.UnclosedOpenerSpansToEnd | java/com/google/polymer/HtmlRenamer.java:126-133 | an opener followed by no flag-changing token leaves every later position inside a span |
| Splice.Polymer05SquareTokenInert | java/com/google/polymer/HtmlRenamer.java:134-144 | in 0.5, inserting a square token anywhere changes the flag at no later position, so it never starts or ends a rename |
| Splice.SplicedErrSticky | java/com/google/polymer/HtmlRenamer.java:121 | once the renamer has thrown on a prefix, the whole call fails with that error |
| Splice.FailureAbortsSplice | java/com/google/polymer/HtmlRenamer.java:120-121 | a STRING inside a span that fails to rename makes the whole splice fail |
| Splice.SplicedErrHasFailure | java/com/google/polymer/HtmlRenamer.java:117-146 | a failed splice has a STRING inside a span whose renaming failed |
| Splice.SplicedFailsIff | java/com/google/polymer/HtmlRenamer.java:117-146 | the splice fails exactly when some in-span STRING fails to rename |
| Splice.SplicedLossless | java/com/google/polymer/HtmlRenamer.java:117-146 | delimiters and out-of-span STRINGs are copied, so when every in-span STRING renames to itself the output is the concatenation of the token values |
| Splice.IdentityRenamerLossless | java/com/google/polymer/HtmlRenamer.java:113-149 | with an identity expression renamer the output is the concatenation of the token values |
| AttributeList.SplitAll | java/com/google/polymer/HtmlRenamer.java:91 | every piece is free of spaces and there is at least one |
| AttributeList.DropTrailingEmpty | java/com/google/polymer/HtmlRenamer.java:91 | the result is a prefix of the pieces, everything dropped is an empty string, and the result does not end in an empty string |
| AttributeList.JavaSplit | java/com/google/polymer/HtmlRenamer.java:91 | no word holds a space |
| AttributeList.JoinSplitAll | java/com/google/polymer/HtmlRenamer.java:91-100 | joining the full split with single spaces gives the string back |
| AttributeList.JoinJavaSplit | java/com/google/polymer/HtmlRenamer.java:91-100 | joining what `split(" ")` returns gives the value without its trailing spaces, the only text a rewrite can lose |
| AttributeList.SplitAllJoin | java/com/google/polymer/HtmlRenamer.java:100 | splitting the joined space-free words at every space gives the words back |
| AttributeList.RenameWords | java/com/google/polymer/HtmlRenamer.java:92-98 | same word count; word i becomes `renameMap[w]` when w is exactly a key, else stays |
| AttributeList.DeclaredAttributesRenamed | java/com/google/polymer/HtmlRenamer.java:88-102 | only the `attributes` attribute may change; nothing changes when no word is a key |
| AttributeList.DeclaredWordsRecoverable | java/com/google/polymer/HtmlRenamer.java:91-100 | when the renamed names hold no space, the rewritten list splits back into the renamed words, count preserved |
| Traversal.SplicedAttributes | java/com/google/polymer/HtmlRenamer.java:104-111 | on success keys and order are kept and each value is the splice of the old one; it fails exactly when some value's splice fails |
| Traversal.SplicedAttributesErrSticky | java/com/google/polymer/HtmlRenamer.java:107-108 | a failing attribute aborts the whole element with that error |
| Traversal.HeadNode | java/com/google/polymer/HtmlRenamer.java:58-76 | a polymer-element changes only its `attributes`; a script element is returned unchanged; a data node is rewritten with `renameProperties` exactly when the flag is set; kinds, tags and children are kept |
| Traversal.TailAsWrittenKeepsFlag | java/com/google/polymer/HtmlRenamer.java:82 | the comparison as written never clears the flag |
| Traversal.WalkPreservesShape | java/com/google/polymer/HtmlRenamer.java:58-86 | the walk keeps node kinds, tags and child counts everywhere |
| Traversal.WalkFlagAsWritten | java/com/google/polymer/HtmlRenamer.java:65 | after a walk the flag is set exactly when it was set before or the subtree holds a script element |
| Traversal.IntendedWalkScopesScripts | java/com/google/polymer/HtmlRenamer.java:72-84 | with the tag name compared, a walk started outside scripts rewrites exactly the data nodes under a script element and ends with the flag cleared |
| Traversal.StyleAfterScriptRewritten | java/com/google/polymer/HtmlRenamer.java:82 | as written, a style sheet after a script in one declaration is rewritten as script; with the tag name compared it is left alone |
| Traversal.WalkTransparent | java/com/google/polymer/HtmlRenamer.java:58-86 | with collaborators that change nothing under the empty map, the walk returns the node unchanged |
| DocumentPass.DeclarationsNames | java/com/google/polymer/HtmlRenamer.java:163-174 | the first pass only appends names, only non-empty ones, and none in 0.5 |
| DocumentPass.DeclarationsKeepOutside | java/com/google/polymer/HtmlRenamer.java:164-174 | nodes outside the declaration subtrees come out unchanged; every subtree keeps its shape |
| DocumentPass.KeptOutsideWithoutDeclarations | java/com/google/polymer/HtmlRenamer.java:166-174 | a tree with no declaration element is kept whole |
| DocumentPass.RemappedKeysOnly | java/com/google/polymer/HtmlRenamer.java:177-187 | one remapping changes attribute keys only, and only on elements with that tag |
| DocumentPass.RemappedAllKeysOnly | java/com/google/polymer/HtmlRenamer.java:176-188 | the second pass changes attribute keys only, never values, and only on elements whose tag was collected |
| DocumentPass.Polymer05OnlyFirstPass | java/com/google/polymer/HtmlRenamer.java:159-188 | in 0.5 the result is the first pass's result and nothing outside polymer-element subtrees changes |
| DocumentPass.RenamedKeepsOutside | java/com/google/polymer/HtmlRenamer.java:157-188 | outside the declaration subtrees only attribute keys of collected custom elements may change, and every collected name is non-empty |
| DocumentPass.NoDeclarationsNoChange | java/com/google/polymer/HtmlRenamer.java:157-174 | a document with no declaration element comes back unchanged |
| DocumentPass.DeclarationsWithoutDeclarationTag | java/com/google/polymer/HtmlRenamer.java:166-174 | with no declaration element the first pass returns the tree, flag and names unchanged |
| DocumentPass.RenamedTransparent | java/com/google/polymer/HtmlRenamer.java:152-191 | with the empty map and collaborators that change nothing, rename returns the document it was given |
| DocumentPass.RemappedAllEmptyMap | java/com/google/polymer/HtmlRenamer.java:176-188 | with the empty map the second pass changes nothing |
| HtmlRenamer.DatabindingRenamer.constructor | java/com/google/polymer/HtmlRenamer.java:45-55 | map and dialect stored, flag cleared |
| HtmlRenamer.DatabindingRenamer.Head | java/com/google/polymer/HtmlRenamer.java:58-76 | returns the node as `head` leaves it and sets the flag exactly on entering a script element |
| HtmlRenamer.DatabindingRenamer.Tail | java/com/google/polymer/HtmlRenamer.java:79-86 | the flag after `tail` is the flag as the comparison is written |
| HtmlRenamer.DatabindingRenamer.RenameAttributesAttributeValue | java/com/google/polymer/HtmlRenamer.java:88-102 | the array loop over the split words yields the declared-attribute renaming |
| HtmlRenamer.DatabindingRenamer.RenameAllAttributeValues | java/com/google/polymer/HtmlRenamer.java:104-111 | the loop over the attributes yields the spliced attributes or the first error |
| HtmlRenamer.DatabindingRenamer.RenameStringWithDatabindingDirectives | java/com/google/polymer/HtmlRenamer.java:113-149 | the token loop with its StringBuilder and `insideBraces` yields the splice of the lexed input |
| HtmlRenamer.DatabindingRenamer.Traverse | java/com/google/polymer/HtmlRenamer.java:173 | the subtree and the flag end as the walk leaves them; a failure aborts with the renamer's error |
| HtmlRenamer.TraverseDeclarations | java/com/google/polymer/HtmlRenamer.java:166-174 | every declaration walked in document order by the shared visitor, names collected as the first pass specifies |
| HtmlRenamer.RemapAttributeKeys | java/com/google/polymer/HtmlRenamer.java:179-186 | values and order kept; a key changes only when its camel form is a map key, and then becomes the hyphenated renamed property |
| HtmlRenamer.RemapCustomElements | java/com/google/polymer/HtmlRenamer.java:177-187 | every element with the tag has its keys remapped, the rest of the tree is kept |
| HtmlRenamer.Rename | java/com/google/polymer/HtmlRenamer.java:152-191 | the result is the specified rename: dialect choice, first pass, then one remapping per collected name |
| BindingExamples.CurlyBindingRenamed | javatests/com/google/polymer/JsRenamerTest.java:81 | `x={{exp.a}}` splices to `x={{exp.renamedA}}` in both dialects |
| BindingExamples.SquareBindingRenamedIn08 | javatests/com/google/polymer/JsRenamerTest.java:81 | `x=[[exp.a]]` splices to `x=[[exp.renamedA]]` in 0.8 |
| BindingExamples.SquareBindingKeptIn05 | java/com/google/polymer/HtmlRenamer.java:134-144 | `x=[[exp.a]]` is copied unchanged in 0.5 |
| BindingExamples.MalformedBindingAborts | javatests/com/google/polymer/JsRenamerTest.java:141-144 | a malformed expression inside a binding aborts the splice with the renamer's error |
| BindingExamples.MalformedTextOutsideBindingKept | java/com/google/polymer/HtmlRenamer.java:122-124 | the same malformed text outside any binding is copied and raises nothing |
| BindingExamples.StyleSheetAfterScriptExample | javatests/com/google/polymer/JsRenamerTest.java:45 | as written, the sheet `exp.a;` after a script becomes `exp.renamedA;` |

## Left out

- Parsing and serialisation of HTML through jsoup (`Parser.parse`, the output
  settings, `document.toString()`) are foreign library calls. The model starts
  from the parsed tree and ends with the rewritten tree.
- The lexer and both `JsRenamer` entry points are not part of this model. They
  are function parameters, and the few properties of them used here are
  hypotheses of the lemmas that need them.
- Guava's `CaseFormat` conversions are function parameters, with no claim
  about their exact behaviour.
- `NodeTraversor` is iterative. The model walks the tree by recursion in the
  same order: `head` on entry, the children in order, `tail` on exit.
- In-place mutation and aliasing: jsoup rewrites the nodes it was handed, and
  `getElementsByTag` returns live references. The model returns rewritten
  values instead. The declarations are visited in document order over the
  tree as the earlier walks left it, so a declaration nested in another is
  walked again after the outer walk, as in the source.
- jsoup lower-cases tag names and looks up attribute keys without regard to
  case. The model compares both exactly.
- `Attributes` keys its map by attribute name, and `setKey` renames an
  attribute without re-keying it. The model keeps attributes as an ordered
  list, so a remapped key that collides with an existing one is not merged.
- The `attributes != null` test is not modelled, because jsoup always returns
  an attribute collection.
- HtmlRenamer.Rename: keeps the `tail` comparison as written, so the flag is
  never cleared, matching what the code does. The corrected behaviour is
  proved about the `Intended` walk (see Findings), not used by `Rename`.

## Findings

| source | as written | input that shows it | evidently intended | confidence | as-written member | corrected member |
|---|---|---|---|---|---|---|
| java/com/google/polymer/HtmlRenamer.java:82 | `element.tag().equals("script")` compares a jsoup `Tag` with a `String`, which is never equal, so `insideScriptElement` is never cleared once a script has been entered | a `dom-module` holding `<script></script>` followed by `<style>exp.a;</style>`: the sheet is passed to `renameProperties` and becomes `exp.renamedA;` | compare the tag name, as line 61 does, so that only data under a script element is rewritten | not executed | Traversal.StyleAfterScriptRewritten | Traversal.IntendedWalkScopesScripts |
