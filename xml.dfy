/**
 * The parsed XML document the archive layer reads values from: an ElementTree
 * element with its tag, attribute map, optional text and child elements, and
 * the two lookups the extraction uses, `root.attrib` and `root.find(".//tag")`.
 */
module Xml {
  import opened Wrappers

  datatype Element = Element(tag: string, attrib: map<string, string>, text: Option<string>, children: seq<Element>)

  /** All elements of a forest in document order: each element, then its descendants, then its later siblings. */
  function Flatten(forest: seq<Element>): seq<Element>
    decreases forest
  {
    if |forest| == 0 then []
    else [forest[0]] + Flatten(forest[0].children) + Flatten(forest[1..])
  }

  /** The proper descendants of `e` in document order (`e` itself excluded). */
  function Descendants(e: Element): seq<Element> {
    Flatten(e.children)
  }

  /** The first element of `s` whose tag is `tag`. */
  function FirstTagged(s: seq<Element>, tag: string): (r: Option<Element>)
    ensures r.Some? ==> exists k :: 0 <= k < |s| && s[k] == r.value && r.value.tag == tag
                                   && forall j :: 0 <= j < k ==> s[j].tag != tag
    ensures r.None? ==> forall k :: 0 <= k < |s| ==> s[k].tag != tag
  {
    if |s| == 0 then None
    else if s[0].tag == tag then Some(s[0])
    else
      var r := FirstTagged(s[1..], tag);
      if r.Some? then
        ghost var k :| 0 <= k < |s[1..]| && s[1..][k] == r.value && r.value.tag == tag
                       && forall j :: 0 <= j < k ==> s[1..][j].tag != tag;
        assert s[k + 1] == r.value;
        r
      else
        r
  }

  /** The search `find(".//tag")` performs: depth first, children before later siblings. */
  function FindIn(forest: seq<Element>, tag: string): (r: Option<Element>)
    ensures r.Some? ==> r.value.tag == tag
    decreases forest
  {
    if |forest| == 0 then None
    else if forest[0].tag == tag then Some(forest[0])
    else
      var below := FindIn(forest[0].children, tag);
      if below.Some? then below else FindIn(forest[1..], tag)
  }

  /** `root.find(".//tag")` */
  function Find(root: Element, tag: string): (r: Option<Element>)
    ensures r == FirstTagged(Descendants(root), tag)
  {
    FindInIsFirstInDocumentOrder(root.children, tag);
    FindIn(root.children, tag)
  }

  lemma {:induction false} FirstTaggedAppend(a: seq<Element>, b: seq<Element>, tag: string)
    ensures FirstTagged(a + b, tag) == if FirstTagged(a, tag).Some? then FirstTagged(a, tag) else FirstTagged(b, tag)
  {
    if |a| > 0 {
      FirstTaggedAppend(a[1..], b, tag);
      assert (a + b)[1..] == a[1..] + b;
    } else {
      assert a + b == b;
    }
  }

  /** The depth-first search finds exactly the first element with that tag in document order. */
  lemma {:induction false} FindInIsFirstInDocumentOrder(forest: seq<Element>, tag: string)
    ensures FindIn(forest, tag) == FirstTagged(Flatten(forest), tag)
    decreases forest
  {
    if |forest| > 0 {
      FindInIsFirstInDocumentOrder(forest[0].children, tag);
      FindInIsFirstInDocumentOrder(forest[1..], tag);
      FindInStep(forest, tag);
    }
  }

  /** One step of the search: if it agrees with document order below the first element and on the later siblings, it agrees on the forest. */
  lemma FindInStep(forest: seq<Element>, tag: string)
    requires |forest| > 0
    requires FindIn(forest[0].children, tag) == FirstTagged(Flatten(forest[0].children), tag)
    requires FindIn(forest[1..], tag) == FirstTagged(Flatten(forest[1..]), tag)
    ensures FindIn(forest, tag) == FirstTagged(Flatten(forest), tag)
  {
    var head, below, later := forest[0], Flatten(forest[0].children), Flatten(forest[1..]);
    assert Flatten(forest) == [head] + (below + later);
    FirstTaggedCons(head, below + later, tag);
    FirstTaggedAppend(below, later, tag);
  }

  lemma FirstTaggedCons(e: Element, s: seq<Element>, tag: string)
    ensures FirstTagged([e] + s, tag) == if e.tag == tag then Some(e) else FirstTagged(s, tag)
  {
    assert ([e] + s)[0] == e && ([e] + s)[1..] == s;
  }
}
