/** An already-parsed XML document as an element tree, with the three
    lookups the interchange code uses: the first child with a tag, all
    children with a tag, and an attribute with or without a default. */
module Xml {
  import opened Wrappers
  import Seqs

  datatype Element = Element(tag: string, attrs: map<string, string>, children: seq<Element>)

  /** `elem.find(tag)`: the first direct child with that tag. */
  function Find(e: Element, tag: string): (r: Option<Element>)
    ensures r.Some? ==> r.value in e.children && r.value.tag == tag
    ensures r.None? ==> forall c :: c in e.children ==> c.tag != tag
  {
    FirstWithTag(e.children, tag)
  }

  function FirstWithTag(cs: seq<Element>, tag: string): (r: Option<Element>)
    ensures r.Some? ==> r.value in cs && r.value.tag == tag
    ensures r.None? ==> forall c :: c in cs ==> c.tag != tag
  {
    if cs == [] then None
    else if cs[0].tag == tag then Some(cs[0])
    else FirstWithTag(cs[1..], tag)
  }

  /** `Find` returns the FIRST child with the tag: every child before it
      carries another tag. */
  lemma FindIsFirst(e: Element, tag: string)
    ensures Find(e, tag).Some? ==>
      exists i :: 0 <= i < |e.children| && e.children[i] == Find(e, tag).value &&
                  forall j :: 0 <= j < i ==> e.children[j].tag != tag
  {
    FirstWithTagIsFirst(e.children, tag);
  }

  /** The element `FirstWithTag` returns is preceded only by elements
      with another tag. */
  lemma {:induction false} FirstWithTagIsFirst(cs: seq<Element>, tag: string)
    ensures FirstWithTag(cs, tag).Some? ==>
      exists i :: 0 <= i < |cs| && cs[i] == FirstWithTag(cs, tag).value &&
                  forall j :: 0 <= j < i ==> cs[j].tag != tag
  {
    if cs != [] && cs[0].tag != tag {
      var r := FirstWithTag(cs[1..], tag);
      FirstWithTagIsFirst(cs[1..], tag);
      if r.Some? {
        var i :| 0 <= i < |cs[1..]| && cs[1..][i] == r.value && forall j :: 0 <= j < i ==> cs[1..][j].tag != tag;
        assert cs[i + 1] == r.value;
        forall j | 0 <= j < i + 1 ensures cs[j].tag != tag {
          if j > 0 { assert cs[j] == cs[1..][j - 1]; }
        }
      }
    } else if cs != [] {
      assert cs[0] == FirstWithTag(cs, tag).value;
    }
  }

  /** `elem.findall(tag)`: every direct child with that tag, in document
      order. */
  function FindAll(e: Element, tag: string): (r: seq<Element>)
    ensures forall c :: c in r <==> c in e.children && c.tag == tag
  {
    AllWithTag(e.children, tag)
  }

  /** Whether an element carries `tag`. */
  function TagIs(tag: string): Element -> bool {
    (c: Element) => c.tag == tag
  }

  function AllWithTag(cs: seq<Element>, tag: string): (r: seq<Element>)
    ensures forall c :: c in r <==> c in cs && c.tag == tag
  {
    if cs == [] then []
    else AllWithTag(cs[..|cs| - 1], tag) + (if cs[|cs| - 1].tag == tag then [cs[|cs| - 1]] else [])
  }

  /** `findall` returns the direct children with the tag in document
      order, each as often as it occurs. */
  lemma FindAllIsFilter(e: Element, tag: string)
    ensures FindAll(e, tag) == Seqs.Filter(e.children, TagIs(tag))
  {
    AllWithTagIsFilter(e.children, tag);
  }

  /** The elements of `cs` with the tag, in their order in `cs` and as
      often as they occur there: the order-preserving filter. */
  lemma {:induction false} AllWithTagIsFilter(cs: seq<Element>, tag: string)
    ensures AllWithTag(cs, tag) == Seqs.Filter(cs, TagIs(tag))
  {
    if cs != [] {
      AllWithTagIsFilter(cs[..|cs| - 1], tag);
    }
  }

  /** Finding the tagged elements of two lists one after the other finds
      those of the first list, then those of the second. */
  lemma {:induction false} AllWithTagConcat(a: seq<Element>, b: seq<Element>, tag: string)
    ensures AllWithTag(a + b, tag) == AllWithTag(a, tag) + AllWithTag(b, tag)
  {
    AllWithTagIsFilter(a + b, tag);
    AllWithTagIsFilter(a, tag);
    AllWithTagIsFilter(b, tag);
    Seqs.FilterConcat(a, b, TagIs(tag));
  }

  /** When every child carries `tag`, all of them are found, in order. */
  lemma {:induction false} AllWithTagAll(cs: seq<Element>, tag: string)
    requires forall i :: 0 <= i < |cs| ==> cs[i].tag == tag
    ensures AllWithTag(cs, tag) == cs
  {
    AllWithTagIsFilter(cs, tag);
    Seqs.FilterAll(cs, TagIs(tag));
  }

  /** When no child carries `tag`, none is found. */
  lemma {:induction false} AllWithTagNone(cs: seq<Element>, tag: string)
    requires forall i :: 0 <= i < |cs| ==> cs[i].tag != tag
    ensures AllWithTag(cs, tag) == []
  {
    if cs != [] {
      AllWithTagNone(cs[..|cs| - 1], tag);
    }
  }

  /** `elem.get(key, default)`. */
  function Attr(e: Element, key: string, default: string): string {
    if key in e.attrs then e.attrs[key] else default
  }

  /** `elem.get(key)`: `None` when the attribute is missing. */
  function AttrOpt(e: Element, key: string): Option<string> {
    if key in e.attrs then Some(e.attrs[key]) else None
  }
}
