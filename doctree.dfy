/** The docutils node tree the directives build, the pre-order walk over it, and
    the tagging of a directive's image node with the class "umlet". */
module DocTree {

  import opened Wrappers
  import opened Errors

  /** A docutils node. Its place in the tree, its kind and its `format` option are
      fixed once the directive has built it; `classes`, `candidates` and `uri` are
      the attributes the plugin and Sphinx update in place. */
  class Element {
    const isImage: bool                  // isinstance(node, docutils.nodes.image)
    const format: Option<string>         // node.get("format")
    const children: seq<Element>
    ghost const height: nat              // 1 + the height of the highest child
    ghost const below: set<Element>      // every node strictly below this one
    var classes: seq<string>             // node["classes"]
    var candidates: map<string, string>  // node["candidates"]: MIME type to path
    var uri: string                      // node["uri"]

    /** The subtree below this node is finite: every child is lower. */
    ghost predicate Valid()
      decreases height
    {
      MaxHeight(children) < height && below == Nodes(children) &&
      forall i :: 0 <= i < |children| ==> children[i].Valid()
    }

    constructor (isImage: bool, format: Option<string>, classes: seq<string>,
                 candidates: map<string, string>, uri: string, children: seq<Element>)
      requires ForestValid(children)
      ensures Valid()
      ensures this.isImage == isImage && this.format == format && this.children == children
      ensures this.classes == classes && this.candidates == candidates && this.uri == uri
    {
      this.isImage := isImage;
      this.format := format;
      this.children := children;
      this.height := 1 + MaxHeight(children);
      this.below := Nodes(children);
      this.classes := classes;
      this.candidates := candidates;
      this.uri := uri;
    }
  }

  ghost function MaxHeight(nodes: seq<Element>): (h: nat)
    ensures forall i :: 0 <= i < |nodes| ==> nodes[i].height <= h
  {
    if nodes == [] then 0
    else var rest := MaxHeight(nodes[1..]);
      if nodes[0].height > rest then nodes[0].height else rest
  }

  /** The nodes of a forest: its roots and everything below them. */
  ghost function Nodes(nodes: seq<Element>): (d: set<Element>)
    ensures forall i :: 0 <= i < |nodes| ==> nodes[i] in d && nodes[i].below <= d
    ensures forall x :: x in d ==> exists i :: 0 <= i < |nodes| && (x == nodes[i] || x in nodes[i].below)
  {
    if nodes == [] then {} else {nodes[0]} + nodes[0].below + Nodes(nodes[1..])
  }

  ghost predicate ForestValid(nodes: seq<Element>) {
    forall i :: 0 <= i < |nodes| ==> nodes[i].Valid()
  }

  /** `traverse`: each node, then (recursively) its children, then its siblings. */
  function Traverse(nodes: seq<Element>): (walk: seq<Element>)
    requires ForestValid(nodes)
    ensures forall x :: x in walk ==> x in Nodes(nodes)
    decreases MaxHeight(nodes), |nodes|
  {
    if nodes == [] then []
    else [nodes[0]] + Traverse(nodes[0].children) + Traverse(nodes[1..])
  }

  lemma ForestValidAppend(a: seq<Element>, b: seq<Element>)
    requires ForestValid(a) && ForestValid(b)
    ensures ForestValid(a + b)
  {
    forall i | 0 <= i < |a + b|
      ensures (a + b)[i].Valid()
    {
      if i < |a| {
        assert (a + b)[i] == a[i];
      } else {
        assert (a + b)[i] == b[i - |a|];
      }
    }
  }

  /** The walk of two forests one after the other is the walk of each in turn. */
  lemma {:induction false} TraverseAppend(a: seq<Element>, b: seq<Element>)
    requires ForestValid(a) && ForestValid(b)
    ensures ForestValid(a + b)
    ensures Traverse(a + b) == Traverse(a) + Traverse(b)
    decreases |a|
  {
    ForestValidAppend(a, b);
    if a == [] {
      assert a + b == b;
    } else {
      var ab := a + b;
      assert ab[0] == a[0] && ab[1..] == a[1..] + b;
      TraverseAppend(a[1..], b);
      var head := [a[0]] + Traverse(a[0].children);
      assert Traverse(ab) == head + Traverse(ab[1..]);
      assert Traverse(a) == head + Traverse(a[1..]);
    }
  }

  /** The walk visits every node of the forest (and, by the postcondition of
      `Traverse`, nothing else). */
  lemma {:induction false} TraverseVisitsAll(nodes: seq<Element>, x: Element)
    requires ForestValid(nodes)
    ensures x in Traverse(nodes) <==> x in Nodes(nodes)
    decreases MaxHeight(nodes), |nodes|
  {
    if nodes != [] && x in Nodes(nodes) {
      var n := nodes[0];
      assert Traverse(nodes) == [n] + Traverse(n.children) + Traverse(nodes[1..]);
      assert Nodes(nodes) == {n} + Nodes(n.children) + Nodes(nodes[1..]);
      if x in Nodes(n.children) {
        TraverseVisitsAll(n.children, x);
      } else if x != n {
        TraverseVisitsAll(nodes[1..], x);
      }
    }
  }

  /** Position of the first image node of a walk. */
  function FirstImageIndex(walk: seq<Element>): (r: Option<nat>)
    ensures r.Some? ==> r.value < |walk| && walk[r.value].isImage
    ensures r.Some? ==> forall j :: 0 <= j < r.value ==> !walk[j].isImage
    ensures r.None? ==> forall j :: 0 <= j < |walk| ==> !walk[j].isImage
  {
    if walk == [] then None
    else if walk[0].isImage then Some(0)
    else match FirstImageIndex(walk[1..])
      case None => None
      case Some(k) => Some(k + 1)
  }

  /** The search loop of `run`: walk the tree until the first image node. */
  method FindImage(nodes: seq<Element>) returns (r: Option<nat>)
    requires ForestValid(nodes)
    ensures r == FirstImageIndex(Traverse(nodes))
  {
    var walk := Traverse(nodes);
    var k := 0;
    while k < |walk|
      invariant k <= |walk|
      invariant forall j :: 0 <= j < k ==> !walk[j].isImage
    {
      if walk[k].isImage {
        return Some(k);
      }
      k := k + 1;
    }
    return None;
  }

  /** `UMLetBase.run` after the base directive has built `nodes`: the first image
      node in pre-order gets the class "umlet"; with no image node it fails. */
  method Run(nodes: seq<Element>) returns (r: Result<seq<Element>, Error>)
    requires ForestValid(nodes)
    modifies Traverse(nodes)
    ensures r.Err? <==> FirstImageIndex(Traverse(nodes)).None?
    ensures r.Err? ==> r.error == NoImageNode
    ensures r.Ok? ==> r.value == nodes
    ensures forall n :: n in Traverse(nodes) && Tagged(Traverse(nodes), n) ==> n.classes == old(n.classes) + ["umlet"]
    ensures forall n :: n in Traverse(nodes) && !Tagged(Traverse(nodes), n) ==> n.classes == old(n.classes)
    ensures forall n :: n in Traverse(nodes) ==> n.candidates == old(n.candidates) && n.uri == old(n.uri)
  {
    var k := FindImage(nodes);
    if k.None? {
      return Err(NoImageNode);
    }
    ghost var walk := Traverse(nodes);
    var image := Traverse(nodes)[k.value];
    assert forall n :: Tagged(walk, n) <==> n == image;
    image.classes := image.classes + ["umlet"];
    return Ok(nodes);
  }

  /** `n` is the node `run` tags in a walk. */
  predicate Tagged(walk: seq<Element>, n: Element) {
    match FirstImageIndex(walk)
    case None => false
    case Some(k) => walk[k] == n
  }
}
