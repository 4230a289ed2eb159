/** The Three.js scene graph, reduced to what the population and pick logic
    reads and writes. Node identifiers are indices into one sequence, and every
    node's parent has a smaller index than the node itself, so following
    `parent` always reaches the root: this is how the model states that a scene
    graph is acyclic. Index 0 is the `THREE.Scene` itself. */
module SceneGraph {
  import opened Base
  import opened Catalog

  /** A loaded texture image; only its identity matters here. */
  datatype Texture = Texture(file: string)

  /** The `material` of a mesh: its colour and the two texture slots that
      model substitution may fill (`map`, here `colorMap`, and `normalMap`). */
  datatype Material = Material(color: nat, colorMap: Option<Texture>, normalMap: Option<Texture>, needsUpdate: bool)

  /** A procedural box (`BoxGeometry(width, height, depth)`), or geometry read
      from a model file, which only the loader knows. */
  datatype Geometry = Box(width: real, height: real, depth: real) | Loaded(id: nat)

  /** `isMesh` holds exactly for nodes that carry a Mesh; `material` may be absent. */
  datatype Mesh = Mesh(geometry: Geometry, material: Option<Material>)

  /** One Object3D: its parent, its `userData.info` tag, its local position and
      scale, and the mesh it draws, if any. */
  datatype Node = Node(parent: Option<nat>, info: Option<Record>, position: Vec3, scale: Vec3, mesh: Option<Mesh>)

  const SceneRoot: nat := 0
  const RootNode: Node := Node(None, None, Origin, UnitScale, None)

  /** A rooted tree: node 0 has no parent and every other node's parent comes
      before it. Both the live scene and a loaded model's node tree have this shape. */
  predicate IsTree(nodes: seq<Node>) {
    && |nodes| > 0
    && nodes[0].parent.None?
    && forall j :: 0 < j < |nodes| ==> nodes[j].parent.Some? && nodes[j].parent.value < j
  }

  /** `a` is `n` or lies on the chain of parents above `n`. */
  predicate AncestorOrSelf(nodes: seq<Node>, a: nat, n: nat)
    decreases n
  {
    || a == n
    || (&& n < |nodes|
        && nodes[n].parent.Some?
        && nodes[n].parent.value < n
        && AncestorOrSelf(nodes, a, nodes[n].parent.value))
  }

  /** Where the pick walk `while (object.parent && !object.userData.info)
      object = object.parent` stops when it starts at `n`: the nearest tagged
      node at or above `n`, or the root when there is none. */
  function PickTop(nodes: seq<Node>, n: nat): (r: nat)
    requires IsTree(nodes) && n < |nodes|
    ensures r <= n && AncestorOrSelf(nodes, r, n)
    ensures nodes[r].info.Some? || r == SceneRoot
    ensures forall a: nat :: a < |nodes| && AncestorOrSelf(nodes, a, n) && nodes[a].info.Some? ==> AncestorOrSelf(nodes, a, r)
    decreases n
  {
    if nodes[n].parent.Some? && nodes[n].info.None? then PickTop(nodes, nodes[n].parent.value) else n
  }

  /** The record a pick that hits node `n` resolves to, if any: one exists
      exactly when `n` or one of its ancestors is tagged, and a tagged `n`
      resolves to its own record. */
  function Pick(nodes: seq<Node>, n: nat): (r: Option<Record>)
    requires IsTree(nodes) && n < |nodes|
    ensures r.Some? <==> exists a: nat :: a < |nodes| && AncestorOrSelf(nodes, a, n) && nodes[a].info.Some?
    ensures nodes[n].info.Some? ==> r == nodes[n].info
  {
    nodes[PickTop(nodes, n)].info
  }

  /** The parent walk of `checkIntersection`, as the loop it is. */
  method AscendToTagged(nodes: seq<Node>, start: nat) returns (obj: nat)
    requires IsTree(nodes) && start < |nodes|
    ensures obj == PickTop(nodes, start)
    ensures Pick(nodes, start) == nodes[obj].info
  {
    obj := start;
    while nodes[obj].parent.Some? && nodes[obj].info.None?
      invariant obj < |nodes|
      invariant PickTop(nodes, obj) == PickTop(nodes, start)
      decreases obj
    {
      obj := nodes[obj].parent.value;
    }
  }

  /** A whole tree after `scene.add(root)`, numbered from `base`: the tree's root
      becomes a child of the scene and every other parent index is shifted. */
  function Attach(t: seq<Node>, base: nat): (r: seq<Node>)
    ensures |r| == |t|
    ensures IsTree(t) ==> r[0].parent == Some(SceneRoot)
    ensures IsTree(t) ==> forall j :: 0 < j < |t| ==> r[j].parent == Some(base + t[j].parent.value)
    ensures forall j :: 0 <= j < |t| ==>
      r[j].info == t[j].info && r[j].position == t[j].position && r[j].scale == t[j].scale && r[j].mesh == t[j].mesh
  {
    seq(|t|, j requires 0 <= j < |t| =>
      t[j].(parent := match t[j].parent
                      case None => Some(SceneRoot)
                      case Some(q) => Some(base + q)))
  }

  lemma AttachIsTree(nodes: seq<Node>, t: seq<Node>)
    requires IsTree(nodes) && IsTree(t)
    ensures IsTree(nodes + Attach(t, |nodes|))
  {
    var all := nodes + Attach(t, |nodes|);
    forall j | 0 < j < |all| ensures all[j].parent.Some? && all[j].parent.value < j {
      if j >= |nodes| {
        assert all[j] == Attach(t, |nodes|)[j - |nodes|];
      }
    }
  }

  /** Appending nodes never changes where an earlier node's pick walk stops. */
  lemma {:induction false} PickTopPrefix(nodes: seq<Node>, more: seq<Node>, n: nat)
    requires IsTree(nodes) && IsTree(nodes + more) && n < |nodes|
    ensures PickTop(nodes + more, n) == PickTop(nodes, n)
    decreases n
  {
    var all := nodes + more;
    assert all[n] == nodes[n];
    if nodes[n].parent.Some? && nodes[n].info.None? {
      PickTopPrefix(nodes, more, nodes[n].parent.value);
    }
  }

  /** In a freshly attached tree whose root is tagged and whose other nodes are
      not, every node's pick walk stops at that root. */
  lemma {:induction false} AttachedPick(nodes: seq<Node>, t: seq<Node>, j: nat)
    requires IsTree(nodes) && IsTree(t) && j < |t|
    requires t[0].info.Some?
    requires forall i :: 0 < i < |t| ==> t[i].info.None?
    ensures IsTree(nodes + Attach(t, |nodes|))
    ensures PickTop(nodes + Attach(t, |nodes|), |nodes| + j) == |nodes|
    ensures Pick(nodes + Attach(t, |nodes|), |nodes| + j) == t[0].info
    decreases j
  {
    AttachIsTree(nodes, t);
    var all := nodes + Attach(t, |nodes|);
    assert all[|nodes| + j] == Attach(t, |nodes|)[j];
    if j > 0 {
      AttachedPick(nodes, t, t[j].parent.value);
    }
  }

  /** The `THREE.Scene`: the node sequence every `scene.add` extends. */
  class Scene {
    var nodes: seq<Node>

    ghost predicate Valid()
      reads this
    {
      IsTree(nodes)
    }

    constructor ()
      ensures Valid() && nodes == [RootNode]
    {
      nodes := [RootNode];
    }

    /** Adds one node under an existing parent and returns its identifier. */
    method Add(n: Node) returns (id: nat)
      requires Valid() && n.parent.Some? && n.parent.value < |nodes|
      modifies this
      ensures Valid()
      ensures nodes == old(nodes) + [n] && id == |old(nodes)|
    {
      id := |nodes|;
      nodes := nodes + [n];
    }

    /** `scene.add(root)` for a node tree built outside the scene; returns the
        identifier of its root. */
    method AttachTree(t: seq<Node>) returns (id: nat)
      requires Valid() && IsTree(t)
      modifies this
      ensures Valid()
      ensures nodes == old(nodes) + Attach(t, |old(nodes)|) && id == |old(nodes)|
    {
      AttachIsTree(nodes, t);
      id := |nodes|;
      nodes := nodes + Attach(t, |nodes|);
    }
  }
}
