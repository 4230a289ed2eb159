/** `DinosaurManager`: placeholder population from the catalog, the pick
    resolution of `checkIntersection`, and the endpoint and aim of `travelTo`. */
module Dinosaurs {
  import opened Base
  import opened Catalog
  import opened SceneGraph
  import opened Ui

  /** The placeholder group of a record: under the scene, at the record's
      placed position, tagged with the record. */
  function GroupNode(d: Record): (r: Node)
    ensures r.parent == Some(SceneRoot) && r.info == Some(d) && r.mesh.None?
    ensures r.position == PlacedPosition(d.pos) && r.scale == UnitScale
  {
    Node(Some(SceneRoot), Some(d), PlacedPosition(d.pos), UnitScale, None)
  }

  /** The placeholder box inside group `group`: sized from the record (width a
      third of the length), coloured by it, untextured, and lifted by half its
      height so that its base rests at the group's origin. */
  function BoxNode(d: Record, group: nat): (r: Node)
    ensures r.parent == Some(group) && r.info.None?
    ensures r.mesh.Some? && r.mesh.value.geometry.Box?
    ensures var b := r.mesh.value.geometry;
      3.0 * b.width == d.length && b.height == d.height && b.depth == d.length
    ensures r.position.x == 0.0 && r.position.z == 0.0
    ensures r.position.y - r.mesh.value.geometry.height / 2.0 == 0.0
    ensures r.mesh.value.material == Some(Material(d.color, None, None, false))
  {
    Node(Some(group), None, Vec3(0.0, d.height / 2.0, 0.0), UnitScale,
         Some(Mesh(Box(d.length / 3.0, d.height, d.length), Some(Material(d.color, None, None, false)))))
  }

  /** The nodes `initDinosaurs` adds to a scene of `base` nodes: for each
      record, in catalog order, its group followed by the group's box. */
  function Placeholders(data: seq<Record>, base: nat): (r: seq<Node>)
    ensures |r| == 2 * |data|
    ensures forall k :: 0 <= k < |data| ==>
      r[2 * k] == GroupNode(data[k]) && r[2 * k + 1] == BoxNode(data[k], base + 2 * k)
    decreases |data|
  {
    if |data| == 0 then []
    else
      var n := |data| - 1;
      Placeholders(data[..n], base) + [GroupNode(data[n]), BoxNode(data[n], base + 2 * n)]
  }

  /** The identifiers of the placeholder groups, one per record. */
  function GroupIds(count: nat, base: nat): seq<nat> {
    seq(count, k => base + 2 * k)
  }

  /** Adding the placeholders keeps the scene a tree. */
  lemma PlaceholdersKeepTree(nodes: seq<Node>, data: seq<Record>)
    requires IsTree(nodes)
    ensures IsTree(nodes + Placeholders(data, |nodes|))
  {
    var base := |nodes|;
    var all := nodes + Placeholders(data, base);
    forall j | 0 < j < |all| ensures all[j].parent.Some? && all[j].parent.value < j {
      if j >= base {
        var placed := Placeholders(data, base);
        var m := (j - base) / 2;
        assert all[j] == placed[j - base];
        if j - base == 2 * m {
          assert placed[2 * m] == GroupNode(data[m]);
        } else {
          assert j - base == 2 * m + 1;
          assert placed[2 * m + 1] == BoxNode(data[m], base + 2 * m);
        }
      }
    }
  }

  /** After population each record's group sits at the identifier `GroupIds`
      gives it, and its box right after. */
  lemma PopulatedSlot(nodes: seq<Node>, data: seq<Record>, k: nat)
    requires k < |data|
    ensures (nodes + Placeholders(data, |nodes|))[|nodes| + 2 * k] == GroupNode(data[k])
    ensures (nodes + Placeholders(data, |nodes|))[|nodes| + 2 * k + 1] == BoxNode(data[k], |nodes| + 2 * k)
  {
    var placed := Placeholders(data, |nodes|);
    assert (nodes + placed)[|nodes| + 2 * k] == placed[2 * k];
    assert (nodes + placed)[|nodes| + 2 * k + 1] == placed[2 * k + 1];
  }

  /** A pick that hits a placeholder box resolves to that box's record. */
  lemma PlaceholderBoxPick(nodes: seq<Node>, data: seq<Record>, k: nat)
    requires IsTree(nodes) && k < |data|
    ensures IsTree(nodes + Placeholders(data, |nodes|))
    ensures Pick(nodes + Placeholders(data, |nodes|), |nodes| + 2 * k + 1) == Some(data[k])
    ensures Pick(nodes + Placeholders(data, |nodes|), |nodes| + 2 * k) == Some(data[k])
  {
    PopulatedSlot(nodes, data, k);
    PlaceholdersKeepTree(nodes, data);
    var all := nodes + Placeholders(data, |nodes|);
    var g := |nodes| + 2 * k;
    assert all[g].info == Some(data[k]);
    assert PickTop(all, g) == g;
    assert all[g + 1].parent == Some(g) && all[g + 1].info.None?;
    assert PickTop(all, g + 1) == PickTop(all, g);
  }

  /** `new THREE.Vector3(0, 2, 10)`: 2 units up, 10 units back along z. */
  const TravelOffset: Vec3 := Vec3(0.0, 2.0, 10.0)

  /** The camera animation `travelTo` starts: the position it ends at, and the
      point every animation step makes the camera look at. */
  datatype Tween = Tween(end: Vec3, lookAt: Vec3)

  function TravelPlan(target: Vec3): (t: Tween)
    ensures t.lookAt == target
    ensures t.end.x == target.x && t.end.y == target.y + 2.0 && t.end.z == target.z + 10.0
  {
    Tween(target.Plus(TravelOffset), target)
  }

  /** The camera, reduced to the animation last started on it. */
  class Camera {
    var tween: Option<Tween>

    constructor ()
      ensures tween.None?
    {
      tween := None;
    }
  }

  /** What `checkIntersection` does to the card for a frame's hit list
      (nearest hit first): no hits hide the card, a hit whose walk finds a tag
      shows that record, and a hit whose walk finds none changes nothing. */
  function PickOutcome(c: Card, nodes: seq<Node>, hits: seq<nat>): (r: Card)
    requires IsTree(nodes) && (|hits| > 0 ==> hits[0] < |nodes|)
    ensures |hits| == 0 ==> r == Hidden(c)
    ensures |hits| > 0 && Pick(nodes, hits[0]).None? ==> r == c
    ensures |hits| > 0 && Pick(nodes, hits[0]).Some? ==> r == Shown(c, Pick(nodes, hits[0]).value)
  {
    if |hits| == 0 then Hidden(c)
    else match Pick(nodes, hits[0])
      case Some(d) => Shown(c, d)
      case None => c
  }

  class DinosaurManager {
    const scene: Scene
    const camera: Camera
    const uiManager: UIManager
    const data: seq<Record>
    var dinoMeshes: seq<nat>

    /** One placed node per record, each a node of the scene. */
    ghost predicate Valid()
      reads this, scene
    {
      && scene.Valid()
      && |dinoMeshes| == |data|
      && forall k :: 0 <= k < |dinoMeshes| ==> dinoMeshes[k] < |scene.nodes|
    }

    constructor (scene: Scene, camera: Camera, uiManager: UIManager)
      requires scene.Valid()
      modifies scene
      ensures this.scene == scene && this.camera == camera && this.uiManager == uiManager
      ensures data == DinoData()
      ensures scene.nodes == old(scene.nodes) + Placeholders(DinoData(), |old(scene.nodes)|)
      ensures dinoMeshes == GroupIds(|DinoData()|, |old(scene.nodes)|)
      ensures Valid()
    {
      this.scene := scene;
      this.camera := camera;
      this.uiManager := uiManager;
      data := DinoData();
      dinoMeshes := [];
      new;
      InitDinosaurs();
    }

    /** Adds a placeholder group with its box for every record, in order, and
        records each group in `dinoMeshes`. */
    method InitDinosaurs()
      requires scene.Valid()
      modifies this`dinoMeshes, scene
      ensures scene.Valid()
      ensures scene.nodes == old(scene.nodes) + Placeholders(data, |old(scene.nodes)|)
      ensures dinoMeshes == old(dinoMeshes) + GroupIds(|data|, |old(scene.nodes)|)
    {
      var base := |scene.nodes|;
      var k := 0;
      while k < |data|
        invariant 0 <= k <= |data|
        invariant scene.Valid()
        invariant scene.nodes == old(scene.nodes) + Placeholders(data[..k], base)
        invariant dinoMeshes == old(dinoMeshes) + GroupIds(k, base)
      {
        var dino := data[k];
        var group := scene.Add(GroupNode(dino));
        var _ := scene.Add(BoxNode(dino, group));
        dinoMeshes := dinoMeshes + [group];
        assert data[..k + 1][..k] == data[..k];
        k := k + 1;
      }
      assert data[..k] == data;
    }

    /** One frame's pick: the hits are the ray's intersections with the trees
        of the nodes `dinoMeshes` names, nearest first, as the ray caster
        reports them; so every hit lies at or below one of those nodes. */
    method CheckIntersection(hits: seq<nat>)
      requires Valid()
      requires forall k :: 0 <= k < |hits| ==> hits[k] < |scene.nodes|
      requires forall k :: 0 <= k < |hits| ==>
        exists m :: 0 <= m < |dinoMeshes| && AncestorOrSelf(scene.nodes, dinoMeshes[m], hits[k])
      modifies uiManager`currentDino, uiManager`cardVisible, uiManager`nameText, uiManager`heightValue, uiManager`descText
      ensures uiManager.CardState() == PickOutcome(old(uiManager.CardState()), scene.nodes, hits)
    {
      if |hits| > 0 {
        var obj := AscendToTagged(scene.nodes, hits[0]);
        if scene.nodes[obj].info.Some? {
          uiManager.ShowInfo(scene.nodes[obj].info.value);
        }
      } else {
        uiManager.HideInfo();
      }
    }

    /** Starts the camera towards the placed node at `index`; the aim is the
        node's position at call time. */
    method TravelTo(index: nat)
      requires Valid() && index < |dinoMeshes|
      modifies camera
      ensures camera.tween == Some(TravelPlan(scene.nodes[dinoMeshes[index]].position))
    {
      var targetPos := scene.nodes[dinoMeshes[index]].position;
      var endPos := targetPos.Plus(TravelOffset);
      camera.tween := Some(Tween(endPos, targetPos));
    }
  }

  /** Travelling to the Velociraptor, catalog entry 1 placed at (10, 0, -15),
      ends at (10, 2, -5) and aims at the Velociraptor. */
  lemma VelociraptorTravel()
    ensures DinoData()[1].name == "Velociraptor"
    ensures TravelPlan(PlacedPosition(DinoData()[1].pos)) == Tween(Vec3(10.0, 2.0, -5.0), Vec3(10.0, 0.0, -15.0))
  {
    assert DinoData()[1].pos == Pos(10.0, -15.0, None);
  }
}
