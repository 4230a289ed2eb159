/** The start-up sequence of `main.js`: construction of the manager and UI,
    substitution of preloaded models for placeholders, and the list wiring. */
module App {
  import opened Base
  import opened Catalog
  import opened SceneGraph
  import opened Ui
  import opened Dinosaurs

  /** The textures preloaded for one subject, by material slot. */
  datatype TextureSet = TextureSet(colorMap: Option<Texture>, normalMap: Option<Texture>)

  /** One preloaded asset: the record it was loaded for, the model's node tree
      if loading succeeded, and its textures if any were loaded. */
  datatype Asset = Asset(dino: Record, gltf: Option<seq<Node>>, textures: Option<TextureSet>)

  /** Every loaded model is a rooted node tree. */
  predicate ValidAssets(assets: seq<Asset>) {
    forall k :: 0 <= k < |assets| && assets[k].gltf.Some? ==> IsTree(assets[k].gltf.value)
  }

  /** The traversal callback for one node: a mesh with a material gets each
      texture that is present in the set and is marked for update; any other
      node is left alone. Nothing but the material changes. */
  function Textured(n: Node, tex: TextureSet): (r: Node)
    ensures r.parent == n.parent && r.info == n.info && r.position == n.position && r.scale == n.scale
    ensures n.mesh.None? || n.mesh.value.material.None? ==> r == n
    ensures n.mesh.Some? && n.mesh.value.material.Some? ==>
      && r.mesh.Some? && r.mesh.value.geometry == n.mesh.value.geometry
      && r.mesh.value.material.Some?
      && r.mesh.value.material.value.color == n.mesh.value.material.value.color
      && r.mesh.value.material.value.needsUpdate
      && r.mesh.value.material.value.colorMap
         == (if tex.colorMap.Some? then tex.colorMap else n.mesh.value.material.value.colorMap)
      && r.mesh.value.material.value.normalMap
         == (if tex.normalMap.Some? then tex.normalMap else n.mesh.value.material.value.normalMap)
  {
    match n.mesh
    case Some(Mesh(g, Some(m))) =>
      var m1 := if tex.colorMap.Some? then m.(colorMap := tex.colorMap) else m;
      var m2 := if tex.normalMap.Some? then m1.(normalMap := tex.normalMap) else m1;
      n.(mesh := Some(Mesh(g, Some(m2.(needsUpdate := true)))))
    case _ => n
  }

  function TexturedTree(t: seq<Node>, tex: TextureSet): seq<Node> {
    seq(|t|, j requires 0 <= j < |t| => Textured(t[j], tex))
  }

  /** `gltfScene.traverse(...)` with the texture callback, visiting every node
      of the model's tree. */
  method ApplyTextures(tree: seq<Node>, tex: TextureSet) returns (r: seq<Node>)
    ensures |r| == |tree|
    ensures forall j :: 0 <= j < |tree| ==> r[j] == Textured(tree[j], tex)
  {
    r := tree;
    var j := 0;
    while j < |r|
      invariant 0 <= j <= |r| == |tree|
      invariant forall i :: 0 <= i < j ==> r[i] == Textured(tree[i], tex)
      invariant forall i :: j <= i < |r| ==> r[i] == tree[i]
    {
      var child := r[j];
      if child.mesh.Some? && child.mesh.value.material.Some? {
        var material := child.mesh.value.material.value;
        if tex.colorMap.Some? {
          material := material.(colorMap := tex.colorMap);
        }
        if tex.normalMap.Some? {
          material := material.(normalMap := tex.normalMap);
        }
        material := material.(needsUpdate := true);
        r := r[j := child.(mesh := Some(child.mesh.value.(material := Some(material))))];
      }
      j := j + 1;
    }
  }

  /** A loaded model as it is added to the scene: its root scaled by the
      record's scale (default 1), textured if textures were loaded, placed by
      the same rule as a placeholder group and tagged with the record. */
  function Prepared(a: Asset): (t: seq<Node>)
    requires a.gltf.Some? && IsTree(a.gltf.value)
    ensures |t| == |a.gltf.value| && IsTree(t)
    ensures t[0].info == Some(a.dino) && t[0].position == PlacedPosition(a.dino.pos)
    ensures t[0].scale == Uniform(EffectiveScale(a.dino))
    ensures forall j :: 0 <= j < |t| ==> t[j].parent == a.gltf.value[j].parent
    ensures forall j :: 0 < j < |t| ==>
      t[j].info == a.gltf.value[j].info && t[j].position == a.gltf.value[j].position && t[j].scale == a.gltf.value[j].scale
    ensures forall j :: 0 <= j < |t| ==>
      t[j].mesh == (if a.textures.Some? then Textured(a.gltf.value[j], a.textures.value) else a.gltf.value[j]).mesh
  {
    var t0 := a.gltf.value;
    var t1 := t0[0 := t0[0].(scale := Uniform(EffectiveScale(a.dino)))];
    var t2 := if a.textures.Some? then TexturedTree(t1, a.textures.value) else t1;
    assert a.textures.Some? ==> t2[0].mesh == Textured(t0[0], a.textures.value).mesh;
    t2[0 := t2[0].(position := PlacedPosition(a.dino.pos), info := Some(a.dino))]
  }

  /** The scene's nodes together with the manager's `dinoMeshes`. */
  datatype Population = Population(nodes: seq<Node>, meshes: seq<nat>)

  /** One turn of `assets.forEach`: an asset with a model overwrites slot `i`
      with the model's root; one without leaves everything as it is. */
  function PlaceStep(p: Population, a: Asset, i: nat): (r: Population)
    requires i < |p.meshes| && (a.gltf.Some? ==> IsTree(a.gltf.value))
    ensures |r.meshes| == |p.meshes| && p.nodes <= r.nodes
  {
    if a.gltf.None? then p
    else Population(p.nodes + Attach(Prepared(a), |p.nodes|), p.meshes[i := |p.nodes|])
  }

  /** The whole loop, asset `k` acting on slot `k`. */
  function PlaceAll(p: Population, assets: seq<Asset>): (r: Population)
    requires |assets| <= |p.meshes| && ValidAssets(assets)
    ensures |r.meshes| == |p.meshes|
    decreases |assets|
  {
    if assets == [] then p
    else
      var n := |assets| - 1;
      ValidPrefix(assets, n);
      PlaceStep(PlaceAll(p, assets[..n]), assets[n], n)
  }

  predicate MeshesInScene(p: Population) {
    forall k :: 0 <= k < |p.meshes| ==> p.meshes[k] < |p.nodes|
  }

  /** The root of a substituted model: a child of the scene, tagged with the
      asset's record, at the record's placed position, with the record's scale. */
  predicate ModelRoot(n: Node, a: Asset) {
    && n.parent == Some(SceneRoot)
    && n.info == Some(a.dino)
    && n.position == PlacedPosition(a.dino.pos)
    && n.scale == Uniform(EffectiveScale(a.dino))
  }

  lemma ValidPrefix(assets: seq<Asset>, n: nat)
    requires ValidAssets(assets) && n <= |assets|
    ensures ValidAssets(assets[..n])
  {
    forall k | 0 <= k < n && assets[..n][k].gltf.Some? ensures IsTree(assets[..n][k].gltf.value) {
      assert assets[..n][k] == assets[k];
    }
  }

  /** What the placement loop guarantees: the scene stays a tree and only grows
      (so no placeholder, and no node that was there, is removed or changed);
      there is still one placed node per slot, inside the scene; a slot whose
      asset has no model keeps its node; a slot whose asset has one now names
      a new node, the model's root, placed and tagged like a placeholder. */
  lemma {:induction false} PlaceAllFacts(p: Population, assets: seq<Asset>)
    requires IsTree(p.nodes) && MeshesInScene(p) && |assets| <= |p.meshes| && ValidAssets(assets)
    ensures IsTree(PlaceAll(p, assets).nodes) && MeshesInScene(PlaceAll(p, assets))
    ensures p.nodes <= PlaceAll(p, assets).nodes
    ensures forall k :: 0 <= k < |p.meshes| && (k >= |assets| || assets[k].gltf.None?) ==>
      PlaceAll(p, assets).meshes[k] == p.meshes[k]
    ensures forall k :: 0 <= k < |assets| && assets[k].gltf.Some? ==>
      |p.nodes| <= PlaceAll(p, assets).meshes[k] < |PlaceAll(p, assets).nodes|
      && ModelRoot(PlaceAll(p, assets).nodes[PlaceAll(p, assets).meshes[k]], assets[k])
    decreases |assets|
  {
    if assets != [] {
      var n := |assets| - 1;
      ValidPrefix(assets, n);
      PlaceAllFacts(p, assets[..n]);
      var q := PlaceAll(p, assets[..n]);
      var a := assets[n];
      var r := PlaceAll(p, assets);
      assert r == PlaceStep(q, a, n);
      forall k | 0 <= k < n && assets[k].gltf.Some?
        ensures |p.nodes| <= r.meshes[k] < |r.nodes| && ModelRoot(r.nodes[r.meshes[k]], assets[k])
      {
        assert assets[..n][k] == assets[k];
      }
      forall k | 0 <= k < |p.meshes| && (k >= |assets| || assets[k].gltf.None?)
        ensures r.meshes[k] == p.meshes[k]
      {
        if k < n {
          assert assets[..n][k] == assets[k];
        }
      }
      if a.gltf.Some? {
        var t := Prepared(a);
        AttachIsTree(q.nodes, t);
        assert r.nodes[|q.nodes|] == Attach(t, |q.nodes|)[0];
      }
    }
  }

  /** Picks that resolved before the loop resolve the same way after it. */
  lemma PlaceAllKeepsPicks(p: Population, assets: seq<Asset>, n: nat)
    requires IsTree(p.nodes) && MeshesInScene(p) && |assets| <= |p.meshes| && ValidAssets(assets)
    requires n < |p.nodes|
    ensures IsTree(PlaceAll(p, assets).nodes) && p.nodes <= PlaceAll(p, assets).nodes
    ensures Pick(PlaceAll(p, assets).nodes, n) == Pick(p.nodes, n)
  {
    PlaceAllFacts(p, assets);
    var all := PlaceAll(p, assets).nodes;
    var more := all[|p.nodes|..];
    assert all == p.nodes + more;
    PickTopPrefix(p.nodes, more, n);
  }

  /** No node of a loaded model other than its root carries a tag. */
  predicate UntaggedBelowRoot(t: seq<Node>) {
    forall j :: 0 < j < |t| ==> t[j].info.None?
  }

  /** One placement step keeps the scene a tree and keeps every earlier pick. */
  lemma StepKeepsPick(q: Population, a: Asset, i: nat, m: nat)
    requires IsTree(q.nodes) && i < |q.meshes| && (a.gltf.Some? ==> IsTree(a.gltf.value)) && m < |q.nodes|
    ensures IsTree(PlaceStep(q, a, i).nodes)
    ensures Pick(PlaceStep(q, a, i).nodes, m) == Pick(q.nodes, m)
  {
    if a.gltf.Some? {
      AttachIsTree(q.nodes, Prepared(a));
      PickTopPrefix(q.nodes, Attach(Prepared(a), |q.nodes|), m);
    }
  }

  /** Slot k's placed node, offset by j, exists in a tree-shaped scene and a
      ray hitting it resolves to record d. */
  predicate ResolvesTo(r: Population, k: nat, j: nat, d: Record) {
    && IsTree(r.nodes) && k < |r.meshes| && r.meshes[k] + j < |r.nodes|
    && Pick(r.nodes, r.meshes[k] + j) == Some(d)
  }

  /** The step that substitutes a model makes every node of that model resolve
      to the asset's record. */
  lemma StepModelPick(q: Population, a: Asset, i: nat, j: nat)
    requires IsTree(q.nodes) && i < |q.meshes|
    requires a.gltf.Some? && IsTree(a.gltf.value) && UntaggedBelowRoot(a.gltf.value) && j < |a.gltf.value|
    ensures ResolvesTo(PlaceStep(q, a, i), i, j, a.dino)
  {
    AttachedPick(q.nodes, Prepared(a), j);
  }

  /** A step acting on another slot leaves slot k's pick as it was. */
  lemma StepKeepsSlotPick(q: Population, a: Asset, i: nat, k: nat, j: nat, d: Record)
    requires i < |q.meshes| && (a.gltf.Some? ==> IsTree(a.gltf.value))
    requires k != i && ResolvesTo(q, k, j, d)
    ensures ResolvesTo(PlaceStep(q, a, i), k, j, d)
  {
    StepKeepsPick(q, a, i, q.meshes[k] + j);
  }

  lemma {:induction false} PlaceAllIsTree(p: Population, assets: seq<Asset>)
    requires IsTree(p.nodes) && |assets| <= |p.meshes| && ValidAssets(assets)
    ensures IsTree(PlaceAll(p, assets).nodes)
    decreases |assets|
  {
    if assets != [] {
      var n := |assets| - 1;
      ValidPrefix(assets, n);
      PlaceAllIsTree(p, assets[..n]);
      var q := PlaceAll(p, assets[..n]);
      if assets[n].gltf.Some? {
        AttachIsTree(q.nodes, Prepared(assets[n]));
      }
    }
  }

  /** A ray that hits any node of a substituted model resolves to the record of
      that model's asset. */
  lemma {:induction false} ModelPick(p: Population, assets: seq<Asset>, k: nat, j: nat)
    requires IsTree(p.nodes) && |assets| <= |p.meshes| && ValidAssets(assets)
    requires k < |assets| && assets[k].gltf.Some? && j < |assets[k].gltf.value|
    requires UntaggedBelowRoot(assets[k].gltf.value)
    ensures ResolvesTo(PlaceAll(p, assets), k, j, assets[k].dino)
    decreases |assets|
  {
    var n := |assets| - 1;
    ValidPrefix(assets, n);
    PlaceAllIsTree(p, assets[..n]);
    var q := PlaceAll(p, assets[..n]);
    assert PlaceAll(p, assets) == PlaceStep(q, assets[n], n);
    if k < n {
      assert assets[..n][k] == assets[k];
      ModelPick(p, assets[..n], k, j);
      StepKeepsSlotPick(q, assets[n], n, k, j, assets[k].dino);
    } else {
      StepModelPick(q, assets[k], k, j);
    }
  }

  /** The record that ends up at catalog slot k: the asset's, when the asset
      brought a model, else the placeholder's. */
  function Subject(data: seq<Record>, assets: seq<Asset>, k: nat): Record
    requires k < |data|
  {
    if k < |assets| && assets[k].gltf.Some? then assets[k].dino else data[k]
  }

  /** The scene and `dinoMeshes` right after the manager is constructed on a
      scene holding `base`. */
  function Initial(base: seq<Node>, data: seq<Record>): Population {
    Population(base + Placeholders(data, |base|), GroupIds(|data|, |base|))
  }

  /** After population and substitution, every catalog slot names a node of the
      scene that is tagged with that slot's subject and stands at its placed
      position, whether a model replaced the placeholder or not. */
  lemma PopulatedSubjects(base: seq<Node>, data: seq<Record>, assets: seq<Asset>, k: nat)
    requires IsTree(base) && |assets| <= |data| && ValidAssets(assets) && k < |data|
    ensures var r := PlaceAll(Initial(base, data), assets);
      && |r.meshes| == |data| && r.meshes[k] < |r.nodes|
      && r.nodes[r.meshes[k]].info == Some(Subject(data, assets, k))
      && r.nodes[r.meshes[k]].position == PlacedPosition(Subject(data, assets, k).pos)
  {
    var p := Initial(base, data);
    PlaceholdersKeepTree(base, data);
    forall i | 0 <= i < |p.meshes| ensures p.meshes[i] < |p.nodes| {
      PopulatedSlot(base, data, i);
    }
    PlaceAllFacts(p, assets);
    var r := PlaceAll(p, assets);
    if !(k < |assets| && assets[k].gltf.Some?) {
      PopulatedSlot(base, data, k);
      assert r.nodes[p.meshes[k]] == p.nodes[p.meshes[k]];
    }
  }

  /** `main.js` lines 51-72, on the manager's scene and `dinoMeshes`. */
  method PlaceModels(mgr: DinosaurManager, assets: seq<Asset>)
    requires mgr.Valid() && |assets| <= |mgr.dinoMeshes| && ValidAssets(assets)
    modifies mgr`dinoMeshes, mgr.scene
    ensures mgr.Valid()
    ensures Population(mgr.scene.nodes, mgr.dinoMeshes)
            == PlaceAll(Population(old(mgr.scene.nodes), old(mgr.dinoMeshes)), assets)
  {
    ghost var start := Population(mgr.scene.nodes, mgr.dinoMeshes);
    var i := 0;
    while i < |assets|
      invariant 0 <= i <= |assets|
      invariant mgr.Valid()
      invariant ValidAssets(assets[..i])
      invariant Population(mgr.scene.nodes, mgr.dinoMeshes) == PlaceAll(start, assets[..i])
    {
      var asset := assets[i];
      ValidPrefix(assets, i + 1);
      assert assets[..i + 1][..i] == assets[..i];
      if asset.gltf.Some? {
        var gltfScene := asset.gltf.value;
        var scale := EffectiveScale(asset.dino);
        gltfScene := gltfScene[0 := gltfScene[0].(scale := Uniform(scale))];
        ghost var scaled := gltfScene;
        if asset.textures.Some? {
          gltfScene := ApplyTextures(gltfScene, asset.textures.value);
          assert gltfScene == TexturedTree(scaled, asset.textures.value);
        }
        gltfScene := gltfScene[0 := gltfScene[0].(position := PlacedPosition(asset.dino.pos), info := Some(asset.dino))];
        assert gltfScene == Prepared(asset);
        var id := mgr.scene.AttachTree(gltfScene);
        mgr.dinoMeshes := mgr.dinoMeshes[i := id];
      }
      i := i + 1;
    }
    assert assets[..i] == assets;
  }

  /** Start-up after preloading: the scene, the UI, the manager with its
      placeholders, model substitution, and the subject list. The lighting,
      floor and fences of the world are not part of this model. */
  method StartApp(assets: seq<Asset>) returns (scene: Scene, camera: Camera, ui: UIManager, mgr: DinosaurManager)
    requires |assets| <= |DinoData()| && ValidAssets(assets)
    ensures mgr.scene == scene && mgr.camera == camera && mgr.uiManager == ui
    ensures mgr.Valid() && mgr.data == DinoData()
    ensures Population(scene.nodes, mgr.dinoMeshes) == PlaceAll(Initial([RootNode], DinoData()), assets)
    ensures ui.CardState() == Card(None, false, "", 0.0, "")
    ensures |ui.listItems| == |DinoData()|
    ensures forall k :: 0 <= k < |DinoData()| ==> ui.listItems[k] == ListItem(DinoData()[k].name, k)
  {
    scene := new Scene();
    camera := new Camera();
    ui := new UIManager();
    mgr := new DinosaurManager(scene, camera, ui);
    PlaceModels(mgr, assets);
    ui.PopulateList(mgr.data);
  }

  /** The list's click callback: item k travels to the slot its index names. */
  method OnListClick(ui: UIManager, mgr: DinosaurManager, k: nat)
    requires mgr.Valid() && k < |ui.listItems| && ui.listItems[k].index < |mgr.dinoMeshes|
    modifies mgr.camera
    ensures mgr.camera.tween == Some(TravelPlan(mgr.scene.nodes[mgr.dinoMeshes[ui.listItems[k].index]].position))
  {
    mgr.TravelTo(ui.listItems[k].index);
  }

  /** After start-up, clicking list item k aims the camera at slot k's subject
      and ends 2 up and 10 back from its placed position. */
  lemma ListClickTravel(assets: seq<Asset>, k: nat)
    requires |assets| <= |DinoData()| && ValidAssets(assets) && k < |DinoData()|
    ensures var r := PlaceAll(Initial([RootNode], DinoData()), assets);
      && k < |r.meshes| && r.meshes[k] < |r.nodes|
      && TravelPlan(r.nodes[r.meshes[k]].position)
         == Tween(PlacedPosition(Subject(DinoData(), assets, k).pos).Plus(TravelOffset),
                  PlacedPosition(Subject(DinoData(), assets, k).pos))
  {
    PopulatedSubjects([RootNode], DinoData(), assets, k);
  }
}
