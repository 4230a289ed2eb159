# Jurassic park scene population and interaction, in Dafny

This project models the part of the JURSTATIC PARK web application that
fills the scene and answers the user. The parts are:

- **Catalog.** The fixed list of ten subject records that `DinosaurManager` serves.
- **Placeholder population.** The manager's constructor adds one tagged group per record, each holding a box sized from the record, and keeps the groups in `dinoMeshes`.
- **Pick resolution.** `checkIntersection` walks up from the first ray hit to the nearest tagged node. It then shows that record's info card, or hides the card when nothing was hit.
- **Camera travel.** `travelTo` sets the camera's end point (target plus (0, 2, 10)) and the point it keeps aiming at.
- **Info card.** `UIManager` keeps `currentDino`, suppresses a repeated show of the same name and ignores a hide when there is no subject. `populateList` builds one list item per record, remembering the record's index for its click.
- **Model substitution.** At start-up, every preloaded asset that brought a model is scaled, textured, positioned, tagged and added to the scene. It then takes slot i of `dinoMeshes`, where i is the asset's index in the asset list, whatever record the asset carries.

The scene graph is a sequence of nodes. A node's identifier is its index, and node 0 is the `THREE.Scene`. Every other node names a parent with a smaller index. That ordering is how the model states that the graph is a tree, so the pick walk always ends.

A model loaded from a file is a node tree of the same shape. It is attached by appending it with its parent indices shifted. The tag that `userData.info` carries is an optional `Record` on the node.

Each long-lived object is a class:

- `Scene` has the node sequence.
- `UIManager` has the card fields and the list.
- `DinosaurManager` has `dinoMeshes`.
- `Camera` holds the animation last started on it.

Nodes, loaded node trees and materials are values. The JavaScript code mutates them in place (the placeholder group and mesh, the loaded model's root and its materials); the model builds an updated copy instead.

Most methods are proved against a pure function:

- `Shown` / `Hidden` for the card.
- `PickTop` / `PickOutcome` for picks.
- `Placeholders` for population.
- `PlaceAll` for the substitution loop.
- `TravelPlan` for travel.

`Ui.UIManager.PopulateList` and `SceneGraph.Scene.Add` instead state their new state directly.

The lemmas state what the application relies on:

- After start-up every slot of `dinoMeshes` names a node tagged with that slot's subject and standing at the subject's placed position. The subject is the asset's record where a model came, the catalog record otherwise.
- A hit anywhere in a placeholder resolves to its record. A hit anywhere in a loaded model resolves to the asset's record when no node below the model's root carries a tag. `main.js:68` retags only the root, and the walk stops at the first tagged node.
- Adding nodes never changes where an earlier node's walk stops.
- Starting from a coherent card (visible exactly when it names a subject), any run of show and hide events for named subjects keeps it coherent. The card afterwards reflects the last of those events. A hit whose walk finds no tag changes nothing and is not an event.

Three points about the program shape the model:

- `DinosaurManager.preloadAllAssets` is called at main.js:13 and defined in none of these sources. The asset list it yields is an input.
- Every record first gets a placeholder. A loaded model is then added beside it and takes slot i of `dinoMeshes`. The replaced placeholder stays in the scene and stays tagged (`PlaceAllFacts`, `PlaceAllKeepsPicks`). It is no longer a ray-cast target, because `checkIntersection` casts only at the nodes `dinoMeshes` names (src/DinosaurManager.js:75).
- Tags stay on the node, as `userData.info` keeps them.

Files:

- `base.dfy`: option and vector values.
- `catalog.dfy`: records, the catalog, and the position and scale defaults.
- `scene.dfy`: the scene graph, the pick walk and tree attachment.
- `ui.dfy`: the `UIManager` card and list.
- `dinosaurs.dfy`: `DinosaurManager`.
- `app.dfy`: the start-up sequence of `main.js`.

## Model

| member | source | states |
|---|---|---|
| Catalog.DinoData | src/DinosaurManager.js:17-30 | ten records with pairwise-distinct names, each height and length positive and no scale; only entry 6 (Pterodactyl) gives a y, which is 10 |
| Catalog.PlacedPosition | src/DinosaurManager.js:49 | x and z are copied; a given y is used (a zero y, which the default replaces with 0, is still zero); an absent y puts the node at height 0 |
| Catalog.EffectiveScale | main.js:55 | the record's scale when set and non-zero, otherwise 1; never 0 |
| Base.Vec3.Plus | src/DinosaurManager.js:100 | every component of the result exceeds the receiver's by the operand's component |
| Dinosaurs.GroupNode | src/DinosaurManager.js:35-52 | the group is a child of the scene, tagged with the record, has no mesh of its own, unit scale, and stands at the record's placed position |
| Dinosaurs.BoxNode | src/DinosaurManager.js:38-46 | the box is a child of its group and untagged; its width is a third of the length, height and depth are the record's, colour is the record's, no textures; x and z are 0 and it is lifted by half its height, so its base rests at the group origin |
| Dinosaurs.Placeholders | src/DinosaurManager.js:33-56 | two nodes per record: record k's group at offset 2k and the group's box right after it, in catalog order |
| Dinosaurs.PlaceholdersKeepTree | src/DinosaurManager.js:46-54 | adding all placeholders to a tree-shaped scene leaves it a tree |
| Dinosaurs.PopulatedSlot | src/DinosaurManager.js:33-56 | after population, node base+2k is record k's group and node base+2k+1 its box, whatever the scene held before |
| Dinosaurs.PlaceholderBoxPick | src/DinosaurManager.js:79-86 | a hit on record k's box, or on its group, resolves to record k |
| Dinosaurs.TravelPlan | src/DinosaurManager.js:95-109 | the camera aims at the target, and its end point is 2 above and 10 further along z than the target |
| Dinosaurs.VelociraptorTravel | src/DinosaurManager.js:20 | catalog entry 1 is the Velociraptor, and travelling to its placed position (10, 0, -15) ends at (10, 2, -5) and aims at (10, 0, -15) |
| Dinosaurs.Camera.constructor | main.js:25 | a new camera has no animation running |
| Dinosaurs.PickOutcome | src/DinosaurManager.js:77-89 | no hits hide the card; a first hit whose walk finds a tag shows that record; a first hit whose walk finds none leaves the card unchanged |
| Dinosaurs.DinosaurManager.constructor | src/DinosaurManager.js:5-15 | keeps the scene, camera and UI manager, takes the literal catalog, and leaves the scene extended by the catalog's placeholders with `dinoMeshes` naming each record's group |
| Dinosaurs.DinosaurManager.InitDinosaurs | src/DinosaurManager.js:32-57 | appends exactly the placeholders of the catalog to the scene and the group identifiers to `dinoMeshes`, keeping the scene a tree |
| Dinosaurs.DinosaurManager.CheckIntersection | src/DinosaurManager.js:71-90 | for a hit list whose every hit lies at or below a node `dinoMeshes` names, as the recursive ray cast at line 75 reports, the card afterwards is `PickOutcome` of the card before, the scene and the hit list |
| Dinosaurs.DinosaurManager.TravelTo | src/DinosaurManager.js:93-112 | the camera's new animation is the travel plan to the position the slot's node has at call time |
| SceneGraph.PickTop | src/DinosaurManager.js:79-82 | the walk stops at the node itself or an ancestor, that node is tagged or is the root, and no tagged ancestor lies between it and the start |
| SceneGraph.Pick | src/DinosaurManager.js:84 | the walk yields a record exactly when the hit node or one of its ancestors is tagged; a tagged hit node yields its own record |
| SceneGraph.AscendToTagged | src/DinosaurManager.js:79-82 | the loop ends at `PickTop` of the first hit, so the record it yields is `Pick` of that hit |
| SceneGraph.Attach | main.js:69 | `scene.add` of a tree's root: the root becomes a child of the scene, every other node keeps its parent renumbered by the base, and tags, placement and meshes are unchanged |
| SceneGraph.AttachIsTree | main.js:69 | adding a loaded tree to a tree-shaped scene leaves it a tree |
| SceneGraph.PickTopPrefix | main.js:69 | appending nodes does not change where an earlier node's pick walk stops |
| SceneGraph.AttachedPick | main.js:68-69 | in a tree attached with only its root tagged, a hit on any of its nodes resolves to the root's record |
| SceneGraph.Scene.constructor | main.js:20 | a new scene holds only its root |
| SceneGraph.Scene.Add | src/DinosaurManager.js:54 | one node is appended under an existing parent, its identifier is the old size, and the scene stays a tree |
| SceneGraph.Scene.AttachTree | main.js:69 | the loaded tree is appended with shifted parents, its root's identifier is the old size, and the scene stays a tree |
| Ui.Shown | src/UIManager.js:22-31 | the current subject becomes the record's name; a repeated name changes nothing; a new name makes the card visible and shows the record's name, height and description |
| Ui.Hidden | src/UIManager.js:33-37 | without a truthy current subject nothing changes; otherwise the subject is cleared and the card hidden; the displayed texts are never touched |
| Ui.ShowIsDeduplicated | src/UIManager.js:23 | showing the same record twice is the same as showing it once |
| Ui.ShowDeduplicatesByName | src/UIManager.js:23 | a second record with the same name leaves the first record's fields on the card |
| Ui.HideIsIdempotent | src/UIManager.js:33-37 | hiding twice is the same as hiding once |
| Ui.ShowHideShow | src/UIManager.js:22-37 | after show then hide the card is hidden with no subject, and showing again re-displays the record |
| Ui.EmptyNameIsNeverHidden | src/UIManager.js:34 | a record named "" makes `currentDino` falsy, so a later hide leaves the card visible |
| Ui.RunKeepsCoherent | src/UIManager.js:22-37 | any sequence of events with named subjects keeps the card visible exactly when it has a subject, and then showing that subject's name |
| Ui.RunReflectsLastEvent | src/UIManager.js:22-37 | after such a sequence the card shows the last event's subject, or is hidden with no subject when the last event was a hide |
| Ui.UIManager.constructor | src/UIManager.js:10 | no current subject; the card hidden with empty texts and an empty list, as the page starts them |
| Ui.UIManager.PopulateList | src/UIManager.js:13-20 | one item is appended per record, in order; item k displays record k's name and its click passes k |
| Ui.UIManager.ShowInfo | src/UIManager.js:22-31 | the card afterwards is `Shown` of the card before |
| Ui.UIManager.HideInfo | src/UIManager.js:33-37 | the card afterwards is `Hidden` of the card before |
| App.Textured | main.js:59-65 | only a mesh with a material changes: each present texture fills its slot, an absent one leaves the slot as it was, the material is marked for update, and geometry, colour, parent, tag and placement stay as they were |
| App.ApplyTextures | main.js:58-66 | every node of the tree is replaced by its textured form and the tree keeps its size |
| App.Prepared | main.js:53-68 | the model keeps its tree shape; its root gets the effective scale, the placed position and the asset's record as its tag; the other nodes keep their tag and placement; meshes are textured exactly when the asset has textures |
| App.PlaceStep | main.js:52-71 | the scene only grows and the number of slots is unchanged |
| App.PlaceAll | main.js:51-72 | the number of slots is unchanged |
| App.PlaceAllFacts | main.js:51-72 | the scene stays a tree and only grows; every slot names a scene node; a slot without a model keeps its node; a slot with one names a new model root that is a child of the scene, tagged with the asset's record, at its placed position, with its effective scale |
| App.PlaceAllKeepsPicks | main.js:51-72 | the walk from any node that was in the scene before the loop stops at the same tagged node after it; a replaced placeholder keeps its tag, though the ray no longer targets it |
| App.StepKeepsPick | main.js:69 | one placement step keeps the scene a tree and keeps the pick of every earlier node |
| App.StepModelPick | main.js:67-70 | after the step that substitutes a model in which no node below the root carries a tag, a hit on any node of that model resolves to the asset's record |
| App.StepKeepsSlotPick | main.js:70 | a step acting on another slot leaves this slot's node and its picks as they were |
| App.PlaceAllIsTree | main.js:51-72 | the loop keeps the scene a tree |
| App.ModelPick | main.js:51-72 | after the loop, a hit on any node of a substituted model in which no node below the root carries a tag resolves to that asset's record |
| App.PopulatedSubjects | main.js:51-72 | after population and substitution every catalog slot names a scene node tagged with the slot's subject (the asset's record where a model came, the catalog record otherwise) and standing at that subject's placed position |
| App.PlaceModels | main.js:51-72 | scene and `dinoMeshes` afterwards are `PlaceAll` of their values before, and the manager stays valid |
| App.StartApp | main.js:44-77 | the manager owns the new scene, camera and UI manager; scene and `dinoMeshes` are `PlaceAll` of the populated initial scene; the card starts hidden; the list has one item per catalog record with its name and index |
| App.OnListClick | main.js:75-77 | a click on list item k starts the travel to the node in the slot the item remembers |
| App.ListClickTravel | main.js:75-77 | after start-up, the travel for slot k ends 2 up and 10 back from slot k's subject's placed position and aims at it |

## Left out

- Rendering, the renderer and camera set-up (the camera's position and projection), window resizing and the animation tick loop (main.js:18-41, 82-91) are host plumbing. `checkIntersection` is modelled as one call with that frame's hit list.
- The ray cast (`Raycaster.setFromCamera` and `intersectObjects`, src/DinosaurManager.js:73-75) is library geometry. Its ordered hit list is an input, and each hit is a node identifier.
- The gsap animation (src/DinosaurManager.js:103-111) is time interpolation in floating point. Only its end point and aim are modelled, and the camera holds the last requested animation.
- `src/World.js` is not part of this model. The props it adds to the scene before the manager is built (main.js:45) are absent.
- App.StartApp: the scene is populated starting from the root alone. Node identifiers after start-up therefore differ from the running application's, which has the World's props and the human capsule. The placeholder and substitution lemmas are stated for any starting scene.
- Dinosaurs.DinosaurManager.constructor: does not call `initHumanRef` (src/DinosaurManager.js:59-69), a constant untagged decoration outside `dinoMeshes`.
- `preloadAllAssets`, `InputController` and `loading-bar.js` are not part of this model, nor are the progress calls (main.js:5-16, 48, 80). The loaded assets are an input.
- DOM lookup, `classList` and list-element creation in `UIManager` are abstract. The card is a visible flag and the displayed fields, and the list is a sequence of items. The unused `dietEl` is left out.
- Ui.UIManager.constructor: assumes the page's markup starts the info card hidden with empty texts and the subject list empty. src/UIManager.js:2-11 only looks these elements up and sets `currentDino` to null, and the page is not part of this model. The coherent starting card of `RunKeepsCoherent` rests on this assumption.
- Ui.UIManager.ShowInfo: the height text `data.height + "m"` is kept as the number. JavaScript number-to-string formatting is not modelled.
- App.PlaceModels: requires that there are no more assets than `dinoMeshes` slots. A longer asset list would extend the JavaScript array with new slots, which this model does not represent.
- Nodes, loaded trees and materials are values, so the model does not capture updates in place. It changes the placeholder's mesh and group position (src/DinosaurManager.js:44-52) and the model root's scale, position and tag (main.js:56, 67-68) by building an updated copy before the node enters the scene, which matches the source because no other reference observes the intermediate state.
- App.ApplyTextures: the traversal is over a tree held by value. Materials shared between meshes, where one assignment would be seen through several meshes, are not modelled.
- Numbers are exact reals. Floating-point rounding and NaN are not modelled, and colours are natural numbers.
