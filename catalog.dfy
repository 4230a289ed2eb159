/** The fixed subject catalog of `DinosaurManager.getDinoData` and the two
    defaulting rules that every placed node applies to a record. */
module Catalog {
  import opened Base

  /** A record's `pos`: `y` is given only for subjects that float above ground. */
  datatype Pos = Pos(x: real, z: real, y: Option<real>)

  /** One subject. `scale` is the optional uniform factor a preloaded asset's
      record may carry; none of the literal records sets it. */
  datatype Record = Record(
    name: string,
    height: real,
    length: real,
    color: nat,
    desc: string,
    pos: Pos,
    scale: Option<real>)

  function Dino(name: string, height: real, length: real, color: nat, desc: string, pos: Pos): Record {
    Record(name, height, length, color, desc, pos, None)
  }

  /** The description texts, one per record. */
  const TRexDesc: string := "The King of Dinosaurs. Extremely powerful bite force."
  const VelociraptorDesc: string := "Highly intelligent pack hunters. Watch the tall grass."
  const TriceratopsDesc: string := "Herbivore with three horns and a large frill."
  const SpinosaurusDesc: string := "Largest carnivorous dinosaur, semi-aquatic with a sail."
  const CarnotaurusDesc: string := "Fast predator with bull-like horns above eyes."
  const BrachiosaurusDesc: string := "Gentle giant. One of the tallest dinosaurs."
  const PterodactylDesc: string := "Flying reptile. Not technically a dinosaur, but a pterosaur."
  const MosasaurusDesc: string := "Apex predator of the deep seas."
  const GiganotosaurusDesc: string := "Larger than T-Rex, but lighter build."
  const AllosaurusDesc: string := "The lion of the Jurassic period."

  /** The ten literal records, in catalog order. */
  function DinoData(): (r: seq<Record>)
    ensures |r| == 10
    ensures forall i, j :: 0 <= i < j < |r| ==> r[i].name != r[j].name
    ensures forall k :: 0 <= k < |r| ==> r[k].height > 0.0 && r[k].length > 0.0
    ensures forall k :: 0 <= k < |r| ==> r[k].scale.None?
    ensures r[6].name == "Pterodactyl" && r[6].pos.y == Some(10.0)
    ensures forall k :: 0 <= k < |r| && k != 6 ==> r[k].pos.y.None?
  {
    [ Dino("T-Rex", 6.0, 12.0, 0x5c4033, TRexDesc, Pos(0.0, -30.0, None)),
      Dino("Velociraptor", 1.8, 3.0, 0x6e7f80, VelociraptorDesc, Pos(10.0, -15.0, None)),
      Dino("Triceratops", 3.0, 9.0, 0x5c5c5c, TriceratopsDesc, Pos(-20.0, -20.0, None)),
      Dino("Spinosaurus", 7.0, 15.0, 0x2f4f4f, SpinosaurusDesc, Pos(30.0, -40.0, None)),
      Dino("Carnotaurus", 3.5, 8.0, 0x8b4513, CarnotaurusDesc, Pos(-30.0, -10.0, None)),
      Dino("Brachiosaurus", 15.0, 26.0, 0x8fbc8f, BrachiosaurusDesc, Pos(0.0, -60.0, None)),
      Dino("Pterodactyl", 1.0, 2.0, 0xd2b48c, PterodactylDesc, Pos(15.0, -5.0, Some(10.0))),
      Dino("Mosasaurus", 4.0, 18.0, 0x00ced1, MosasaurusDesc, Pos(-40.0, 20.0, None)),
      Dino("Giganotosaurus", 6.5, 13.0, 0x556b2f, GiganotosaurusDesc, Pos(25.0, 20.0, None)),
      Dino("Allosaurus", 4.0, 10.0, 0xa0522d, AllosaurusDesc, Pos(-15.0, 15.0, None)) ]
  }

  /** `position.set(pos.x, pos.y || 0, pos.z)`: an absent `y` (and `y == 0`,
      which `||` also replaces) puts the node on the ground plane. */
  function PlacedPosition(p: Pos): (r: Vec3)
    ensures r.x == p.x && r.z == p.z
    ensures p.y.Some? ==> r.y == p.y.value
    ensures p.y.None? ==> r.y == 0.0
  {
    Vec3(p.x, if p.y.Some? && p.y.value != 0.0 then p.y.value else 0.0, p.z)
  }

  /** `dino.scale || 1`: an absent or zero scale means 1. */
  function EffectiveScale(d: Record): (s: real)
    ensures s != 0.0
    ensures d.scale.Some? && d.scale.value != 0.0 ==> s == d.scale.value
    ensures !(d.scale.Some? && d.scale.value != 0.0) ==> s == 1.0
  {
    if d.scale.Some? && d.scale.value != 0.0 then d.scale.value else 1.0
  }
}
