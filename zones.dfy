// The zone-key registry of pc_call_load_combined_static_surfaces_from_game_idx
// (game/kernel/jak1/Mario1.cpp): keys 1..21 name the statically compiled
// collision tables of the Jak 1 levels. The tables' contents are data
// compiled into the program; the model receives them as a function from
// zone to surface sequence.

module Zones {
  import opened Wrappers
  import opened Geometry

  datatype Zone =
    | Training | Village1 | Beach | Jungle | JungleB | Misty | FireCanyon
    | Village2 | Sunken | SunkenB | Swamp | Rolling | Ogre | Village3
    | Snow | MainCave | DarkCave | RoboCave | LavaTube | Citadel | FinalBoss

  /** The registry lookup: `surface_map.find(key)`. */
  function ZoneOfKey(key: int): Option<Zone>
  {
    match key
    case 1 => Some(Training)
    case 2 => Some(Village1)
    case 3 => Some(Beach)
    case 4 => Some(Jungle)
    case 5 => Some(JungleB)
    case 6 => Some(Misty)
    case 7 => Some(FireCanyon)
    case 8 => Some(Village2)
    case 9 => Some(Sunken)
    case 10 => Some(SunkenB)
    case 11 => Some(Swamp)
    case 12 => Some(Rolling)
    case 13 => Some(Ogre)
    case 14 => Some(Village3)
    case 15 => Some(Snow)
    case 16 => Some(MainCave)
    case 17 => Some(DarkCave)
    case 18 => Some(RoboCave)
    case 19 => Some(LavaTube)
    case 20 => Some(Citadel)
    case 21 => Some(FinalBoss)
    case _ => None
  }

  /** The key under which each zone is registered. */
  function KeyOfZone(z: Zone): int
  {
    match z
    case Training => 1
    case Village1 => 2
    case Beach => 3
    case Jungle => 4
    case JungleB => 5
    case Misty => 6
    case FireCanyon => 7
    case Village2 => 8
    case Sunken => 9
    case SunkenB => 10
    case Swamp => 11
    case Rolling => 12
    case Ogre => 13
    case Village3 => 14
    case Snow => 15
    case MainCave => 16
    case DarkCave => 17
    case RoboCave => 18
    case LavaTube => 19
    case Citadel => 20
    case FinalBoss => 21
  }

  /** Exactly the keys 1..21 are registered, each to one zone, and every zone is reachable. */
  lemma ZoneKeysRoundTrip(key: int, z: Zone)
    ensures ZoneOfKey(key).Some? <==> 1 <= key <= 21
    ensures ZoneOfKey(KeyOfZone(z)) == Some(z)
    ensures ZoneOfKey(key) == Some(z) ==> KeyOfZone(z) == key
  {
  }

  /** The (surfaces, count) pair a key contributes; an unregistered key gives (null, 0), the empty table. */
  function ZoneSurfaces(tables: Zone -> seq<Surface>, key: int): seq<Surface>
  {
    match ZoneOfKey(key)
    case Some(z) => tables(z)
    case None => []
  }

  /** Each zone's key selects that zone's table, and a key outside 1..21 selects nothing. */
  lemma ZoneSurfacesSelects(tables: Zone -> seq<Surface>, key: int, z: Zone)
    ensures ZoneSurfaces(tables, KeyOfZone(z)) == tables(z)
    ensures !(1 <= key <= 21) ==> ZoneSurfaces(tables, key) == []
  {
    ZoneKeysRoundTrip(key, z);
  }

  /** roundf: to the nearest integer, halfway cases away from zero. */
  function RoundHalfAway(r: real): (k: int)
    ensures Abs(r - k as real) <= 0.5
    ensures Abs(r - k as real) == 0.5 ==> Abs(k as real) > Abs(r)
  {
    if r >= 0.0 then (r + 0.5).Floor else -((-r + 0.5).Floor)
  }

  /** A whole number rounds to itself. */
  lemma RoundWhole(k: int)
    ensures RoundHalfAway(k as real) == k
  {
  }
}
