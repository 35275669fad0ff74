/**
 * `ClientDiscoveryTracker`: on every client tick, marks the chunks around the
 * player as discovered, but only when the player's chunk or the view distance
 * changed since the last marking; joining or leaving a world forgets both
 * and empties the discovered set. The tracker's static fields become the
 * fields of one object; the game client is reduced to the player's chunk and
 * the configured view distance, passed in by the caller.
 */
module Discovery {
  import opened Grid
  import ClientData

  /** `Math.max`. */
  function Max(a: int, b: int): (m: int)
    ensures m >= a && m >= b && (m == a || m == b)
  {
    if a >= b then a else b
  }

  /**
   * The chunks `markLoadedAreaDiscovered(center, radius)` marks: the square of
   * half-width `radius` around the centre, which is the centre alone when
   * the radius is not positive.
   */
  predicate Discovers(center: Chunk, radius: int, c: Chunk) {
    var r := Max(radius, 0);
    -r <= c.x - center.x <= r && -r <= c.z - center.z <= r
  }

  /** The centre is always marked; with a radius of at most 0 it is the only chunk marked. */
  lemma CentreAlwaysDiscovered(center: Chunk, radius: int, c: Chunk)
    ensures Discovers(center, radius, center)
    ensures radius <= 0 ==> (Discovers(center, radius, c) <==> c == center)
  {
  }

  /** `getEffectiveViewDistance`: the configured view distance, 0 without options. */
  function EffectiveViewDistance(viewDistance: Option<int>): (d: int)
    ensures viewDistance.None? ==> d == 0
    ensures viewDistance.Some? ==> d == viewDistance.value
  {
    if viewDistance.None? then 0 else viewDistance.value
  }

  /** The chunks visited by the nested loop before offset (`dx`, `dz`), plus the centre. */
  predicate MarkedBefore(center: Chunk, radius: int, dx: int, dz: int, c: Chunk) {
    c == center ||
    (Discovers(center, radius, c) && (c.x - center.x < dx || (c.x - center.x == dx && c.z - center.z < dz)))
  }

  class ClientDiscoveryTracker {
    const manager: ClientData.ClientFactionManager
    var initialized: bool
    var lastChunk: Option<Chunk>
    var lastRecordedRadius: int
    /** How many times the tick, join and disconnect handlers have been registered. */
    ghost var registrations: nat

    /** The handlers are registered once, and only after initialisation. */
    ghost predicate Valid()
      reads this
    {
      registrations == if initialized then 1 else 0
    }

    /** The class's static initial state: not initialised, no last chunk, radius -1. */
    constructor (manager: ClientData.ClientFactionManager)
      ensures Valid() && this.manager == manager
      ensures !initialized && lastChunk == None && lastRecordedRadius == -1
    {
      this.manager := manager;
      initialized := false;
      lastChunk := None;
      lastRecordedRadius := -1;
      registrations := 0;
    }

    /** `initialize`: registers the handlers the first time; a second call does nothing. */
    method Initialize()
      requires Valid()
      modifies this
      ensures Valid() && initialized && registrations == 1
      ensures old(initialized) ==> registrations == old(registrations)
      ensures lastChunk == old(lastChunk) && lastRecordedRadius == old(lastRecordedRadius)
    {
      if initialized {
        return;
      }
      initialized := true;
      registrations := registrations + 1;
    }

    /** Whether a tick in `current` with view distance `radius` marks chunks. */
    predicate ChangedSince(current: Chunk, radius: int)
      reads this
    {
      Some(current) != lastChunk || radius != lastRecordedRadius
    }

    /**
     * The end-of-tick handler. Without a player (or world) nothing happens;
     * otherwise the clamped view distance and the player's chunk are compared
     * with the last recorded ones, and only a change records them and marks
     * the square around the player. A repeat of the same tick marks nothing.
     */
    method OnEndClientTick(playerChunk: Option<Chunk>, viewDistance: Option<int>)
      requires Valid() && initialized
      modifies this, manager
      ensures Valid() && initialized == old(initialized)
      ensures manager.factions == old(manager.factions) && manager.chunkToFaction == old(manager.chunkToFaction)
      ensures playerChunk.None? ==>
        lastChunk == old(lastChunk) && lastRecordedRadius == old(lastRecordedRadius) &&
        manager.discoveredChunks == old(manager.discoveredChunks)
      ensures playerChunk.Some? ==>
        var radius := Max(0, EffectiveViewDistance(viewDistance));
        !ChangedSince(playerChunk.value, radius) &&
        (old(ChangedSince(playerChunk.value, radius)) ==>
          forall c :: c in manager.discoveredChunks <==> c in old(manager.discoveredChunks) || Discovers(playerChunk.value, radius, c)) &&
        (!old(ChangedSince(playerChunk.value, radius)) ==> manager.discoveredChunks == old(manager.discoveredChunks))
    {
      if playerChunk.None? {
        return;
      }
      var radius := Max(0, EffectiveViewDistance(viewDistance));
      var currentChunk := playerChunk.value;
      if Some(currentChunk) != lastChunk || radius != lastRecordedRadius {
        lastChunk := Some(currentChunk);
        lastRecordedRadius := radius;
        MarkLoadedAreaDiscovered(currentChunk, radius);
      }
    }

    /**
     * The join and disconnect handlers: forget the last chunk and radius and
     * empty the discovered set, so that the next tick always marks.
     */
    method OnConnectionChange()
      requires Valid() && initialized
      modifies this, manager
      ensures Valid() && initialized == old(initialized)
      ensures lastChunk == None && lastRecordedRadius == -1
      ensures manager.discoveredChunks == {}
      ensures manager.factions == old(manager.factions) && manager.chunkToFaction == old(manager.chunkToFaction)
      ensures forall c: Chunk, radius: int :: radius >= 0 ==> ChangedSince(c, radius)
    {
      lastChunk := None;
      lastRecordedRadius := -1;
      manager.ResetDiscoveredChunks();
    }

    /**
     * `markLoadedAreaDiscovered`: the centre first, then, for a positive
     * radius, every other chunk of the square row by row.
     */
    method MarkLoadedAreaDiscovered(center: Chunk, radius: int)
      modifies manager
      ensures manager.factions == old(manager.factions) && manager.chunkToFaction == old(manager.chunkToFaction)
      ensures forall c :: c in manager.discoveredChunks <==> c in old(manager.discoveredChunks) || Discovers(center, radius, c)
    {
      var _ := manager.MarkChunkDiscovered(Some(center));
      if radius <= 0 {
        return;
      }
      for dx := -radius to radius + 1
        invariant manager.factions == old(manager.factions) && manager.chunkToFaction == old(manager.chunkToFaction)
        invariant forall c :: c in manager.discoveredChunks <==> c in old(manager.discoveredChunks) || MarkedBefore(center, radius, dx, -radius, c)
      {
        for dz := -radius to radius + 1
          invariant manager.factions == old(manager.factions) && manager.chunkToFaction == old(manager.chunkToFaction)
          invariant forall c :: c in manager.discoveredChunks <==> c in old(manager.discoveredChunks) || MarkedBefore(center, radius, dx, dz, c)
        {
          if dx == 0 && dz == 0 {
            continue;
          }
          var nearby := Chunk(center.x + dx, center.z + dz);
          var _ := manager.MarkChunkDiscovered(Some(nearby));
        }
      }
    }
  }
}
