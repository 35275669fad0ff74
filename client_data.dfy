/**
 * The client-side `ClientFactionManager`: the same two ownership tables as
 * the main-side copy, plus the set of chunks the local player has
 * discovered, which decides which claims are drawn. Listener notifications
 * and logging are not modelled; `markChunkDiscovered` reports instead
 * whether it would have notified the discovery listeners.
 */
module ClientData {
  import opened Grid
  import opened Ownership

  class ClientFactionManager {
    var factions: map<string, ClientFaction>
    var chunkToFaction: map<Chunk, string>
    var discoveredChunks: set<Chunk>

    /** Every faction is stored under its own id. */
    predicate Valid()
      reads this
    {
      KeyedById(factions)
    }

    /** Construction installs exactly the three default factions; no chunk is mapped or discovered. */
    constructor ()
      ensures Valid() && HoldsDefaults(factions) && chunkToFaction == map[] && discoveredChunks == {}
    {
      var defaults := InitializeDefaultFactions();
      factions := defaults;
      chunkToFaction := map[];
      discoveredChunks := {};
    }

    /**
     * `addOrUpdateFaction`: a known id keeps its stored object, whose fields
     * take the new values; an unknown id stores the given object. Either way
     * the chunks mapped to the id become exactly the faction's claims.
     */
    method AddOrUpdateFaction(faction: ClientFaction)
      requires Valid()
      modifies this, Stored(factions, faction.id)
      ensures Valid() && discoveredChunks == old(discoveredChunks)
      ensures old(faction.id in factions) ==> factions == old(factions)
      ensures old(faction.id !in factions) ==> factions == old(factions)[faction.id := faction]
      ensures faction.id in factions
      ensures factions[faction.id].name == old(faction.name) && factions[faction.id].displayName == old(faction.displayName)
      ensures factions[faction.id].factionType == old(faction.factionType) && factions[faction.id].claimed == old(faction.claimed)
      ensures chunkToFaction == Remapped(old(chunkToFaction), faction.id, old(faction.claimed))
    {
      var name, displayName, factionType, claims := faction.name, faction.displayName, faction.factionType, faction.claimed;
      if faction.id in factions {
        var existing := factions[faction.id];
        existing.SetName(name);
        existing.SetDisplayName(displayName);
        existing.SetType(factionType);
        existing.SetClaimedChunks(claims);
        chunkToFaction := UpdateChunkMapping(chunkToFaction, existing.id, existing.claimed);
      } else {
        factions := factions[faction.id := faction];
        chunkToFaction := UpdateChunkMapping(chunkToFaction, faction.id, faction.claimed);
      }
    }

    /**
     * `removeFaction`: the id is gone and none of its claimed chunks stays
     * mapped (whoever they are mapped to); an unknown id changes nothing.
     */
    method RemoveFaction(factionId: string)
      requires Valid()
      modifies this
      ensures Valid() && discoveredChunks == old(discoveredChunks)
      ensures factions == old(factions) - {factionId}
      ensures factionId !in old(factions) ==> chunkToFaction == old(chunkToFaction)
      ensures factionId in old(factions) ==>
        (forall c :: c in chunkToFaction <==> c in old(chunkToFaction) && c !in old(factions[factionId].claimed)) &&
        (forall c :: c in chunkToFaction ==> chunkToFaction[c] == old(chunkToFaction)[c])
    {
      if factionId in factions {
        var faction := factions[factionId];
        factions := factions - {factionId};
        chunkToFaction := UnmapChunks(chunkToFaction, faction.claimed);
      }
    }

    /** `getFaction`. */
    function GetFaction(factionId: string): (f: ClientFaction?)
      reads this
      ensures f != null <==> factionId in factions
      ensures f != null ==> f == factions[factionId]
    {
      if factionId in factions then factions[factionId] else null
    }

    /**
     * `getFactionAt`: the owner named in the chunk table (null when that id is
     * unknown); an unmapped chunk answers the wilderness faction.
     */
    function GetFactionAt(chunk: Chunk): (f: ClientFaction?)
      requires Valid()
      reads this
      ensures f != null ==> f in factions.Values
      ensures chunk in chunkToFaction && f != null ==> f.id == chunkToFaction[chunk]
      ensures chunk !in chunkToFaction && WildernessId in factions ==> f != null && f.id == WildernessId
      ensures chunk in chunkToFaction ==> (f != null <==> chunkToFaction[chunk] in factions)
      ensures chunk !in chunkToFaction ==> (f != null <==> WildernessId in factions)
    {
      if chunk in chunkToFaction then GetFaction(chunkToFaction[chunk]) else GetFaction(WildernessId)
    }

    /**
     * `setChunkOwner`: the chunk leaves its previous owner's claims; with no
     * id or the wilderness id it becomes unmapped, otherwise it maps to the id
     * (known or not) and joins that faction's claims when the faction exists.
     */
    method SetChunkOwner(chunk: Chunk, factionId: Option<string>)
      requires Valid()
      modifies this, if chunk in chunkToFaction then Stored(factions, chunkToFaction[chunk]) else {}
      modifies if factionId.Some? then Stored(factions, factionId.value) else {}
      ensures Valid() && factions == old(factions) && discoveredChunks == old(discoveredChunks)
      ensures Assigns(factionId) ==> chunkToFaction == old(chunkToFaction)[chunk := factionId.value]
      ensures !Assigns(factionId) ==> chunkToFaction == old(chunkToFaction) - {chunk}
      ensures forall k :: k in factions ==>
        factions[k].claimed == MovedClaims(old(factions[k].claimed), k, chunk, OwnerOf(old(chunkToFaction), chunk), factionId)
      ensures forall k :: k in factions ==>
        factions[k].name == old(factions[k].name) && factions[k].displayName == old(factions[k].displayName) &&
        factions[k].factionType == old(factions[k].factionType)
    {
      var previous := OwnerOf(chunkToFaction, chunk);
      if previous.Some? && previous.value in factions {
        factions[previous.value].RemoveClaimedChunk(chunk);
      }
      if Assigns(factionId) {
        chunkToFaction := chunkToFaction[chunk := factionId.value];
        if factionId.value in factions {
          factions[factionId.value].AddClaimedChunk(chunk);
        }
      } else {
        chunkToFaction := chunkToFaction - {chunk};
      }
    }

    /** `clear`: back to the three default factions, with no chunk mapped or discovered. */
    method Clear()
      modifies this
      ensures Valid() && HoldsDefaults(factions) && chunkToFaction == map[] && discoveredChunks == {}
      ensures fresh(factions.Values)
    {
      factions := map[];
      chunkToFaction := map[];
      ResetDiscoveredChunks();
      var defaults := InitializeDefaultFactions();
      factions := defaults;
    }

    /** `getFactionCount`: only player factions count. */
    method GetFactionCount() returns (count: nat)
      ensures count == |PlayerIds(factions)|
    {
      count := CountPlayerFactions(factions);
    }

    /** `getTotalClaimedChunks`: the claim counts of all factions summed. */
    method GetTotalClaimedChunks() returns (total: nat)
      ensures total == ClaimSum(factions, factions.Keys)
      ensures |ClaimedUnion(factions, factions.Keys)| <= total
    {
      total := SumClaimedChunks(factions);
      ClaimSumCoversUnion(factions, factions.Keys);
    }

    /** `isChunkDiscovered`: nothing is discovered while the discovered set is empty. */
    predicate IsChunkDiscovered(chunk: Chunk)
      reads this
      ensures discoveredChunks == {} ==> !IsChunkDiscovered(chunk)
    {
      chunk in discoveredChunks
    }

    /**
     * `markChunkDiscovered`: a missing chunk is ignored; otherwise the chunk
     * is discovered afterwards, and the listeners are notified exactly when
     * it was not discovered before.
     */
    method MarkChunkDiscovered(chunk: Option<Chunk>) returns (notified: bool)
      modifies this
      ensures factions == old(factions) && chunkToFaction == old(chunkToFaction)
      ensures chunk.None? ==> discoveredChunks == old(discoveredChunks) && !notified
      ensures chunk.Some? ==> discoveredChunks == old(discoveredChunks) + {chunk.value}
      ensures notified <==> chunk.Some? && chunk.value !in old(discoveredChunks)
      ensures chunk.Some? ==> IsChunkDiscovered(chunk.value)
    {
      notified := false;
      if chunk.None? {
        return;
      }
      if chunk.value !in discoveredChunks {
        discoveredChunks := discoveredChunks + {chunk.value};
        notified := true;
      }
    }

    /** `resetDiscoveredChunks`: nothing is discovered afterwards. */
    method ResetDiscoveredChunks()
      modifies this
      ensures discoveredChunks == {}
      ensures forall c :: !IsChunkDiscovered(c)
      ensures factions == old(factions) && chunkToFaction == old(chunkToFaction)
    {
      if discoveredChunks != {} {
        discoveredChunks := {};
      }
    }

    /**
     * `getDiscoveredClaims`: the claimed chunks the player has discovered;
     * nothing for a missing or empty collection.
     */
    method GetDiscoveredClaims(claimedChunks: Option<set<Chunk>>) returns (visible: set<Chunk>)
      ensures claimedChunks.None? ==> visible == {}
      ensures claimedChunks.Some? ==> forall c :: c in visible <==> c in claimedChunks.value && IsChunkDiscovered(c)
    {
      if claimedChunks.None? || claimedChunks.value == {} {
        return {};
      }
      visible := {};
      var rest := claimedChunks.value;
      while rest != {}
        invariant rest <= claimedChunks.value
        invariant forall c :: c in visible <==> c in claimedChunks.value - rest && c in discoveredChunks
        decreases rest
      {
        var c :| c in rest;
        if IsChunkDiscovered(c) {
          visible := visible + {c};
        }
        rest := rest - {c};
      }
    }
  }
}
