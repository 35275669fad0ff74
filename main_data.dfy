/**
 * The main-side `ClientFactionManager`: the table from faction id to faction
 * and the table from chunk to owning faction id, updated in place.
 * Listener notifications and logging are not modelled.
 */
module MainData {
  import opened Grid
  import opened Ownership

  class ClientFactionManager {
    var factions: map<string, ClientFaction>
    var chunkToFaction: map<Chunk, string>

    /** Every faction is stored under its own id. */
    predicate Valid()
      reads this
    {
      KeyedById(factions)
    }

    /** Construction installs exactly the three default factions and maps no chunk. */
    constructor ()
      ensures Valid() && HoldsDefaults(factions) && chunkToFaction == map[]
    {
      var defaults := InitializeDefaultFactions();
      factions := defaults;
      chunkToFaction := map[];
    }

    /**
     * `addOrUpdateFaction`: a known id keeps its stored object, whose fields
     * take the new values; an unknown id stores the given object. Either way
     * the chunks mapped to the id become exactly the faction's claims.
     */
    method AddOrUpdateFaction(faction: ClientFaction)
      requires Valid()
      modifies this, Stored(factions, faction.id)
      ensures Valid()
      ensures old(faction.id in factions) ==> factions == old(factions)
      ensures old(faction.id !in factions) ==> factions == old(factions)[faction.id := faction]
      ensures faction.id in factions
      ensures factions[faction.id].name == old(faction.name) && factions[faction.id].displayName == old(faction.displayName)
      ensures factions[faction.id].factionType == old(faction.factionType) && factions[faction.id].claimed == old(faction.claimed)
      ensures chunkToFaction == Remapped(old(chunkToFaction), faction.id, old(faction.claimed))
    {
      var name, displayName, factionType, claims := faction.name, faction.displayName, faction.factionType, faction.claimed;
      if faction.id in factions {
        var existing := factions[faction.id];
        existing.SetName(name);
        existing.SetDisplayName(displayName);
        existing.SetType(factionType);
        existing.SetClaimedChunks(claims);
        chunkToFaction := UpdateChunkMapping(chunkToFaction, existing.id, existing.claimed);
      } else {
        factions := factions[faction.id := faction];
        chunkToFaction := UpdateChunkMapping(chunkToFaction, faction.id, faction.claimed);
      }
    }

    /**
     * `removeFaction`: the id is gone and none of its claimed chunks stays
     * mapped (whoever they are mapped to); an unknown id changes nothing.
     */
    method RemoveFaction(factionId: string)
      requires Valid()
      modifies this
      ensures Valid()
      ensures factions == old(factions) - {factionId}
      ensures factionId !in old(factions) ==> chunkToFaction == old(chunkToFaction)
      ensures factionId in old(factions) ==>
        (forall c :: c in chunkToFaction <==> c in old(chunkToFaction) && c !in old(factions[factionId].claimed)) &&
        (forall c :: c in chunkToFaction ==> chunkToFaction[c] == old(chunkToFaction)[c])
    {
      if factionId in factions {
        var faction := factions[factionId];
        factions := factions - {factionId};
        chunkToFaction := UnmapChunks(chunkToFaction, faction.claimed);
      }
    }

    /** `getFaction`. */
    function GetFaction(factionId: string): (f: ClientFaction?)
      reads this
      ensures f != null <==> factionId in factions
      ensures f != null ==> f == factions[factionId]
    {
      if factionId in factions then factions[factionId] else null
    }

    /**
     * `getFactionAt`: the owner named in the chunk table (null when that id is
     * unknown); an unmapped chunk answers the wilderness faction.
     */
    function GetFactionAt(chunk: Chunk): (f: ClientFaction?)
      requires Valid()
      reads this
      ensures f != null ==> f in factions.Values
      ensures chunk in chunkToFaction && f != null ==> f.id == chunkToFaction[chunk]
      ensures chunk !in chunkToFaction && WildernessId in factions ==> f != null && f.id == WildernessId
      ensures chunk in chunkToFaction ==> (f != null <==> chunkToFaction[chunk] in factions)
      ensures chunk !in chunkToFaction ==> (f != null <==> WildernessId in factions)
    {
      if chunk in chunkToFaction then GetFaction(chunkToFaction[chunk]) else GetFaction(WildernessId)
    }

    /**
     * `setChunkOwner`: the chunk leaves its previous owner's claims; with no
     * id or the wilderness id it becomes unmapped, otherwise it maps to the id
     * (known or not) and joins that faction's claims when the faction exists.
     */
    method SetChunkOwner(chunk: Chunk, factionId: Option<string>)
      requires Valid()
      modifies this, if chunk in chunkToFaction then Stored(factions, chunkToFaction[chunk]) else {}
      modifies if factionId.Some? then Stored(factions, factionId.value) else {}
      ensures Valid() && factions == old(factions)
      ensures Assigns(factionId) ==> chunkToFaction == old(chunkToFaction)[chunk := factionId.value]
      ensures !Assigns(factionId) ==> chunkToFaction == old(chunkToFaction) - {chunk}
      ensures forall k :: k in factions ==>
        factions[k].claimed == MovedClaims(old(factions[k].claimed), k, chunk, OwnerOf(old(chunkToFaction), chunk), factionId)
      ensures forall k :: k in factions ==>
        factions[k].name == old(factions[k].name) && factions[k].displayName == old(factions[k].displayName) &&
        factions[k].factionType == old(factions[k].factionType)
    {
      var previous := OwnerOf(chunkToFaction, chunk);
      if previous.Some? && previous.value in factions {
        factions[previous.value].RemoveClaimedChunk(chunk);
      }
      if Assigns(factionId) {
        chunkToFaction := chunkToFaction[chunk := factionId.value];
        if factionId.value in factions {
          factions[factionId.value].AddClaimedChunk(chunk);
        }
      } else {
        chunkToFaction := chunkToFaction - {chunk};
      }
    }

    /** `clear`: back to the three default factions and an empty chunk table. */
    method Clear()
      modifies this
      ensures Valid() && HoldsDefaults(factions) && chunkToFaction == map[]
      ensures fresh(factions.Values)
    {
      factions := map[];
      chunkToFaction := map[];
      var defaults := InitializeDefaultFactions();
      factions := defaults;
    }

    /** `getFactionCount`: only player factions count. */
    method GetFactionCount() returns (count: nat)
      ensures count == |PlayerIds(factions)|
    {
      count := CountPlayerFactions(factions);
    }

    /** `getTotalClaimedChunks`: the claim counts of all factions summed. */
    method GetTotalClaimedChunks() returns (total: nat)
      ensures total == ClaimSum(factions, factions.Keys)
      ensures |ClaimedUnion(factions, factions.Keys)| <= total
    {
      total := SumClaimedChunks(factions);
      ClaimSumCoversUnion(factions, factions.Keys);
    }
  }
}
