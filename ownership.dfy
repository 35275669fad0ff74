/**
 * The faction record (`ClientFaction`) and the chunk-table updates shared by
 * the two `ClientFactionManager` copies: the remapping of a faction's chunks,
 * the removal of a faction's chunks, the default factions and the claim totals.
 */
module Ownership {
  import opened Grid

  /** `ClientFaction.FactionType`. */
  datatype FactionType = Player | Wilderness | SafeZone | WarZone

  const WildernessId: string := "wilderness"
  const SafeZoneId: string := "safezone"
  const WarZoneId: string := "warzone"

  /**
   * A faction as the client sees it. The id is final, so everything keyed by
   * it stays keyed correctly whatever the setters do. Colour and the
   * last-updated time stamp are not modelled.
   */
  class ClientFaction {
    const id: string
    var name: string
    var displayName: string
    var factionType: FactionType
    var claimed: set<Chunk>

    /** A new faction shows its name, claims nothing and is a player faction. */
    constructor (id: string, name: string)
      ensures this.id == id && this.name == name && displayName == name
      ensures factionType == Player && claimed == {}
    {
      this.id := id;
      this.name := name;
      this.displayName := name;
      this.factionType := Player;
      this.claimed := {};
    }

    method SetName(name: string)
      modifies this
      ensures this.name == name
      ensures displayName == old(displayName) && factionType == old(factionType) && claimed == old(claimed)
    {
      this.name := name;
    }

    method SetDisplayName(displayName: string)
      modifies this
      ensures this.displayName == displayName
      ensures name == old(name) && factionType == old(factionType) && claimed == old(claimed)
    {
      this.displayName := displayName;
    }

    method SetType(factionType: FactionType)
      modifies this
      ensures this.factionType == factionType
      ensures name == old(name) && displayName == old(displayName) && claimed == old(claimed)
    {
      this.factionType := factionType;
    }

    /** `addClaimedChunk`: the chunk is claimed afterwards, every other chunk as before. */
    method AddClaimedChunk(chunk: Chunk)
      modifies this
      ensures HasChunk(chunk)
      ensures forall c :: c != chunk ==> (HasChunk(c) <==> c in old(claimed))
      ensures name == old(name) && displayName == old(displayName) && factionType == old(factionType)
    {
      claimed := claimed + {chunk};
    }

    /** `removeClaimedChunk`: the chunk is not claimed afterwards, every other chunk as before. */
    method RemoveClaimedChunk(chunk: Chunk)
      modifies this
      ensures !HasChunk(chunk)
      ensures forall c :: c != chunk ==> (HasChunk(c) <==> c in old(claimed))
      ensures name == old(name) && displayName == old(displayName) && factionType == old(factionType)
    {
      claimed := claimed - {chunk};
    }

    /** `setClaimedChunks`: clear, then add all. The set is a value, so later changes to the argument cannot reach the faction. */
    method SetClaimedChunks(chunks: set<Chunk>)
      modifies this
      ensures claimed == chunks
      ensures name == old(name) && displayName == old(displayName) && factionType == old(factionType)
    {
      claimed := {};
      claimed := claimed + chunks;
    }

    /** `hasChunk`: a faction that has a chunk is not empty. */
    predicate HasChunk(chunk: Chunk)
      reads this
      ensures HasChunk(chunk) ==> claimed != {}
    {
      chunk in claimed
    }

    /** `getClaimedChunkCount`. */
    function ClaimedChunkCount(): (n: nat)
      reads this
      ensures n == 0 <==> claimed == {}
    {
      |claimed|
    }

    /** `isEmpty` holds exactly when the claimed-chunk count is zero. */
    predicate IsEmpty()
      reads this
      ensures IsEmpty() <==> ClaimedChunkCount() == 0
    {
      claimed == {}
    }

    /** `equals`: the same object, or another faction with the same id. */
    predicate Equals(other: ClientFaction?)
      ensures Equals(other) <==> other != null && other.id == id
      ensures Equals(other) ==> HashCode() == other.HashCode()
    {
      other != null && (this == other || id == other.id)
    }

    /** `hashCode`: the hash of the id. */
    function HashCode(): (h: int)
      ensures IsInt32(h)
      ensures id == [] ==> h == 0
    {
      StringHash(id)
    }
  }

  /**
   * The UTF-16 code units of one character: itself below U+10000, otherwise
   * its surrogate pair, which recombines to the character.
   */
  function CodeUnits(ch: char): (u: seq<int>)
    ensures 1 <= |u| <= 2 && (|u| == 1 <==> ch as int < 0x1_0000)
    ensures forall k :: 0 <= k < |u| ==> 0 <= u[k] < 0x1_0000
    ensures |u| == 1 ==> u[0] == ch as int
    ensures |u| == 2 ==>
      0xD800 <= u[0] < 0xDC00 <= u[1] < 0xE000 &&
      0x1_0000 + (u[0] - 0xD800) * 0x400 + (u[1] - 0xDC00) == ch as int
  {
    var v := ch as int;
    if v < 0x1_0000 then [v] else [0xD800 + (v - 0x1_0000) / 0x400, 0xDC00 + (v - 0x1_0000) % 0x400]
  }

  /** A Java string's `char`s: the UTF-16 encoding of the characters, one after another. */
  function Utf16(s: string): (units: seq<int>)
    ensures |s| <= |units| <= 2 * |s|
    ensures forall k :: 0 <= k < |units| ==> 0 <= units[k] < 0x1_0000
  {
    if s == [] then [] else Utf16(s[..|s| - 1]) + CodeUnits(s[|s| - 1])
  }

  /** `h = 31 * h + c` over the code units, in 32-bit two's complement. */
  function HashUnits(units: seq<int>): (h: int)
    ensures IsInt32(h)
  {
    if units == [] then 0 else Wrap32(31 * HashUnits(units[..|units| - 1]) + units[|units| - 1])
  }

  /** Java's `String.hashCode`, which folds over the UTF-16 code units, not the characters. */
  function StringHash(s: string): (h: int)
    ensures IsInt32(h)
    ensures s == [] ==> h == 0
  {
    HashUnits(Utf16(s))
  }

  /** A character above U+FFFF contributes two code units to the hash. */
  lemma SupplementaryHashedAsPair(ch: char)
    requires ch as int >= 0x1_0000
    ensures |Utf16([ch])| == 2
    ensures StringHash([ch]) == Wrap32(31 * Wrap32(Utf16([ch])[0]) + Utf16([ch])[1])
  {
    assert [ch][..0] == [];
    var u := Utf16([ch]);
    assert u == CodeUnits(ch);
    HashOfPair(u);
  }

  lemma HashOfPair(u: seq<int>)
    requires |u| == 2
    ensures HashUnits(u) == Wrap32(31 * Wrap32(u[0]) + u[1])
  {
    assert u[..1] == [u[0]] && [u[0]][..0] == [];
    assert HashUnits([u[0]]) == Wrap32(u[0]);
  }

  /** Two's-complement wrap-around of an `int` result. */
  function Wrap32(v: int): (w: int)
    ensures IsInt32(w)
    ensures (w - v) % 0x1_0000_0000 == 0
  {
    (v - IntMin) % 0x1_0000_0000 + IntMin
  }

  /** Equal factions (same id) have equal hashes, as the `equals`/`hashCode` contract asks. */
  lemma EqualsAgreesWithHash(a: ClientFaction, b: ClientFaction)
    requires a.Equals(b)
    ensures a.HashCode() == b.HashCode()
  {
  }

  /** Faction equality is an equivalence relation on non-null factions. */
  lemma EqualsIsEquivalence(a: ClientFaction, b: ClientFaction, c: ClientFaction)
    ensures a.Equals(a)
    ensures a.Equals(b) ==> b.Equals(a)
    ensures a.Equals(b) && b.Equals(c) ==> a.Equals(c)
  {
  }

  // ---------------------------------------------------------------------------
  // The faction table

  /** Every faction is stored under its own id. */
  predicate KeyedById(factions: map<string, ClientFaction>) {
    forall k :: k in factions ==> factions[k].id == k
  }

  /** Distinct keys hold distinct faction objects. */
  lemma KeyedByIdInjective(factions: map<string, ClientFaction>, j: string, k: string)
    requires KeyedById(factions) && j in factions && k in factions && j != k
    ensures factions[j] != factions[k]
  {
  }

  /** The faction stored under `id`, as a frame (empty when there is none). */
  function Stored(factions: map<string, ClientFaction>, id: string): (s: set<ClientFaction>)
    ensures id in factions <==> s != {}
    ensures forall f :: f in s ==> f in factions.Values
  {
    if id in factions then {factions[id]} else {}
  }

  /** Exactly the three system factions, each with its type and display name and no claims. */
  predicate HoldsDefaults(factions: map<string, ClientFaction>)
    reads factions.Values
  {
    factions.Keys == {WildernessId, SafeZoneId, WarZoneId} &&
    factions[WildernessId].factionType == Wilderness && factions[WildernessId].name == "Wilderness" &&
    factions[WildernessId].displayName == "Wilderness" &&
    factions[SafeZoneId].factionType == SafeZone && factions[SafeZoneId].name == "SafeZone" &&
    factions[SafeZoneId].displayName == "Safe Zone" &&
    factions[WarZoneId].factionType == WarZone && factions[WarZoneId].name == "WarZone" &&
    factions[WarZoneId].displayName == "War Zone" &&
    forall k :: k in factions ==> factions[k].claimed == {}
  }

  /** `initializeDefaultFactions`: wilderness, safe zone and war zone, each keyed by its id. */
  method InitializeDefaultFactions() returns (factions: map<string, ClientFaction>)
    ensures KeyedById(factions) && HoldsDefaults(factions)
    ensures fresh(factions.Values)
  {
    var wilderness := new ClientFaction(WildernessId, "Wilderness");
    wilderness.SetType(Wilderness);
    wilderness.SetDisplayName("Wilderness");
    factions := map[WildernessId := wilderness];
    var safezone := new ClientFaction(SafeZoneId, "SafeZone");
    safezone.SetType(SafeZone);
    safezone.SetDisplayName("Safe Zone");
    factions := factions[SafeZoneId := safezone];
    var warzone := new ClientFaction(WarZoneId, "WarZone");
    warzone.SetType(WarZone);
    warzone.SetDisplayName("War Zone");
    factions := factions[WarZoneId := warzone];
  }

  /** The defaults hold no player faction and claim nothing. */
  lemma DefaultsCountNothing(factions: map<string, ClientFaction>)
    requires HoldsDefaults(factions)
    ensures PlayerIds(factions) == {}
    ensures ClaimSum(factions, factions.Keys) == 0
  {
    ClaimSumOfEmpty(factions, factions.Keys);
  }

  // ---------------------------------------------------------------------------
  // The chunk table

  /**
   * The chunk table after `updateChunkMapping` for faction `id` claiming
   * `claims`: exactly the claimed chunks name `id`; every other chunk keeps
   * its entry unless it named `id`, in which case it is dropped.
   */
  function Remapped(chunkToFaction: map<Chunk, string>, id: string, claims: set<Chunk>): (r: map<Chunk, string>)
    ensures forall c :: (c in r && r[c] == id) <==> c in claims
    ensures forall c :: c !in claims ==> (c in r <==> c in chunkToFaction && chunkToFaction[c] != id)
    ensures forall c :: c in r && c !in claims ==> r[c] == chunkToFaction[c]
  {
    map c | c in chunkToFaction.Keys + claims && (c in claims || chunkToFaction[c] != id) ::
      if c in claims then id else chunkToFaction[c]
  }

  /** The entries naming `id` dropped (`entrySet().removeIf`). */
  function WithoutOwner(chunkToFaction: map<Chunk, string>, id: string): (r: map<Chunk, string>)
    ensures forall c :: c in r <==> c in chunkToFaction && chunkToFaction[c] != id
    ensures forall c :: c in r ==> r[c] == chunkToFaction[c]
  {
    map c | c in chunkToFaction && chunkToFaction[c] != id :: chunkToFaction[c]
  }

  /** `updateChunkMapping`: drop the faction's old entries, then map each claimed chunk to it. */
  method UpdateChunkMapping(chunkToFaction: map<Chunk, string>, id: string, claims: set<Chunk>)
    returns (updated: map<Chunk, string>)
    ensures updated == Remapped(chunkToFaction, id, claims)
  {
    updated := WithoutOwner(chunkToFaction, id);
    var rest := claims;
    while rest != {}
      invariant rest <= claims
      invariant updated == Remapped(chunkToFaction, id, claims - rest)
      decreases rest
    {
      var c :| c in rest;
      updated := updated[c := id];
      rest := rest - {c};
    }
  }

  /** `claims.forEach(chunkToFaction::remove)`: none of the chunks stays mapped, the rest is untouched. */
  method UnmapChunks(chunkToFaction: map<Chunk, string>, claims: set<Chunk>) returns (updated: map<Chunk, string>)
    ensures forall c :: c in updated <==> c in chunkToFaction && c !in claims
    ensures forall c :: c in updated ==> updated[c] == chunkToFaction[c]
  {
    updated := chunkToFaction;
    var rest := claims;
    while rest != {}
      invariant rest <= claims
      invariant forall c :: c in updated <==> c in chunkToFaction && c !in claims - rest
      invariant forall c :: c in updated ==> updated[c] == chunkToFaction[c]
      decreases rest
    {
      var c :| c in rest;
      updated := updated - {c};
      rest := rest - {c};
    }
  }

  /** The owner id the chunk table names for a chunk, if any. */
  function OwnerOf(chunkToFaction: map<Chunk, string>, chunk: Chunk): (r: Option<string>)
    ensures r.Some? <==> chunk in chunkToFaction
    ensures r.Some? ==> r.value == chunkToFaction[chunk]
  {
    if chunk in chunkToFaction then Some(chunkToFaction[chunk]) else None
  }

  /** Whether `setChunkOwner` gives the chunk an owner: a non-null id other than wilderness. */
  predicate Assigns(factionId: Option<string>) {
    factionId.Some? && factionId.value != WildernessId
  }

  /**
   * Faction `k`'s claims after `setChunkOwner(chunk, factionId)` moved the
   * chunk away from its previous owner `previous`: the new owner gains the
   * chunk, the previous one loses it, nobody else changes.
   */
  function MovedClaims(claims: set<Chunk>, k: string, chunk: Chunk, previous: Option<string>, factionId: Option<string>)
    : (r: set<Chunk>)
    ensures forall c :: c != chunk ==> (c in r <==> c in claims)
    ensures chunk in r <==> (Assigns(factionId) && k == factionId.value) || (chunk in claims && previous != Some(k))
  {
    var removed := if previous == Some(k) then claims - {chunk} else claims;
    if Assigns(factionId) && k == factionId.value then removed + {chunk} else removed
  }

  // ---------------------------------------------------------------------------
  // Statistics

  /** The ids of the player factions (`getFactionCount` counts them). */
  function PlayerIds(factions: map<string, ClientFaction>): (ids: set<string>)
    reads factions.Values
    ensures ids <= factions.Keys
    ensures forall k :: k in ids <==> k in factions && factions[k].factionType == Player
  {
    set k | k in factions && factions[k].factionType == Player
  }

  /** The claimed-chunk counts of the factions under `keys`, summed. */
  ghost function ClaimSum(factions: map<string, ClientFaction>, keys: set<string>): nat
    requires keys <= factions.Keys
    reads factions.Values
    decreases keys
  {
    if keys == {} then 0
    else
      var k :| k in keys;
      |factions[k].claimed| + ClaimSum(factions, keys - {k})
  }

  /** The sum does not depend on which key is taken first. */
  lemma {:induction false} ClaimSumRemove(factions: map<string, ClientFaction>, keys: set<string>, k: string)
    requires keys <= factions.Keys && k in keys
    ensures ClaimSum(factions, keys) == |factions[k].claimed| + ClaimSum(factions, keys - {k})
    decreases keys
  {
    var j :| j in keys && ClaimSum(factions, keys) == |factions[j].claimed| + ClaimSum(factions, keys - {j});
    if j != k {
      ClaimSumRemove(factions, keys - {j}, k);
      ClaimSumRemove(factions, keys - {k}, j);
      assert keys - {j} - {k} == keys - {k} - {j};
    }
  }

  /** No claims, no sum. */
  lemma {:induction false} ClaimSumOfEmpty(factions: map<string, ClientFaction>, keys: set<string>)
    requires keys <= factions.Keys
    requires forall k :: k in keys ==> factions[k].claimed == {}
    ensures ClaimSum(factions, keys) == 0
    decreases keys
  {
    if keys != {} {
      var k :| k in keys && ClaimSum(factions, keys) == |factions[k].claimed| + ClaimSum(factions, keys - {k});
      ClaimSumOfEmpty(factions, keys - {k});
    }
  }

  /** The chunks claimed by the factions under `keys`. */
  ghost function ClaimedUnion(factions: map<string, ClientFaction>, keys: set<string>): set<Chunk>
    requires keys <= factions.Keys
    reads factions.Values
  {
    set k, c | k in keys && c in factions[k].claimed :: c
  }

  /** The total counts every claimed chunk at least once (exactly once when no two factions share a chunk). */
  lemma {:induction false} ClaimSumCoversUnion(factions: map<string, ClientFaction>, keys: set<string>)
    requires keys <= factions.Keys
    ensures |ClaimedUnion(factions, keys)| <= ClaimSum(factions, keys)
    decreases keys
  {
    if keys == {} {
      assert ClaimedUnion(factions, keys) == {};
    } else {
      var k :| k in keys;
      ClaimSumRemove(factions, keys, k);
      ClaimSumCoversUnion(factions, keys - {k});
      assert ClaimedUnion(factions, keys) == factions[k].claimed + ClaimedUnion(factions, keys - {k});
    }
  }

  /** The player factions among `keys`. */
  function PlayersAmong(factions: map<string, ClientFaction>, keys: set<string>): (ids: set<string>)
    requires keys <= factions.Keys
    reads factions.Values
    ensures ids <= keys
    ensures forall k :: k in ids <==> k in keys && factions[k].factionType == Player
  {
    set k | k in keys && factions[k].factionType == Player
  }

  /** Taking one key out of `keys` loses one player faction exactly when that key is one. */
  lemma PlayersAmongRemove(factions: map<string, ClientFaction>, keys: set<string>, k: string)
    requires keys <= factions.Keys && k in keys
    ensures |PlayersAmong(factions, keys)|
            == |PlayersAmong(factions, keys - {k})| + (if factions[k].factionType == Player then 1 else 0)
  {
    var rest := PlayersAmong(factions, keys - {k});
    if factions[k].factionType == Player {
      assert PlayersAmong(factions, keys) == rest + {k};
      assert k !in rest;
    } else {
      assert PlayersAmong(factions, keys) == rest;
    }
  }

  /** `getFactionCount`: the stream's filter and count, one faction at a time. */
  method CountPlayerFactions(factions: map<string, ClientFaction>) returns (count: nat)
    ensures count == |PlayerIds(factions)|
  {
    count := 0;
    var rest := factions.Keys;
    assert PlayersAmong(factions, rest) == PlayerIds(factions);
    while rest != {}
      invariant rest <= factions.Keys
      invariant count + |PlayersAmong(factions, rest)| == |PlayerIds(factions)|
      decreases rest
    {
      var k :| k in rest;
      PlayersAmongRemove(factions, rest, k);
      if factions[k].factionType == Player {
        count := count + 1;
      }
      rest := rest - {k};
    }
    assert PlayersAmong(factions, rest) == {};
  }

  /** `getTotalClaimedChunks`: the claimed-chunk counts summed over all factions. */
  method SumClaimedChunks(factions: map<string, ClientFaction>) returns (total: nat)
    ensures total == ClaimSum(factions, factions.Keys)
  {
    total := 0;
    var rest := factions.Keys;
    while rest != {}
      invariant rest <= factions.Keys
      invariant total + ClaimSum(factions, rest) == ClaimSum(factions, factions.Keys)
      decreases rest
    {
      var k :| k in rest;
      ClaimSumRemove(factions, rest, k);
      total := total + factions[k].ClaimedChunkCount();
      rest := rest - {k};
    }
  }
}
