/**
 * `FactionDisplayManager`: the on/off switch for faction territories. A
 * change of state is forwarded to the overlay manager when one is
 * registered; `forwarded` records the values sent to its
 * `updateAllOverlayVisibility`, whose effect on the map is not modelled.
 */
module Display {

  /** `getDisplayStatusText`: the action the toggle button offers. */
  function StatusText(enabled: bool): (text: string)
    ensures text == "Hide Factions" <==> enabled
    ensures text == "Show Factions" <==> !enabled
  {
    if enabled then "Hide Factions" else "Show Factions"
  }

  class FactionDisplayManager {
    var factionDisplayEnabled: bool
    var hasOverlayManager: bool
    var forwarded: seq<bool>

    /** The static initial state: display enabled, no overlay manager yet. */
    constructor ()
      ensures factionDisplayEnabled && !hasOverlayManager && forwarded == []
    {
      factionDisplayEnabled := true;
      hasOverlayManager := false;
      forwarded := [];
    }

    /** `initialize`: registers the overlay manager (a null manager leaves none registered). */
    method Initialize(managerPresent: bool)
      modifies this
      ensures hasOverlayManager == managerPresent
      ensures factionDisplayEnabled == old(factionDisplayEnabled) && forwarded == old(forwarded)
    {
      hasOverlayManager := managerPresent;
    }

    /** `isFactionDisplayEnabled`: enabled exactly when the toggle button offers to hide. */
    function IsFactionDisplayEnabled(): (enabled: bool)
      reads this
      ensures enabled <==> StatusText(factionDisplayEnabled) == "Hide Factions"
    {
      factionDisplayEnabled
    }

    /** `toggleFactionDisplay`: flips the state and forwards the new value. */
    method ToggleFactionDisplay()
      modifies this
      ensures factionDisplayEnabled == !old(factionDisplayEnabled)
      ensures forwarded == old(forwarded) + Forward(hasOverlayManager, factionDisplayEnabled)
      ensures hasOverlayManager == old(hasOverlayManager)
    {
      factionDisplayEnabled := !factionDisplayEnabled;
      UpdateAllOverlayVisibility();
    }

    /** `setFactionDisplayEnabled`: only a change of state is applied and forwarded. */
    method SetFactionDisplayEnabled(enabled: bool)
      modifies this
      ensures factionDisplayEnabled == enabled
      ensures old(factionDisplayEnabled) == enabled ==> forwarded == old(forwarded)
      ensures old(factionDisplayEnabled) != enabled ==> forwarded == old(forwarded) + Forward(hasOverlayManager, enabled)
      ensures hasOverlayManager == old(hasOverlayManager)
    {
      if factionDisplayEnabled != enabled {
        factionDisplayEnabled := enabled;
        UpdateAllOverlayVisibility();
      }
    }

    /** `updateAllOverlayVisibility`: forwards the current state when a manager is registered. */
    method UpdateAllOverlayVisibility()
      modifies this
      ensures forwarded == old(forwarded) + Forward(hasOverlayManager, factionDisplayEnabled)
      ensures factionDisplayEnabled == old(factionDisplayEnabled) && hasOverlayManager == old(hasOverlayManager)
    {
      if hasOverlayManager {
        forwarded := forwarded + [factionDisplayEnabled];
      }
    }

    function GetDisplayStatusText(): (text: string)
      reads this
      ensures text == "Hide Factions" <==> IsFactionDisplayEnabled()
    {
      StatusText(factionDisplayEnabled)
    }
  }

  /** What one forwarding sends: the value, or nothing without a registered manager. */
  function Forward(registered: bool, enabled: bool): (sent: seq<bool>)
    ensures |sent| <= 1
    ensures sent != [] <==> registered
    ensures forall i :: 0 <= i < |sent| ==> sent[i] == enabled
  {
    if registered then [enabled] else []
  }
}
