/**
  The id the session connects with, and the id it shows when reconnecting.
  In simulation mode the connected id is the typed name prefixed with
  `sim_`; reconnecting strips the first `sim_` found anywhere in it.
 */
module Connection {
  import opened Text

  const SimPrefix := "sim_"

  function ConnectId(uniqueId: string, simulation: bool): (id: string)
    ensures simulation ==> |id| == |SimPrefix| + |uniqueId| && id[..|SimPrefix|] == SimPrefix && id[|SimPrefix|..] == uniqueId
    ensures !simulation ==> id == uniqueId
  {
    if simulation then SimPrefix + uniqueId else uniqueId
  }

  /** `lastUniqueId.replace('sim_', '')`: the name shown in the reconnecting message. */
  function ShownOnReconnect(lastId: string): (shown: string)
    ensures (forall j :: !OccursAt(lastId, SimPrefix, j)) ==> shown == lastId
    ensures OccursAt(lastId, SimPrefix, 0) ==> shown == lastId[|SimPrefix|..]
  {
    ReplaceFirst(lastId, SimPrefix, "")
  }

  /**
    Reconnecting shows the name that was typed when the session was in
    simulation mode, or when the typed name contains no `sim_`.
   */
  lemma ReconnectShowsTypedName(uniqueId: string, simulation: bool)
    requires simulation || forall j :: !OccursAt(uniqueId, SimPrefix, j)
    ensures ShownOnReconnect(ConnectId(uniqueId, simulation)) == uniqueId
  {
    if simulation {
      assert OccursAt(ConnectId(uniqueId, simulation), SimPrefix, 0);
    }
  }

  /** Outside simulation mode a name containing `sim_` is shown mangled. */
  lemma RealNameWithSimInsideIsMangled()
    ensures ShownOnReconnect(ConnectId("jasim_1", false)) == "ja1"
  {
    var s := "jasim_1";
    assert OccursAt(s, SimPrefix, 2);
    assert s[0..4][0] == 'j' && s[1..5][0] == 'a';
    assert !OccursAt(s, SimPrefix, 0) && !OccursAt(s, SimPrefix, 1);
    assert s[..2] + "" + s[6..] == "ja1";
  }
}
