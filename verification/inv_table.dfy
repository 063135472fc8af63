/** src/routing/inv_table.rs. */
module InvTables {
  import opened Types
  import opened Tables

  class InvTable {
    var entries: map<ModifierId, PeerId>

    constructor ()
      ensures entries == map[]
    {
      entries := map[];
    }

    method Record(id: ModifierId, peer: PeerId)
      modifies this
      ensures entries == old(entries)[id := peer]
    {
      entries := entries[id := peer];
    }

    function Lookup(id: ModifierId): Option<PeerId>
      reads this
    {
      if id in entries then Some(entries[id]) else None
    }

    /** No entry names the purged peer, and no other entry is lost. */
    method PurgePeer(peer: PeerId)
      modifies this
      ensures entries == WithoutPeer(old(entries), peer)
    {
      entries := map id | id in entries && entries[id] != peer :: entries[id];
    }
  }
}
