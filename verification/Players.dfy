/**
 * The player registry: two lookup maps, by id and by NFC uid, onto shared player objects.
 */
module Players {
  import opened Types

  datatype PlayerData = PlayerData(id: Uuid, uid: NfcUid, totalBloops: nat, awarded: map<Uuid, Instant>)

  /** A player behind its lock; every holder of the reference sees the same data. */
  class Player {
    var data: PlayerData

    constructor (data: PlayerData)
      ensures this.data == data
    {
      this.data := data;
    }
  }

  /** What the registry tells its callers: players by id, and the id behind each uid. */
  datatype Directory = Directory(players: map<Uuid, PlayerData>, uids: map<NfcUid, Uuid>)

  /** Ids and uids are in bijection, and each lookup leads to the player that carries the key. */
  ghost predicate Bijective(d: Directory) {
    && (forall id :: id in d.players ==>
          d.players[id].id == id && d.players[id].uid in d.uids && d.uids[d.players[id].uid] == id)
    && (forall u :: u in d.uids ==> d.uids[u] in d.players && d.players[d.uids[u]].uid == u)
  }

  /** The registry operations, a mutation being given by the data it results in. */
  datatype Operation = AddPlayer(data: PlayerData) | RemovePlayer(id: Uuid) | MutatePlayer(id: Uuid, data: PlayerData)

  /** Ids and uids are not shared between players, and mutators keep the id. */
  ghost predicate Admissible(d: Directory, op: Operation) {
    match op
    case AddPlayer(data) =>
      && (data.id in d.players ==> d.players[data.id].uid == data.uid)
      && (data.uid in d.uids ==> d.uids[data.uid] == data.id)
    case RemovePlayer(_) => true
    case MutatePlayer(id, data) =>
      id in d.players ==> data.id == id && (data.uid == d.players[id].uid || data.uid !in d.uids)
  }

  function Apply(d: Directory, op: Operation): Directory {
    match op
    case AddPlayer(data) => Directory(d.players[data.id := data], d.uids[data.uid := data.id])
    case RemovePlayer(id) =>
      if id in d.players then Directory(d.players - {id}, d.uids - {d.players[id].uid}) else d
    case MutatePlayer(id, data) =>
      if id in d.players then Directory(d.players[id := data], (d.uids - {d.players[id].uid})[data.uid := data.id]) else d
  }

  ghost predicate AllAdmissible(d: Directory, ops: seq<Operation>)
    decreases |ops|
  {
    ops == [] || (Admissible(d, ops[0]) && AllAdmissible(Apply(d, ops[0]), ops[1..]))
  }

  ghost function ApplyAll(d: Directory, ops: seq<Operation>): Directory
    decreases |ops|
  {
    if ops == [] then d else ApplyAll(Apply(d, ops[0]), ops[1..])
  }

  /** The lookups of everybody that the operation is not about stay as they are. */
  ghost predicate OthersKept(d: Directory, d': Directory, id: Uuid) {
    && (forall p :: p != id ==> (p in d'.players <==> p in d.players) && (p in d.players ==> d'.players[p] == d.players[p]))
    && (forall u :: u in d.uids && d.uids[u] != id ==> u in d'.uids && d'.uids[u] == d.uids[u])
  }

  /** What the lookups give after each operation on a consistent registry. */
  lemma LookupsExactly(d: Directory, op: Operation)
    requires Bijective(d) && Admissible(d, op)
    ensures match op
            case AddPlayer(data) =>
              var d' := Apply(d, op);
              && data.id in d'.players && d'.players[data.id] == data && data.uid in d'.uids && d'.uids[data.uid] == data.id
              && OthersKept(d, d', data.id)
            case RemovePlayer(id) =>
              var d' := Apply(d, op);
              && id !in d'.players && (forall u :: u in d'.uids ==> d'.uids[u] != id) && OthersKept(d, d', id)
            case MutatePlayer(id, data) =>
              var d' := Apply(d, op);
              && (id in d.players <==> id in d'.players) && OthersKept(d, d', id)
              && (id in d.players ==> d'.players[id] == data && forall u :: u in d'.uids && d'.uids[u] == id <==> u == data.uid)
  {
  }

  lemma ApplyBijective(d: Directory, op: Operation)
    requires Bijective(d) && Admissible(d, op)
    ensures Bijective(Apply(d, op))
  {
  }

  /** Over every sequence of admissible operations the two lookups stay in bijection. */
  lemma {:induction false} AlwaysBijective(d: Directory, ops: seq<Operation>)
    requires Bijective(d) && AllAdmissible(d, ops)
    ensures Bijective(ApplyAll(d, ops))
    decreases |ops|
  {
    if ops != [] {
      ApplyBijective(d, ops[0]);
      AlwaysBijective(Apply(d, ops[0]), ops[1..]);
    }
  }

  class PlayerRegistry {
    var byId: map<Uuid, Player>
    var byUid: map<NfcUid, Player>

    ghost function Objects(): set<object>
      reads this
    {
      {this} + byId.Values + byUid.Values
    }

    /** Each player is the same object under its id and under its current uid; nothing is stale. */
    ghost predicate Consistent()
      reads this, Objects()
    {
      && (forall id :: id in byId ==>
            byId[id].data.id == id && byId[id].data.uid in byUid && byUid[byId[id].data.uid] == byId[id])
      && (forall u :: u in byUid ==>
            byUid[u].data.uid == u && byUid[u].data.id in byId && byId[byUid[u].data.id] == byUid[u])
    }

    /** What the two lookups currently return. */
    ghost function View(): Directory
      reads this, Objects()
    {
      Directory(map id | id in byId :: byId[id].data, map u | u in byUid :: byUid[u].data.id)
    }

    lemma ConsistentIsBijective()
      requires Consistent()
      ensures Bijective(View())
    {
    }

    /** Nothing the registry shows depends on anything but its maps and its players. */
    twostate lemma Untouched()
      requires byId == old(byId) && byUid == old(byUid)
      requires forall id :: id in byId ==> byId[id].data == old(byId[id].data)
      requires forall u :: u in byUid ==> byUid[u].data == old(byUid[u].data)
      ensures Consistent() == old(Consistent()) && View() == old(View()) && Objects() == old(Objects())
    {
    }

    constructor (players: seq<PlayerData>)
      ensures byId.Keys == set i | 0 <= i < |players| :: players[i].id
      ensures Distinct(players) ==>
                Consistent() && forall i :: 0 <= i < |players| ==> byId[players[i].id].data == players[i]
      ensures fresh(Objects())
    {
      var ids: map<Uuid, Player>, uids: map<NfcUid, Player> := map[], map[];
      for i := 0 to |players|
        invariant ids.Keys == set j | 0 <= j < i :: players[j].id
        invariant uids.Keys == set j | 0 <= j < i :: players[j].uid
        invariant forall id :: id in ids ==> fresh(ids[id])
        invariant forall u :: u in uids ==> fresh(uids[u])
        invariant Distinct(players) ==> forall k :: 0 <= k < i ==>
                    ids[players[k].id] == uids[players[k].uid] && ids[players[k].id].data == players[k]
      {
        var player := new Player(players[i]);
        ids := ids[players[i].id := player];
        uids := uids[players[i].uid := player];
      }
      byId, byUid := ids, uids;
    }

    /** Adding keeps the registry consistent exactly when id and uid belong to the same player or to none. */
    method Add(data: PlayerData)
      requires Consistent()
      modifies this
      ensures View() == Apply(old(View()), AddPlayer(data))
      ensures data.id in byId && fresh(byId[data.id]) && byId == old(byId)[data.id := byId[data.id]]
      ensures Consistent() <==> Admissible(old(View()), AddPlayer(data))
    {
      var player := new Player(data);
      byId := byId[data.id := player];
      byUid := byUid[data.uid := player];
      AddShown(data, player);
      AddConsistent(data, player);
    }

    twostate lemma AddShown(data: PlayerData, new player: Player)
      requires old(Consistent()) && player.data == data && player !in old(Objects())
      requires byId == old(byId)[data.id := player] && byUid == old(byUid)[data.uid := player]
      requires forall id :: id in old(byId) ==> old(byId)[id].data == old(byId[id].data)
      requires forall u :: u in old(byUid) ==> old(byUid)[u].data == old(byUid[u].data)
      ensures View() == Apply(old(View()), AddPlayer(data))
    {
    }

    twostate lemma AddConsistent(data: PlayerData, new player: Player)
      requires old(Consistent()) && player.data == data && player !in old(Objects())
      requires byId == old(byId)[data.id := player] && byUid == old(byUid)[data.uid := player]
      requires forall id :: id in old(byId) ==> old(byId)[id].data == old(byId[id].data)
      requires forall u :: u in old(byUid) ==> old(byUid)[u].data == old(byUid[u].data)
      ensures Consistent() <==> Admissible(old(View()), AddPlayer(data))
    {
      var id, u := data.id, data.uid;
      if id in old(byId) && old(byId[id].data.uid) != u {
        assert byUid[old(byId[id].data.uid)].data.id == id;
      } else if u in old(byUid) && old(byUid[u].data.id) != id {
        assert byId[old(byUid[u].data.id)].data.uid == u;
      }
    }

    method Remove(id: Uuid)
      requires Consistent()
      modifies this
      ensures Consistent() && View() == Apply(old(View()), RemovePlayer(id))
      ensures byId == old(byId) - {id}
    {
      if id !in byId {
        return;
      }
      var player := byId[id];
      byId := byId - {id};
      byUid := byUid - {player.data.uid};
      assert View().players == old(View()).players - {id};
    }

    /**
     * Mutating keeps the registry consistent exactly when the mutator keeps the id and does
     * not take over another player's uid.
     */
    method MutateById(id: Uuid, mutator: PlayerData -> PlayerData)
      requires Consistent()
      modifies this`byUid, if id in byId then {byId[id]} else {}
      ensures id !in byId ==> View() == old(View()) && Consistent() && byUid == old(byUid)
      ensures id in byId ==>
                var op := MutatePlayer(id, mutator(old(byId[id].data)));
                && View() == Apply(old(View()), op) && (Consistent() <==> Admissible(old(View()), op))
                && (op.data.uid == old(byId[id].data.uid) ==> byUid == old(byUid))
    {
      if id in byId {
        var player := byId[id];
        var oldUid := player.data.uid;
        player.data := mutator(player.data);
        var newUid := player.data.uid;
        if oldUid != newUid {
          byUid := byUid - {oldUid};
          byUid := byUid[newUid := player];
        }
        MutateShown(id);
        MutateConsistent(id);
      }
    }

    /** Player `id` has changed, its uid entry has moved along, and no other player has changed. */
    twostate predicate WasMutated(id: Uuid)
      reads this, Objects()
    {
      && old(Consistent()) && byId == old(byId) && id in byId
      && (var u, u' := old(byId[id].data.uid), byId[id].data.uid;
          byUid == if u == u' then old(byUid) else (old(byUid) - {u})[u' := byId[id]])
      && (forall other :: other in byId && other != id ==> byId[other].data == old(byId[other].data))
      && (forall u :: u in old(byUid) && old(byUid[u]) != byId[id] ==> old(byUid)[u].data == old(byUid[u].data))
    }

    twostate lemma MutateShown(id: Uuid)
      requires WasMutated(id)
      ensures View() == Apply(old(View()), MutatePlayer(id, byId[id].data))
    {
      MutateShownById(id);
      MutateShownByUid(id);
    }

    twostate lemma MutateShownById(id: Uuid)
      requires WasMutated(id)
      ensures View().players == Apply(old(View()), MutatePlayer(id, byId[id].data)).players
    {
    }

    twostate lemma MutateShownByUid(id: Uuid)
      requires WasMutated(id)
      ensures View().uids == Apply(old(View()), MutatePlayer(id, byId[id].data)).uids
    {
    }

    twostate lemma MutateConsistent(id: Uuid)
      requires WasMutated(id)
      ensures Consistent() <==> Admissible(old(View()), MutatePlayer(id, byId[id].data))
    {
      var oldUid, newUid := old(byId[id].data.uid), byId[id].data.uid;
      if oldUid != newUid && newUid in old(byUid) {
        var other := old(byUid[newUid].data.id);
        assert byId[other].data.uid == newUid && byId[other] != byId[id];
      }
    }
  }

  ghost predicate Distinct(players: seq<PlayerData>) {
    forall i, j :: 0 <= i < j < |players| ==> players[i].id != players[j].id && players[i].uid != players[j].uid
  }
}
