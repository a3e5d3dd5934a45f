/**
 * The operations that drive the discovery database, as functions on its image. Each runs under one
 * mutex, so each is one atomic step of a state machine.
 */
module DatabaseSteps {
  import opened Guids
  import opened SortedSets
  import opened DiscoveryItems

  datatype Kind = Writer | Reader

  function Endpoints(p: ParticipantInfo, kind: Kind): seq<Endpoint> {
    if kind.Writer? then p.writers else p.readers
  }

  function WithEndpoints(p: ParticipantInfo, kind: Kind, es: seq<Endpoint>): ParticipantInfo {
    if kind.Writer? then p.(writers := es) else p.(readers := es)
  }

  datatype Op =
    | AddParticipant(spokesman: Guid, srcName: string, ptid: Guid, name: string, server: bool,
                     stamp: int, now: int)
    | RemoveParticipant(spokesman: Guid, ptid: Guid)
    | RemoveDatabase(deceased: Guid)
    | AddEndpoint(kind: Kind, spokesman: Guid, srcName: string, ptid: Guid, id: Guid,
                  typeName: string, topicName: string, stamp: int, now: int)
    | RemoveEndpoint(kind: Kind, spokesman: Guid, ptid: Guid, id: Guid)
    | UpdateLiveliness(subscriber: Guid, aliveCount: int, notAliveCount: int)

  // ---------- The participants of one spokesman ----------

  /** A new entry is stamped with the current time; only a revived zombie takes the reported stamp. */
  function AddItem(items: seq<Participant>, op: Op): seq<Participant>
    requires op.AddParticipant?
  {
    var added := Emplace(items, Item(op.ptid, ParticipantInfo(op.server, true, op.name, op.now, [], [])));
    var k := LowerBound(items, op.ptid);
    if added[k].info.isAlive then added
    else Update(added, k, added[k].info.(
                isAlive := true, name := op.name, isServer := op.server, discovered := op.stamp))
  }

  /** Erased without endpoints, kept as a zombie otherwise. */
  function DropItem(items: seq<Participant>, k: nat): seq<Participant>
    requires k < |items|
  {
    if items[k].info.CountEndpoints() > 0 then Update(items, k, items[k].info.(isAlive := false))
    else EraseAt(items, k)
  }

  /**
   * The position is only tested against the end: an unlisted participant below a listed one is not
   * added, and its endpoint goes to the participant found at the lower bound.
   */
  function AddEndpointItem(items: seq<Participant>, op: Op): seq<Participant>
    requires op.AddEndpoint?
  {
    var k := LowerBound(items, op.ptid);
    var blank := ParticipantInfo(false, true, "", op.now, [], []);
    var listed :=
      if k == |items| || op.ptid == op.spokesman then
        var added := Emplace(items, Item(op.ptid, blank));
        Update(added, k, added[k].info.(isAlive := op.ptid == op.spokesman))
      else items;
    var endpoint := Item(op.id, EndpointInfo(op.typeName, op.topicName, op.stamp, 0, 0));
    var info := listed[k].info;
    Update(listed, k, WithEndpoints(info, op.kind, Emplace(Endpoints(info, op.kind), endpoint)))
  }

  /** A zombie goes with its last endpoint. */
  function DropEndpoint(items: seq<Participant>, k: nat, kind: Kind, m: nat): seq<Participant>
    requires k < |items| && m < |Endpoints(items[k].info, kind)|
  {
    var info := WithEndpoints(items[k].info, kind, EraseAt(Endpoints(items[k].info, kind), m));
    if info.CountEndpoints() == 0 && !info.isAlive then EraseAt(items, k) else Update(items, k, info)
  }

  // ---------- The image ----------

  function ItemsOf(dbs: seq<Database>, spokesman: Guid): seq<Participant> {
    match Find(dbs, spokesman)
    case Just(d) => d.items
    case Nothing => []
  }

  /** The image with the given participants under the spokesman, whose database is made on demand. */
  function PutItems(dbs: seq<Database>, spokesman: Guid, srcName: string, items: seq<Participant>)
    : seq<Database>
  {
    var all := Emplace(dbs, Item(spokesman, DatabaseInfo(srcName, [])));
    var k := LowerBound(dbs, spokesman);
    Update(all, k, all[k].info.(items := items))
  }

  /** The entity identifier of every participant. */
  const PARTICIPANT_ENTITY := 0x1c1

  /** One operation: the new image and the value the operation returns. */
  function Step(dbs: seq<Database>, op: Op): (seq<Database>, bool) {
    match op
    case AddParticipant(sp, src, _, _, _, _, _) =>
      (PutItems(dbs, sp, src, AddItem(ItemsOf(dbs, sp), op)), true)
    case AddEndpoint(_, sp, src, _, _, _, _, _, _) =>
      (PutItems(dbs, sp, src, AddEndpointItem(ItemsOf(dbs, sp), op)), true)
    case RemoveParticipant(sp, pt) =>
      var items := ItemsOf(dbs, sp);
      var k := LowerBound(items, pt);
      if HitAt(items, k, pt) then (PutItems(dbs, sp, "", DropItem(items, k)), true)
      else (PutItems(dbs, sp, "", items), false)
    case RemoveDatabase(deceased) =>
      var k := LowerBound(dbs, deceased);
      if HitAt(dbs, k, deceased) then (EraseAt(dbs, k), true) else (dbs, false)
    case RemoveEndpoint(kind, sp, pt, id) =>
      var items := ItemsOf(dbs, sp);
      var k := LowerBound(items, pt);
      if !HitAt(items, k, pt) then (dbs, false)
      else
        var es := Endpoints(items[k].info, kind);
        var m := LowerBound(es, id);
        if !HitAt(es, m, id) then (dbs, false)
        else (PutItems(dbs, sp, "", DropEndpoint(items, k, kind, m)), true)
    case UpdateLiveliness(sub, alive, notAlive) =>
      var owner := Guid(sub.prefix, PARTICIPANT_ENTITY);
      var items := ItemsOf(dbs, owner);
      var k := LowerBound(items, owner);
      if !HitAt(items, k, owner) then (dbs, true)
      else
        var es := items[k].info.readers;
        var m := LowerBound(es, sub);
        if !HitAt(es, m, sub) then (dbs, true)
        else
          var e := es[m].info.(aliveCount := alive, notAliveCount := notAlive);
          (PutItems(dbs, owner, "", Update(items, k, items[k].info.(readers := Update(es, m, e)))), true)
  }

  /** A run of operations: the final image and what each operation returned. */
  function Run(dbs: seq<Database>, ops: seq<Op>): (seq<Database>, seq<bool>)
    decreases |ops|
  {
    if ops == [] then (dbs, [])
    else
      var (next, ok) := Step(dbs, ops[0]);
      var (last, oks) := Run(next, ops[1..]);
      (last, [ok] + oks)
  }
}
