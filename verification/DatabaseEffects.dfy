/** What each operation does to the entries of the database, by owner and participant. */
module DatabaseEffects {
  import opened Basics
  import opened Guids
  import opened SortedSets
  import opened DiscoveryItems
  import opened DatabaseSteps

  lemma NoEndpoints()
    ensures Sorted<EndpointInfo>([]) && forall g :: Find<EndpointInfo>([], g) == Nothing
  {
  }

  /** What owner o has recorded about participant p. */
  function Entry(dbs: seq<Database>, o: Guid, p: Guid): Maybe<ParticipantInfo> {
    Find(ItemsOf(dbs, o), p)
  }

  lemma FoundSorted(dbs: seq<Database>, o: Guid)
    requires SortedImage(dbs)
    ensures SortedItems(ItemsOf(dbs, o))
  {
    if Find(dbs, o).Just? {
      var k := FindWitness(dbs, o);
    }
  }

  lemma EntrySorted(items: seq<Participant>, p: Guid)
    requires SortedItems(items) && Find(items, p).Just?
    ensures SortedParticipant(Find(items, p).value)
  {
    var k := FindWitness(items, p);
  }

  lemma PutItemsEffect(dbs: seq<Database>, sp: Guid, src: string, items: seq<Participant>)
    requires SortedImage(dbs) && SortedItems(items)
    ensures SortedImage(PutItems(dbs, sp, src, items))
    ensures forall o :: Find(PutItems(dbs, sp, src, items), o) ==
              if o != sp then Find(dbs, o)
              else Just(DatabaseInfo(if Find(dbs, sp).Just? then Find(dbs, sp).value.name else src, items))
    ensures forall o :: ItemsOf(PutItems(dbs, sp, src, items), o) == if o == sp then items else ItemsOf(dbs, o)
  {
    var all := Emplace(dbs, Item(sp, DatabaseInfo(src, [])));
    EmplaceEffect(dbs, Item(sp, DatabaseInfo(src, [])));
    HitIffFound(dbs, sp);
    var k := LowerBound(dbs, sp);
    FindAt(all, k);
    UpdateEffect(all, k, all[k].info.(items := items));
  }

  /** AddParticipant: new, revived, or left as it was. */
  lemma AddItemEffect(items: seq<Participant>, op: Op)
    requires SortedItems(items) && op.AddParticipant?
    ensures SortedItems(AddItem(items, op))
    ensures forall p :: p != op.ptid ==> Find(AddItem(items, op), p) == Find(items, p)
    ensures match (Find(items, op.ptid), Find(AddItem(items, op), op.ptid))
            case (Nothing, Just(n)) =>
              n == ParticipantInfo(op.server, true, op.name, op.now, [], [])
            case (Just(e), Just(n)) =>
              n == if e.isAlive then e
                   else ParticipantInfo(op.server, true, op.name, op.stamp, e.writers, e.readers)
            case (_, Nothing) => false
  {
    var x := Item(op.ptid, ParticipantInfo(op.server, true, op.name, op.now, [], []));
    var added := Emplace(items, x);
    EmplaceEffect(items, x);
    HitIffFound(items, op.ptid);
    var k := LowerBound(items, op.ptid);
    FindAt(added, k);
    UpdateEffect(added, k, added[k].info.(
      isAlive := true, name := op.name, isServer := op.server, discovered := op.stamp));
  }

  /** RemoveParticipant: a participant with endpoints becomes a zombie, one without is gone. */
  lemma DropItemEffect(items: seq<Participant>, k: nat)
    requires SortedItems(items) && k < |items|
    ensures SortedItems(DropItem(items, k))
    ensures forall p :: p != items[k].guid ==> Find(DropItem(items, k), p) == Find(items, p)
    ensures Find(DropItem(items, k), items[k].guid) ==
            if items[k].info.CountEndpoints() > 0 then Just(items[k].info.(isAlive := false)) else Nothing
  {
    UpdateEffect(items, k, items[k].info.(isAlive := false));
    EraseEffect(items, k);
  }

  /** The participant that AddEndPoint credits with the endpoint. */
  function Credited(items: seq<Participant>, op: Op): Guid
    requires op.AddEndpoint?
  {
    var k := LowerBound(items, op.ptid);
    if k == |items| || op.ptid == op.spokesman then op.ptid else items[k].guid
  }

  /** AddEndPoint: one endpoint more, if it is new, for the credited participant. */
  lemma AddEndpointEffect(items: seq<Participant>, op: Op)
    requires SortedItems(items) && op.AddEndpoint?
    ensures SortedItems(AddEndpointItem(items, op))
    ensures var c := Credited(items, op);
            && (forall p :: p != c ==> Find(AddEndpointItem(items, op), p) == Find(items, p))
            && match Find(AddEndpointItem(items, op), c)
               case Nothing => false
               case Just(n) =>
                 var e := Find(items, c);
                 && n.isAlive == (if op.ptid == op.spokesman then true else e.Just? && e.value.isAlive)
                 && (forall kind :: kind != op.kind ==>
                      Endpoints(n, kind) == if e.Just? then Endpoints(e.value, kind) else [])
                 && forall id :: Find(Endpoints(n, op.kind), id) ==
                      var before := if e.Just? then Find(Endpoints(e.value, op.kind), id) else Nothing;
                      if id == op.id && before.Nothing?
                      then Just(EndpointInfo(op.typeName, op.topicName, op.stamp, 0, 0)) else before
  {
    NoEndpoints();
    hide Find, Sorted, LowerBound;
    var k := LowerBound(items, op.ptid);
    HitIffFound(items, op.ptid);
    var listed := items;
    if k == |items| || op.ptid == op.spokesman {
      var x := Item(op.ptid, ParticipantInfo(false, true, "", op.now, [], []));
      EmplaceEffect(items, x);
      var added := Emplace(items, x);
      FindAt(added, k);
      UpdateEffect(added, k, added[k].info.(isAlive := op.ptid == op.spokesman));
      listed := Update(added, k, added[k].info.(isAlive := op.ptid == op.spokesman));
    }
    FindAt(listed, k);
    var info := listed[k].info;
    var endpoint := Item(op.id, EndpointInfo(op.typeName, op.topicName, op.stamp, 0, 0));
    EmplaceEffect(Endpoints(info, op.kind), endpoint);
    UpdateEffect(listed, k, WithEndpoints(info, op.kind, Emplace(Endpoints(info, op.kind), endpoint)));
  }

  /** RemoveEndPoint: one endpoint less, and no zombie without endpoints. */
  lemma DropEndpointEffect(items: seq<Participant>, k: nat, kind: Kind, m: nat)
    requires SortedItems(items) && k < |items| && m < |Endpoints(items[k].info, kind)|
    ensures SortedItems(DropEndpoint(items, k, kind, m))
    ensures forall p :: p != items[k].guid ==> Find(DropEndpoint(items, k, kind, m), p) == Find(items, p)
    ensures var e := items[k].info;
            var es := Endpoints(e, kind);
            match Find(DropEndpoint(items, k, kind, m), items[k].guid)
            case Nothing => !e.isAlive && e.CountEndpoints() == 1
            case Just(n) =>
              && (e.isAlive || e.CountEndpoints() > 1)
              && n == WithEndpoints(e, kind, Endpoints(n, kind))
              && n.CountEndpoints() == e.CountEndpoints() - 1
              && forall id :: Find(Endpoints(n, kind), id) == if id == es[m].guid then Nothing else Find(es, id)
  {
    var info := items[k].info;
    EraseEffect(Endpoints(info, kind), m);
    UpdateEffect(items, k, WithEndpoints(info, kind, EraseAt(Endpoints(info, kind), m)));
    EraseEffect(items, k);
  }
}
