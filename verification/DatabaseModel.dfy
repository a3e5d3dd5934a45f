/**
 * The invariants of the discovery database over all runs, and the set of facts it stands for.
 */
module DatabaseModel {
  import opened Basics
  import opened Guids
  import opened SortedSets
  import opened DiscoveryItems
  import opened DatabaseSteps
  import opened DatabaseEffects

  // ---------- Invariants of every run ----------

  /** A participant reported dead is only kept for the endpoints it still owns. */
  ghost predicate ZombiesOwnEndpoints(items: seq<Participant>) {
    forall p :: Find(items, p).Just? && !Find(items, p).value.isAlive ==>
      Find(items, p).value.CountEndpoints() > 0
  }

  ghost predicate Valid(dbs: seq<Database>) {
    SortedImage(dbs) && forall o :: ZombiesOwnEndpoints(ItemsOf(dbs, o))
  }

  /** What changing one database keeps, if the new participants are in order. */
  lemma PutItemsKeepsValid(dbs: seq<Database>, sp: Guid, src: string, items: seq<Participant>)
    requires Valid(dbs) && SortedItems(items) && ZombiesOwnEndpoints(items)
    ensures Valid(PutItems(dbs, sp, src, items))
  {
    PutItemsEffect(dbs, sp, src, items);
  }

  lemma LivelinessEffect(items: seq<Participant>, k: nat, m: nat, info: EndpointInfo)
    requires SortedItems(items) && k < |items| && m < |items[k].info.readers|
    ensures var e := items[k].info.(readers := Update(items[k].info.readers, m, info));
            && SortedItems(Update(items, k, e))
            && forall p :: Find(Update(items, k, e), p) == if p == items[k].guid then Just(e) else Find(items, p)
  {
    UpdateEffect(items[k].info.readers, m, info);
    UpdateEffect(items, k, items[k].info.(readers := Update(items[k].info.readers, m, info)));
  }

  lemma RemoveDatabaseEffect(dbs: seq<Database>, k: nat)
    requires SortedImage(dbs) && k < |dbs|
    ensures SortedImage(EraseAt(dbs, k))
    ensures forall o :: Find(EraseAt(dbs, k), o) == if o == dbs[k].guid then Nothing else Find(dbs, o)
  {
    EraseEffect(dbs, k);
  }

  /** No operation, in whatever order, breaks the invariants. */
  lemma StepKeepsValid(dbs: seq<Database>, op: Op)
    requires Valid(dbs)
    ensures Valid(Step(dbs, op).0)
  {
    match op {
      case AddParticipant(sp, src, pt, _, _, _, _) =>
        FoundSorted(dbs, sp);
        assert ZombiesOwnEndpoints(ItemsOf(dbs, sp));
        AddItemEffect(ItemsOf(dbs, sp), op);
        PutItemsKeepsValid(dbs, sp, src, AddItem(ItemsOf(dbs, sp), op));
      case AddEndpoint(_, sp, src, pt, id, _, _, _, _) =>
        FoundSorted(dbs, sp);
        assert ZombiesOwnEndpoints(ItemsOf(dbs, sp));
        var items := ItemsOf(dbs, sp);
        AddEndpointEffect(items, op);
        var n := Find(AddEndpointItem(items, op), Credited(items, op)).value;
        assert Find(Endpoints(n, op.kind), id).Just?;
        PutItemsKeepsValid(dbs, sp, src, AddEndpointItem(items, op));
      case RemoveParticipant(sp, pt) =>
        FoundSorted(dbs, sp);
        assert ZombiesOwnEndpoints(ItemsOf(dbs, sp));
        var items := ItemsOf(dbs, sp);
        var k := LowerBound(items, pt);
        if HitAt(items, k, pt) {
          DropItemEffect(items, k);
          PutItemsKeepsValid(dbs, sp, "", DropItem(items, k));
        } else {
          PutItemsKeepsValid(dbs, sp, "", items);
        }
      case RemoveDatabase(deceased) =>
        var k := LowerBound(dbs, deceased);
        if HitAt(dbs, k, deceased) {
          RemoveDatabaseEffect(dbs, k);
          assert forall o :: ItemsOf(EraseAt(dbs, k), o) == if o == deceased then [] else ItemsOf(dbs, o);
        }
      case RemoveEndpoint(kind, sp, pt, id) =>
        FoundSorted(dbs, sp);
        assert ZombiesOwnEndpoints(ItemsOf(dbs, sp));
        var items := ItemsOf(dbs, sp);
        var k := LowerBound(items, pt);
        if HitAt(items, k, pt) {
          var m := LowerBound(Endpoints(items[k].info, kind), id);
          if HitAt(Endpoints(items[k].info, kind), m, id) {
            DropEndpointEffect(items, k, kind, m);
            PutItemsKeepsValid(dbs, sp, "", DropEndpoint(items, k, kind, m));
          }
        }
      case UpdateLiveliness(sub, alive, notAlive) =>
        var owner := Guid(sub.prefix, PARTICIPANT_ENTITY);
        FoundSorted(dbs, owner);
        assert ZombiesOwnEndpoints(ItemsOf(dbs, owner));
        var items := ItemsOf(dbs, owner);
        var k := LowerBound(items, owner);
        if HitAt(items, k, owner) {
          var es := items[k].info.readers;
          var m := LowerBound(es, sub);
          if HitAt(es, m, sub) {
            var e := es[m].info.(aliveCount := alive, notAliveCount := notAlive);
            LivelinessEffect(items, k, m, e);
            FindAt(items, k);
            PutItemsKeepsValid(dbs, owner, "", Update(items, k, items[k].info.(readers := Update(es, m, e))));
          }
        }
    }
  }

  lemma {:induction false} RunKeepsValid(dbs: seq<Database>, ops: seq<Op>)
    requires Valid(dbs)
    ensures Valid(Run(dbs, ops).0)
    decreases |ops|
  {
    if ops != [] {
      StepKeepsValid(dbs, ops[0]);
      RunKeepsValid(Step(dbs, ops[0]).0, ops[1..]);
    }
  }
}
