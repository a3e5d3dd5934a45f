/**
 * The sorted sets of the database as what they stand for: who owns a database, who is alive in
 * whose eyes, and which endpoint belongs to which participant in whose eyes.
 */
module DatabaseFacts {
  import opened Basics
  import opened Guids
  import opened SortedSets
  import opened DiscoveryItems
  import opened DatabaseSteps
  import opened DatabaseEffects
  import opened DatabaseModel

  datatype Fact = Fact(owner: Guid, participant: Guid, kind: Kind, id: Guid)

  datatype Facts = Facts(
    owners: set<Guid>, alive: set<(Guid, Guid)>, endpoints: map<Fact, (string, string)>)
  {
    /** A participant is listed iff it is alive or has an endpoint. */
    predicate Listed(o: Guid, p: Guid) {
      (o, p) in alive || exists x :: x in endpoints && x.owner == o && x.participant == p
    }
  }

  /** The effect of an operation on the facts, and what it returns. */
  function FactsStep(f: Facts, op: Op): (Facts, bool) {
    match op
    case AddParticipant(sp, _, pt, _, _, _, _) =>
      (f.(owners := f.owners + {sp}, alive := f.alive + {(sp, pt)}), true)
    case RemoveParticipant(sp, pt) =>
      (f.(owners := f.owners + {sp}, alive := f.alive - {(sp, pt)}), f.Listed(sp, pt))
    case RemoveDatabase(d) =>
      (Facts(f.owners - {d}, set x | x in f.alive && x.0 != d,
             map x | x in f.endpoints && x.owner != d :: f.endpoints[x]),
       d in f.owners)
    case AddEndpoint(kind, sp, _, pt, id, typeName, topicName, _, _) =>
      var x := Fact(sp, pt, kind, id);
      (Facts(f.owners + {sp}, if pt == sp then f.alive + {(sp, pt)} else f.alive,
             if x in f.endpoints then f.endpoints else f.endpoints[x := (typeName, topicName)]),
       true)
    case RemoveEndpoint(kind, sp, pt, id) =>
      var x := Fact(sp, pt, kind, id);
      (f.(endpoints := f.endpoints - {x}), x in f.endpoints)
    case UpdateLiveliness(_, _, _) => (f, true)
  }

  /** The endpoint recorded in one database. */
  function RecordedIn(items: seq<Participant>, p: Guid, kind: Kind, id: Guid): Maybe<EndpointInfo> {
    match Find(items, p)
    case Nothing => Nothing
    case Just(e) => Find(Endpoints(e, kind), id)
  }

  /** The endpoint recorded for a fact. */
  function Recorded(dbs: seq<Database>, x: Fact): Maybe<EndpointInfo> {
    RecordedIn(ItemsOf(dbs, x.owner), x.participant, x.kind, x.id)
  }

  predicate AliveAt(items: seq<Participant>, p: Guid) {
    Find(items, p).Just? && Find(items, p).value.isAlive
  }

  predicate AliveIn(dbs: seq<Database>, o: Guid, p: Guid) {
    AliveAt(ItemsOf(dbs, o), p)
  }

  ghost predicate Represents(f: Facts, dbs: seq<Database>) {
    && (forall o :: o in f.owners <==> Find(dbs, o).Just?)
    && (forall o, p :: (o, p) in f.alive <==> AliveIn(dbs, o, p))
    && (forall x :: x in f.endpoints <==> Recorded(dbs, x).Just?)
    && (forall x :: x in f.endpoints ==>
          f.endpoints[x] == (Recorded(dbs, x).value.typeName, Recorded(dbs, x).value.topicName))
  }

  /** The condition under which AddEndPoint credits the participant it was told about. */
  ghost predicate Attributed(dbs: seq<Database>, op: Op) {
    op.AddEndpoint? ==>
      || op.ptid == op.spokesman
      || Entry(dbs, op.spokesman, op.ptid).Just?
      || forall p :: Entry(dbs, op.spokesman, p).Just? ==> Less(p, op.ptid)
  }

  /** In the facts a participant is listed iff it is in the sorted set. */
  lemma ListedExactly(f: Facts, dbs: seq<Database>, o: Guid, p: Guid)
    requires Represents(f, dbs) && Valid(dbs)
    ensures f.Listed(o, p) <==> Entry(dbs, o, p).Just?
  {
    if Entry(dbs, o, p).Just? && !AliveIn(dbs, o, p) {
      FoundSorted(dbs, o);
      EntrySorted(ItemsOf(dbs, o), p);
      assert ZombiesOwnEndpoints(ItemsOf(dbs, o));
      var e := Entry(dbs, o, p).value;
      var kind := if e.writers != [] then Writer else Reader;
      FindAt(Endpoints(e, kind), 0);
      assert Recorded(dbs, Fact(o, p, kind, Endpoints(e, kind)[0].guid)).Just?;
    }
  }

  /** Attributed is exactly the test that the credited participant is the reported one. */
  lemma AttributedExactly(dbs: seq<Database>, op: Op)
    requires SortedImage(dbs) && op.AddEndpoint?
    ensures Attributed(dbs, op) <==> Credited(ItemsOf(dbs, op.spokesman), op) == op.ptid
  {
    var items := ItemsOf(dbs, op.spokesman);
    FoundSorted(dbs, op.spokesman);
    var k := LowerBound(items, op.ptid);
    HitIffFound(items, op.ptid);
    if k < |items| {
      FindAt(items, k);
      assert Entry(dbs, op.spokesman, items[k].guid).Just?;
    } else {
      forall p | Entry(dbs, op.spokesman, p).Just? ensures Less(p, op.ptid) {
        var i := FindWitness(items, p);
      }
    }
  }

  /**
   * AddEndPoint records the reported fact if and only if it was there already or the attribution
   * condition holds; otherwise another participant is credited with the endpoint.
   */
  lemma EndpointRecordedIffAttributed(dbs: seq<Database>, op: Op)
    requires Valid(dbs) && op.AddEndpoint?
    ensures Recorded(Step(dbs, op).0, Fact(op.spokesman, op.ptid, op.kind, op.id)).Just? <==>
            Attributed(dbs, op)
    ensures Recorded(Step(dbs, op).0,
              Fact(op.spokesman, Credited(ItemsOf(dbs, op.spokesman), op), op.kind, op.id)).Just?
  {
    var items := ItemsOf(dbs, op.spokesman);
    FoundSorted(dbs, op.spokesman);
    AttributedExactly(dbs, op);
    AddEndpointEffect(items, op);
    PutItemsRecords(dbs, op.spokesman, op.srcName, AddEndpointItem(items, op));
  }

  /**
   * A wrong attribution: s has discovered p3 only, and is told of a reader of p2, which sorts between
   * them. The reader is recorded as one of p3, and p2 is not listed at all.
   */
  lemma EndpointOfAnother(s: Guid, p2: Guid, p3: Guid, e: Guid) returns (dbs: seq<Database>, op: Op)
    requires Less(s, p2) && Less(p2, p3)
    ensures dbs == Run([], [Op.AddParticipant(s, "s", p3, "p3", false, 0, 0)]).0 && Valid(dbs)
    ensures op == Op.AddEndpoint(Reader, s, "s", p2, e, "T", "t", 0, 0) && !Attributed(dbs, op)
    ensures var next := Step(dbs, op).0;
            && Recorded(next, Fact(s, p3, Reader, e)).Just?
            && Recorded(next, Fact(s, p2, Reader, e)).Nothing? && Entry(next, s, p2).Nothing?
  {
    var first := Op.AddParticipant(s, "s", p3, "p3", false, 0, 0);
    op := Op.AddEndpoint(Reader, s, "s", p2, e, "T", "t", 0, 0);
    dbs := Run([], [first]).0;
    RunKeepsValid([], [first]);
    assert [first][1..] == [];
    assert dbs == Run(Step([], first).0, [first][1..]).0 == Step([], first).0;
    var items := ItemsOf(dbs, s);
    assert items == [Item(p3, ParticipantInfo(false, true, "p3", 0, [], []))] by {
      assert AddItem([], first) == [Item(p3, ParticipantInfo(false, true, "p3", 0, [], []))];
      PutItemsEffect([], s, "s", AddItem([], first));
    }
    assert Credited(items, op) == p3;
    AttributedExactly(dbs, op);
    EndpointRecordedIffAttributed(dbs, op);
    AddEndpointEffect(items, op);
    PutItemsEffect(dbs, s, "s", AddEndpointItem(items, op));
    assert Find(items, p2) == Nothing;
  }

  lemma PutItemsRecords(dbs: seq<Database>, sp: Guid, src: string, items: seq<Participant>)
    requires SortedImage(dbs) && SortedItems(items)
    ensures forall o :: Find(PutItems(dbs, sp, src, items), o).Just? <==> Find(dbs, o).Just? || o == sp
    ensures forall o, p :: AliveIn(PutItems(dbs, sp, src, items), o, p) <==>
              if o == sp then AliveAt(items, p) else AliveIn(dbs, o, p)
    ensures forall x :: Recorded(PutItems(dbs, sp, src, items), x) ==
              if x.owner == sp then RecordedIn(items, x.participant, x.kind, x.id) else Recorded(dbs, x)
  {
    PutItemsEffect(dbs, sp, src, items);
  }

  lemma AddEndpointRecords(items: seq<Participant>, op: Op)
    requires SortedItems(items) && op.AddEndpoint? && Credited(items, op) == op.ptid
    ensures SortedItems(AddEndpointItem(items, op))
    ensures forall p, kind, id :: RecordedIn(AddEndpointItem(items, op), p, kind, id) ==
              if (p, kind, id) == (op.ptid, op.kind, op.id) && RecordedIn(items, p, kind, id).Nothing?
              then Just(EndpointInfo(op.typeName, op.topicName, op.stamp, 0, 0))
              else RecordedIn(items, p, kind, id)
    ensures forall p :: AliveAt(AddEndpointItem(items, op), p) <==>
              AliveAt(items, p) || (p == op.ptid && op.ptid == op.spokesman)
  {
    AddEndpointEffect(items, op);
  }

  /** The facts after one endpoint was recorded, unless it was recorded before. */
  lemma OneMore(f: Facts, dbs: seq<Database>, g: Facts, next: seq<Database>, y: Fact, info: EndpointInfo)
    requires Represents(f, dbs)
    requires g.owners == f.owners + {y.owner}
    requires g.alive == if y.participant == y.owner then f.alive + {(y.owner, y.owner)} else f.alive
    requires g.endpoints ==
             if y in f.endpoints then f.endpoints else f.endpoints[y := (info.typeName, info.topicName)]
    requires forall o :: Find(next, o).Just? <==> Find(dbs, o).Just? || o == y.owner
    requires forall o, p :: AliveIn(next, o, p) <==>
               AliveIn(dbs, o, p) || ((o, p) == (y.owner, y.participant) && y.participant == y.owner)
    requires forall x :: Recorded(next, x) ==
               if x == y && Recorded(dbs, x).Nothing? then Just(info) else Recorded(dbs, x)
    ensures Represents(g, next)
  {
  }

  lemma AddEndpointRefines(f: Facts, dbs: seq<Database>, op: Op)
    requires Valid(dbs) && Represents(f, dbs) && op.AddEndpoint? && Attributed(dbs, op)
    ensures Represents(FactsStep(f, op).0, Step(dbs, op).0)
  {
    var items := ItemsOf(dbs, op.spokesman);
    FoundSorted(dbs, op.spokesman);
    AttributedExactly(dbs, op);
    AddEndpointRecords(items, op);
    PutItemsRecords(dbs, op.spokesman, op.srcName, AddEndpointItem(items, op));
    var y := Fact(op.spokesman, op.ptid, op.kind, op.id);
    OneMore(f, dbs, FactsStep(f, op).0, Step(dbs, op).0, y,
            EndpointInfo(op.typeName, op.topicName, op.stamp, 0, 0));
  }

  lemma DropEndpointRecords(items: seq<Participant>, k: nat, kind: Kind, m: nat)
    requires SortedItems(items) && k < |items| && m < |Endpoints(items[k].info, kind)|
    ensures SortedItems(DropEndpoint(items, k, kind, m))
    ensures forall p, other, id :: RecordedIn(DropEndpoint(items, k, kind, m), p, other, id) ==
              if (p, other, id) == (items[k].guid, kind, Endpoints(items[k].info, kind)[m].guid) then Nothing
              else RecordedIn(items, p, other, id)
    ensures forall p :: AliveAt(DropEndpoint(items, k, kind, m), p) <==> AliveAt(items, p)
  {
    hide DropEndpoint, Find, LowerBound;
    DropEndpointEffect(items, k, kind, m);
    FindAt(items, k);
    var next := DropEndpoint(items, k, kind, m);
    var e := items[k].info;
    if Find(next, items[k].guid).Nothing? {
      forall other, id ensures Find(Endpoints(e, other), id).Just? ==>
          other == kind && id == Endpoints(e, kind)[m].guid {
        LastEndpoint(e, kind, m, other, id);
      }
    }
  }

  /** The facts after one endpoint was removed. */
  lemma OneLess(f: Facts, dbs: seq<Database>, next: seq<Database>, y: Fact)
    requires Represents(f, dbs)
    requires forall o :: Find(next, o).Just? <==> Find(dbs, o).Just?
    requires forall o, p :: AliveIn(next, o, p) <==> AliveIn(dbs, o, p)
    requires forall x :: Recorded(next, x) == if x == y then Nothing else Recorded(dbs, x)
    ensures Represents(f.(endpoints := f.endpoints - {y}), next)
  {
  }

  lemma RemoveEndpointRefines(f: Facts, dbs: seq<Database>, op: Op)
    requires Valid(dbs) && Represents(f, dbs) && op.RemoveEndpoint?
    ensures Represents(FactsStep(f, op).0, Step(dbs, op).0)
    ensures FactsStep(f, op).1 == Step(dbs, op).1
  {
    var items := ItemsOf(dbs, op.spokesman);
    FoundSorted(dbs, op.spokesman);
    var k := LowerBound(items, op.ptid);
    HitIffFound(items, op.ptid);
    var y := Fact(op.spokesman, op.ptid, op.kind, op.id);
    if HitAt(items, k, op.ptid) {
      var es := Endpoints(items[k].info, op.kind);
      assert Recorded(dbs, y) == Find(es, op.id);
      HitIffFound(es, op.id);
      var m := LowerBound(es, op.id);
      if HitAt(es, m, op.id) {
        DropEndpointRecords(items, k, op.kind, m);
        PutItemsRecords(dbs, op.spokesman, "", DropEndpoint(items, k, op.kind, m));
        OneLess(f, dbs, Step(dbs, op).0, y);
      }
    }
  }

  /** A single endpoint is the only one that can be found. */
  lemma LastEndpoint(e: ParticipantInfo, kind: Kind, m: nat, other: Kind, id: Guid)
    requires SortedParticipant(e) && e.CountEndpoints() == 1 && m < |Endpoints(e, kind)|
    ensures Find(Endpoints(e, other), id).Just? ==> other == kind && id == Endpoints(e, kind)[m].guid
  {
    if Find(Endpoints(e, other), id).Just? {
      var i := FindWitness(Endpoints(e, other), id);
    }
  }

  lemma DropItemRecords(items: seq<Participant>, k: nat)
    requires SortedItems(items) && k < |items|
    ensures SortedItems(DropItem(items, k))
    ensures forall p, kind, id :: RecordedIn(DropItem(items, k), p, kind, id) == RecordedIn(items, p, kind, id)
    ensures forall p :: AliveAt(DropItem(items, k), p) <==> AliveAt(items, p) && p != items[k].guid
  {
    DropItemEffect(items, k);
    FindAt(items, k);
  }

  lemma RemoveParticipantRefines(f: Facts, dbs: seq<Database>, op: Op)
    requires Valid(dbs) && Represents(f, dbs) && op.RemoveParticipant?
    ensures Represents(FactsStep(f, op).0, Step(dbs, op).0)
    ensures FactsStep(f, op).1 == Step(dbs, op).1
  {
    var items := ItemsOf(dbs, op.spokesman);
    FoundSorted(dbs, op.spokesman);
    var k := LowerBound(items, op.ptid);
    HitIffFound(items, op.ptid);
    ListedExactly(f, dbs, op.spokesman, op.ptid);
    if HitAt(items, k, op.ptid) {
      DropItemRecords(items, k);
      PutItemsRecords(dbs, op.spokesman, "", DropItem(items, k));
    } else {
      PutItemsRecords(dbs, op.spokesman, "", items);
    }
  }

  lemma AddItemRecords(items: seq<Participant>, op: Op)
    requires SortedItems(items) && op.AddParticipant?
    ensures SortedItems(AddItem(items, op))
    ensures forall p, kind, id :: RecordedIn(AddItem(items, op), p, kind, id) == RecordedIn(items, p, kind, id)
    ensures forall p :: AliveAt(AddItem(items, op), p) <==> AliveAt(items, p) || p == op.ptid
  {
    hide AddItem;
    AddItemEffect(items, op);
  }

  lemma AddParticipantRefines(f: Facts, dbs: seq<Database>, op: Op)
    requires Valid(dbs) && Represents(f, dbs) && op.AddParticipant?
    ensures Represents(FactsStep(f, op).0, Step(dbs, op).0)
  {
    var items := ItemsOf(dbs, op.spokesman);
    FoundSorted(dbs, op.spokesman);
    AddItemRecords(items, op);
    PutItemsRecords(dbs, op.spokesman, op.srcName, AddItem(items, op));
    hide AddItem, PutItems, RecordedIn, AliveAt, Valid, SortedItems;
    var next := Step(dbs, op).0;
    forall x ensures Recorded(next, x) == Recorded(dbs, x) {
    }
    forall o, p ensures AliveIn(next, o, p) <==> AliveIn(dbs, o, p) || (o, p) == (op.spokesman, op.ptid) {
    }
  }

  lemma RemoveDatabaseRefines(f: Facts, dbs: seq<Database>, op: Op)
    requires Valid(dbs) && Represents(f, dbs) && op.RemoveDatabase?
    ensures Represents(FactsStep(f, op).0, Step(dbs, op).0)
    ensures FactsStep(f, op).1 == Step(dbs, op).1
  {
    HitIffFound(dbs, op.deceased);
    var k := LowerBound(dbs, op.deceased);
    if HitAt(dbs, k, op.deceased) {
      RemoveDatabaseEffect(dbs, k);
    }
    var next := Step(dbs, op).0;
    assert forall o :: ItemsOf(next, o) == if o == op.deceased then [] else ItemsOf(dbs, o);
    forall x ensures Recorded(next, x) == if x.owner == op.deceased then Nothing else Recorded(dbs, x) {
    }
    forall o, p ensures AliveIn(next, o, p) <==> AliveIn(dbs, o, p) && o != op.deceased {
    }
  }

  lemma LivelinessRecords(items: seq<Participant>, k: nat, m: nat, info: EndpointInfo)
    requires SortedItems(items) && k < |items| && m < |items[k].info.readers|
    ensures var next := Update(items, k, items[k].info.(readers := Update(items[k].info.readers, m, info)));
            && SortedItems(next)
            && (forall p :: AliveAt(next, p) <==> AliveAt(items, p))
            && forall p, kind, id :: RecordedIn(next, p, kind, id) ==
                 if (p, kind, id) == (items[k].guid, Reader, items[k].info.readers[m].guid) then Just(info)
                 else RecordedIn(items, p, kind, id)
  {
    LivelinessEffect(items, k, m, info);
    UpdateEffect(items[k].info.readers, m, info);
    FindAt(items, k);
  }

  lemma UpdateLivelinessRefines(f: Facts, dbs: seq<Database>, op: Op)
    requires Valid(dbs) && Represents(f, dbs) && op.UpdateLiveliness?
    ensures Represents(f, Step(dbs, op).0)
  {
    var owner := Guid(op.subscriber.prefix, PARTICIPANT_ENTITY);
    var items := ItemsOf(dbs, owner);
    FoundSorted(dbs, owner);
    HitIffFound(items, owner);
    var k := LowerBound(items, owner);
    if HitAt(items, k, owner) {
      var es := items[k].info.readers;
      var m := LowerBound(es, op.subscriber);
      if HitAt(es, m, op.subscriber) {
        var e := es[m].info.(aliveCount := op.aliveCount, notAliveCount := op.notAliveCount);
        LivelinessRecords(items, k, m, e);
        HitIffFound(es, op.subscriber);
        assert Recorded(dbs, Fact(owner, owner, Reader, op.subscriber)) == Just(es[m].info);
        PutItemsRecords(dbs, owner, "", Update(items, k, items[k].info.(readers := Update(es, m, e))));
      }
    }
  }

  /** One step of the sorted sets is one step of the facts, with the same return value. */
  lemma StepRefines(f: Facts, dbs: seq<Database>, op: Op)
    requires Valid(dbs) && Represents(f, dbs) && Attributed(dbs, op)
    ensures Valid(Step(dbs, op).0)
    ensures Represents(FactsStep(f, op).0, Step(dbs, op).0)
    ensures FactsStep(f, op).1 == Step(dbs, op).1
  {
    StepKeepsValid(dbs, op);
    match op {
      case AddParticipant(_, _, _, _, _, _, _) => AddParticipantRefines(f, dbs, op);
      case AddEndpoint(_, _, _, _, _, _, _, _, _) => AddEndpointRefines(f, dbs, op);
      case RemoveParticipant(_, _) => RemoveParticipantRefines(f, dbs, op);
      case RemoveDatabase(_) => RemoveDatabaseRefines(f, dbs, op);
      case RemoveEndpoint(_, _, _, _) => RemoveEndpointRefines(f, dbs, op);
      case UpdateLiveliness(_, _, _) => UpdateLivelinessRefines(f, dbs, op);
    }
  }

  function FactsRun(f: Facts, ops: seq<Op>): (Facts, seq<bool>)
    decreases |ops|
  {
    if ops == [] then (f, [])
    else
      var (next, ok) := FactsStep(f, ops[0]);
      var (last, oks) := FactsRun(next, ops[1..]);
      (last, [ok] + oks)
  }

  ghost predicate AllAttributed(dbs: seq<Database>, ops: seq<Op>)
    decreases |ops|
  {
    ops == [] || (Attributed(dbs, ops[0]) && AllAttributed(Step(dbs, ops[0]).0, ops[1..]))
  }

  /** Over any run with correct attribution the database stands for the facts added and not removed. */
  lemma {:induction false} RunRefines(f: Facts, dbs: seq<Database>, ops: seq<Op>)
    requires Valid(dbs) && Represents(f, dbs) && AllAttributed(dbs, ops)
    ensures Valid(Run(dbs, ops).0) && Represents(FactsRun(f, ops).0, Run(dbs, ops).0)
    ensures FactsRun(f, ops).1 == Run(dbs, ops).1
    decreases |ops|
  {
    if ops != [] {
      StepRefines(f, dbs, ops[0]);
      RunRefines(FactsStep(f, ops[0]).0, Step(dbs, ops[0]).0, ops[1..]);
    }
  }

  /** So it does from the start of the process, when the database and the facts are empty. */
  lemma RunRefinesFromStart(ops: seq<Op>)
    requires AllAttributed([], ops)
    ensures var (f, oks), (dbs, returned) := FactsRun(Facts({}, {}, map[]), ops), Run([], ops);
            Valid(dbs) && Represents(f, dbs) && oks == returned
  {
    hide Step, FactsStep, FactsRun, Run, AllAttributed;
    assert Represents(Facts({}, {}, map[]), []);
    RunRefines(Facts({}, {}, map[]), [], ops);
  }
}
