/**
 * A participant and its endpoints are reported dead by independent callbacks, in any order. Every
 * order ends in the same database.
 */
module Teardown {
  import opened Basics
  import opened Guids
  import opened SortedSets
  import opened DiscoveryItems
  import opened DatabaseSteps
  import opened DatabaseEffects
  import opened DatabaseModel
  import opened DatabaseFacts
  import opened DatabaseCounts

  function EndpointRemovals(kind: Kind, sp: Guid, pt: Guid, es: seq<Endpoint>): set<Op> {
    set g | g in Keys(es) :: RemoveEndpoint(kind, sp, pt, g)
  }

  /** The removals still due for a participant: its own, while alive, and one per endpoint. */
  function Due(sp: Guid, pt: Guid, e: ParticipantInfo): set<Op> {
    (if e.isAlive then {RemoveParticipant(sp, pt)} else {})
    + EndpointRemovals(Writer, sp, pt, e.writers) + EndpointRemovals(Reader, sp, pt, e.readers)
  }

  /** The two images agree on everything but participant pt in the database of sp. */
  ghost predicate OnlyDiffersAt(dbs: seq<Database>, next: seq<Database>, sp: Guid, pt: Guid) {
    && (forall o :: Find(next, o).Just? <==> Find(dbs, o).Just?)
    && (forall o :: Find(dbs, o).Just? ==> Find(next, o).value.name == Find(dbs, o).value.name)
    && (forall o, p :: (o, p) != (sp, pt) ==> Entry(next, o, p) == Entry(dbs, o, p))
  }

  /** A removal is due when the participant is alive or the endpoint is listed. */
  predicate IsDue(sp: Guid, pt: Guid, e: ParticipantInfo, op: Op) {
    match op
    case RemoveParticipant(o, p) => (o, p) == (sp, pt) && e.isAlive
    case RemoveEndpoint(kind, o, p, g) => (o, p) == (sp, pt) && Find(Endpoints(e, kind), g).Just?
    case _ => false
  }

  lemma EndpointRemovalsOf(kind: Kind, sp: Guid, pt: Guid, es: seq<Endpoint>)
    requires Sorted(es)
    ensures forall op :: op in EndpointRemovals(kind, sp, pt, es) <==>
              op.RemoveEndpoint? && op == RemoveEndpoint(kind, sp, pt, op.id) && Find(es, op.id).Just?
  {
    KeysOfSorted(es);
  }

  lemma DueOf(sp: Guid, pt: Guid, e: ParticipantInfo)
    requires SortedParticipant(e)
    ensures forall op :: op in Due(sp, pt, e) <==> IsDue(sp, pt, e, op)
    ensures e.CountEndpoints() > 0 || e.isAlive ==> Due(sp, pt, e) != {}
  {
    EndpointRemovalsOf(Writer, sp, pt, e.writers);
    EndpointRemovalsOf(Reader, sp, pt, e.readers);
    if e.CountEndpoints() > 0 {
      var kind := if e.writers != [] then Writer else Reader;
      var g := Endpoints(e, kind)[0].guid;
      assert IsDue(sp, pt, e, RemoveEndpoint(kind, sp, pt, g));
    }
  }

  lemma RemovalOfParticipant(dbs: seq<Database>, sp: Guid, pt: Guid, e: ParticipantInfo)
    requires Valid(dbs) && Entry(dbs, sp, pt) == Just(e) && e.isAlive
    ensures var (next, ok) := Step(dbs, RemoveParticipant(sp, pt));
            && ok && OnlyDiffersAt(dbs, next, sp, pt)
            && Entry(next, sp, pt) == if e.CountEndpoints() > 0 then Just(e.(isAlive := false)) else Nothing
  {
    var items := ItemsOf(dbs, sp);
    FoundSorted(dbs, sp);
    HitIffFound(items, pt);
    var k := LowerBound(items, pt);
    DropItemEffect(items, k);
    PutItemsEffect(dbs, sp, "", DropItem(items, k));
  }

  /** Where the removal finds the participant and its endpoint. */
  lemma RemovalHits(dbs: seq<Database>, sp: Guid, pt: Guid, e: ParticipantInfo, kind: Kind, g: Guid)
    returns (k: nat, m: nat)
    requires Valid(dbs) && Entry(dbs, sp, pt) == Just(e) && Find(Endpoints(e, kind), g).Just?
    ensures k < |ItemsOf(dbs, sp)| && ItemsOf(dbs, sp)[k] == Item(pt, e)
    ensures m < |Endpoints(e, kind)| && Endpoints(e, kind)[m].guid == g
    ensures Step(dbs, RemoveEndpoint(kind, sp, pt, g)) ==
            (PutItems(dbs, sp, "", DropEndpoint(ItemsOf(dbs, sp), k, kind, m)), true)
  {
    var items, es := ItemsOf(dbs, sp), Endpoints(e, kind);
    FoundSorted(dbs, sp);
    HitIffFound(items, pt);
    EntrySorted(items, pt);
    HitIffFound(es, g);
    k, m := LowerBound(items, pt), LowerBound(es, g);
  }

  lemma RemovalOfEndpoint(dbs: seq<Database>, sp: Guid, pt: Guid, e: ParticipantInfo, kind: Kind, g: Guid)
    requires Valid(dbs) && Entry(dbs, sp, pt) == Just(e) && Find(Endpoints(e, kind), g).Just?
    ensures var (next, ok) := Step(dbs, RemoveEndpoint(kind, sp, pt, g));
            && ok && OnlyDiffersAt(dbs, next, sp, pt)
            && match Entry(next, sp, pt)
               case Nothing =>
                 !e.isAlive && forall other, h :: Find(Endpoints(e, other), h).Just? ==> (other, h) == (kind, g)
               case Just(n) =>
                 && n.isAlive == e.isAlive
                 && forall other, h :: Find(Endpoints(n, other), h) ==
                      if (other, h) == (kind, g) then Nothing else Find(Endpoints(e, other), h)
  {
    hide Find, LowerBound, Sorted, PutItems, DropEndpoint, Step;
    var k, m := RemovalHits(dbs, sp, pt, e, kind, g);
    var items := ItemsOf(dbs, sp);
    FoundSorted(dbs, sp);
    EntrySorted(items, pt);
    DropEndpointEffect(items, k, kind, m);
    PutItemsEffect(dbs, sp, "", DropEndpoint(items, k, kind, m));
    if e.CountEndpoints() == 1 {
      forall other, h ensures Find(Endpoints(e, other), h).Just? ==> (other, h) == (kind, g) {
        LastEndpoint(e, kind, m, other, h);
      }
    }
  }

  lemma EntryFacts(dbs: seq<Database>, sp: Guid, pt: Guid)
    requires Valid(dbs) && Entry(dbs, sp, pt).Just?
    ensures SortedParticipant(Entry(dbs, sp, pt).value)
    ensures Entry(dbs, sp, pt).value.isAlive || Entry(dbs, sp, pt).value.CountEndpoints() > 0
  {
    FoundSorted(dbs, sp);
    EntrySorted(ItemsOf(dbs, sp), pt);
    assert ZombiesOwnEndpoints(ItemsOf(dbs, sp));
  }

  lemma OneDueLess(sp: Guid, pt: Guid, e: ParticipantInfo, n: ParticipantInfo, op: Op)
    requires SortedParticipant(e) && SortedParticipant(n)
    requires forall x :: IsDue(sp, pt, n, x) <==> IsDue(sp, pt, e, x) && x != op
    ensures Due(sp, pt, n) == Due(sp, pt, e) - {op}
  {
    DueOf(sp, pt, e);
    DueOf(sp, pt, n);
  }

  /** Any due removal succeeds; the participant goes with the last one and not before. */
  lemma DueStep(dbs: seq<Database>, sp: Guid, pt: Guid, op: Op)
    requires Valid(dbs) && Entry(dbs, sp, pt).Just? && op in Due(sp, pt, Entry(dbs, sp, pt).value)
    ensures var (next, ok) := Step(dbs, op);
            var due := Due(sp, pt, Entry(dbs, sp, pt).value);
            && ok && Valid(next) && OnlyDiffersAt(dbs, next, sp, pt)
            && match Entry(next, sp, pt)
               case Nothing => due == {op}
               case Just(n) => Due(sp, pt, n) == due - {op} && Due(sp, pt, n) != {}
  {
    hide Due, Step, Valid, OnlyDiffersAt, Entry;
    var e := Entry(dbs, sp, pt).value;
    var next := Step(dbs, op).0;
    StepKeepsValid(dbs, op);
    EntryFacts(dbs, sp, pt);
    DueOf(sp, pt, e);
    assert IsDue(sp, pt, e, op);
    if op.RemoveParticipant? {
      RemovalOfParticipant(dbs, sp, pt, e);
    } else {
      RemovalOfEndpoint(dbs, sp, pt, e, op.kind, op.id);
    }
    if Entry(next, sp, pt).Just? {
      var n := Entry(next, sp, pt).value;
      EntryFacts(next, sp, pt);
      DueOf(sp, pt, n);
      OneDueLess(sp, pt, e, n, op);
    } else {
      forall x ensures x in Due(sp, pt, e) <==> x == op {
        assert x in Due(sp, pt, e) <==> IsDue(sp, pt, e, x);
      }
    }
  }

  ghost predicate AllTrue(oks: seq<bool>) {
    forall i :: 0 <= i < |oks| ==> oks[i]
  }

  /** ops lists every element of due exactly once. */
  ghost predicate Permutes(ops: seq<Op>, due: set<Op>) {
    && (forall i, j :: 0 <= i < j < |ops| ==> ops[i] != ops[j])
    && (forall op :: op in due <==> op in ops)
  }

  /** Every order of the due removals succeeds call by call and leaves everything but p. */
  lemma {:induction false} AnyOrderTearsDown(dbs: seq<Database>, sp: Guid, pt: Guid, ops: seq<Op>)
    requires Valid(dbs) && Entry(dbs, sp, pt).Just?
    requires Permutes(ops, Due(sp, pt, Entry(dbs, sp, pt).value))
    ensures var (last, oks) := Run(dbs, ops);
            && AllTrue(oks) && Valid(last) && OnlyDiffersAt(dbs, last, sp, pt)
            && Entry(last, sp, pt) == Nothing
    decreases |ops|
  {
    var due := Due(sp, pt, Entry(dbs, sp, pt).value);
    EntryFacts(dbs, sp, pt);
    DueOf(sp, pt, Entry(dbs, sp, pt).value);
    assert ops != [] by {
      var op :| op in due;
    }
    var op, rest := ops[0], ops[1..];
    DueStep(dbs, sp, pt, op);
    var next := Step(dbs, op).0;
    if Entry(next, sp, pt).Just? {
      assert Permutes(rest, due - {op});
      AnyOrderTearsDown(next, sp, pt, rest);
    } else {
      forall i | 0 <= i < |ops| ensures ops[i] == op {
        assert ops[i] in due;
      }
    }
  }

  /** Images with the same databases and the same entries are the same. */
  lemma SameEntriesSameImage(dbs: seq<Database>, other: seq<Database>)
    requires SortedImage(dbs) && SortedImage(other)
    requires forall o :: Find(dbs, o).Just? <==> Find(other, o).Just?
    requires forall o :: Find(dbs, o).Just? ==> Find(dbs, o).value.name == Find(other, o).value.name
    requires forall o, p :: Entry(dbs, o, p) == Entry(other, o, p)
    ensures dbs == other
  {
    forall o ensures Find(dbs, o) == Find(other, o) {
      FoundSorted(dbs, o);
      FoundSorted(other, o);
      forall p ensures Find(ItemsOf(dbs, o), p) == Find(ItemsOf(other, o), p) {
        assert Entry(dbs, o, p) == Entry(other, o, p);
      }
      SameContentSameSet(ItemsOf(dbs, o), ItemsOf(other, o));
    }
    SameContentSameSet(dbs, other);
  }

  /** The order of the callbacks does not matter: all orders end in the same image. */
  lemma TeardownIsOrderIndependent(dbs: seq<Database>, sp: Guid, pt: Guid, ops: seq<Op>, others: seq<Op>)
    requires Valid(dbs) && Entry(dbs, sp, pt).Just?
    requires Permutes(ops, Due(sp, pt, Entry(dbs, sp, pt).value))
    requires Permutes(others, Due(sp, pt, Entry(dbs, sp, pt).value))
    ensures Run(dbs, ops).0 == Run(dbs, others).0
  {
    AnyOrderTearsDown(dbs, sp, pt, ops);
    AnyOrderTearsDown(dbs, sp, pt, others);
    var a, b := Run(dbs, ops).0, Run(dbs, others).0;
    forall o, p ensures Entry(a, o, p) == Entry(b, o, p) {
      if (o, p) != (sp, pt) {
        assert Entry(a, o, p) == Entry(dbs, o, p) && Entry(b, o, p) == Entry(dbs, o, p);
      }
    }
    SameEntriesSameImage(a, b);
  }
}
