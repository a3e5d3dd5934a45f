/** The counters of the database count the facts it stands for. */
module DatabaseCounts {
  import opened Basics
  import opened Guids
  import opened SortedSets
  import opened DiscoveryItems
  import opened DatabaseSteps
  import opened DatabaseEffects
  import opened DatabaseModel
  import opened DatabaseFacts
  import opened DiscoveryDatabase

  /** The participants owner o lists, read off the facts. */
  function Participants(f: Facts, o: Guid): set<Guid> {
    (set x | x in f.alive && x.0 == o :: x.1) + (set x | x in f.endpoints && x.owner == o :: x.participant)
  }

  /** The endpoints of one kind owner o knows, read off the facts. */
  function EndpointFacts(f: Facts, o: Guid, kind: Kind): set<Fact> {
    set x | x in f.endpoints && x.owner == o && x.kind == kind
  }

  function Keys<T>(s: seq<Item<T>>): set<Guid> {
    if s == [] then {} else {s[0].guid} + Keys(s[1..])
  }

  lemma {:induction false} KeysOfSorted<T>(s: seq<Item<T>>)
    requires Sorted(s)
    ensures |Keys(s)| == |s|
    ensures forall g :: g in Keys(s) <==> Find(s, g).Just?
  {
    if s != [] {
      KeysOfSorted(s[1..]);
      FindAbsent(s[1..], s[0].guid);
    }
  }

  function FactsOfOne(o: Guid, p: Guid, kind: Kind, es: seq<Endpoint>): set<Fact> {
    if es == [] then {} else {Fact(o, p, kind, es[0].guid)} + FactsOfOne(o, p, kind, es[1..])
  }

  lemma {:induction false} FactsOfOneCounted(o: Guid, p: Guid, kind: Kind, es: seq<Endpoint>)
    requires Sorted(es)
    ensures |FactsOfOne(o, p, kind, es)| == |es|
    ensures forall x :: x in FactsOfOne(o, p, kind, es) <==>
              x.owner == o && x.participant == p && x.kind == kind && Find(es, x.id).Just?
  {
    if es != [] {
      FactsOfOneCounted(o, p, kind, es[1..]);
      FindAbsent(es[1..], es[0].guid);
    }
  }

  function FactsOfAll(o: Guid, items: seq<Participant>, kind: Kind): set<Fact> {
    if items == [] then {}
    else
      var last := items[|items| - 1];
      FactsOfAll(o, items[..|items| - 1], kind) + FactsOfOne(o, last.guid, kind, Endpoints(last.info, kind))
  }

  lemma {:induction false} FactsOfAllCounted(o: Guid, items: seq<Participant>, kind: Kind)
    requires SortedItems(items)
    ensures |FactsOfAll(o, items, kind)| == CountAll(items, kind)
    ensures forall x :: x in FactsOfAll(o, items, kind) <==>
              x.owner == o && x.kind == kind && RecordedIn(items, x.participant, kind, x.id).Just?
  {
    if items != [] {
      var front, last := items[..|items| - 1], items[|items| - 1];
      FactsOfAllCounted(o, front, kind);
      FactsOfOneCounted(o, last.guid, kind, Endpoints(last.info, kind));
      FoundInFront(items);
      hide FactsOfOne, Find, Sorted;
      assert FactsOfAll(o, front, kind) !! FactsOfOne(o, last.guid, kind, Endpoints(last.info, kind));
    }
  }

  lemma FoundInFront<T>(s: seq<Item<T>>)
    requires s != [] && Sorted(s)
    ensures var front, last := s[..|s| - 1], s[|s| - 1];
            && Find(front, last.guid) == Nothing
            && forall p :: Find(s, p) == if p == last.guid then Just(last.info) else Find(front, p)
  {
    var front, last := s[..|s| - 1], s[|s| - 1];
    FindAbsent(front, last.guid);
    assert s == front + [last];
    assert forall p :: Find([last], p) == if p == last.guid then Just(last.info) else Nothing;
    hide Find, Sorted;
    forall p ensures Find(s, p) == if p == last.guid then Just(last.info) else Find(front, p) {
      FindConcat(front, [last], p);
    }
  }

  /** CountParticipants is the number of participants alive or with endpoints. */
  lemma ParticipantsCounted(f: Facts, dbs: seq<Database>, o: Guid)
    requires Valid(dbs) && Represents(f, dbs)
    ensures |ItemsOf(dbs, o)| == |Participants(f, o)|
    ensures forall p :: p in Participants(f, o) <==> f.Listed(o, p)
  {
    var items := ItemsOf(dbs, o);
    FoundSorted(dbs, o);
    KeysOfSorted(items);
    forall p ensures p in Participants(f, o) <==> f.Listed(o, p) {
      assert (o, p) in f.alive ==> (o, p).0 == o && (o, p).1 == p;
    }
    forall p ensures p in Keys(items) <==> p in Participants(f, o) {
      ListedExactly(f, dbs, o, p);
    }
    assert Keys(items) == Participants(f, o);
  }

  /** CountDataReaders and CountDataWriters are the numbers of endpoint facts. */
  lemma EndpointsCounted(f: Facts, dbs: seq<Database>, o: Guid, kind: Kind)
    requires Valid(dbs) && Represents(f, dbs)
    ensures CountAll(ItemsOf(dbs, o), kind) == |EndpointFacts(f, o, kind)|
  {
    var items := ItemsOf(dbs, o);
    FoundSorted(dbs, o);
    FactsOfAllCounted(o, items, kind);
    assert FactsOfAll(o, items, kind) == EndpointFacts(f, o, kind);
  }

  /** The per-participant counters are the numbers of that participant's endpoint facts. */
  lemma EndpointsOfCounted(f: Facts, dbs: seq<Database>, o: Guid, p: Guid, kind: Kind)
    requires Valid(dbs) && Represents(f, dbs)
    ensures (match Entry(dbs, o, p) case Just(e) => |Endpoints(e, kind)| case Nothing => 0) ==
            |set x | x in EndpointFacts(f, o, kind) && x.participant == p|
  {
    FoundSorted(dbs, o);
    var facts := set x | x in EndpointFacts(f, o, kind) && x.participant == p;
    match Entry(dbs, o, p) {
      case Nothing => assert facts == {};
      case Just(e) =>
        EntrySorted(ItemsOf(dbs, o), p);
        FactsOfOneCounted(o, p, kind, Endpoints(e, kind));
        assert facts == FactsOfOne(o, p, kind, Endpoints(e, kind));
    }
  }
}
