/** Taking a snapshot: managed participants without discovery data get an empty database. */
module SnapshotCompletion {
  import opened Basics
  import opened Guids
  import opened SortedSets
  import opened DiscoveryItems

  /** map::insert of a range: keys already present keep their value. */
  function InsertAll<P>(s: seq<Item<P>>, t: seq<Item<P>>): seq<Item<P>>
    decreases |t|
  {
    if t == [] then s else InsertAll(Emplace(s, t[0]), t[1..])
  }

  lemma {:induction false} InsertAllEffect<P>(s: seq<Item<P>>, t: seq<Item<P>>)
    requires Sorted(s)
    ensures Sorted(InsertAll(s, t))
    ensures forall g :: Find(InsertAll(s, t), g) == if Find(s, g).Just? then Find(s, g) else Find(t, g)
    decreases |t|
  {
    if t != [] {
      EmplaceEffect(s, t[0]);
      InsertAllEffect(Emplace(s, t[0]), t[1..]);
    }
  }

  /** The databases of before, and an empty one for every other managed participant. */
  ghost predicate CompletedBy<P>(before: seq<Database>, managed: seq<Item<P>>, after: seq<Database>) {
    forall g :: Find(after, g) ==
      match Find(before, g)
      case Just(d) => Just(d)
      case Nothing => if Find(managed, g).Just? then Just(DatabaseInfo("", [])) else Nothing
  }

  /** std::mismatch of the managed participants with the owners of the databases. */
  method Mismatch<P>(managed: seq<Item<P>>, i0: nat, dbs: seq<Database>, j0: nat) returns (i: nat, j: nat)
    requires i0 <= |managed| && j0 <= |dbs|
    ensures i0 <= i <= |managed| && j == j0 + (i - i0) <= |dbs|
    ensures forall k :: i0 <= k < i ==> managed[k].guid == dbs[j0 + (k - i0)].guid
    ensures i < |managed| && j < |dbs| ==> managed[i].guid != dbs[j].guid
  {
    i, j := i0, j0;
    while i != |managed| && j != |dbs| && managed[i].guid == dbs[j].guid
      invariant i0 <= i <= |managed| && j == j0 + (i - i0) <= |dbs|
      invariant forall k :: i0 <= k < i ==> managed[k].guid == dbs[j0 + (k - i0)].guid
    {
      i, j := i + 1, j + 1;
    }
  }

  lemma OwnersFound(dbs: seq<Database>)
    requires Sorted(dbs)
    ensures forall k :: 0 <= k < |dbs| ==> Find(dbs, dbs[k].guid).Just?
  {
    forall k | 0 <= k < |dbs| ensures Find(dbs, dbs[k].guid).Just? {
      FindAt(dbs, k);
    }
  }

  /** One round: the next managed participant gets a database, and the cursors move on. */
  lemma RoundEffect<P>(before: seq<Database>, dbs: seq<Database>, managed: seq<Item<P>>, i: nat)
    requires SortedImage(dbs) && Sorted(managed) && i < |managed| && PartlyCompleted(before, managed, dbs)
    ensures var after := Emplace(dbs, Item(managed[i].guid, DatabaseInfo("", [])));
            && SortedImage(after) && PartlyCompleted(before, managed, after)
            && Find(after, managed[i].guid).Just?
            && (forall g :: Find(dbs, g).Just? ==> Find(after, g).Just?)
            && forall k :: 0 <= k < |after| ==> Find(after, after[k].guid).Just?
  {
    var empty: Database := Item(managed[i].guid, DatabaseInfo("", []));
    FindAt(managed, i);
    EmplaceEffect(dbs, empty);
    OwnersFound(Emplace(dbs, empty));
  }

  /** Nothing changed, and what was added is an empty database of a managed participant. */
  ghost predicate PartlyCompleted<P>(before: seq<Database>, managed: seq<Item<P>>, dbs: seq<Database>) {
    forall g :: Find(dbs, g) == Find(before, g) ||
      (Find(before, g).Nothing? && Find(managed, g).Just? && Find(dbs, g) == Just(DatabaseInfo("", [])))
  }

  /**
   * The owners the manager does not know make the two cursors drift apart; still every round
   * accounts for at least one more managed participant.
   */
  method Complete<P>(before: seq<Database>, managed: seq<Item<P>>) returns (dbs: seq<Database>)
    requires SortedImage(before) && Sorted(managed)
    ensures SortedImage(dbs) && CompletedBy(before, managed, dbs)
  {
    dbs := before;
    var i, j := Mismatch(managed, 0, dbs, 0);
    OwnersFound(dbs);
    while i != |managed|
      invariant i <= |managed| && j <= |dbs| && SortedImage(dbs)
      invariant forall k :: 0 <= k < i ==> Find(dbs, managed[k].guid).Just?
      invariant PartlyCompleted(before, managed, dbs)
    {
      RoundEffect(before, dbs, managed, i);
      j := LowerBound(dbs, managed[i].guid);
      dbs := Emplace(dbs, Item(managed[i].guid, DatabaseInfo("", [])));
      i, j := Mismatch(managed, i, dbs, j);
    }
    forall g | Find(managed, g).Just? ensures Find(dbs, g).Just? {
      var k := FindWitness(managed, g);
    }
  }

  /**
   * The snapshot owns a database for everybody who is managed or already had one; nothing that was
   * there changes.
   */
  method TakeSnapshot<P>(state: Snapshot, servers: seq<Item<P>>, clients: seq<Item<P>>, simples: seq<Item<P>>,
                         tp: int, lastPdp: int, lastEdp: int, desc: string, someone: bool, liveliness: bool)
    returns (shot: Snapshot)
    requires SortedImage(state.dbs) && Sorted(servers)
    ensures shot == Snapshot(
      state.processStartup, tp, lastPdp, lastEdp, someone, liveliness, desc, shot.dbs)
    ensures SortedImage(shot.dbs)
    ensures CompletedBy(state.dbs, servers + clients + simples, shot.dbs)
  {
    shot := state.(time := tp, lastPdpCallback := lastPdp, lastEdpCallback := lastEdp,
      description := desc, ifSomeone := someone, showLiveliness := liveliness);
    ManagedTogether(servers, clients, simples);
    var temp := InsertAll(InsertAll(servers, clients), simples);
    var dbs := Complete(shot.dbs, temp);
    shot := shot.(dbs := dbs);
  }

  lemma ManagedTogether<P>(servers: seq<Item<P>>, clients: seq<Item<P>>, simples: seq<Item<P>>)
    requires Sorted(servers)
    ensures var managed := InsertAll(InsertAll(servers, clients), simples);
            && Sorted(managed)
            && forall g :: Find(managed, g).Just? <==> Find(servers + clients + simples, g).Just?
  {
    InsertAllEffect(servers, clients);
    InsertAllEffect(InsertAll(servers, clients), simples);
    forall g {
      TripleFind(servers, clients, simples, g);
    }
  }

  lemma TripleFind<P>(s: seq<Item<P>>, t: seq<Item<P>>, u: seq<Item<P>>, g: Guid)
    ensures Find(s + t + u, g).Just? <==> Find(s, g).Just? || Find(t, g).Just? || Find(u, g).Just?
  {
    FindConcat(s + t, u, g);
    FindConcat(s, t, g);
  }
}
