/** The discovery records: endpoints, participants, and the database of one spokesman. */
module DiscoveryItems {
  import opened SortedSets

  /** A data writer or data reader. Writers never use the two liveliness counters. */
  datatype EndpointInfo = EndpointInfo(
    typeName: string, topicName: string, discovered: int, aliveCount: int, notAliveCount: int)

  type Endpoint = Item<EndpointInfo>

  datatype ParticipantInfo = ParticipantInfo(
    isServer: bool, isAlive: bool, name: string, discovered: int,
    writers: seq<Endpoint>, readers: seq<Endpoint>)
  {
    function CountEndpoints(): nat {
      |writers| + |readers|
    }
  }

  type Participant = Item<ParticipantInfo>

  /** What one spokesman participant has discovered. */
  datatype DatabaseInfo = DatabaseInfo(name: string, items: seq<Participant>)

  type Database = Item<DatabaseInfo>

  /** Endpoints compare by GUID, type and topic; times and liveliness do not matter. */
  predicate SameEndpoint(e: Endpoint, f: Endpoint) {
    e.guid == f.guid && e.info.typeName == f.info.typeName && e.info.topicName == f.info.topicName
  }

  predicate SameEndpoints(s: seq<Endpoint>, t: seq<Endpoint>) {
    |s| == |t| && forall i :: 0 <= i < |s| ==> SameEndpoint(s[i], t[i])
  }

  /** Participants compare by their endpoints; the GUIDs are compared separately. */
  predicate SameInfo(p: ParticipantInfo, q: ParticipantInfo) {
    SameEndpoints(p.writers, q.writers) && SameEndpoints(p.readers, q.readers)
  }

  /** The participants an iteration that ignores zombies visits. */
  function Alive(items: seq<Participant>): seq<Participant> {
    if items == [] then [] else (if items[0].info.isAlive then [items[0]] else []) + Alive(items[1..])
  }

  lemma {:induction false} AliveSorted(items: seq<Participant>)
    requires Sorted(items)
    ensures Sorted(Alive(items))
    ensures forall p :: p in Alive(items) <==> p in items && p.info.isAlive
  {
    if items != [] {
      AliveSorted(items[1..]);
      assert forall p :: p in items <==> p == items[0] || p in items[1..];
    }
  }

  /** The databases of all spokesmen at one moment. Times count nanoseconds of the steady clock. */
  datatype Snapshot = Snapshot(
    processStartup: int, time: int, lastPdpCallback: int, lastEdpCallback: int,
    ifSomeone: bool, showLiveliness: bool, description: string, dbs: seq<Database>)

  ghost predicate SortedParticipant(p: ParticipantInfo) {
    Sorted(p.writers) && Sorted(p.readers)
  }

  ghost predicate SortedItems(items: seq<Participant>) {
    Sorted(items) && forall i :: 0 <= i < |items| ==> SortedParticipant(items[i].info)
  }

  /** All nested sets are sets: strictly sorted, hence without duplicates. */
  ghost predicate SortedImage(dbs: seq<Database>) {
    Sorted(dbs) && forall k :: 0 <= k < |dbs| ==> SortedItems(dbs[k].info.items)
  }
}
