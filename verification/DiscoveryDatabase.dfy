/** The database object: its methods change the image in place, one step of the state machine each. */
module DiscoveryDatabase {
  import opened Guids
  import opened SortedSets
  import opened DiscoveryItems
  import opened DatabaseSteps
  import opened DatabaseEffects
  import opened DatabaseModel

  /** The endpoints of one kind over all participants of a database. */
  function CountAll(items: seq<Participant>, kind: Kind): nat {
    if items == [] then 0
    else CountAll(items[..|items| - 1], kind) + |Endpoints(items[|items| - 1].info, kind)|
  }

  /** The records about one participant, in the order of the databases. */
  function Records(dbs: seq<Database>, ptid: Guid): seq<ParticipantInfo> {
    if dbs == [] then []
    else
      Records(dbs[..|dbs| - 1], ptid) +
      match Find(dbs[|dbs| - 1].info.items, ptid)
      case Just(e) => [e]
      case Nothing => []
  }

  /** Writing back through an iterator into the accessed database is PutItems. */
  lemma WriteBack(dbs: seq<Database>, sp: Guid, src: string, items: seq<Participant>)
    requires Sorted(dbs)
    ensures var all := Emplace(dbs, Item(sp, DatabaseInfo(src, [])));
            var d := LowerBound(dbs, sp);
            && all[d].info.items == ItemsOf(dbs, sp)
            && Update(all, d, all[d].info.(items := items)) == PutItems(dbs, sp, src, items)
            && PutItems(dbs, sp, src, ItemsOf(dbs, sp)) == all
  {
    HitIffFound(dbs, sp);
  }

  lemma FoundDatabase(dbs: seq<Database>, sp: Guid)
    requires Sorted(dbs)
    ensures HitAt(dbs, LowerBound(dbs, sp), sp) <==> Find(dbs, sp).Just?
    ensures HitAt(dbs, LowerBound(dbs, sp), sp) ==> dbs[LowerBound(dbs, sp)].info.items == ItemsOf(dbs, sp)
  {
    HitIffFound(dbs, sp);
  }

  class DiscoveryItemDatabase {
    var image: seq<Database>

    constructor ()
      ensures image == [] && Valid(image)
    {
      image := [];
    }

    /** The database of a spokesman, created when it is not there. */
    method AccessSnapshot(id: Guid, name: string) returns (d: nat)
      requires Sorted(image)
      modifies this
      ensures image == Emplace(old(image), Item(id, DatabaseInfo(name, [])))
      ensures d == LowerBound(old(image), id) && HitAt(image, d, id)
    {
      d := LowerBound(image, id);
      if !HitAt(image, d, id) {
        image := image[..d] + [Item(id, DatabaseInfo(name, []))] + image[d..];
      }
    }

    /** consistent is the assertion that closes the method in debug builds. */
    method AddParticipant(spokesman: Guid, srcName: string, ptid: Guid, name: string, server: bool,
                          stamp: int, now: int) returns (ok: bool, consistent: bool)
      requires Valid(image)
      modifies this
      ensures Valid(image)
      ensures (image, ok) ==
        Step(old(image), Op.AddParticipant(spokesman, srcName, ptid, name, server, stamp, now))
      ensures consistent <==>
        match Entry(old(image), spokesman, ptid)
        case Just(e) => e.isAlive ==> e.isServer == server
        case Nothing => true
    {
      ghost var op := Op.AddParticipant(spokesman, srcName, ptid, name, server, stamp, now);
      ghost var before := image;
      StepKeepsValid(image, op);
      var d := AccessSnapshot(spokesman, srcName);
      WriteBack(before, spokesman, srcName, AddItem(ItemsOf(before, spokesman), op));
      FoundSorted(before, spokesman);
      HitIffFound(ItemsOf(before, spokesman), ptid);
      var items := image[d].info.items;
      var it := LowerBound(items, ptid);
      if !HitAt(items, it, ptid) {
        items := items[..it] + [Item(ptid, ParticipantInfo(server, true, name, now, [], []))] + items[it..];
      }
      if !items[it].info.isAlive {
        items := Update(items, it, items[it].info.(
          isAlive := true, name := name, isServer := server, discovered := stamp));
      }
      image := Update(image, d, image[d].info.(items := items));
      return true, items[it].info.isServer == server;
    }

    method RemoveDatabase(deceased: Guid) returns (ok: bool)
      requires Valid(image)
      modifies this
      ensures Valid(image) && (image, ok) == Step(old(image), Op.RemoveDatabase(deceased))
    {
      StepKeepsValid(image, Op.RemoveDatabase(deceased));
      var d := LowerBound(image, deceased);
      ok := HitAt(image, d, deceased);
      if ok {
        image := EraseAt(image, d);
      }
    }

    method RemoveParticipant(spokesman: Guid, ptid: Guid) returns (ok: bool)
      requires Valid(image)
      modifies this
      ensures Valid(image) && (image, ok) == Step(old(image), Op.RemoveParticipant(spokesman, ptid))
    {
      ghost var before := image;
      ghost var after := Step(before, Op.RemoveParticipant(spokesman, ptid)).0;
      StepKeepsValid(image, Op.RemoveParticipant(spokesman, ptid));
      var d := AccessSnapshot(spokesman, "");
      WriteBack(before, spokesman, "", ItemsOf(after, spokesman));
      WriteBack(before, spokesman, "", ItemsOf(before, spokesman));
      var items := image[d].info.items;
      var it := LowerBound(items, ptid);
      if !HitAt(items, it, ptid) {
        return false;
      }
      WriteBack(before, spokesman, "", DropItem(items, it));
      if items[it].info.CountEndpoints() > 0 {
        items := Update(items, it, items[it].info.(isAlive := false));
      } else {
        items := EraseAt(items, it);
      }
      image := Update(image, d, image[d].info.(items := items));
      return true;
    }

    /** AddDataReader and AddDataWriter; consistent stands for the two closing assertions. */
    method AddEndpoint(kind: Kind, spokesman: Guid, srcName: string, ptid: Guid, id: Guid,
                       typeName: string, topicName: string, stamp: int, now: int)
      returns (ok: bool, consistent: bool)
      requires Valid(image)
      modifies this
      ensures Valid(image)
      ensures (image, ok) ==
        Step(old(image), Op.AddEndpoint(kind, spokesman, srcName, ptid, id, typeName, topicName, stamp, now))
      ensures consistent <==>
        var op := Op.AddEndpoint(kind, spokesman, srcName, ptid, id, typeName, topicName, stamp, now);
        match Entry(old(image), spokesman, Credited(ItemsOf(old(image), spokesman), op))
        case Nothing => true
        case Just(e) =>
          match Find(Endpoints(e, kind), id)
          case Nothing => true
          case Just(x) => x.typeName == typeName && x.topicName == topicName
    {
      ghost var op := Op.AddEndpoint(kind, spokesman, srcName, ptid, id, typeName, topicName, stamp, now);
      ghost var before := image;
      StepKeepsValid(image, op);
      var d := AccessSnapshot(spokesman, srcName);
      WriteBack(before, spokesman, srcName, AddEndpointItem(ItemsOf(before, spokesman), op));
      FoundSorted(before, spokesman);
      var items := image[d].info.items;
      var it := LowerBound(items, ptid);
      HitIffFound(items, ptid);
      if it == |items| || ptid == spokesman {
        items := Emplace(items, Item(ptid, ParticipantInfo(false, true, "", now, [], [])));
        items := Update(items, it, items[it].info.(isAlive := ptid == spokesman));
      } else {
        FindAt(items, it);
      }
      var info := items[it].info;
      var cont := Endpoints(info, kind);
      var sit := LowerBound(cont, id);
      HitIffFound(cont, id);
      if !HitAt(cont, sit, id) {
        cont := cont[..sit] + [Item(id, EndpointInfo(typeName, topicName, stamp, 0, 0))] + cont[sit..];
      }
      items := Update(items, it, WithEndpoints(info, kind, cont));
      image := Update(image, d, image[d].info.(items := items));
      return true, cont[sit].info.typeName == typeName && cont[sit].info.topicName == topicName;
    }

    method RemoveEndpoint(kind: Kind, spokesman: Guid, ptid: Guid, id: Guid) returns (ok: bool)
      requires Valid(image)
      modifies this
      ensures Valid(image) && (image, ok) == Step(old(image), Op.RemoveEndpoint(kind, spokesman, ptid, id))
    {
      StepKeepsValid(image, Op.RemoveEndpoint(kind, spokesman, ptid, id));
      var d := LowerBound(image, spokesman);
      FoundDatabase(image, spokesman);
      if !HitAt(image, d, spokesman) {
        return false;
      }
      var items := image[d].info.items;
      var it := LowerBound(items, ptid);
      if !HitAt(items, it, ptid) {
        return false;
      }
      var cont := Endpoints(items[it].info, kind);
      var sit := LowerBound(cont, id);
      if !HitAt(cont, sit, id) {
        return false;
      }
      WriteBack(image, spokesman, "", DropEndpoint(items, it, kind, sit));
      var info := WithEndpoints(items[it].info, kind, EraseAt(cont, sit));
      if info.CountEndpoints() == 0 && !info.isAlive {
        items := EraseAt(items, it);
      } else {
        items := Update(items, it, info);
      }
      image := Update(image, d, image[d].info.(items := items));
      return true;
    }

    method UpdateSubLiveliness(subs: Guid, aliveCount: int, notAliveCount: int)
      requires Valid(image)
      modifies this
      ensures Valid(image)
      ensures image == Step(old(image), Op.UpdateLiveliness(subs, aliveCount, notAliveCount)).0
    {
      StepKeepsValid(image, Op.UpdateLiveliness(subs, aliveCount, notAliveCount));
      var pguid := subs.(entity := PARTICIPANT_ENTITY);
      var d := LowerBound(image, pguid);
      FoundDatabase(image, pguid);
      if !HitAt(image, d, pguid) {
        return;
      }
      var items := image[d].info.items;
      var it := LowerBound(items, pguid);
      if !HitAt(items, it, pguid) {
        return;
      }
      var ss := items[it].info.readers;
      var sit := LowerBound(ss, subs);
      if !HitAt(ss, sit, subs) {
        return;
      }
      ss := Update(ss, sit, ss[sit].info.(aliveCount := aliveCount, notAliveCount := notAliveCount));
      items := Update(items, it, items[it].info.(readers := ss));
      WriteBack(image, pguid, "", items);
      image := Update(image, d, image[d].info.(items := items));
    }

    method FindParticipant(ptid: Guid) returns (v: seq<ParticipantInfo>)
      requires Valid(image)
      ensures v == Records(image, ptid)
    {
      v := [];
      for pit := 0 to |image|
        invariant v == Records(image[..pit], ptid)
      {
        assert image[..pit + 1][..pit] == image[..pit];
        var items := image[pit].info.items;
        var it := LowerBound(items, ptid);
        HitIffFound(items, ptid);
        if HitAt(items, it, ptid) {
          v := v + [items[it].info];
        }
      }
      assert image[..|image|] == image;
    }

    method CountParticipants(spokesman: Guid) returns (n: nat)
      requires Valid(image)
      ensures n == |ItemsOf(image, spokesman)|
    {
      var d := LowerBound(image, spokesman);
      FoundDatabase(image, spokesman);
      return if HitAt(image, d, spokesman) then |image[d].info.items| else 0;
    }

    /** CountDataReaders and CountDataWriters of a spokesman. */
    method CountEndpoints(kind: Kind, spokesman: Guid) returns (n: nat)
      requires Valid(image)
      ensures n == CountAll(ItemsOf(image, spokesman), kind)
    {
      n := 0;
      var d := LowerBound(image, spokesman);
      FoundDatabase(image, spokesman);
      if HitAt(image, d, spokesman) {
        var items := image[d].info.items;
        for i := 0 to |items|
          invariant n == CountAll(items[..i], kind)
        {
          assert items[..i + 1][..i] == items[..i];
          n := n + |Endpoints(items[i].info, kind)|;
        }
        assert items[..|items|] == items;
      }
    }

    /** CountDataReaders and CountDataWriters of one participant in the eyes of a spokesman. */
    method CountEndpointsOf(kind: Kind, spokesman: Guid, ptid: Guid) returns (n: nat)
      requires Valid(image)
      ensures n == match Entry(image, spokesman, ptid)
                   case Just(e) => |Endpoints(e, kind)|
                   case Nothing => 0
    {
      var d := LowerBound(image, spokesman);
      FoundDatabase(image, spokesman);
      if !HitAt(image, d, spokesman) {
        return 0;
      }
      var items := image[d].info.items;
      var it := LowerBound(items, ptid);
      HitIffFound(items, ptid);
      return if HitAt(items, it, ptid) then |Endpoints(items[it].info, kind)| else 0;
    }
  }
}
