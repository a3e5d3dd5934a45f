/** What a snapshot keeps and loses when it is saved and loaded again. */
module SnapshotReload {
  import opened Guids
  import opened SortedSets
  import opened DiscoveryItems
  import opened Comparison
  import opened SnapshotCheck
  import opened SnapshotXml

  // ---------- The reloaded snapshot ----------

  /**
   * An endpoint as it comes back. The count of alive writers survives where liveliness is shown;
   * the count of writers that are not alive never does.
   */
  function MovedEndpoint(e: Endpoint, shown: bool, save: int -> int, load: int -> int): Endpoint {
    Item(e.guid, EndpointInfo(e.info.typeName, e.info.topicName,
                              load(save(e.info.discovered)),
                              if shown then e.info.aliveCount else 0, 0))
  }

  function MovedWriters(es: seq<Endpoint>, save: int -> int, load: int -> int): (r: seq<Endpoint>)
    ensures |r| == |es|
    ensures forall i :: 0 <= i < |es| ==> r[i] == MovedEndpoint(es[i], false, save, load)
  {
    seq(|es|, i requires 0 <= i < |es| => MovedEndpoint(es[i], false, save, load))
  }

  function MovedReaders(es: seq<Endpoint>, owner: Guid, show: bool, save: int -> int, load: int -> int)
    : (r: seq<Endpoint>)
    ensures |r| == |es|
    ensures forall i :: 0 <= i < |es| ==>
              r[i] == MovedEndpoint(es[i], show && es[i].guid.prefix == owner.prefix, save, load)
  {
    seq(|es|, i requires 0 <= i < |es| =>
      MovedEndpoint(es[i], show && es[i].guid.prefix == owner.prefix, save, load))
  }

  function MovedParticipant(p: Participant, owner: Guid, show: bool, save: int -> int, load: int -> int): Participant {
    Item(p.guid, ParticipantInfo(
      p.info.isServer, p.info.isAlive, p.info.name, load(save(p.info.discovered)),
      MovedWriters(p.info.writers, save, load),
      MovedReaders(p.info.readers, owner, show, save, load)))
  }

  function MovedItems(items: seq<Participant>, owner: Guid, show: bool, save: int -> int, load: int -> int)
    : (r: seq<Participant>)
    ensures |r| == |items|
    ensures forall i :: 0 <= i < |items| ==>
              r[i] == MovedParticipant(items[i], owner, show, save, load)
  {
    seq(|items|, i requires 0 <= i < |items| => MovedParticipant(items[i], owner, show, save, load))
  }

  /** The database comes back without its name. */
  function MovedDatabase(d: Database, show: bool, save: int -> int, load: int -> int): Database {
    Item(d.guid, DatabaseInfo("", MovedItems(d.info.items, d.guid, show, save, load)))
  }

  function MovedDatabases(dbs: seq<Database>, show: bool, save: int -> int, load: int -> int): (r: seq<Database>)
    ensures |r| == |dbs|
    ensures forall i :: 0 <= i < |dbs| ==> r[i] == MovedDatabase(dbs[i], show, save, load)
  {
    seq(|dbs|, i requires 0 <= i < |dbs| => MovedDatabase(dbs[i], show, save, load))
  }

  predicate OwnReader(es: seq<Endpoint>, owner: Guid) {
    exists j :: 0 <= j < |es| && es[j].guid.prefix == owner.prefix
  }

  predicate OwnReaderInItems(items: seq<Participant>, owner: Guid) {
    exists i :: 0 <= i < |items| && OwnReader(items[i].info.readers, owner)
  }

  /** Some database holds a reader of its own participant's prefix. */
  predicate HasOwnReader(dbs: seq<Database>) {
    exists k :: 0 <= k < |dbs| && OwnReaderInItems(dbs[k].info.items, dbs[k].guid)
  }

  /** The absolute time survives in milliseconds of the system clock; the steady clocks need not agree. */
  function ReloadedTime(s: Snapshot, saver: Clocks, loader: Clocks): int {
    Ns(Ms(saver.system + (s.time - saver.steady))) - loader.system + loader.steady
  }

  /**
   * What one process saving a snapshot and another one loading it make of it: relative times lose
   * their fractions of milliseconds.
   */
  function Reloaded(s: Snapshot, saver: Clocks, loader: Clocks): Snapshot {
    var save := SaveTime(s.processStartup);
    var startup := ReloadedTime(s, saver, loader) - Ns(save(s.time));
    var load := LoadTime(startup);
    Snapshot(startup, ReloadedTime(s, saver, loader), load(save(s.lastPdpCallback)), load(save(s.lastEdpCallback)),
             s.ifSomeone, s.showLiveliness && HasOwnReader(s.dbs), s.description,
             MovedDatabases(s.dbs, s.showLiveliness, save, load))
  }

  // ---------- Children are found by their tags ----------

  lemma {:induction false} ByTagConcat(es: seq<Element>, fs: seq<Element>, tag: Tag)
    ensures ByTag(es + fs, tag) == ByTag(es, tag) + ByTag(fs, tag)
  {
    if fs == [] {
      assert es + fs == es;
    } else {
      var n := |fs| - 1;
      assert (es + fs)[..|es| + n] == es + fs[..n];
      ByTagConcat(es, fs[..n], tag);
    }
  }

  lemma {:induction false} ByTagUniform(es: seq<Element>, own: Tag, tag: Tag)
    requires forall i :: 0 <= i < |es| ==> es[i].tag == own
    ensures ByTag(es, tag) == if tag == own then es else []
  {
    if es != [] {
      ByTagUniform(es[..|es| - 1], own, tag);
    }
  }

  // ---------- Each level is read back ----------

  lemma EndpointReadBack(e: Endpoint, tag: Tag, shown: bool, save: int -> int, load: int -> int)
    ensures ReadEndpoint(EndpointXml(e, tag, save, shown), load) ==
            MovedEndpoint(e, shown, save, load)
  {
    var el := EndpointXml(e, tag, save, shown);
    assert ReadGuid(el) == e.guid;
    assert el.TextAttr(Type) == e.info.typeName && el.TextAttr(Topic) == e.info.topicName;
    assert el.IntAttr(DiscoveredTimestamp) == save(e.info.discovered);
  }

  lemma ReadersReadBack(es: seq<Endpoint>, owner: Guid, show: bool, save: int -> int, load: int -> int)
    requires Sorted(es)
    ensures Inserted(ReadEndpoints(ReadersXml(es, owner, save, show), load)) ==
            MovedReaders(es, owner, show, save, load)
  {
    var subs := ReadersXml(es, owner, save, show);
    var moved := MovedReaders(es, owner, show, save, load);
    forall i | 0 <= i < |subs| ensures ReadEndpoint(subs[i], load) == moved[i] {
      EndpointReadBack(es[i], SubscriberTag, show && es[i].guid.prefix == owner.prefix, save, load);
    }
    assert ReadEndpoints(subs, load) == moved;
    InsertedInOrder(moved);
  }

  lemma WritersReadBack(es: seq<Endpoint>, save: int -> int, load: int -> int)
    requires Sorted(es)
    ensures Inserted(ReadEndpoints(WritersXml(es, save), load)) == MovedWriters(es, save, load)
  {
    var pubs := WritersXml(es, save);
    var moved := MovedWriters(es, save, load);
    forall i | 0 <= i < |pubs| ensures ReadEndpoint(pubs[i], load) == moved[i] {
      EndpointReadBack(es[i], PublisherTag, false, save, load);
    }
    assert ReadEndpoints(pubs, load) == moved;
    InsertedInOrder(moved);
  }

  lemma ChildrenOfParticipant(p: Participant, owner: Guid, show: bool, save: int -> int)
    ensures var el := ParticipantXml(p, owner, save, show);
            && ByTag(el.children, SubscriberTag) == ReadersXml(p.info.readers, owner, save, show)
            && ByTag(el.children, PublisherTag) == WritersXml(p.info.writers, save)
  {
    var subs, pubs := ReadersXml(p.info.readers, owner, save, show), WritersXml(p.info.writers, save);
    ByTagConcat(subs, pubs, SubscriberTag);
    ByTagConcat(subs, pubs, PublisherTag);
    ByTagUniform(subs, SubscriberTag, SubscriberTag);
    ByTagUniform(subs, SubscriberTag, PublisherTag);
    ByTagUniform(pubs, PublisherTag, SubscriberTag);
    ByTagUniform(pubs, PublisherTag, PublisherTag);
  }

  lemma ParticipantAttributesReadBack(p: Participant, owner: Guid, show: bool, save: int -> int)
    ensures var el := ParticipantXml(p, owner, save, show);
            && ReadGuid(el) == p.guid
            && el.BoolAttr(Server, false) == p.info.isServer && el.BoolAttr(IsAlive, true) == p.info.isAlive
            && el.TextAttr(Name) == p.info.name
            && el.IntAttr(DiscoveredTimestamp) == save(p.info.discovered)
  {
  }

  lemma ParticipantReadBack(p: Participant, owner: Guid, show: bool, save: int -> int, load: int -> int)
    requires SortedParticipant(p.info)
    ensures ReadParticipant(ParticipantXml(p, owner, save, show), load) ==
            MovedParticipant(p, owner, show, save, load)
  {
    ChildrenOfParticipant(p, owner, show, save);
    ReadersReadBack(p.info.readers, owner, show, save, load);
    WritersReadBack(p.info.writers, save, load);
    ParticipantAttributesReadBack(p, owner, show, save);
    var el := ParticipantXml(p, owner, save, show);
    assert EndpointsIn(el, PublisherTag, load) ==
      MovedWriters(p.info.writers, save, load);
    assert EndpointsIn(el, SubscriberTag, load) ==
      MovedReaders(p.info.readers, owner, show, save, load);
  }

  lemma ItemsReadBack(d: Database, show: bool, save: int -> int, load: int -> int)
    requires SortedItems(d.info.items)
    ensures ItemsIn(DatabaseXml(d, save, show), load) == MovedItems(d.info.items, d.guid, show, save, load)
  {
    hide ByTag, Inserted, ReadParticipant;
    var els := DatabaseXml(d, save, show).children;
    var moved := MovedItems(d.info.items, d.guid, show, save, load);
    ByTagUniform(els, PtdiTag, PtdiTag);
    forall i | 0 <= i < |els| ensures ReadParticipant(els[i], load) == moved[i] {
      ParticipantReadBack(d.info.items[i], d.guid, show, save, load);
    }
    assert ReadItems(els, load) == moved;
    InsertedInOrder(moved);
  }

  lemma DatabaseReadBack(d: Database, show: bool, save: int -> int, load: int -> int)
    requires SortedItems(d.info.items)
    ensures ReadDatabase(DatabaseXml(d, save, show), load) == MovedDatabase(d, show, save, load)
  {
    ItemsReadBack(d, show, save, load);
    assert ReadGuid(DatabaseXml(d, save, show)) == d.guid;
  }

  lemma ChildrenOfSnapshot(s: Snapshot, clocks: Clocks)
    ensures ByTag(ToXml(s, clocks).children, DescriptionTag) ==
            [Element(DescriptionTag, map[], s.description, [])]
    ensures ByTag(ToXml(s, clocks).children, PtdbTag) ==
            seq(|s.dbs|, i requires 0 <= i < |s.dbs| =>
              DatabaseXml(s.dbs[i], SaveTime(s.processStartup), s.showLiveliness))
  {
    hide ByTag, SaveTime;
    var d := [Element(DescriptionTag, map[], s.description, [])];
    var els := seq(|s.dbs|, i requires 0 <= i < |s.dbs| =>
      DatabaseXml(s.dbs[i], SaveTime(s.processStartup), s.showLiveliness));
    ByTagConcat(d, els, DescriptionTag);
    ByTagConcat(d, els, PtdbTag);
    ByTagUniform(d, DescriptionTag, DescriptionTag);
    ByTagUniform(d, DescriptionTag, PtdbTag);
    ByTagUniform(els, PtdbTag, DescriptionTag);
    ByTagUniform(els, PtdbTag, PtdbTag);
  }

  // ---------- The liveliness flag ----------

  lemma {:induction false} ReaderShows(els: seq<Element>)
    ensures AnyReaderShows(els) <==> exists i :: 0 <= i < |els| && ShowsLiveliness(els[i])
  {
    if els != [] {
      ReaderShows(els[..|els| - 1]);
    }
  }

  lemma {:induction false} ItemShows(els: seq<Element>)
    ensures AnyItemShows(els) <==>
            exists i :: 0 <= i < |els| && AnyReaderShows(ByTag(els[i].children, SubscriberTag))
  {
    if els != [] {
      ItemShows(els[..|els| - 1]);
    }
  }

  lemma {:induction false} DatabaseShows(els: seq<Element>)
    ensures AnyDatabaseShows(els) <==>
            exists i :: 0 <= i < |els| && AnyItemShows(ByTag(els[i].children, PtdiTag))
  {
    if els != [] {
      DatabaseShows(els[..|els| - 1]);
    }
  }

  lemma ReadersShow(es: seq<Endpoint>, owner: Guid, save: int -> int, show: bool)
    ensures AnyReaderShows(ReadersXml(es, owner, save, show)) <==> show && OwnReader(es, owner)
  {
    ReaderShows(ReadersXml(es, owner, save, show));
    forall i | 0 <= i < |es| ensures ShowsLiveliness(ReadersXml(es, owner, save, show)[i]) <==>
        show && es[i].guid.prefix == owner.prefix {
    }
  }

  lemma ItemsShow(d: Database, save: int -> int, show: bool)
    ensures AnyItemShows(ByTag(DatabaseXml(d, save, show).children, PtdiTag)) <==>
            show && OwnReaderInItems(d.info.items, d.guid)
  {
    var els := DatabaseXml(d, save, show).children;
    ByTagUniform(els, PtdiTag, PtdiTag);
    ItemShows(els);
    forall i | 0 <= i < |els| ensures AnyReaderShows(ByTag(els[i].children, SubscriberTag)) <==>
        show && OwnReader(d.info.items[i].info.readers, d.guid) {
      ChildrenOfParticipant(d.info.items[i], d.guid, show, save);
      ReadersShow(d.info.items[i].info.readers, d.guid, save, show);
    }
  }

  lemma SnapshotShows(s: Snapshot, clocks: Clocks)
    ensures AnyDatabaseShows(ByTag(ToXml(s, clocks).children, PtdbTag)) <==>
            s.showLiveliness && HasOwnReader(s.dbs)
  {
    ChildrenOfSnapshot(s, clocks);
    var els := ByTag(ToXml(s, clocks).children, PtdbTag);
    DatabaseShows(els);
    forall i | 0 <= i < |els| ensures AnyItemShows(ByTag(els[i].children, PtdiTag)) <==>
        s.showLiveliness && OwnReaderInItems(s.dbs[i].info.items, s.dbs[i].guid) {
      ItemsShow(s.dbs[i], SaveTime(s.processStartup), s.showLiveliness);
    }
  }

  // ---------- The round trip ----------

  lemma DatabasesReadBack(s: Snapshot, clocks: Clocks, load: int -> int)
    requires SortedImage(s.dbs)
    ensures DatabasesIn(ToXml(s, clocks), load) ==
            MovedDatabases(s.dbs, s.showLiveliness, SaveTime(s.processStartup), load)
  {
    var save := SaveTime(s.processStartup);
    ChildrenOfSnapshot(s, clocks);
    var els := ByTag(ToXml(s, clocks).children, PtdbTag);
    var moved := MovedDatabases(s.dbs, s.showLiveliness, save, load);
    forall i | 0 <= i < |els| ensures ReadDatabase(els[i], load) == moved[i] {
      DatabaseReadBack(s.dbs[i], s.showLiveliness, save, load);
    }
    assert ReadDatabases(els, load) == moved;
    InsertedInOrder(moved);
  }

  lemma HeaderReadBack(s: Snapshot, saver: Clocks, loader: Clocks)
    ensures ReadHeader(ToXml(s, saver), loader) == Reloaded(s, saver, loader).(dbs := [], showLiveliness := false)
  {
    hide ByTag, DatabaseXml, MovedDatabases;
    ChildrenOfSnapshot(s, saver);
    var root := ToXml(s, saver);
    var save := SaveTime(s.processStartup);
    assert root.IntAttr(Timestamp) == Ms(saver.system + (s.time - saver.steady));
    assert root.IntAttr(ProcessTime) == save(s.time);
    assert root.IntAttr(LastPdp) == save(s.lastPdpCallback) && root.IntAttr(LastEdp) == save(s.lastEdpCallback);
  }

  // ---------- What has been saved can be read ----------

  lemma ParticipantIsReadable(p: Participant, owner: Guid, show: bool, save: int -> int)
    ensures ReadableParticipant(ParticipantXml(p, owner, save, show))
  {
    ChildrenOfParticipant(p, owner, show, save);
  }

  lemma DatabaseIsReadable(d: Database, show: bool, save: int -> int)
    ensures ReadableDatabase(DatabaseXml(d, save, show))
  {
    var els := DatabaseXml(d, save, show).children;
    ByTagUniform(els, PtdiTag, PtdiTag);
    hide ReadableParticipant;
    forall i | 0 <= i < |els| ensures ReadableParticipant(els[i]) {
      ParticipantIsReadable(d.info.items[i], d.guid, show, save);
    }
  }

  lemma SavedIsReadable(s: Snapshot, clocks: Clocks)
    ensures Readable(ToXml(s, clocks)) <==> s.description != ""
  {
    ChildrenOfSnapshot(s, clocks);
    hide ReadableDatabase, ToXml;
    var els := ByTag(ToXml(s, clocks).children, PtdbTag);
    forall i | 0 <= i < |els| ensures ReadableDatabase(els[i]) {
      DatabaseIsReadable(s.dbs[i], s.showLiveliness, SaveTime(s.processStartup));
    }
  }

  /** A saved snapshot can be loaded if and only if it has a description; this is what comes back. */
  lemma ReloadYields(s: Snapshot, saver: Clocks, loader: Clocks)
    requires SortedImage(s.dbs)
    ensures Readable(ToXml(s, saver)) <==> s.description != ""
    ensures s.description != "" ==> ReadSnapshot(ToXml(s, saver), loader) == Reloaded(s, saver, loader)
  {
    hide ToXml, ReadHeader, DatabasesIn, MovedDatabases, AnyDatabaseShows, HasOwnReader, SaveTime, SortedImage,
         Readable;
    SavedIsReadable(s, saver);
    SnapshotShows(s, saver);
    HeaderReadBack(s, saver, loader);
    DatabasesReadBack(s, saver, LoadTime(Reloaded(s, saver, loader).processStartup));
  }

  // ---------- The verdict survives ----------

  predicate Alike(p: Participant, q: Participant) {
    p.guid == q.guid && p.info.isAlive == q.info.isAlive && SameInfo(p.info, q.info)
  }

  predicate AllAlike(x: seq<Participant>, y: seq<Participant>) {
    |x| == |y| && forall i :: 0 <= i < |x| ==> Alike(x[i], y[i])
  }

  lemma {:induction false} AliveAlike(x: seq<Participant>, y: seq<Participant>)
    requires AllAlike(x, y)
    ensures AllAlike(Alive(x), Alive(y))
  {
    if x != [] {
      AliveAlike(x[1..], y[1..]);
    }
  }

  lemma SameInfoAlike(p: ParticipantInfo, q: ParticipantInfo, p': ParticipantInfo, q': ParticipantInfo)
    requires SameInfo(p, p') && SameInfo(q, q')
    ensures SameInfo(p, q) <==> SameInfo(p', q')
  {
  }

  lemma {:induction false} MergeAlike(x: seq<Participant>, y: seq<Participant>,
      u: seq<Participant>, v: seq<Participant>, a: Guid, b: Guid, sameSize: bool)
    requires AllAlike(x, u) && AllAlike(y, v)
    ensures Merge(x, y, a, b, sameSize) == Merge(u, v, a, b, sameSize)
    decreases |x| + |y|
  {
    if x != [] && y != [] {
      if x[0].guid == y[0].guid {
        SameInfoAlike(x[0].info, y[0].info, u[0].info, v[0].info);
        MergeAlike(x[1..], y[1..], u[1..], v[1..], a, b, sameSize);
      } else {
        var right := y[0].guid == a;
        var left := x[0].guid == b && (sameSize || !right);
        if left || right {
          MergeAlike(if left then x[1..] else x, if right then y[1..] else y,
                     if left then u[1..] else u, if right then v[1..] else v, a, b, sameSize);
        }
      }
    }
  }

  lemma MovedAlike(d: Database, show: bool, save: int -> int, load: int -> int)
    ensures AllAlike(d.info.items, MovedDatabase(d, show, save, load).info.items)
  {
  }

  lemma SameAlike(c: Database, d: Database, c': Database, d': Database)
    requires c.guid == c'.guid && AllAlike(c.info.items, c'.info.items)
    requires d.guid == d'.guid && AllAlike(d.info.items, d'.info.items)
    ensures Same(c', d') == Same(c, d)
  {
    AliveAlike(c.info.items, c'.info.items);
    AliveAlike(d.info.items, d'.info.items);
    var x, y := Alive(c.info.items), Alive(d.info.items);
    var u, v := Alive(c'.info.items), Alive(d'.info.items);
    if Less(d.guid, c.guid) {
      MergeAlike(y, x, v, u, d.guid, c.guid, |x| == |y|);
    } else {
      MergeAlike(x, y, u, v, c.guid, d.guid, |y| == |x|);
    }
  }

  lemma MovedNeighbours(dbs: seq<Database>, show: bool, save: int -> int, load: int -> int)
    ensures NeighboursSame(MovedDatabases(dbs, show, save, load)) <==> NeighboursSame(dbs)
  {
    var moved := MovedDatabases(dbs, show, save, load);
    forall k | 0 <= k < |dbs| - 1 ensures Same(moved[k], moved[k + 1]) == Same(dbs[k], dbs[k + 1]) {
      MovedAlike(dbs[k], show, save, load);
      MovedAlike(dbs[k + 1], show, save, load);
      SameAlike(dbs[k], dbs[k + 1], moved[k], moved[k + 1]);
    }
  }

  lemma MovedVerdict(s: Snapshot, t: Snapshot, save: int -> int, load: int -> int)
    requires t.dbs == MovedDatabases(s.dbs, s.showLiveliness, save, load) && t.ifSomeone == s.ifSomeone
    ensures AllKnow(t) <==> AllKnow(s)
  {
    MovedNeighbours(s.dbs, s.showLiveliness, save, load);
    assert s.dbs != [] ==> |t.dbs[0].info.items| == |s.dbs[0].info.items|;
    assert SomeoneTest(t) <==> SomeoneTest(s);
  }

  /** Reloading changes nothing the consistency check looks at. */
  lemma ReloadKeepsVerdict(s: Snapshot, saver: Clocks, loader: Clocks)
    requires SortedImage(s.dbs) && s.description != ""
    ensures Readable(ToXml(s, saver))
    ensures AllKnow(ReadSnapshot(ToXml(s, saver), loader)) <==> AllKnow(s)
  {
    hide AllKnow, ToXml, Readable, ReadSnapshot, SortedImage;
    ReloadYields(s, saver, loader);
    var t := Reloaded(s, saver, loader);
    MovedVerdict(s, t, SaveTime(s.processStartup), LoadTime(t.processStartup));
  }

  // ---------- Saving again ----------

  lemma WholeMilliseconds(ms: int)
    ensures Ms(Ns(ms)) == ms
  {
  }

  /** What the first reload forgets: the names of the databases and the writers that are not alive. */
  function WithoutNotAlive(e: Endpoint): Endpoint {
    Item(e.guid, e.info.(notAliveCount := 0))
  }

  function ForgottenEndpoints(es: seq<Endpoint>): (r: seq<Endpoint>)
    ensures |r| == |es| && forall i :: 0 <= i < |es| ==> r[i] == WithoutNotAlive(es[i])
  {
    seq(|es|, i requires 0 <= i < |es| => WithoutNotAlive(es[i]))
  }

  function ForgottenItems(items: seq<Participant>): (r: seq<Participant>)
    ensures |r| == |items|
    ensures forall i :: 0 <= i < |items| ==>
              r[i] == Item(items[i].guid, items[i].info.(readers := ForgottenEndpoints(items[i].info.readers)))
  {
    seq(|items|, i requires 0 <= i < |items| =>
      Item(items[i].guid, items[i].info.(readers := ForgottenEndpoints(items[i].info.readers))))
  }

  function ForgottenDatabases(dbs: seq<Database>): (r: seq<Database>)
    ensures |r| == |dbs|
    ensures forall i :: 0 <= i < |dbs| ==>
              r[i] == Item(dbs[i].guid, DatabaseInfo("", ForgottenItems(dbs[i].info.items)))
  {
    seq(|dbs|, i requires 0 <= i < |dbs| => Item(dbs[i].guid, DatabaseInfo("", ForgottenItems(dbs[i].info.items))))
  }

  function Forgotten(s: Snapshot): Snapshot {
    s.(dbs := ForgottenDatabases(s.dbs))
  }

  /** Loading undoes saving, up to a time that is saved again. */
  ghost predicate SavesBack(save: int -> int, load: int -> int, again: int -> int) {
    forall t :: again(load(save(t))) == save(t)
  }

  lemma EndpointSavedAgain(e: Endpoint, tag: Tag, shown: bool, save: int -> int, load: int -> int, again: int -> int)
    requires SavesBack(save, load, again)
    ensures EndpointXml(MovedEndpoint(e, shown, save, load), tag, again, shown) ==
            EndpointXml(WithoutNotAlive(e), tag, save, shown)
  {
    assert again(load(save(e.info.discovered))) == save(e.info.discovered);
  }

  lemma ReadersSavedAgain(es: seq<Endpoint>, owner: Guid, show: bool, showAgain: bool,
                          save: int -> int, load: int -> int, again: int -> int)
    requires SavesBack(save, load, again) && (OwnReader(es, owner) ==> showAgain == show)
    ensures ReadersXml(MovedReaders(es, owner, show, save, load), owner, again, showAgain) ==
            ReadersXml(ForgottenEndpoints(es), owner, save, show)
  {
    hide SavesBack, EndpointXml;
    forall i | 0 <= i < |es|
      ensures ReadersXml(MovedReaders(es, owner, show, save, load), owner, again, showAgain)[i] ==
              ReadersXml(ForgottenEndpoints(es), owner, save, show)[i]
    {
      EndpointSavedAgain(es[i], SubscriberTag, show && es[i].guid.prefix == owner.prefix, save, load, again);
    }
  }

  lemma WritersSavedAgain(es: seq<Endpoint>, save: int -> int, load: int -> int, again: int -> int)
    requires SavesBack(save, load, again)
    ensures WritersXml(MovedWriters(es, save, load), again) == WritersXml(es, save)
  {
    hide SavesBack, EndpointXml;
    forall i | 0 <= i < |es| ensures WritersXml(MovedWriters(es, save, load), again)[i] == WritersXml(es, save)[i] {
      EndpointSavedAgain(es[i], PublisherTag, false, save, load, again);
      NotShown(es[i], save);
    }
  }

  lemma NotShown(e: Endpoint, save: int -> int)
    ensures EndpointXml(WithoutNotAlive(e), PublisherTag, save, false) == EndpointXml(e, PublisherTag, save, false)
  {
  }

  lemma DatabaseSavedAgain(d: Database, show: bool, showAgain: bool,
                           save: int -> int, load: int -> int, again: int -> int)
    requires SavesBack(save, load, again) && (OwnReaderInItems(d.info.items, d.guid) ==> showAgain == show)
    ensures DatabaseXml(MovedDatabase(d, show, save, load), again, showAgain) ==
            DatabaseXml(Item(d.guid, DatabaseInfo("", ForgottenItems(d.info.items))), save, show)
  {
    var old', new' := DatabaseXml(Item(d.guid, DatabaseInfo("", ForgottenItems(d.info.items))), save, show),
                      DatabaseXml(MovedDatabase(d, show, save, load), again, showAgain);
    forall i | 0 <= i < |d.info.items| ensures new'.children[i] == old'.children[i] {
      var p := d.info.items[i];
      assert OwnReader(p.info.readers, d.guid) ==> OwnReaderInItems(d.info.items, d.guid);
      ReadersSavedAgain(p.info.readers, d.guid, show, showAgain, save, load, again);
      WritersSavedAgain(p.info.writers, save, load, again);
      assert again(load(save(p.info.discovered))) == save(p.info.discovered);
    }
    assert new'.children == old'.children;
  }

  lemma TimesSavedAgain(s: Snapshot, saver: Clocks, loader: Clocks)
    ensures var t := Reloaded(s, saver, loader);
            && SavesBack(SaveTime(s.processStartup), LoadTime(t.processStartup), SaveTime(t.processStartup))
            && ToXml(t, loader).attrs == ToXml(s, saver).attrs
  {
    hide Ms, Ns, MovedDatabases, DatabaseXml, HasOwnReader;
    var save := SaveTime(s.processStartup);
    forall t ensures Ms(Ns(save(t))) == save(t) {
      WholeMilliseconds(save(t));
    }
    WholeMilliseconds(Ms(saver.system + (s.time - saver.steady)));
  }

  /**
   * Saving the reloaded snapshot writes the document again, times and all, but without the names of
   * the databases and with no writers that are not alive.
   */
  lemma SavedAgain(s: Snapshot, saver: Clocks, loader: Clocks)
    ensures ToXml(Reloaded(s, saver, loader), loader) == ToXml(Forgotten(s), saver)
  {
    var t := Reloaded(s, saver, loader);
    var save, load, again := SaveTime(s.processStartup), LoadTime(t.processStartup), SaveTime(t.processStartup);
    TimesSavedAgain(s, saver, loader);
    hide SavesBack, DatabaseXml, OwnReaderInItems;
    forall i | 0 <= i < |s.dbs|
      ensures DatabaseXml(t.dbs[i], again, t.showLiveliness) == DatabaseXml(Forgotten(s).dbs[i], save, s.showLiveliness)
    {
      assert OwnReaderInItems(s.dbs[i].info.items, s.dbs[i].guid) ==> HasOwnReader(s.dbs);
      DatabaseSavedAgain(s.dbs[i], s.showLiveliness, t.showLiveliness, save, load, again);
    }
    var x, y := ToXml(t, loader), ToXml(Forgotten(s), saver);
    assert x.children == y.children;
  }

  /** From then on nothing changes any more, whichever processes save and load. */
  lemma LaterSavesAgree(s: Snapshot, saver: Clocks, loader: Clocks, later: Clocks)
    ensures var t := Reloaded(s, saver, loader);
            ToXml(Reloaded(t, loader, later), later) == ToXml(t, loader)
  {
    var t := Reloaded(s, saver, loader);
    SavedAgain(t, loader, later);
    assert Forgotten(t) == t by {
      assert ForgottenDatabases(t.dbs) == t.dbs by {
        forall i | 0 <= i < |t.dbs| ensures ForgottenItems(t.dbs[i].info.items) == t.dbs[i].info.items {
          NothingToForget(t.dbs[i].info.items, s.dbs[i], s.showLiveliness,
                          SaveTime(s.processStartup), LoadTime(t.processStartup));
        }
      }
    }
  }

  lemma NothingToForget(items: seq<Participant>, d: Database, show: bool, save: int -> int, load: int -> int)
    requires items == MovedItems(d.info.items, d.guid, show, save, load)
    ensures ForgottenItems(items) == items
  {
    forall i | 0 <= i < |items| ensures ForgottenEndpoints(items[i].info.readers) == items[i].info.readers {
    }
  }

  /** t comes back as r: a whole number of milliseconds, cut toward zero. */
  predicate CutToMilliseconds(t: int, r: int) {
    r % 1_000_000 == 0 && if t >= 0 then r <= t < r + 1_000_000 else r - 1_000_000 < t <= r <= 0
  }

  /** The times relative to the start of the process come back in whole milliseconds. */
  lemma RelativeTimesAreCut(s: Snapshot, saver: Clocks, loader: Clocks)
    ensures var r := Reloaded(s, saver, loader);
            && CutToMilliseconds(s.time - s.processStartup, r.time - r.processStartup)
            && CutToMilliseconds(s.lastPdpCallback - s.processStartup, r.lastPdpCallback - r.processStartup)
            && CutToMilliseconds(s.lastEdpCallback - s.processStartup, r.lastEdpCallback - r.processStartup)
  {
    Cut(s.time - s.processStartup);
    Cut(s.lastPdpCallback - s.processStartup);
    Cut(s.lastEdpCallback - s.processStartup);
  }

  lemma Cut(t: int)
    ensures CutToMilliseconds(t, Ns(Ms(t)))
  {
  }
}
