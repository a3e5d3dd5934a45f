/**
 * Saving and loading snapshots. The XML text is abstracted to a tree of elements with typed
 * attributes; the GUID text form is abstracted to the two numbers it encodes.
 */
module SnapshotXml {
  import opened Guids
  import opened SortedSets
  import opened DiscoveryItems

  datatype Tag = SnapshotTag | DescriptionTag | PtdbTag | PtdiTag | SubscriberTag | PublisherTag

  datatype Attr =
    | Timestamp | ProcessTime | LastPdp | LastEdp | Someone
    | GuidPrefix | GuidEntity | Name | Server | IsAlive | Type | Topic | DiscoveredTimestamp
    | AliveCount | NotAliveCount

  datatype Value = Int(i: int) | Bool(b: bool) | Text(t: string)

  datatype Element = Element(tag: Tag, attrs: map<Attr, Value>, text: string, children: seq<Element>)
  {
    function IntAttr(a: Attr): int {
      if a in attrs && attrs[a].Int? then attrs[a].i else 0
    }

    function BoolAttr(a: Attr, absent: bool): bool {
      if a in attrs && attrs[a].Bool? then attrs[a].b else absent
    }

    function TextAttr(a: Attr): string {
      if a in attrs && attrs[a].Text? then attrs[a].t else ""
    }
  }

  /** The moments at which the two clocks were read when the process started. */
  datatype Clocks = Clocks(system: int, steady: int)

  /** duration_cast to milliseconds, which truncates toward zero. */
  function Ms(ns: int): int {
    if ns >= 0 then ns / 1_000_000 else -(-ns / 1_000_000)
  }

  /** Milliseconds as clock ticks. */
  function Ns(ms: int): int {
    ms * 1_000_000
  }

  /** Relative times are saved in milliseconds since the process started. */
  function SaveTime(startup: int): int -> int {
    t => Ms(t - startup)
  }

  function LoadTime(startup: int): int -> int {
    ms => startup + Ns(ms)
  }

  // ---------- Saving ----------

  function GuidAttrs(g: Guid): map<Attr, Value> {
    map[GuidPrefix := Int(g.prefix), GuidEntity := Int(g.entity)]
  }

  /** Liveliness is shown, if at all, for the endpoints of the database's own participant. */
  function EndpointXml(e: Endpoint, tag: Tag, save: int -> int, liveliness: bool): Element {
    var attrs := GuidAttrs(e.guid)[Type := Text(e.info.typeName)][Topic := Text(e.info.topicName)]
      [DiscoveredTimestamp := Int(save(e.info.discovered))];
    Element(tag,
            if liveliness
            then attrs[AliveCount := Int(e.info.aliveCount)][NotAliveCount := Int(e.info.notAliveCount)]
            else attrs,
            "", [])
  }

  function ReadersXml(es: seq<Endpoint>, owner: Guid, save: int -> int, show: bool): seq<Element> {
    seq(|es|, i requires 0 <= i < |es| =>
      EndpointXml(es[i], SubscriberTag, save, show && es[i].guid.prefix == owner.prefix))
  }

  function WritersXml(es: seq<Endpoint>, save: int -> int): seq<Element> {
    seq(|es|, i requires 0 <= i < |es| => EndpointXml(es[i], PublisherTag, save, false))
  }

  function ParticipantXml(p: Participant, owner: Guid, save: int -> int, show: bool): Element {
    Element(PtdiTag,
            GuidAttrs(p.guid)[Server := Bool(p.info.isServer)][IsAlive := Bool(p.info.isAlive)]
              [Name := Text(p.info.name)][DiscoveredTimestamp := Int(save(p.info.discovered))],
            "",
            ReadersXml(p.info.readers, owner, save, show) + WritersXml(p.info.writers, save))
  }

  function DatabaseXml(d: Database, save: int -> int, show: bool): Element {
    Element(PtdbTag, GuidAttrs(d.guid)[Name := Text(d.info.name)], "",
            seq(|d.info.items|, i requires 0 <= i < |d.info.items| =>
              ParticipantXml(d.info.items[i], d.guid, save, show)))
  }

  function ToXml(s: Snapshot, clocks: Clocks): Element {
    Element(SnapshotTag,
            map[Timestamp := Int(Ms(clocks.system + (s.time - clocks.steady))),
                ProcessTime := Int(SaveTime(s.processStartup)(s.time)),
                LastPdp := Int(SaveTime(s.processStartup)(s.lastPdpCallback)),
                LastEdp := Int(SaveTime(s.processStartup)(s.lastEdpCallback)),
                Someone := Bool(s.ifSomeone)],
            "",
            [Element(DescriptionTag, map[], s.description, [])]
              + seq(|s.dbs|, i requires 0 <= i < |s.dbs| =>
                  DatabaseXml(s.dbs[i], SaveTime(s.processStartup), s.showLiveliness)))
  }

  // ---------- Loading ----------

  /** The children FirstChildElement and NextSiblingElement visit. */
  function ByTag(es: seq<Element>, tag: Tag): seq<Element> {
    if es == [] then []
    else ByTag(es[..|es| - 1], tag) + if es[|es| - 1].tag == tag then [es[|es| - 1]] else []
  }

  function ReadGuid(el: Element): Guid {
    Guid(el.IntAttr(GuidPrefix), el.IntAttr(GuidEntity))
  }

  /** The second liveliness counter is only looked for when the first one is absent. */
  function ReadEndpoint(el: Element, load: int -> int): Endpoint {
    Item(ReadGuid(el), EndpointInfo(
      el.TextAttr(Type), el.TextAttr(Topic), load(el.IntAttr(DiscoveredTimestamp)),
      el.IntAttr(AliveCount), if AliveCount in el.attrs then 0 else el.IntAttr(NotAliveCount)))
  }

  function ReadEndpoints(els: seq<Element>, load: int -> int): (r: seq<Endpoint>)
    ensures |r| == |els| && forall i :: 0 <= i < |els| ==> r[i] == ReadEndpoint(els[i], load)
  {
    seq(|els|, i requires 0 <= i < |els| => ReadEndpoint(els[i], load))
  }

  function EndpointsIn(el: Element, tag: Tag, load: int -> int): seq<Endpoint> {
    Inserted(ReadEndpoints(ByTag(el.children, tag), load))
  }

  function ReadParticipant(el: Element, load: int -> int): Participant {
    Item(ReadGuid(el), ParticipantInfo(
      el.BoolAttr(Server, false), el.BoolAttr(IsAlive, true), el.TextAttr(Name),
      load(el.IntAttr(DiscoveredTimestamp)),
      EndpointsIn(el, PublisherTag, load), EndpointsIn(el, SubscriberTag, load)))
  }

  function ReadItems(els: seq<Element>, load: int -> int): (r: seq<Participant>)
    ensures |r| == |els| && forall i :: 0 <= i < |els| ==> r[i] == ReadParticipant(els[i], load)
  {
    seq(|els|, i requires 0 <= i < |els| => ReadParticipant(els[i], load))
  }

  function ItemsIn(el: Element, load: int -> int): seq<Participant> {
    Inserted(ReadItems(ByTag(el.children, PtdiTag), load))
  }

  /** The database is created without a name. */
  function ReadDatabase(el: Element, load: int -> int): Database {
    Item(ReadGuid(el), DatabaseInfo("", ItemsIn(el, load)))
  }

  function ReadDatabases(els: seq<Element>, load: int -> int): (r: seq<Database>)
    ensures |r| == |els| && forall i :: 0 <= i < |els| ==> r[i] == ReadDatabase(els[i], load)
  {
    seq(|els|, i requires 0 <= i < |els| => ReadDatabase(els[i], load))
  }

  function DatabasesIn(root: Element, load: int -> int): seq<Database> {
    Inserted(ReadDatabases(ByTag(root.children, PtdbTag), load))
  }

  predicate ShowsLiveliness(el: Element) {
    AliveCount in el.attrs || NotAliveCount in el.attrs
  }

  predicate AnyReaderShows(els: seq<Element>) {
    els != [] && (AnyReaderShows(els[..|els| - 1]) || ShowsLiveliness(els[|els| - 1]))
  }

  predicate AnyItemShows(els: seq<Element>) {
    els != [] && (AnyItemShows(els[..|els| - 1]) || AnyReaderShows(ByTag(els[|els| - 1].children, SubscriberTag)))
  }

  predicate AnyDatabaseShows(els: seq<Element>) {
    els != [] && (AnyDatabaseShows(els[..|els| - 1]) || AnyItemShows(ByTag(els[|els| - 1].children, PtdiTag)))
  }

  predicate HasText(el: Element, attrs: set<Attr>) {
    forall a :: a in attrs ==> a in el.attrs
  }

  /** The GUID of an element is spelled out in two attributes. */
  predicate HasGuid(el: Element) {
    HasText(el, {GuidPrefix, GuidEntity})
  }

  predicate ReadableEndpoints(els: seq<Element>) {
    forall i :: 0 <= i < |els| ==> HasGuid(els[i]) && HasText(els[i], {Type, Topic})
  }

  predicate ReadableParticipant(el: Element) {
    && HasGuid(el) && HasText(el, {Name})
    && ReadableEndpoints(ByTag(el.children, SubscriberTag)) && ReadableEndpoints(ByTag(el.children, PublisherTag))
  }

  predicate ReadableDatabase(el: Element) {
    HasGuid(el) && var els := ByTag(el.children, PtdiTag); forall i :: 0 <= i < |els| ==> ReadableParticipant(els[i])
  }

  predicate ReadableDatabases(root: Element) {
    var els := ByTag(root.children, PtdbTag); forall i :: 0 <= i < |els| ==> ReadableDatabase(els[i])
  }

  /**
   * Neither the text of a description without text nor a text attribute that is missing can be turned
   * into a string: both are null.
   */
  predicate Readable(root: Element) {
    var ds := ByTag(root.children, DescriptionTag);
    (ds != [] ==> ds[0].text != "") && ReadableDatabases(root)
  }

  method LoadEndpoints(els: seq<Element>, load: int -> int) returns (es: seq<Endpoint>, liveliness: bool)
    requires ReadableEndpoints(els)
    ensures es == Inserted(ReadEndpoints(els, load))
    ensures liveliness <==> AnyReaderShows(els)
  {
    es, liveliness := [], false;
    for n := 0 to |els|
      invariant es == Inserted(ReadEndpoints(els[..n], load))
      invariant liveliness <==> AnyReaderShows(els[..n])
    {
      assert els[..n + 1][..n] == els[..n];
      assert ReadEndpoints(els[..n + 1], load)[..n] == ReadEndpoints(els[..n], load);
      var el := els[n];
      es := Emplace(es, ReadEndpoint(el, load));
      if AliveCount in el.attrs || NotAliveCount in el.attrs {
        liveliness := true;
      }
    }
    assert els[..|els|] == els;
  }

  method LoadItems(els: seq<Element>, load: int -> int) returns (items: seq<Participant>, liveliness: bool)
    requires forall i :: 0 <= i < |els| ==> ReadableParticipant(els[i])
    ensures items == Inserted(ReadItems(els, load))
    ensures liveliness <==> AnyItemShows(els)
  {
    hide Emplace, ByTag;
    items, liveliness := [], false;
    for n := 0 to |els|
      invariant items == Inserted(ReadItems(els[..n], load))
      invariant liveliness <==> AnyItemShows(els[..n])
    {
      assert els[..n + 1][..n] == els[..n];
      assert ReadItems(els[..n + 1], load)[..n] == ReadItems(els[..n], load);
      var el := els[n];
      var readers, shown := LoadEndpoints(ByTag(el.children, SubscriberTag), load);
      var writers, shown0 := LoadEndpoints(ByTag(el.children, PublisherTag), load);
      var item := ParticipantInfo(
        el.BoolAttr(Server, false), el.BoolAttr(IsAlive, true), el.TextAttr(Name),
        load(el.IntAttr(DiscoveredTimestamp)), writers, readers);
      assert writers == EndpointsIn(el, PublisherTag, load) && readers == EndpointsIn(el, SubscriberTag, load);
      items := Emplace(items, Item(ReadGuid(el), item));
      liveliness := liveliness || shown;
    }
    assert els[..|els|] == els;
  }

  method LoadDatabases(els: seq<Element>, load: int -> int) returns (dbs: seq<Database>, liveliness: bool)
    requires forall i :: 0 <= i < |els| ==> ReadableDatabase(els[i])
    ensures dbs == Inserted(ReadDatabases(els, load))
    ensures liveliness <==> AnyDatabaseShows(els)
  {
    dbs, liveliness := [], false;
    for n := 0 to |els|
      invariant dbs == Inserted(ReadDatabases(els[..n], load))
      invariant liveliness <==> AnyDatabaseShows(els[..n])
    {
      assert els[..n + 1][..n] == els[..n];
      assert ReadDatabases(els[..n + 1], load)[..n] == ReadDatabases(els[..n], load);
      var items, shown := LoadItems(ByTag(els[n].children, PtdiTag), load);
      dbs := Emplace(dbs, Item(ReadGuid(els[n]), DatabaseInfo("", items)));
      liveliness := liveliness || shown;
    }
    assert els[..|els|] == els;
  }

  /** The attributes and the description; no databases yet. */
  function ReadHeader(root: Element, clocks: Clocks): Snapshot {
    var time := Ns(root.IntAttr(Timestamp)) - clocks.system + clocks.steady;
    var startup := time - Ns(root.IntAttr(ProcessTime));
    var ds := ByTag(root.children, DescriptionTag);
    Snapshot(startup, time,
             LoadTime(startup)(root.IntAttr(LastPdp)), LoadTime(startup)(root.IntAttr(LastEdp)),
             root.BoolAttr(Someone, true), false, if ds == [] then "" else ds[0].text, [])
  }

  /** Loading into a default constructed snapshot. */
  function ReadSnapshot(root: Element, clocks: Clocks): Snapshot
    requires Readable(root)
  {
    var s := ReadHeader(root, clocks);
    s.(dbs := DatabasesIn(root, LoadTime(s.processStartup)),
       showLiveliness := AnyDatabaseShows(ByTag(root.children, PtdbTag)))
  }

  method FromXml(root: Element, clocks: Clocks) returns (s: Snapshot)
    requires Readable(root)
    ensures s == ReadSnapshot(root, clocks)
  {
    s := ReadHeader(root, clocks);
    var dbs, liveliness := LoadDatabases(ByTag(root.children, PtdbTag), LoadTime(s.processStartup));
    s := s.(dbs := dbs, showLiveliness := liveliness);
  }
}
