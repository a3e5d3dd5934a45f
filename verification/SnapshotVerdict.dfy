/** The verdict of the validator on all snapshots of a file. */
module SnapshotVerdict {
  import opened Basics
  import opened TopicJoin

  datatype Snapshot = Snapshot(timestamp: string, databases: seq<Database>)

  datatype ReturnCode = Ok | Skip | Error | Fail

  /** The dictionaries of the snapshots, by timestamp. */
  type Dicts = map<string, Dict>

  datatype Pairs = Pairs(copies: Dicts, expected: Dicts)

  /** All databases in the order of the search; a snapshot without any ends it, as an empty one does. */
  function Searched(shots: seq<Snapshot>): seq<Database> {
    if shots == [] then []
    else (if shots[0].databases == [] then [Database("", [])] else shots[0].databases) + Searched(shots[1..])
  }

  function Servers(shots: seq<Snapshot>): seq<string> {
    ServersOf([], Searched(shots))
  }

  /** The first pass; a timestamp that occurs again starts afresh. */
  function FirstPasses(servers: seq<string>, shots: seq<Snapshot>): (r: Pairs)
    ensures forall s :: s in shots ==> s.timestamp in r.copies && s.timestamp in r.expected
  {
    if shots == [] then Pairs(map[], map[])
    else
      var s, r := shots[|shots| - 1], FirstPasses(servers, shots[..|shots| - 1]);
      var p := FirstPass(servers, s.databases);
      assert shots == shots[..|shots| - 1] + [s];
      Pairs(r.copies[s.timestamp := p.copy], r.expected[s.timestamp := p.validate])
  }

  /** One of the endpoints belongs in a database for which there is no place. */
  predicate Misses(servers: seq<string>, places: set<string>, dbs: seq<Database>, ns: seq<Notice>) {
    exists n, d :: n in ns && d in dbs && Receives(servers, d, n) && d.prefix !in places
  }

  /** The second pass, which ends at a missing key. */
  function SecondPasses(servers: seq<string>, dicts: Dicts, shots: seq<Snapshot>): (r: Maybe<Dicts>)
    requires forall s :: s in shots ==> s.timestamp in dicts
    ensures r.Just? ==> r.value.Keys == dicts.Keys
  {
    if shots == [] then Just(dicts)
    else
      var s := shots[|shots| - 1];
      match SecondPasses(servers, dicts, shots[..|shots| - 1])
      case Nothing => Nothing
      case Just(m) =>
        var ns := AllNotices(s.databases);
        if s.databases == [] || Misses(servers, m[s.timestamp].Keys, s.databases, ns) then Nothing
        else Just(m[s.timestamp := TellAll(servers, m[s.timestamp], s.databases, ns)])
  }

  /** Equal, or included when the test disposes of participants. */
  predicate Passes(copy: Dict, expected: Dict, disposals: bool) {
    if disposals then Included(expected, copy) else copy == expected
  }

  predicate AllPass(copies: Dicts, expected: Dicts, shots: seq<Snapshot>, disposals: bool)
    requires forall s :: s in shots ==> s.timestamp in copies && s.timestamp in expected
  {
    forall s :: s in shots ==> Passes(copies[s.timestamp], expected[s.timestamp], disposals)
  }

  function Verdict(shots: seq<Snapshot>, disposals: bool, serverEndpoints: bool): ReturnCode {
    var first := FirstPasses(Servers(shots), shots);
    if serverEndpoints then Skip
    else if shots == [] then Error
    else
      match SecondPasses(Servers(shots), first.expected, shots)
      case Nothing => Error
      case Just(expected) => if AllPass(first.copies, expected, shots, disposals) then Ok else Fail
  }

  // ---------- What the verdict means ----------

  /** The last snapshot with a timestamp. */
  function LastWith(shots: seq<Snapshot>, timestamp: string): Snapshot
    requires exists s :: s in shots && s.timestamp == timestamp
  {
    var last := |shots| - 1;
    assert shots == shots[..last] + [shots[last]];
    if shots[last].timestamp == timestamp then shots[last] else LastWith(shots[..last], timestamp)
  }

  lemma {:induction false} FirstPassesMean(servers: seq<string>, shots: seq<Snapshot>, t: string)
    requires exists s :: s in shots && s.timestamp == t
    ensures var r, p := FirstPasses(servers, shots), FirstPass(servers, LastWith(shots, t).databases);
            r.copies[t] == p.copy && r.expected[t] == p.validate
    decreases |shots|
  {
    var last := |shots| - 1;
    assert shots == shots[..last] + [shots[last]];
    hide FirstPass;
    if shots[last].timestamp != t {
      FirstPassesMean(servers, shots[..last], t);
    }
  }

  /** A snapshot without databases, or one of whose databases the last of the same time has no place for. */
  predicate Breaks(servers: seq<string>, dicts: Dicts, s: Snapshot)
    requires s.timestamp in dicts
  {
    s.databases == [] || Misses(servers, dicts[s.timestamp].Keys, s.databases, AllNotices(s.databases))
  }

  lemma {:induction false} SecondPassesMean(servers: seq<string>, dicts: Dicts, shots: seq<Snapshot>)
    requires forall s :: s in shots ==> s.timestamp in dicts
    ensures SecondPasses(servers, dicts, shots).Nothing? <==> exists s :: s in shots && Breaks(servers, dicts, s)
    ensures SecondPasses(servers, dicts, shots).Just? ==>
              forall t :: t in dicts ==> SecondPasses(servers, dicts, shots).value[t].Keys == dicts[t].Keys
    decreases |shots|
  {
    if shots != [] {
      var rest, s := shots[..|shots| - 1], shots[|shots| - 1];
      SecondPassesMean(servers, dicts, rest);
      assert shots == rest + [s];
      hide Misses, TellAll, AllNotices;
      match SecondPasses(servers, dicts, rest)
      case Nothing =>
      case Just(m) => SameDatabases(servers, m[s.timestamp], s.databases, AllNotices(s.databases));
    }
  }

  predicate DistinctTimes(shots: seq<Snapshot>) {
    forall j, k :: 0 <= j < k < |shots| ==> shots[j].timestamp != shots[k].timestamp
  }

  lemma {:induction false} SecondPassesKeep(servers: seq<string>, dicts: Dicts, shots: seq<Snapshot>, t: string)
    requires t in dicts && forall s :: s in shots ==> s.timestamp in dicts && s.timestamp != t
    ensures var r := SecondPasses(servers, dicts, shots);
            r.Just? ==> r.value[t] == dicts[t]
    decreases |shots|
  {
    if shots != [] {
      hide Misses, TellAll, AllNotices;
      SecondPassesKeep(servers, dicts, shots[..|shots| - 1], t);
    }
  }

  lemma {:induction false} SecondPassesSeparate(servers: seq<string>, dicts: Dicts, shots: seq<Snapshot>, s: Snapshot)
    requires DistinctTimes(shots) && s in shots && forall z :: z in shots ==> z.timestamp in dicts
    ensures var r := SecondPasses(servers, dicts, shots);
            r.Just? ==>
              r.value[s.timestamp] == TellAll(servers, dicts[s.timestamp], s.databases, AllNotices(s.databases))
    decreases |shots|
  {
    hide Misses, TellAll, AllNotices;
    var rest, last := shots[..|shots| - 1], shots[|shots| - 1];
    assert shots == rest + [last];
    if s in rest {
      SecondPassesSeparate(servers, dicts, rest, s);
    } else {
      SecondPassesKeep(servers, dicts, rest, s.timestamp);
    }
  }

  lemma LastOfDistinct(shots: seq<Snapshot>, s: Snapshot)
    requires DistinctTimes(shots) && s in shots
    ensures LastWith(shots, s.timestamp) == s
    decreases |shots|
  {
    var last := |shots| - 1;
    assert shots == shots[..last] + [shots[last]];
    if shots[last].timestamp != s.timestamp {
      LastOfDistinct(shots[..last], s);
    }
  }

  lemma {:induction false} PlaceFor(servers: seq<string>, dbs: seq<Database>, d: Database)
    requires d in dbs && d.prefix !in servers
    ensures d.prefix in FirstPass(servers, dbs).validate
    decreases |dbs|
  {
    if d in dbs[..|dbs| - 1] {
      PlaceFor(servers, dbs[..|dbs| - 1], d);
    }
  }

  /** An endpoint of the snapshot belongs in a database that the last snapshot of the same time does not have. */
  predicate Displaced(shots: seq<Snapshot>, s: Snapshot)
    requires s in shots
  {
    exists n, d :: n in AllNotices(s.databases) && d in s.databases && Receives(Servers(shots), d, n)
                   && forall e :: e in LastWith(shots, s.timestamp).databases ==> e.prefix != d.prefix
  }

  lemma MissesMeans(servers: seq<string>, dbs: seq<Database>, ds: seq<Database>, ns: seq<Notice>)
    ensures Misses(servers, FirstPass(servers, dbs).validate.Keys, ds, ns) <==>
            exists n, d :: n in ns && d in ds && Receives(servers, d, n)
                           && forall e :: e in dbs ==> e.prefix != d.prefix
  {
    forall d: Database | d.prefix !in servers
      ensures d.prefix in FirstPass(servers, dbs).validate <==> exists e :: e in dbs && e.prefix == d.prefix
    {
      if e :| e in dbs && e.prefix == d.prefix {
        PlaceFor(servers, dbs, e);
      } else {
        FirstPassNoMore(servers, dbs, d.prefix);
      }
    }
  }

  /** When the validator reports an error. */
  lemma ErrorExactly(shots: seq<Snapshot>, disposals: bool)
    ensures Verdict(shots, disposals, false) == Error <==>
            shots == [] || exists s :: s in shots && (s.databases == [] || Displaced(shots, s))
  {
    var servers := Servers(shots);
    var first := FirstPasses(servers, shots);
    SecondPassesMean(servers, first.expected, shots);
    hide Misses, Receives, FirstPass, FirstPasses, SecondPasses, AllPass, Servers, LastWith;
    forall s | s in shots
      ensures Breaks(servers, first.expected, s) <==> s.databases == [] || Displaced(shots, s)
    {
      FirstPassesMean(servers, shots, s.timestamp);
      MissesMeans(servers, LastWith(shots, s.timestamp).databases, s.databases, AllNotices(s.databases));
    }
  }

  /** With distinct timestamps the snapshots are judged one by one. */
  lemma VerdictOneByOne(shots: seq<Snapshot>, disposals: bool)
    requires DistinctTimes(shots)
    ensures var v, servers := Verdict(shots, disposals, false), Servers(shots);
            && (v == Error <==> shots == [] || exists s :: s in shots && s.databases == [])
            && (v == Ok <==>
                  && shots != []
                  && forall s :: s in shots ==>
                       && s.databases != []
                       && Passes(FirstPass(servers, s.databases).copy, Expected(servers, s.databases), disposals))
            && v != Skip
  {
    var servers := Servers(shots);
    var first := FirstPasses(servers, shots);
    SecondPassesMean(servers, first.expected, shots);
    hide Misses, TellAll, AllNotices, FirstPass, FirstPasses, SecondPasses, Passes, Servers, LastWith;
    forall s | s in shots
      ensures first.copies[s.timestamp] == FirstPass(servers, s.databases).copy
      ensures first.expected[s.timestamp] == FirstPass(servers, s.databases).validate
      ensures !Misses(servers, first.expected[s.timestamp].Keys, s.databases, AllNotices(s.databases))
      ensures var r := SecondPasses(servers, first.expected, shots);
              r.Just? ==> r.value[s.timestamp] == Expected(servers, s.databases)
    {
      FirstPassesMean(servers, shots, s.timestamp);
      LastOfDistinct(shots, s);
      SecondPassesSeparate(servers, first.expected, shots, s);
      MissesMeans(servers, s.databases, s.databases, AllNotices(s.databases));
    }
  }

  // ---------- The verdict in terms of the snapshots ----------

  /** The database of c shows p, with or without endpoints. */
  ghost predicate ShowsEntry(dbs: seq<Database>, c: string, p: string) {
    exists d, i :: d in dbs && d.prefix == c && i in d.entries && i.prefix == p && !i.server
  }

  /** The participants that c should know: itself, and whom it meets on a topic. */
  ghost predicate ShouldKnow(dbs: seq<Database>, c: string, p: string) {
    if p == c then exists i :: IsOwn(dbs, c, i) && !i.server else Meet(dbs, c, p)
  }

  /** The dictionary holds this endpoint with this topic. */
  ghost predicate Holds(dict: Dict, c: string, p: string, key: Key, topic: string) {
    Lists(dict, c, p, key) && dict[c][p][key] == topic
  }

  ghost predicate HoldsOf(a: Dict, b: Dict, c: string, p: string) {
    && (Knows(a, c, p) ==> Knows(b, c, p))
    && forall key, topic :: Holds(a, c, p, key, topic) ==> Holds(b, c, p, key, topic)
  }

  /** What c should know of p, its database shows. */
  ghost predicate Complete(dbs: seq<Database>, c: string, p: string) {
    && (ShouldKnow(dbs, c, p) ==> ShowsEntry(dbs, c, p))
    && forall key, topic :: ShouldListOn(dbs, c, p, key, topic) ==> ShowsOn(dbs, c, p, key, topic)
  }

  /** What its database shows, c should know of p. */
  ghost predicate Sound(dbs: seq<Database>, c: string, p: string) {
    && (ShowsEntry(dbs, c, p) ==> ShouldKnow(dbs, c, p))
    && forall key, topic :: ShowsOn(dbs, c, p, key, topic) ==> ShouldListOn(dbs, c, p, key, topic)
  }

  lemma IncludedHolds(a: Dict, b: Dict)
    requires a.Keys == b.Keys
    ensures Included(a, b) <==> forall c, p :: c in a ==> HoldsOf(a, b, c, p)
  {
    if Included(a, b) {
      forall c, p | c in a ensures HoldsOf(a, b, c, p) {
      }
    }
    if forall c, p :: c in a ==> HoldsOf(a, b, c, p) {
      forall c, p | c in a && p in a[c] ensures p in b[c] && ListingIncluded(a[c][p], b[c][p]) {
        assert HoldsOf(a, b, c, p) && Knows(a, c, p);
        forall key | key in a[c][p] ensures key in b[c][p] && a[c][p][key] == b[c][p][key] {
          assert Holds(a, c, p, key, a[c][p][key]);
        }
      }
    }
  }

  lemma BothIncluded(a: Dict, b: Dict)
    ensures a == b <==> Included(a, b) && Included(b, a)
  {
    if Included(a, b) && Included(b, a) {
      forall c | c in a ensures a[c] == b[c] {
        forall p | p in a[c] ensures a[c][p] == b[c][p] {
          assert ListingIncluded(a[c][p], b[c][p]) && ListingIncluded(b[c][p], a[c][p]);
        }
        assert a[c].Keys == b[c].Keys;
      }
      assert a.Keys == b.Keys;
    }
  }

  /** What the copied dictionary holds of p in the database of c. */
  lemma CopyHolds(servers: seq<string>, dbs: seq<Database>, c: string, p: string)
    requires Unique(dbs) && SingleTopics(dbs) && IsListed(servers, dbs, c)
    ensures var copy := FirstPass(servers, dbs).copy;
            && c in copy
            && (Knows(copy, c, p) <==> ShowsEntry(dbs, c, p))
            && forall key, topic :: Holds(copy, c, p, key, topic) <==> ShowsOn(dbs, c, p, key, topic)
  {
    var copy := FirstPass(servers, dbs).copy;
    var d :| d in dbs && d.prefix == c;
    FirstPassMeans(servers, dbs, d);
    CopiedMeans(d.entries, p);
    assert Knows(copy, c, p) <==> ShowsEntry(dbs, c, p);
    hide FirstPass, Copied, ShowsOn, ShowsEntry, Unique, SingleTopics, IsListed;
    forall key, topic ensures Holds(copy, c, p, key, topic) <==> ShowsOn(dbs, c, p, key, topic) {
      CopyIsSnapshot(servers, dbs, c, p, key);
      if ShowsOn(dbs, c, p, key, topic) {
        OneTopicShown(dbs, c, p, key, topic, copy[c][p][key]);
      }
    }
  }

  /** What the generated dictionary holds of p in the database of c. */
  lemma ExpectedHolds(servers: seq<string>, dbs: seq<Database>, c: string, p: string)
    requires Unique(dbs) && SingleTopics(dbs) && IsListed(servers, dbs, c)
    ensures var dict := Expected(servers, dbs);
            && c in dict
            && (Knows(dict, c, p) <==> ShouldKnow(dbs, c, p))
            && forall key, topic :: Holds(dict, c, p, key, topic) <==> ShouldListOn(dbs, c, p, key, topic)
  {
    var start, ns := FirstPass(servers, dbs).validate, AllNotices(dbs);
    var some := Key(Publisher, "", "");
    hide FirstPass, Unique, SingleTopics, IsListed, ShouldListOn, Told, ToldOn, OwnOn, Meet;
    OwnListed(servers, dbs, c, p, some);
    TellAllMeans(servers, start, dbs, ns, c, p, some);
    if p == c {
      NotTold(servers, dbs, ns, c);
    } else {
      KnownIfMet(servers, dbs, c, p);
    }
    forall key, topic
      ensures Holds(Expected(servers, dbs), c, p, key, topic) <==> ShouldListOn(dbs, c, p, key, topic)
    {
      ExpectedTopics(servers, dbs, c, p, key, topic);
    }
  }

  lemma NotTold(servers: seq<string>, dbs: seq<Database>, ns: seq<Notice>, c: string)
    ensures !Told(servers, dbs, ns, c, c)
  {
  }

  /** The two dictionaries are about the same databases. */
  lemma SamePlaces(servers: seq<string>, dbs: seq<Database>, c: string)
    ensures c in FirstPass(servers, dbs).copy <==> c in FirstPass(servers, dbs).validate
    ensures c in FirstPass(servers, dbs).copy ==> IsListed(servers, dbs, c)
  {
  }

  /**
   * A snapshot passes exactly if every database that is not a server's shows what it should: with
   * disposals at least that, without nothing else either.
   */
  lemma PassesExactly(servers: seq<string>, dbs: seq<Database>, disposals: bool)
    requires Unique(dbs) && SingleTopics(dbs)
    ensures Passes(FirstPass(servers, dbs).copy, Expected(servers, dbs), disposals) <==>
            forall c, p :: IsListed(servers, dbs, c) ==>
                             Complete(dbs, c, p) && (disposals || Sound(dbs, c, p))
  {
    var copy, dict := FirstPass(servers, dbs).copy, Expected(servers, dbs);
    SameDatabases(servers, FirstPass(servers, dbs).validate, dbs, AllNotices(dbs));
    forall c ensures c in copy <==> c in dict
             ensures c in copy ==> IsListed(servers, dbs, c)
    {
      SamePlaces(servers, dbs, c);
    }
    hide Unique, SingleTopics, IsListed, FirstPass, Expected, Included;
    assert copy.Keys == dict.Keys;
    IncludedHolds(dict, copy);
    IncludedHolds(copy, dict);
    BothIncluded(copy, dict);
    forall c, p | IsListed(servers, dbs, c)
      ensures c in copy
      ensures HoldsOf(dict, copy, c, p) <==> Complete(dbs, c, p)
      ensures HoldsOf(copy, dict, c, p) <==> Sound(dbs, c, p)
    {
      hide ShowsEntry, ShouldKnow, Holds, ShowsOn, ShouldListOn, Knows;
      CopyHolds(servers, dbs, c, p);
      ExpectedHolds(servers, dbs, c, p);
    }
    hide HoldsOf, Complete, Sound;
  }

  /** When the validator accepts snapshots of distinct times. */
  lemma OkExactly(shots: seq<Snapshot>, disposals: bool)
    requires DistinctTimes(shots)
    requires forall s :: s in shots ==> Unique(s.databases) && SingleTopics(s.databases)
    ensures Verdict(shots, disposals, false) == Ok <==>
            && shots != []
            && forall s :: s in shots ==>
                 && s.databases != []
                 && forall c, p :: IsListed(Servers(shots), s.databases, c) ==>
                                     Complete(s.databases, c, p) && (disposals || Sound(s.databases, c, p))
  {
    hide Unique, SingleTopics, IsListed, Complete, Sound, Passes, Servers, Verdict, FirstPass, Expected;
    VerdictOneByOne(shots, disposals);
    forall s | s in shots
      ensures Passes(FirstPass(Servers(shots), s.databases).copy, Expected(Servers(shots), s.databases), disposals) <==>
              forall c, p :: IsListed(Servers(shots), s.databases, c) ==>
                               Complete(s.databases, c, p) && (disposals || Sound(s.databases, c, p))
    {
      PassesExactly(Servers(shots), s.databases, disposals);
    }
  }

  /** A publisher and a subscriber that know each other. */
  function Couple(): seq<Database> {
    var entries := [Entry("p", false, [Endpoint("p", "1", "t")], []), Entry("q", false, [], [Endpoint("q", "2", "t")])];
    [Database("p", entries), Database("q", entries)]
  }

  function Loner(): seq<Database> {
    [Database("r", [Entry("r", false, [], [])])]
  }

  /** Snapshots that are judged if they have been taken at different times, but are an error at one time. */
  lemma SharedTimestamp(disposals: bool)
    ensures Verdict([Snapshot("0", Couple()), Snapshot("1", Loner())], disposals, false) in {Ok, Fail}
    ensures Verdict([Snapshot("0", Couple()), Snapshot("0", Loner())], disposals, false) == Error
  {
    hide Verdict, Displaced, Servers, Passes, FirstPass, Expected;
    var shots := [Snapshot("0", Couple()), Snapshot("0", Loner())];
    VerdictOneByOne([Snapshot("0", Couple()), Snapshot("1", Loner())], disposals);
    ErrorExactly(shots, disposals);
    CoupleDisplaced(shots);
  }

  lemma CoupleDisplaced(shots: seq<Snapshot>)
    requires shots == [Snapshot("0", Couple()), Snapshot("0", Loner())]
    ensures shots[0] in shots && Displaced(shots, shots[0])
  {
    var n := Notice(Publisher, "p", "1", "t");
    CoupleAnnounces(n);
    NoServers(shots);
    CoupleReceives(n);
    hide AllNotices, Receives, Servers;
    assert LastWith(shots, "0") == shots[1];
    assert Couple()[1] in shots[0].databases;
  }

  lemma CoupleAnnounces(n: Notice)
    requires n == Notice(Publisher, "p", "1", "t")
    ensures n in AllNotices(Couple())
  {
    var i := Couple()[0].entries[0];
    assert IsOwn(Couple(), "p", i) by { assert Couple()[0] in Couple() && i in Couple()[0].entries; }
    assert Has(i, Publisher, "1", "t") by { assert i.publishers[0] in Endpoints(i, Publisher); }
    AllNoticesMean(Couple(), n);
  }

  lemma CoupleReceives(n: Notice)
    requires n == Notice(Publisher, "p", "1", "t")
    ensures Receives([], Couple()[1], n)
  {
    var entries := Couple()[1].entries;
    assert entries[1..] == [entries[1]];
    assert OwnWith("q", [entries[1]], Subscriber) == entries[1].subscribers;
    assert OwnWith("q", entries, Subscriber)[0].topic == "t";
  }

  /** Where no entry is a server's, no server is found. */
  lemma NoServers(shots: seq<Snapshot>)
    requires forall s, d, i :: s in shots && d in s.databases && i in d.entries ==> !i.server
    ensures Servers(shots) == []
  {
    SearchedOnly(shots);
    if Servers(shots) != [] {
      var s := Servers(shots)[0];
      ServersMean([], Searched(shots), s);
      forall d | d in Searched(shots) ensures !NamesServer(d, s) {
      }
    }
  }

  lemma SearchedOnly(shots: seq<Snapshot>)
    ensures forall d :: d in Searched(shots) ==> d.entries == [] || exists s :: s in shots && d in s.databases
  {
  }
}
