/** The validator that generates the dictionary a snapshot is compared with. */
module SnapshotValidator {
  import opened Basics
  import opened TopicJoin
  import opened SnapshotVerdict

  lemma {:induction false} SearchPast(found: seq<string>, xs: seq<Database>, ys: seq<Database>)
    requires forall d :: d in xs ==> d.entries != []
    ensures ServersOf(found, xs + ys) == ServersOf(ServersOf(found, xs), ys)
    decreases |xs|
  {
    if xs == [] {
      assert xs + ys == ys;
    } else {
      assert (xs + ys)[1..] == xs[1..] + ys;
      SearchPast(ServersIn(found, xs[0].entries), xs[1..], ys);
    }
  }

  lemma {:induction false} SearchStops(found: seq<string>, xs: seq<Database>, ys: seq<Database>)
    requires exists d :: d in xs && d.entries == []
    ensures ServersOf(found, xs + ys) == ServersOf(found, xs)
    decreases |xs|
  {
    assert (xs + ys)[0] == xs[0];
    if xs[0].entries != [] {
      assert (xs + ys)[1..] == xs[1..] + ys && xs == [xs[0]] + xs[1..];
      SearchStops(ServersIn(found, xs[0].entries), xs[1..], ys);
    }
  }

  /** Adding an endpoint again changes nothing. */
  lemma AddTwice(dict: Dict, c: string, n: Notice)
    ensures Add(Add(dict, c, n), c, n) == Add(dict, c, n)
  {
    if c in dict {
      var once, key := Add(dict, c, n), Key(n.role, n.prefix, n.entity);
      assert once[c][n.prefix][key := n.topic] == once[c][n.prefix];
      assert once[c][n.prefix := once[c][n.prefix]] == once[c];
      assert once[c := once[c]] == once;
    }
  }

  lemma Overwritten<K, V>(m: map<K, V>, k: K, x: V, y: V)
    ensures m[k := x][k := y] == m[k := y]
  {
  }

  /** Storing a listing where a database has just been copied. */
  lemma StoreTwice(m: Dict, c: string, k: Known, p: string, l: Listing)
    ensures m[c := k][c := m[c := k][c][p := l]] == m[c := k[p := l]]
  {
  }

  class GenerateValidator {
    var servers: seq<string>
    // the dictionaries of all snapshots, and the parts for the snapshot at hand
    var copies: Dicts
    var expected: Dicts
    var copyDict: Dict
    var validateDict: Dict

    constructor ()
      ensures servers == []
    {
      servers, copies, expected, copyDict, validateDict := [], map[], map[], map[], map[];
    }

    /** Collects the prefixes of the servers. */
    method ProcessServers(snapshots: seq<Snapshot>)
      modifies this`servers
      ensures servers == Servers(snapshots)
    {
      servers := [];
      for k := 0 to |snapshots|
        invariant ServersOf([], Searched(snapshots)) == ServersOf(servers, Searched(snapshots[k..]))
      {
        ghost var before, rest := servers, Searched(snapshots[k + 1..]);
        assert snapshots[k..][1..] == snapshots[k + 1..];
        if snapshots[k].databases == [] {
          assert [Database("", [])] + rest != [];
          return;
        }
        var ended := ProcessDatabases(snapshots[k].databases);
        if ended {
          SearchStops(before, snapshots[k].databases, rest);
          return;
        }
        SearchPast(before, snapshots[k].databases, rest);
      }
      assert snapshots[|snapshots|..] == [];
    }

    method ProcessDatabases(dbs: seq<Database>) returns (ended: bool)
      modifies this`servers
      ensures servers == ServersOf(old(servers), dbs)
      ensures ended == exists d :: d in dbs && d.entries == []
    {
      assert dbs[0..] == dbs;
      for m := 0 to |dbs|
        invariant ServersOf(old(servers), dbs) == ServersOf(servers, dbs[m..])
        invariant forall d :: d in dbs[..m] ==> d.entries != []
      {
        assert dbs[m..][1..] == dbs[m + 1..] && dbs[..m + 1] == dbs[..m] + [dbs[m]];
        if dbs[m].entries == [] {
          return true;
        }
        ghost var found := servers;
        var entries := dbs[m].entries;
        for j := 0 to |entries|
          invariant servers == ServersIn(found, entries[..j])
        {
          assert entries[..j + 1][..j] == entries[..j];
          if entries[j].server && entries[j].prefix !in servers {
            servers := servers + [entries[j].prefix];
          }
        }
        assert entries[..|entries|] == entries;
      }
      assert dbs[..|dbs|] == dbs && dbs[|dbs|..] == [];
      return false;
    }

    /** The first pass over the databases of a snapshot. */
    method CreateCopyAndValidate(dbs: seq<Database>)
      modifies this`copyDict, this`validateDict
      ensures Pair(copyDict, validateDict) == FirstPass(servers, dbs)
    {
      copyDict, validateDict := map[], map[];
      for k := 0 to |dbs|
        invariant Pair(copyDict, validateDict) == FirstPass(servers, dbs[..k])
      {
        assert dbs[..k + 1][..k] == dbs[..k];
        if dbs[k].prefix in servers {
          continue;
        }
        CopyDatabase(dbs[k]);
      }
      assert dbs[..|dbs|] == dbs;
    }

    method CopyDatabase(d: Database)
      modifies this`copyDict, this`validateDict
      ensures copyDict == old(copyDict)[d.prefix := Copied(d.entries)]
      ensures validateDict == old(validateDict)[d.prefix := OwnCopied(d.prefix, d.entries)]
    {
      var c := d.prefix;
      copyDict, validateDict := copyDict[c := map[]], validateDict[c := map[]];
      for j := 0 to |d.entries|
        invariant copyDict == old(copyDict)[c := Copied(d.entries[..j])]
        invariant validateDict == old(validateDict)[c := OwnCopied(c, d.entries[..j])]
      {
        var i := d.entries[j];
        assert d.entries[..j + 1][..j] == d.entries[..j];
        if i.server {
          continue;
        }
        hide ListingOf;
        var listing := ListEndpoints(i);
        StoreTwice(old(copyDict), c, Copied(d.entries[..j]), i.prefix, listing);
        StoreTwice(old(validateDict), c, OwnCopied(c, d.entries[..j]), i.prefix, listing);
        copyDict := copyDict[c := copyDict[c][i.prefix := listing]];
        if i.prefix == c {
          validateDict := validateDict[c := validateDict[c][i.prefix := listing]];
        }
      }
      assert d.entries[..|d.entries|] == d.entries;
    }

    /** The dictionary items of the endpoints of an entry. */
    method ListEndpoints(i: Entry) returns (listing: Listing)
      ensures listing == ListingOf(i)
    {
      listing := map[];
      for k := 0 to |i.publishers|
        invariant listing == WithEndpoints(map[], Publisher, i.publishers[..k])
      {
        var e := i.publishers[k];
        assert i.publishers[..k + 1][..k] == i.publishers[..k];
        listing := listing[Key(Publisher, e.prefix, e.entity) := e.topic];
      }
      assert i.publishers[..|i.publishers|] == i.publishers;
      ghost var published := listing;
      for k := 0 to |i.subscribers|
        invariant listing == WithEndpoints(published, Subscriber, i.subscribers[..k])
      {
        var e := i.subscribers[k];
        assert i.subscribers[..k + 1][..k] == i.subscribers[..k];
        listing := listing[Key(Subscriber, e.prefix, e.entity) := e.topic];
      }
      assert i.subscribers[..|i.subscribers|] == i.subscribers;
    }

    /** Adds an endpoint to every database that has a match, or ends at a missing key; one method for either role. */
    method FillMatching(dbs: seq<Database>, n: Notice) returns (ok: bool)
      modifies this`validateDict
      ensures ok == !Misses(servers, old(validateDict).Keys, dbs, [n])
      ensures ok ==> validateDict == Tell(servers, old(validateDict), dbs, n)
      ensures validateDict.Keys == old(validateDict).Keys
    {
      for k := 0 to |dbs|
        invariant validateDict == Tell(servers, old(validateDict), dbs[..k], n)
        invariant validateDict.Keys == old(validateDict).Keys
        invariant !Misses(servers, old(validateDict).Keys, dbs[..k], [n])
      {
        assert dbs[..k + 1][..k] == dbs[..k] && dbs[..k + 1] == dbs[..k] + [dbs[k]];
        ok := FillDatabase(dbs[k], n);
        if !ok {
          assert n in [n] && dbs[k] in dbs;
          return;
        }
      }
      assert dbs[..|dbs|] == dbs;
      ok := true;
    }

    method FillDatabase(d: Database, n: Notice) returns (ok: bool)
      modifies this`validateDict
      ensures ok == !(Receives(servers, d, n) && d.prefix !in old(validateDict))
      ensures validateDict == if Receives(servers, d, n) then Add(old(validateDict), d.prefix, n) else old(validateDict)
      ensures validateDict.Keys == old(validateDict).Keys
    {
      var c := d.prefix;
      if n.prefix == c || c in servers {
        return true;
      }
      var offers := FirstOwnWith(c, d.entries, Opposite(n.role));
      ghost var was, matched := validateDict, false;
      for k := 0 to |offers|
        invariant matched == OnTopic(offers[..k], n.topic)
        invariant validateDict == if matched then Add(was, c, n) else was
        invariant matched ==> c in was
      {
        assert offers[..k + 1] == offers[..k] + [offers[k]];
        assert offers[..k + 1][k] == offers[k];
        if n.topic == offers[k].topic {
          ghost var now := validateDict;
          AddTwice(was, c, n);
          if c !in validateDict {
            return false;
          }
          if n.prefix !in validateDict[c] {
            validateDict := validateDict[c := validateDict[c][n.prefix := map[]]];
          }
          var listing := validateDict[c][n.prefix][Key(n.role, n.prefix, n.entity) := n.topic];
          validateDict := validateDict[c := validateDict[c][n.prefix := listing]];
          Overwritten(now, c, now[c][n.prefix := map[]], validateDict[c]);
          Overwritten(now[c], n.prefix, map[], listing);
          assert validateDict == Add(now, c, n);
          matched := true;
        }
      }
      assert offers[..|offers|] == offers;
      ok := true;
    }

    method FirstOwnWith(c: string, entries: seq<Entry>, role: Role) returns (es: seq<Endpoint>)
      ensures es == OwnWith(c, entries, role)
    {
      assert entries[0..] == entries;
      for j := 0 to |entries|
        invariant OwnWith(c, entries, role) == OwnWith(c, entries[j..], role)
      {
        assert entries[j..][1..] == entries[j + 1..];
        if entries[j].prefix == c && Endpoints(entries[j], role) != [] {
          return Endpoints(entries[j], role);
        }
      }
      assert entries[|entries|..] == [];
      return [];
    }

    /** The second pass: all participants that are not servers announce their endpoints. */
    method ProcessValidation(dbs: seq<Database>) returns (ok: bool)
      modifies this`validateDict
      ensures ok == !Misses(servers, old(validateDict).Keys, dbs, AllNotices(dbs))
      ensures ok ==> validateDict == TellAll(servers, old(validateDict), dbs, AllNotices(dbs))
      ensures validateDict.Keys == old(validateDict).Keys
    {
      for k := 0 to |dbs|
        invariant validateDict.Keys == old(validateDict).Keys
        invariant !Misses(servers, old(validateDict).Keys, dbs, AllNotices(dbs[..k]))
        invariant validateDict == TellAll(servers, old(validateDict), dbs, AllNotices(dbs[..k]))
      {
        assert dbs[..k + 1][..k] == dbs[..k];
        ghost var before, now := AllNotices(dbs[..k]), NoticesOf(dbs[k].prefix, dbs[k].entries);
        TellBoth(servers, old(validateDict), dbs, before, now);
        NoticesLater(dbs, k);
        MissesLater(servers, old(validateDict).Keys, dbs, before, now, AllNotices(dbs));
        hide TellAll, NoticesOf, Misses;
        ok := ProcessDatabase(dbs, dbs[k]);
        if !ok {
          return;
        }
      }
      assert dbs[..|dbs|] == dbs;
      ok := true;
    }

    method ProcessDatabase(dbs: seq<Database>, d: Database) returns (ok: bool)
      modifies this`validateDict
      ensures ok == !Misses(servers, old(validateDict).Keys, dbs, NoticesOf(d.prefix, d.entries))
      ensures ok ==> validateDict == TellAll(servers, old(validateDict), dbs, NoticesOf(d.prefix, d.entries))
      ensures validateDict.Keys == old(validateDict).Keys
    {
      ghost var all := NoticesOf(d.prefix, d.entries);
      assert NoticesOf(d.prefix, d.entries[..0]) == [];
      hide NoticesOf, NoticesOfEntry;
      for j := 0 to |d.entries|
        invariant validateDict.Keys == old(validateDict).Keys
        invariant !Misses(servers, old(validateDict).Keys, dbs, NoticesOf(d.prefix, d.entries[..j]))
        invariant validateDict == TellAll(servers, old(validateDict), dbs, NoticesOf(d.prefix, d.entries[..j]))
      {
        ghost var before, now := NoticesOf(d.prefix, d.entries[..j]), NoticesOfEntry(d.prefix, d.entries[j]);
        TellBoth(servers, old(validateDict), dbs, before, now);
        EntryLater(d.prefix, d.entries, j);
        MissesLater(servers, old(validateDict).Keys, dbs, before, now, all);
        hide TellAll, Misses;
        ok := ProcessEntry(dbs, d.prefix, d.entries[j]);
        if !ok {
          return;
        }
      }
      assert d.entries[..|d.entries|] == d.entries;
      ok := true;
    }

    method ProcessEntry(dbs: seq<Database>, prefix: string, i: Entry) returns (ok: bool)
      modifies this`validateDict
      ensures ok == !Misses(servers, old(validateDict).Keys, dbs, NoticesOfEntry(prefix, i))
      ensures ok ==> validateDict == TellAll(servers, old(validateDict), dbs, NoticesOfEntry(prefix, i))
      ensures validateDict.Keys == old(validateDict).Keys
    {
      if i.server || i.prefix != prefix {
        return true;
      }
      ghost var xs := NoticesOfRole(prefix, Publisher, i.publishers);
      ghost var ys := NoticesOfRole(prefix, Subscriber, i.subscribers);
      TellBoth(servers, validateDict, dbs, xs, ys);
      MissesLater(servers, validateDict.Keys, dbs, xs, ys, xs + ys);
      MissesLater(servers, validateDict.Keys, dbs, [], xs, xs + ys);
      hide TellAll, NoticesOfRole, Misses;
      ok := Announce(dbs, prefix, Publisher, i.publishers);
      if ok {
        ok := Announce(dbs, prefix, Subscriber, i.subscribers);
      }
    }

    method Announce(dbs: seq<Database>, prefix: string, role: Role, es: seq<Endpoint>) returns (ok: bool)
      modifies this`validateDict
      ensures ok == !Misses(servers, old(validateDict).Keys, dbs, NoticesOfRole(prefix, role, es))
      ensures ok ==> validateDict == TellAll(servers, old(validateDict), dbs, NoticesOfRole(prefix, role, es))
      ensures validateDict.Keys == old(validateDict).Keys
    {
      ghost var all := NoticesOfRole(prefix, role, es);
      for k := 0 to |es|
        invariant validateDict.Keys == old(validateDict).Keys
        invariant !Misses(servers, old(validateDict).Keys, dbs, NoticesOfRole(prefix, role, es[..k]))
        invariant validateDict == TellAll(servers, old(validateDict), dbs, NoticesOfRole(prefix, role, es[..k]))
      {
        assert es[..k + 1][..k] == es[..k];
        var n := Notice(role, prefix, es[k].entity, es[k].topic);
        ghost var before := NoticesOfRole(prefix, role, es[..k]);
        assert NoticesOfRole(prefix, role, es[..k + 1]) == before + [n];
        assert (before + [n])[..|before|] == before;
        RoleLater(prefix, role, es, k);
        MissesLater(servers, old(validateDict).Keys, dbs, before, [n], all);
        hide NoticesOfRole, Misses;
        ok := FillMatching(dbs, n);
        if !ok {
          return;
        }
      }
      assert es[..|es|] == es;
      ok := true;
    }

    /**
     * The verdict on a file: an unsupported test is skipped, a missing key is an error, and otherwise all
     * snapshots must pass.
     */
    method Validate(snapshots: seq<Snapshot>, disposals: bool, serverEndpoints: bool) returns (code: ReturnCode)
      modifies this
      ensures servers == Servers(snapshots)
      ensures code == Verdict(snapshots, disposals, serverEndpoints)
    {
      copies, expected := map[], map[];
      ProcessServers(snapshots);
      if serverEndpoints {
        return Skip;
      }
      if snapshots == [] {
        return Error;
      }
      CreateCopiesAndValidate(snapshots);
      var ok := ProcessSnapshots(snapshots);
      if !ok {
        return Error;
      }
      hide FirstPasses, SecondPasses;
      var passed := Compare(snapshots, disposals);
      code := if passed then Ok else Fail;
    }

    method Compare(snapshots: seq<Snapshot>, disposals: bool) returns (passed: bool)
      requires forall s :: s in snapshots ==> s.timestamp in copies && s.timestamp in expected
      ensures passed == AllPass(copies, expected, snapshots, disposals)
    {
      hide Passes;
      passed := true;
      for k := 0 to |snapshots|
        invariant passed == AllPass(copies, expected, snapshots[..k], disposals)
      {
        var t := snapshots[k].timestamp;
        assert snapshots[..k + 1] == snapshots[..k] + [snapshots[k]];
        if !Passes(copies[t], expected[t], disposals) {
          passed := false;
        }
      }
      assert snapshots[..|snapshots|] == snapshots;
    }

    /** The first pass over all snapshots. */
    method CreateCopiesAndValidate(snapshots: seq<Snapshot>)
      requires copies == map[] && expected == map[]
      modifies this`copies, this`expected, this`copyDict, this`validateDict
      ensures Pairs(copies, expected) == FirstPasses(servers, snapshots)
    {
      for k := 0 to |snapshots|
        invariant Pairs(copies, expected) == FirstPasses(servers, snapshots[..k])
      {
        assert snapshots[..k + 1][..k] == snapshots[..k];
        CreateCopyAndValidate(snapshots[k].databases);
        copies := copies[snapshots[k].timestamp := copyDict];
        expected := expected[snapshots[k].timestamp := validateDict];
      }
      assert snapshots[..|snapshots|] == snapshots;
    }

    /** The second pass over all snapshots. */
    method ProcessSnapshots(snapshots: seq<Snapshot>) returns (ok: bool)
      requires forall s :: s in snapshots ==> s.timestamp in expected
      modifies this`expected, this`validateDict
      ensures var r := SecondPasses(servers, old(expected), snapshots);
              ok == r.Just? && (ok ==> expected == r.value)
    {
      for k := 0 to |snapshots|
        invariant expected.Keys == old(expected).Keys
        invariant SecondPasses(servers, old(expected), snapshots[..k]) == Just(expected)
      {
        var s := snapshots[k];
        assert snapshots[..k + 1][..k] == snapshots[..k];
        NothingLater(servers, old(expected), snapshots, k + 1);
        hide Misses, TellAll, AllNotices;
        if s.databases == [] {
          return false;
        }
        validateDict := expected[s.timestamp];
        ok := ProcessValidation(s.databases);
        if !ok {
          return;
        }
        expected := expected[s.timestamp := validateDict];
      }
      assert snapshots[..|snapshots|] == snapshots;
      ok := true;
    }
  }

  /** A missing key stays missing. */
  lemma {:induction false} NothingLater(servers: seq<string>, dicts: Dicts, shots: seq<Snapshot>, k: nat)
    requires k <= |shots| && forall s :: s in shots ==> s.timestamp in dicts
    ensures SecondPasses(servers, dicts, shots[..k]).Nothing? ==> SecondPasses(servers, dicts, shots).Nothing?
    decreases |shots|
  {
    if k < |shots| {
      assert shots[..|shots| - 1][..k] == shots[..k];
      NothingLater(servers, dicts, shots[..|shots| - 1], k);
    } else {
      assert shots[..k] == shots;
    }
  }

  lemma MissesLater(servers: seq<string>, places: set<string>, dbs: seq<Database>, xs: seq<Notice>, ys: seq<Notice>,
                    all: seq<Notice>)
    requires forall n :: n in ys ==> n in all
    ensures Misses(servers, places, dbs, xs + ys) <==>
            Misses(servers, places, dbs, xs) || Misses(servers, places, dbs, ys)
    ensures Misses(servers, places, dbs, ys) ==> Misses(servers, places, dbs, all)
  {
    hide Receives;
    assert forall n :: n in xs + ys <==> n in xs || n in ys;
  }

  lemma {:induction false} NoticesLater(dbs: seq<Database>, k: nat)
    requires k < |dbs|
    ensures forall n :: n in NoticesOf(dbs[k].prefix, dbs[k].entries) ==> n in AllNotices(dbs)
  {
    hide NoticesOf;
    if k < |dbs| - 1 {
      NoticesLater(dbs[..|dbs| - 1], k);
    }
  }

  lemma {:induction false} EntryLater(prefix: string, entries: seq<Entry>, j: nat)
    requires j < |entries|
    ensures forall n :: n in NoticesOfEntry(prefix, entries[j]) ==> n in NoticesOf(prefix, entries)
    ensures NoticesOf(prefix, entries[..j + 1]) == NoticesOf(prefix, entries[..j]) + NoticesOfEntry(prefix, entries[j])
  {
    hide NoticesOfEntry;
    assert entries[..j + 1][..j] == entries[..j];
    if j < |entries| - 1 {
      EntryLater(prefix, entries[..|entries| - 1], j);
    }
  }

  lemma {:induction false} RoleLater(prefix: string, role: Role, es: seq<Endpoint>, k: nat)
    requires k < |es|
    ensures Notice(role, prefix, es[k].entity, es[k].topic) in NoticesOfRole(prefix, role, es)
  {
    if k < |es| - 1 {
      RoleLater(prefix, role, es[..|es| - 1], k);
    }
  }
}
