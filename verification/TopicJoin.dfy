/** The dictionary that the validator generates for a snapshot, and the join on topics that it must be. */
module TopicJoin {

  datatype Role = Publisher | Subscriber

  function Opposite(role: Role): Role {
    if role == Publisher then Subscriber else Publisher
  }

  datatype Endpoint = Endpoint(prefix: string, entity: string, topic: string)

  /** What a database says about a participant. */
  datatype Entry = Entry(prefix: string, server: bool, publishers: seq<Endpoint>, subscribers: seq<Endpoint>)

  /** The database of one participant in a snapshot. */
  datatype Database = Database(prefix: string, entries: seq<Entry>)

  /** The name of an endpoint in the dictionary. */
  datatype Key = Key(role: Role, prefix: string, entity: string)

  type Listing = map<Key, string>
  type Known = map<string, Listing>
  type Dict = map<string, Known>

  function Endpoints(i: Entry, role: Role): seq<Endpoint> {
    if role == Publisher then i.publishers else i.subscribers
  }

  // ---------- The first pass ----------

  /** A listing with the endpoints of one role added. */
  function WithEndpoints(m: Listing, role: Role, es: seq<Endpoint>): Listing {
    if es == [] then m
    else
      var e := es[|es| - 1];
      WithEndpoints(m, role, es[..|es| - 1])[Key(role, e.prefix, e.entity) := e.topic]
  }

  function ListingOf(i: Entry): Listing {
    WithEndpoints(WithEndpoints(map[], Publisher, i.publishers), Subscriber, i.subscribers)
  }

  /** The entries that are not servers. */
  function Copied(entries: seq<Entry>): Known {
    if entries == [] then map[]
    else
      var i := entries[|entries| - 1];
      var m := Copied(entries[..|entries| - 1]);
      if i.server then m else m[i.prefix := ListingOf(i)]
  }

  /** The participant's own entry, unless it is a server. */
  function OwnCopied(prefix: string, entries: seq<Entry>): Known {
    if entries == [] then map[]
    else
      var i := entries[|entries| - 1];
      var m := OwnCopied(prefix, entries[..|entries| - 1]);
      if i.server || i.prefix != prefix then m else m[i.prefix := ListingOf(i)]
  }

  /** The two dictionaries after the first pass: what the databases hold, and what each holds of itself. */
  datatype Pair = Pair(copy: Dict, validate: Dict)

  function FirstPass(servers: seq<string>, dbs: seq<Database>): Pair {
    if dbs == [] then Pair(map[], map[])
    else
      var d := dbs[|dbs| - 1];
      var r := FirstPass(servers, dbs[..|dbs| - 1]);
      if d.prefix in servers then r
      else Pair(r.copy[d.prefix := Copied(d.entries)], r.validate[d.prefix := OwnCopied(d.prefix, d.entries)])
  }

  // ---------- The second pass ----------

  /** An endpoint that its participant lists in its own database. */
  datatype Notice = Notice(role: Role, prefix: string, entity: string, topic: string)

  /** The listing of a remote endpoint in the database of c. */
  function Add(dict: Dict, c: string, n: Notice): Dict {
    if c !in dict then dict
    else
      var listing := if n.prefix in dict[c] then dict[c][n.prefix] else map[];
      dict[c := dict[c][n.prefix := listing[Key(n.role, n.prefix, n.entity) := n.topic]]]
  }

  /** The own entry that is asked for endpoints of a role: the first that has any. */
  function OwnWith(prefix: string, entries: seq<Entry>, role: Role): seq<Endpoint> {
    if entries == [] then []
    else if entries[0].prefix == prefix && Endpoints(entries[0], role) != [] then Endpoints(entries[0], role)
    else OwnWith(prefix, entries[1..], role)
  }

  predicate OnTopic(es: seq<Endpoint>, topic: string) {
    exists k :: 0 <= k < |es| && es[k].topic == topic
  }

  /** The participant of the database is told of the endpoint. */
  predicate Receives(servers: seq<string>, d: Database, n: Notice) {
    && d.prefix != n.prefix && d.prefix !in servers
    && OnTopic(OwnWith(d.prefix, d.entries, Opposite(n.role)), n.topic)
  }

  /** One endpoint goes to all databases that have a match. */
  function Tell(servers: seq<string>, dict: Dict, dbs: seq<Database>, n: Notice): Dict {
    if dbs == [] then dict
    else
      var d := dbs[|dbs| - 1];
      var r := Tell(servers, dict, dbs[..|dbs| - 1], n);
      if Receives(servers, d, n) then Add(r, d.prefix, n) else r
  }

  function NoticesOfRole(prefix: string, role: Role, es: seq<Endpoint>): seq<Notice> {
    if es == [] then []
    else NoticesOfRole(prefix, role, es[..|es| - 1]) + [Notice(role, prefix, es[|es| - 1].entity, es[|es| - 1].topic)]
  }

  function NoticesOfEntry(prefix: string, i: Entry): seq<Notice> {
    if i.server || i.prefix != prefix then []
    else NoticesOfRole(prefix, Publisher, i.publishers) + NoticesOfRole(prefix, Subscriber, i.subscribers)
  }

  function NoticesOf(prefix: string, entries: seq<Entry>): seq<Notice> {
    if entries == [] then []
    else NoticesOf(prefix, entries[..|entries| - 1]) + NoticesOfEntry(prefix, entries[|entries| - 1])
  }

  function AllNotices(dbs: seq<Database>): seq<Notice> {
    if dbs == [] then []
    else AllNotices(dbs[..|dbs| - 1]) + NoticesOf(dbs[|dbs| - 1].prefix, dbs[|dbs| - 1].entries)
  }

  function TellAll(servers: seq<string>, dict: Dict, dbs: seq<Database>, ns: seq<Notice>): Dict {
    if ns == [] then dict
    else Tell(servers, TellAll(servers, dict, dbs, ns[..|ns| - 1]), dbs, ns[|ns| - 1])
  }

  lemma {:induction false} TellBoth(servers: seq<string>, dict: Dict, dbs: seq<Database>,
                                    xs: seq<Notice>, ys: seq<Notice>)
    ensures TellAll(servers, dict, dbs, xs + ys) == TellAll(servers, TellAll(servers, dict, dbs, xs), dbs, ys)
    decreases |ys|
  {
    if ys == [] {
      assert xs + ys == xs;
    } else {
      assert (xs + ys)[..|xs| + |ys| - 1] == xs + ys[..|ys| - 1];
      TellBoth(servers, dict, dbs, xs, ys[..|ys| - 1]);
    }
  }

  /** The dictionary that the validator expects the snapshot to show. */
  function Expected(servers: seq<string>, dbs: seq<Database>): Dict {
    TellAll(servers, FirstPass(servers, dbs).validate, dbs, AllNotices(dbs))
  }

  // ---------- What a dictionary says ----------

  predicate Knows(dict: Dict, c: string, p: string) {
    c in dict && p in dict[c]
  }

  /** In the dictionary, c lists this endpoint of p. */
  predicate Lists(dict: Dict, c: string, p: string, key: Key) {
    Knows(dict, c, p) && key in dict[c][p]
  }

  lemma AddMeans(dict: Dict, to: string, n: Notice, c: string, p: string, key: Key)
    ensures Knows(Add(dict, to, n), c, p) <==> Knows(dict, c, p) || (to in dict && c == to && p == n.prefix)
    ensures Lists(Add(dict, to, n), c, p, key) <==>
              Lists(dict, c, p, key)
              || (to in dict && c == to && p == n.prefix && key == Key(n.role, n.prefix, n.entity))
    ensures Lists(Add(dict, to, n), c, p, key) ==>
              Add(dict, to, n)[c][p][key] ==
              if to in dict && c == to && p == n.prefix && key == Key(n.role, n.prefix, n.entity) then n.topic
              else dict[c][p][key]
    ensures Add(dict, to, n).Keys == dict.Keys
  {
  }

  lemma {:induction false} TellMeans(servers: seq<string>, dict: Dict, dbs: seq<Database>, n: Notice,
                                     c: string, p: string, key: Key)
    ensures var r := Tell(servers, dict, dbs, n);
            var told := c in dict && p == n.prefix && exists d :: d in dbs && d.prefix == c && Receives(servers, d, n);
            && r.Keys == dict.Keys
            && (Knows(r, c, p) <==> Knows(dict, c, p) || told)
            && (Lists(r, c, p, key) <==> Lists(dict, c, p, key) || (told && key == Key(n.role, n.prefix, n.entity)))
            && (Lists(r, c, p, key) ==>
                  r[c][p][key] == if told && key == Key(n.role, n.prefix, n.entity) then n.topic else dict[c][p][key])
    decreases |dbs|
  {
    if dbs != [] {
      var rest, d := dbs[..|dbs| - 1], dbs[|dbs| - 1];
      TellMeans(servers, dict, rest, n, c, p, key);
      hide Receives, Add;
      AddMeans(Tell(servers, dict, rest, n), d.prefix, n, c, p, key);
      assert dbs == rest + [d];
    }
  }

  /** One of the notices reaches the database of c. */
  ghost predicate Told(servers: seq<string>, dbs: seq<Database>, ns: seq<Notice>, c: string, p: string) {
    exists n, d :: n in ns && d in dbs && n.prefix == p && d.prefix == c && Receives(servers, d, n)
  }

  ghost predicate ToldOn(servers: seq<string>, dbs: seq<Database>, ns: seq<Notice>, c: string, p: string, key: Key,
                         topic: string) {
    exists n, d :: n in ns && d in dbs && n.prefix == p && d.prefix == c && Receives(servers, d, n)
                   && key == Key(n.role, n.prefix, n.entity) && n.topic == topic
  }

  lemma {:induction false} TellAllMeans(servers: seq<string>, dict: Dict, dbs: seq<Database>, ns: seq<Notice>,
                                        c: string, p: string, key: Key)
    requires c in dict
    ensures var r := TellAll(servers, dict, dbs, ns);
            && r.Keys == dict.Keys
            && (Knows(r, c, p) <==> Knows(dict, c, p) || Told(servers, dbs, ns, c, p))
            && (Lists(dict, c, p, key) ==> Lists(r, c, p, key))
            && (forall topic :: ToldOn(servers, dbs, ns, c, p, key, topic) ==> Lists(r, c, p, key))
            && (Lists(r, c, p, key) ==>
                  || ToldOn(servers, dbs, ns, c, p, key, r[c][p][key])
                  || (Lists(dict, c, p, key) && r[c][p][key] == dict[c][p][key]))
    decreases |ns|
  {
    if ns != [] {
      var rest, n := ns[..|ns| - 1], ns[|ns| - 1];
      TellAllMeans(servers, dict, dbs, rest, c, p, key);
      TellMeans(servers, TellAll(servers, dict, dbs, rest), dbs, n, c, p, key);
      hide Receives, Tell;
      var r := TellAll(servers, dict, dbs, ns);
      forall topic | ToldOn(servers, dbs, ns, c, p, key, topic) ensures Lists(r, c, p, key) {
        var m, d :| m in ns && d in dbs && m.prefix == p && d.prefix == c && Receives(servers, d, m)
                    && key == Key(m.role, m.prefix, m.entity) && m.topic == topic;
        assert m == n || m in rest;
        assert m in rest ==> ToldOn(servers, dbs, rest, c, p, key, topic);
      }
      assert ns == rest + [n];
    }
  }

  // ---------- What the notices and the first pass hold ----------

  /** One own entry per participant, one database per participant. */
  ghost predicate Unique(dbs: seq<Database>) {
    && (forall x, y :: x in dbs && y in dbs && x.prefix == y.prefix ==> x == y)
    && (forall d :: d in dbs ==> UniqueEntries(d.entries))
  }

  ghost predicate UniqueEntries(entries: seq<Entry>) {
    forall i, j :: i in entries && j in entries && i.prefix == j.prefix ==> i == j
  }

  /** The entry of a participant in its own database. */
  ghost predicate IsOwn(dbs: seq<Database>, p: string, i: Entry) {
    i.prefix == p && exists d :: d in dbs && d.prefix == p && i in d.entries
  }

  ghost predicate Has(i: Entry, role: Role, entity: string, topic: string) {
    exists e :: e in Endpoints(i, role) && e.entity == entity && e.topic == topic
  }

  ghost predicate HasTopic(i: Entry, role: Role, topic: string) {
    exists e :: e in Endpoints(i, role) && e.topic == topic
  }

  lemma {:induction false} NoticesOfRoleMean(prefix: string, role: Role, es: seq<Endpoint>, n: Notice)
    ensures n in NoticesOfRole(prefix, role, es) <==>
            n.role == role && n.prefix == prefix && exists e :: e in es && e.entity == n.entity && e.topic == n.topic
    decreases |es|
  {
    if es != [] {
      NoticesOfRoleMean(prefix, role, es[..|es| - 1], n);
      assert es == es[..|es| - 1] + [es[|es| - 1]];
    }
  }

  /** The notice comes from this entry. */
  ghost predicate From(prefix: string, i: Entry, n: Notice) {
    !i.server && i.prefix == prefix && n.prefix == prefix && Has(i, n.role, n.entity, n.topic)
  }

  lemma NoticesOfEntryMean(prefix: string, i: Entry, n: Notice)
    ensures n in NoticesOfEntry(prefix, i) <==> From(prefix, i, n)
  {
    NoticesOfRoleMean(prefix, Publisher, i.publishers, n);
    NoticesOfRoleMean(prefix, Subscriber, i.subscribers, n);
  }

  lemma {:induction false} NoticesOfMean(prefix: string, entries: seq<Entry>, n: Notice)
    ensures n in NoticesOf(prefix, entries) <==> exists i :: i in entries && From(prefix, i, n)
    decreases |entries|
  {
    if entries != [] {
      var last := |entries| - 1;
      NoticesOfMean(prefix, entries[..last], n);
      NoticesOfEntryMean(prefix, entries[last], n);
      hide From, NoticesOfEntry;
      assert entries == entries[..last] + [entries[last]];
    }
  }

  lemma OwnOfLast(dbs: seq<Database>, p: string, i: Entry)
    requires dbs != []
    ensures var d := dbs[|dbs| - 1];
            IsOwn(dbs, p, i) <==> IsOwn(dbs[..|dbs| - 1], p, i) || (i.prefix == p == d.prefix && i in d.entries)
  {
    assert dbs == dbs[..|dbs| - 1] + [dbs[|dbs| - 1]];
  }

  /** The second pass announces what participants that are not servers say of themselves. */
  lemma {:induction false} AllNoticesMean(dbs: seq<Database>, n: Notice)
    ensures n in AllNotices(dbs) <==>
            exists i :: IsOwn(dbs, n.prefix, i) && !i.server && Has(i, n.role, n.entity, n.topic)
    decreases |dbs|
  {
    if dbs != [] {
      var last := |dbs| - 1;
      var d := dbs[last];
      AllNoticesMean(dbs[..last], n);
      NoticesOfMean(d.prefix, d.entries, n);
      hide Has, IsOwn, NoticesOf;
      forall i ensures IsOwn(dbs, n.prefix, i) <==>
                       IsOwn(dbs[..last], n.prefix, i) || (i.prefix == n.prefix == d.prefix && i in d.entries)
      {
        OwnOfLast(dbs, n.prefix, i);
      }
    }
  }

  lemma {:induction false} WithEndpointsMean(m: Listing, role: Role, es: seq<Endpoint>, key: Key)
    ensures key in WithEndpoints(m, role, es) <==>
            key in m || exists e :: e in es && key == Key(role, e.prefix, e.entity)
    ensures key in WithEndpoints(m, role, es) ==>
              || (key in m && WithEndpoints(m, role, es)[key] == m[key])
              || exists e :: e in es && key == Key(role, e.prefix, e.entity)
                             && WithEndpoints(m, role, es)[key] == e.topic
    decreases |es|
  {
    if es != [] {
      WithEndpointsMean(m, role, es[..|es| - 1], key);
      assert es == es[..|es| - 1] + [es[|es| - 1]];
    }
  }

  lemma ListingMeans(i: Entry, key: Key)
    ensures key in ListingOf(i) ==> Names(i, key, ListingOf(i)[key])
    ensures forall topic :: Names(i, key, topic) ==> key in ListingOf(i)
  {
    WithEndpointsMean(map[], Publisher, i.publishers, key);
    WithEndpointsMean(WithEndpoints(map[], Publisher, i.publishers), Subscriber, i.subscribers, key);
  }

  lemma {:induction false} CopiedMeans(entries: seq<Entry>, p: string)
    requires UniqueEntries(entries)
    ensures p in Copied(entries) <==> exists i :: i in entries && !i.server && i.prefix == p
    ensures forall i :: i in entries && !i.server && i.prefix == p && p in Copied(entries) ==>
              Copied(entries)[p] == ListingOf(i)
    decreases |entries|
  {
    if entries != [] {
      var last := |entries| - 1;
      assert entries == entries[..last] + [entries[last]];
      hide ListingOf;
      CopiedMeans(entries[..last], p);
    }
  }

  lemma {:induction false} OwnCopiedMeans(prefix: string, entries: seq<Entry>, p: string)
    requires UniqueEntries(entries)
    ensures p in OwnCopied(prefix, entries) <==> p == prefix && exists i :: i in entries && !i.server && i.prefix == p
    ensures forall i :: i in entries && !i.server && i.prefix == p && p in OwnCopied(prefix, entries) ==>
              OwnCopied(prefix, entries)[p] == ListingOf(i)
    decreases |entries|
  {
    if entries != [] {
      var last := |entries| - 1;
      assert entries == entries[..last] + [entries[last]];
      hide ListingOf;
      OwnCopiedMeans(prefix, entries[..last], p);
    }
  }

  /** The first pass sees every database of a participant that is not a server. */
  lemma {:induction false} FirstPassMeans(servers: seq<string>, dbs: seq<Database>, d: Database)
    requires Unique(dbs) && d in dbs
    ensures var r := FirstPass(servers, dbs);
            if d.prefix in servers then d.prefix !in r.copy && d.prefix !in r.validate
            else && d.prefix in r.copy && r.copy[d.prefix] == Copied(d.entries)
                 && d.prefix in r.validate && r.validate[d.prefix] == OwnCopied(d.prefix, d.entries)
    decreases |dbs|
  {
    var last := |dbs| - 1;
    assert dbs == dbs[..last] + [dbs[last]];
    hide Copied, OwnCopied, UniqueEntries;
    if d in dbs[..last] {
      FirstPassMeans(servers, dbs[..last], d);
    } else {
      FirstPassNoMore(servers, dbs[..last], d.prefix);
    }
  }

  lemma {:induction false} FirstPassNoMore(servers: seq<string>, dbs: seq<Database>, c: string)
    requires c in servers || forall d :: d in dbs ==> d.prefix != c
    ensures c !in FirstPass(servers, dbs).copy && c !in FirstPass(servers, dbs).validate
    decreases |dbs|
  {
    if dbs != [] {
      hide Copied, OwnCopied;
      FirstPassNoMore(servers, dbs[..|dbs| - 1], c);
    }
  }

  lemma {:induction false} OwnWithMeans(prefix: string, entries: seq<Entry>, role: Role, topic: string)
    requires UniqueEntries(entries)
    ensures OnTopic(OwnWith(prefix, entries, role), topic) <==>
            exists i :: i in entries && i.prefix == prefix && HasTopic(i, role, topic)
  {
    if entries != [] {
      var i := entries[0];
      assert entries == [i] + entries[1..];
      OwnWithMeans(prefix, entries[1..], role, topic);
      TopicOfEntry(i, role, topic);
      hide HasTopic, OnTopic;
      assert i.prefix == prefix ==> forall j :: j in entries[1..] && j.prefix == prefix ==> j == i;
    }
  }

  lemma TopicOfEntry(i: Entry, role: Role, topic: string)
    ensures OnTopic(Endpoints(i, role), topic) <==> HasTopic(i, role, topic)
    ensures Endpoints(i, role) == [] ==> !HasTopic(i, role, topic)
  {
  }

  // ---------- The join ----------

  /** This endpoint of p is on the topic, and so is one of c of the opposite role. */
  ghost predicate MatchOn(dbs: seq<Database>, c: string, p: string, role: Role, entity: string, topic: string) {
    exists i, j :: IsOwn(dbs, p, i) && !i.server && Has(i, role, entity, topic)
                   && IsOwn(dbs, c, j) && HasTopic(j, Opposite(role), topic)
  }

  /** An entry names this endpoint, with this topic. */
  ghost predicate Names(i: Entry, key: Key, topic: string) {
    exists e :: e in Endpoints(i, key.role) && key == Key(key.role, e.prefix, e.entity) && e.topic == topic
  }

  /** The database of c holds this endpoint among those of c itself. */
  ghost predicate OwnOn(dbs: seq<Database>, c: string, key: Key, topic: string) {
    exists i :: IsOwn(dbs, c, i) && !i.server && Names(i, key, topic)
  }

  /** The endpoints that c should list of p, and their topics. */
  ghost predicate ShouldListOn(dbs: seq<Database>, c: string, p: string, key: Key, topic: string) {
    if p == c then OwnOn(dbs, c, key, topic)
    else key.prefix == p && MatchOn(dbs, c, p, key.role, key.entity, topic)
  }

  ghost predicate ShouldList(dbs: seq<Database>, c: string, p: string, key: Key) {
    exists topic :: ShouldListOn(dbs, c, p, key, topic)
  }

  lemma ReceivesMeans(servers: seq<string>, dbs: seq<Database>, d: Database, n: Notice)
    requires Unique(dbs) && d in dbs && d.prefix !in servers && d.prefix != n.prefix
    ensures Receives(servers, d, n) <==> exists j :: IsOwn(dbs, d.prefix, j) && HasTopic(j, Opposite(n.role), n.topic)
  {
    hide HasTopic, OnTopic, OwnWith, UniqueEntries;
    OwnWithMeans(d.prefix, d.entries, Opposite(n.role), n.topic);
  }

  lemma ToldOnMeans(servers: seq<string>, dbs: seq<Database>, c: string, p: string, key: Key, topic: string)
    requires Unique(dbs) && c !in servers && c != p
    ensures ToldOn(servers, dbs, AllNotices(dbs), c, p, key, topic) <==>
            key.prefix == p && MatchOn(dbs, c, p, key.role, key.entity, topic)
  {
    hide Has, HasTopic, Receives, AllNotices, Unique;
    if ToldOn(servers, dbs, AllNotices(dbs), c, p, key, topic) {
      var n, d :| n in AllNotices(dbs) && d in dbs && n.prefix == p && d.prefix == c && Receives(servers, d, n)
                  && key == Key(n.role, n.prefix, n.entity) && n.topic == topic;
      AllNoticesMean(dbs, n);
      ReceivesMeans(servers, dbs, d, n);
    }
    if key.prefix == p && MatchOn(dbs, c, p, key.role, key.entity, topic) {
      var i, j :| IsOwn(dbs, p, i) && !i.server && Has(i, key.role, key.entity, topic)
                  && IsOwn(dbs, c, j) && HasTopic(j, Opposite(key.role), topic);
      var n := Notice(key.role, p, key.entity, topic);
      AllNoticesMean(dbs, n);
      var d :| d in dbs && d.prefix == c && j in d.entries;
      ReceivesMeans(servers, dbs, d, n);
    }
  }

  /** The databases of participants that are not servers. */
  predicate IsListed(servers: seq<string>, dbs: seq<Database>, c: string) {
    c !in servers && exists d :: d in dbs && d.prefix == c
  }

  lemma OwnListed(servers: seq<string>, dbs: seq<Database>, c: string, p: string, key: Key)
    requires Unique(dbs) && IsListed(servers, dbs, c)
    ensures var r := FirstPass(servers, dbs).validate;
            && c in r
            && (Knows(r, c, p) <==> p == c && exists i :: IsOwn(dbs, c, i) && !i.server)
            && (Lists(r, c, p, key) ==> p == c && OwnOn(dbs, c, key, r[c][p][key]))
            && (p == c ==> forall topic :: OwnOn(dbs, c, key, topic) ==> Lists(r, c, p, key))
  {
    var d :| d in dbs && d.prefix == c;
    FirstPassMeans(servers, dbs, d);
    OwnCopiedMeans(c, d.entries, p);
    hide FirstPass, OwnCopied, ListingOf, Names;
    assert forall i :: IsOwn(dbs, c, i) <==> i in d.entries && i.prefix == c;
    forall i
      ensures key in ListingOf(i) ==> Names(i, key, ListingOf(i)[key])
      ensures forall topic :: Names(i, key, topic) ==> key in ListingOf(i)
    {
      ListingMeans(i, key);
    }
  }

  /**
   * The join: the expected dictionary lists, for every participant that is not a server, its own
   * endpoints and the remote endpoints for which it has one of the opposite role on the same topic.
   */
  lemma ExpectedIsJoin(servers: seq<string>, dbs: seq<Database>, c: string, p: string, key: Key)
    requires Unique(dbs)
    ensures var dict := Expected(servers, dbs);
            && (Lists(dict, c, p, key) <==> IsListed(servers, dbs, c) && ShouldList(dbs, c, p, key))
            && (Lists(dict, c, p, key) ==> ShouldListOn(dbs, c, p, key, dict[c][p][key]))
  {
    var start := FirstPass(servers, dbs).validate;
    if IsListed(servers, dbs, c) {
      hide Unique, IsListed, Lists, ShouldListOn, Expected, FirstPass;
      if p == c {
        JoinOfOneself(servers, dbs, c, key);
      } else {
        JoinOfOthers(servers, dbs, c, p, key);
      }
    } else {
      FirstPassNoMore(servers, dbs, c);
      SameDatabases(servers, start, dbs, AllNotices(dbs));
    }
  }

  lemma JoinOfOneself(servers: seq<string>, dbs: seq<Database>, c: string, key: Key)
    requires Unique(dbs) && IsListed(servers, dbs, c)
    ensures var dict := Expected(servers, dbs);
            && (Lists(dict, c, c, key) ==> ShouldListOn(dbs, c, c, key, dict[c][c][key]))
            && (forall topic :: ShouldListOn(dbs, c, c, key, topic) ==> Lists(dict, c, c, key))
  {
    hide Unique, IsListed, OwnOn, ToldOn, Told;
    OwnListed(servers, dbs, c, c, key);
    TellAllMeans(servers, FirstPass(servers, dbs).validate, dbs, AllNotices(dbs), c, c, key);
    NotToldOfOneself(servers, dbs, AllNotices(dbs), c, key);
  }

  lemma JoinOfOthers(servers: seq<string>, dbs: seq<Database>, c: string, p: string, key: Key)
    requires Unique(dbs) && IsListed(servers, dbs, c) && p != c
    ensures var dict := Expected(servers, dbs);
            && (Lists(dict, c, p, key) ==> ShouldListOn(dbs, c, p, key, dict[c][p][key]))
            && (forall topic :: ShouldListOn(dbs, c, p, key, topic) ==> Lists(dict, c, p, key))
  {
    assert c !in servers;
    hide Unique, IsListed, OwnOn, MatchOn, ToldOn, Told;
    OwnListed(servers, dbs, c, p, key);
    TellAllMeans(servers, FirstPass(servers, dbs).validate, dbs, AllNotices(dbs), c, p, key);
    forall topic
      ensures ToldOn(servers, dbs, AllNotices(dbs), c, p, key, topic) <==>
              key.prefix == p && MatchOn(dbs, c, p, key.role, key.entity, topic)
    {
      ToldOnMeans(servers, dbs, c, p, key, topic);
    }
  }

  lemma NotToldOfOneself(servers: seq<string>, dbs: seq<Database>, ns: seq<Notice>, c: string, key: Key)
    ensures forall topic :: !ToldOn(servers, dbs, ns, c, c, key, topic)
  {
  }

  /** In an entry of the snapshot every endpoint has one topic. */
  ghost predicate SingleTopics(dbs: seq<Database>) {
    forall d, i, role, e, f ::
      (d in dbs && i in d.entries && e in Endpoints(i, role) && f in Endpoints(i, role) && e.entity == f.entity)
      ==> e.topic == f.topic
  }

  lemma OneTopic(dbs: seq<Database>, c: string, p: string, key: Key, t: string, u: string)
    requires Unique(dbs) && SingleTopics(dbs)
    requires ShouldListOn(dbs, c, p, key, t) && ShouldListOn(dbs, c, p, key, u)
    ensures t == u
  {
  }

  /** If every endpoint has one topic, the join determines the listed topics as well. */
  lemma ExpectedTopics(servers: seq<string>, dbs: seq<Database>, c: string, p: string, key: Key, topic: string)
    requires Unique(dbs) && SingleTopics(dbs)
    ensures var dict := Expected(servers, dbs);
            Lists(dict, c, p, key) && dict[c][p][key] == topic <==>
            IsListed(servers, dbs, c) && ShouldListOn(dbs, c, p, key, topic)
  {
    hide Expected, IsListed, ShouldListOn, SingleTopics, Unique;
    ExpectedIsJoin(servers, dbs, c, p, key);
    var dict := Expected(servers, dbs);
    if IsListed(servers, dbs, c) && ShouldListOn(dbs, c, p, key, topic) {
      OneTopic(dbs, c, p, key, topic, dict[c][p][key]);
    }
  }

  lemma {:induction false} SameDatabases(servers: seq<string>, dict: Dict, dbs: seq<Database>, ns: seq<Notice>)
    ensures TellAll(servers, dict, dbs, ns).Keys == dict.Keys
    decreases |ns|
  {
    if ns != [] {
      SameDatabases(servers, dict, dbs, ns[..|ns| - 1]);
      var before := TellAll(servers, dict, dbs, ns[..|ns| - 1]);
      TellMeans(servers, before, dbs, ns[|ns| - 1], "", "", Key(Publisher, "", ""));
    }
  }

  /** c is told of p if the two have endpoints of opposite roles on a common topic. */
  ghost predicate Meet(dbs: seq<Database>, c: string, p: string) {
    exists i, j, role, topic :: IsOwn(dbs, p, i) && IsOwn(dbs, c, j) && !i.server
                                && HasTopic(i, role, topic) && HasTopic(j, Opposite(role), topic)
  }

  lemma ToldMeans(servers: seq<string>, dbs: seq<Database>, c: string, p: string)
    requires Unique(dbs) && c !in servers && c != p
    ensures Told(servers, dbs, AllNotices(dbs), c, p) <==> Meet(dbs, c, p)
  {
    hide Receives, AllNotices, Unique;
    if Told(servers, dbs, AllNotices(dbs), c, p) {
      var n, d :| n in AllNotices(dbs) && d in dbs && n.prefix == p && d.prefix == c && Receives(servers, d, n);
      AllNoticesMean(dbs, n);
      ReceivesMeans(servers, dbs, d, n);
      var i :| IsOwn(dbs, p, i) && !i.server && Has(i, n.role, n.entity, n.topic);
      assert HasTopic(i, n.role, n.topic);
    }
    if Meet(dbs, c, p) {
      var i, j, role, topic :| IsOwn(dbs, p, i) && IsOwn(dbs, c, j) && !i.server
                               && HasTopic(i, role, topic) && HasTopic(j, Opposite(role), topic);
      var e :| e in Endpoints(i, role) && e.topic == topic;
      assert Has(i, role, e.entity, topic);
      var n := Notice(role, p, e.entity, topic);
      AllNoticesMean(dbs, n);
      var d :| d in dbs && d.prefix == c && j in d.entries;
      ReceivesMeans(servers, dbs, d, n);
    }
  }

  /** A participant is known to another exactly if they meet on a topic. */
  lemma KnownIfMet(servers: seq<string>, dbs: seq<Database>, c: string, p: string)
    requires Unique(dbs) && IsListed(servers, dbs, c) && c != p
    ensures Knows(Expected(servers, dbs), c, p) <==> Meet(dbs, c, p)
  {
    var key := Key(Publisher, "", "");
    assert c !in servers;
    hide IsListed, Unique, Meet, Receives;
    OwnListed(servers, dbs, c, p, key);
    TellAllMeans(servers, FirstPass(servers, dbs).validate, dbs, AllNotices(dbs), c, p, key);
    ToldMeans(servers, dbs, c, p);
  }

  /** A participant that is a client: neither its database nor its own entry is a server's. */
  ghost predicate IsClient(servers: seq<string>, dbs: seq<Database>, c: string) {
    IsListed(servers, dbs, c) && forall i :: IsOwn(dbs, c, i) ==> !i.server
  }

  /** Between clients knowing is mutual. */
  lemma KnowingIsMutual(servers: seq<string>, dbs: seq<Database>, c: string, p: string)
    requires Unique(dbs) && IsClient(servers, dbs, c) && IsClient(servers, dbs, p) && c != p
    ensures Knows(Expected(servers, dbs), c, p) <==> Knows(Expected(servers, dbs), p, c)
  {
    KnownIfMet(servers, dbs, c, p);
    KnownIfMet(servers, dbs, p, c);
    if Meet(dbs, c, p) {
      MeetingIsMutual(dbs, c, p);
    }
    if Meet(dbs, p, c) {
      MeetingIsMutual(dbs, p, c);
    }
  }

  lemma MeetingIsMutual(dbs: seq<Database>, c: string, p: string)
    requires Meet(dbs, c, p) && forall j :: IsOwn(dbs, c, j) ==> !j.server
    ensures Meet(dbs, p, c)
  {
    var i, j, role, topic :| IsOwn(dbs, p, i) && IsOwn(dbs, c, j) && !i.server
                             && HasTopic(i, role, topic) && HasTopic(j, Opposite(role), topic);
    assert Opposite(Opposite(role)) == role;
    assert HasTopic(i, Opposite(Opposite(role)), topic);
  }

  // ---------- The verdict ----------

  /** The snapshot shows, in the database of c, this endpoint of p on this topic. */
  ghost predicate ShowsOn(dbs: seq<Database>, c: string, p: string, key: Key, topic: string) {
    exists d, i :: d in dbs && d.prefix == c && i in d.entries && i.prefix == p && !i.server && Names(i, key, topic)
  }

  ghost predicate Shows(dbs: seq<Database>, c: string, p: string, key: Key) {
    exists topic :: ShowsOn(dbs, c, p, key, topic)
  }

  lemma CopyIsSnapshot(servers: seq<string>, dbs: seq<Database>, c: string, p: string, key: Key)
    requires Unique(dbs)
    ensures var r := FirstPass(servers, dbs).copy;
            && (Lists(r, c, p, key) <==> IsListed(servers, dbs, c) && Shows(dbs, c, p, key))
            && (Lists(r, c, p, key) ==> ShowsOn(dbs, c, p, key, r[c][p][key]))
  {
    if IsListed(servers, dbs, c) {
      var d :| d in dbs && d.prefix == c;
      FirstPassMeans(servers, dbs, d);
      ShownInDatabase(dbs, d, p, key);
      hide FirstPass, Copied, ShowsOn, Unique;
    } else {
      FirstPassNoMore(servers, dbs, c);
    }
  }

  lemma ShownInDatabase(dbs: seq<Database>, d: Database, p: string, key: Key)
    requires Unique(dbs) && d in dbs
    ensures var m := Copied(d.entries);
            && (p in m && key in m[p] ==> ShowsOn(dbs, d.prefix, p, key, m[p][key]))
            && (forall topic :: ShowsOn(dbs, d.prefix, p, key, topic) ==> p in m && key in m[p])
  {
    CopiedMeans(d.entries, p);
    hide Copied, ListingOf, Names, UniqueEntries;
    forall i
      ensures key in ListingOf(i) ==> Names(i, key, ListingOf(i)[key])
      ensures forall topic :: Names(i, key, topic) ==> key in ListingOf(i)
    {
      ListingMeans(i, key);
    }
  }

  lemma OneTopicShown(dbs: seq<Database>, c: string, p: string, key: Key, t: string, u: string)
    requires Unique(dbs) && SingleTopics(dbs) && ShowsOn(dbs, c, p, key, t) && ShowsOn(dbs, c, p, key, u)
    ensures t == u
  {
  }

  predicate ListingIncluded(a: Listing, b: Listing) {
    forall key :: key in a ==> key in b && a[key] == b[key]
  }

  predicate KnownIncluded(a: Known, b: Known) {
    forall p :: p in a ==> p in b && ListingIncluded(a[p], b[p])
  }

  /** The inclusion of one dictionary in another, item by item on every level. */
  predicate Included(a: Dict, b: Dict) {
    forall c :: c in a ==> c in b && KnownIncluded(a[c], b[c])
  }

  /** If the two dictionaries are equal, the databases show exactly the join; with inclusion, at least that. */
  lemma AcceptedShowsJoin(servers: seq<string>, dbs: seq<Database>, c: string, p: string, key: Key)
    requires Unique(dbs) && IsListed(servers, dbs, c)
    ensures FirstPass(servers, dbs).copy == Expected(servers, dbs) ==>
              (Shows(dbs, c, p, key) <==> ShouldList(dbs, c, p, key))
    ensures Included(Expected(servers, dbs), FirstPass(servers, dbs).copy) ==>
              (ShouldList(dbs, c, p, key) ==> Shows(dbs, c, p, key))
  {
    hide Unique, IsListed, Shows, ShouldList, FirstPass, Expected;
    CopyIsSnapshot(servers, dbs, c, p, key);
    ExpectedIsJoin(servers, dbs, c, p, key);
  }

  /** The same for the topics, if every endpoint has one. */
  lemma AcceptedShowsTopics(servers: seq<string>, dbs: seq<Database>, c: string, p: string, key: Key, topic: string)
    requires Unique(dbs) && SingleTopics(dbs) && IsListed(servers, dbs, c)
    ensures FirstPass(servers, dbs).copy == Expected(servers, dbs) ==>
              (ShowsOn(dbs, c, p, key, topic) <==> ShouldListOn(dbs, c, p, key, topic))
    ensures Included(Expected(servers, dbs), FirstPass(servers, dbs).copy) ==>
              (ShouldListOn(dbs, c, p, key, topic) ==> ShowsOn(dbs, c, p, key, topic))
  {
    hide Unique, SingleTopics, IsListed, ShowsOn, ShouldListOn, FirstPass, Expected;
    CopyIsSnapshot(servers, dbs, c, p, key);
    ExpectedTopics(servers, dbs, c, p, key, topic);
    var copy := FirstPass(servers, dbs).copy;
    if ShowsOn(dbs, c, p, key, topic) && Lists(copy, c, p, key) {
      OneTopicShown(dbs, c, p, key, topic, copy[c][p][key]);
    }
  }

  // ---------- The servers ----------

  /** The server prefixes that a database names, behind those known before. */
  function ServersIn(found: seq<string>, entries: seq<Entry>): seq<string> {
    if entries == [] then found
    else
      var r := ServersIn(found, entries[..|entries| - 1]);
      var i := entries[|entries| - 1];
      if i.server && i.prefix !in r then r + [i.prefix] else r
  }

  /** The search ends at the first database that names nobody. */
  function ServersOf(found: seq<string>, dbs: seq<Database>): seq<string>
    decreases |dbs|
  {
    if dbs == [] || dbs[0].entries == [] then found else ServersOf(ServersIn(found, dbs[0].entries), dbs[1..])
  }

  predicate NamesServer(d: Database, s: string) {
    exists i :: i in d.entries && i.server && i.prefix == s
  }

  predicate Distinct(xs: seq<string>) {
    forall j, k :: 0 <= j < k < |xs| ==> xs[j] != xs[k]
  }

  lemma {:induction false} ServersInMean(found: seq<string>, entries: seq<Entry>, s: string)
    ensures s in ServersIn(found, entries) <==> s in found || exists i :: i in entries && i.server && i.prefix == s
    ensures Distinct(found) ==> Distinct(ServersIn(found, entries))
  {
    if entries != [] {
      ServersInMean(found, entries[..|entries| - 1], s);
      assert entries == entries[..|entries| - 1] + [entries[|entries| - 1]];
    }
  }

  /** A server is found exactly if some database before the first that names nobody names it. */
  lemma {:induction false} ServersMean(found: seq<string>, dbs: seq<Database>, s: string)
    ensures s in ServersOf(found, dbs) <==>
              s in found
              || exists k :: 0 <= k < |dbs| && NamesServer(dbs[k], s) && forall m :: 0 <= m < k ==> dbs[m].entries != []
    ensures Distinct(found) ==> Distinct(ServersOf(found, dbs))
    decreases |dbs|
  {
    if dbs != [] && dbs[0].entries != [] {
      ServersInMean(found, dbs[0].entries, s);
      ServersMean(ServersIn(found, dbs[0].entries), dbs[1..], s);
      var rest := dbs[1..];
      hide ServersOf, ServersIn;
      if k :| 0 <= k < |rest| && NamesServer(rest[k], s) && forall m :: 0 <= m < k ==> rest[m].entries != [] {
        assert NamesServer(dbs[k + 1], s);
        assert forall m :: 0 < m < k + 1 ==> dbs[m] == rest[m - 1];
      }
      if k :| 0 <= k < |dbs| && NamesServer(dbs[k], s) && forall m :: 0 <= m < k ==> dbs[m].entries != [] {
        if k > 0 {
          assert rest[k - 1] == dbs[k];
          assert forall m :: 0 <= m < k - 1 ==> rest[m] == dbs[m + 1];
        }
      }
    }
  }

  /** A database that names nobody hides the servers behind it: theirs are then treated like a client's. */
  lemma HiddenServer()
    ensures var server := Entry("s", true, [], []);
            var dbs := [Database("c", []), Database("s", [server])];
            && "s" !in ServersOf([], dbs) && IsListed(ServersOf([], dbs), dbs, "s")
            && "s" in ServersOf([], dbs[1..])
  {
    var server := Entry("s", true, [], []);
    var dbs := [Database("c", []), Database("s", [server])];
    assert dbs[1] in dbs && dbs[1].prefix == "s";
    assert ServersOf([], dbs) == [];
    assert [server][..0] == [];
    assert ServersIn([], [server][..0]) == [];
    assert ServersIn([], [server]) == ["s"];
    assert dbs[1..][0].entries == [server] && dbs[1..][1..] == [];
    assert ServersOf([], dbs[1..]) == ServersOf(["s"], []);
  }
}
