/** The consistency check of a snapshot: neighbouring databases are compared, and only those. */
module SnapshotCheck {
  import opened Guids
  import opened SortedSets
  import opened DiscoveryItems
  import opened Comparison

  /** The test that somebody was discovered, when the snapshot asks for it. */
  predicate SomeoneTest(shot: Snapshot) {
    shot.ifSomeone ==> shot.dbs != [] && shot.dbs[0].info.items != []
  }

  predicate NeighboursSame(dbs: seq<Database>) {
    forall k :: 0 <= k < |dbs| - 1 ==> Same(dbs[k], dbs[k + 1])
  }

  predicate AllKnow(shot: Snapshot) {
    SomeoneTest(shot) && NeighboursSame(shot.dbs)
  }

  method AllKnowEachOther(shot: Snapshot) returns (ok: bool)
    ensures ok == AllKnow(shot)
  {
    if shot.ifSomeone && (shot.dbs == [] || shot.dbs[0].info.items == []) {
      return false;
    }
    var it1, it2 := 0, 0;
    if it2 != |shot.dbs| {
      it2 := it2 + 1;
    }
    while it2 != |shot.dbs|
      invariant it1 <= it2 <= |shot.dbs|
      invariant it2 == if shot.dbs == [] then 0 else it1 + 1
      invariant forall k :: 0 <= k < it1 ==> Same(shot.dbs[k], shot.dbs[k + 1])
    {
      var same := DatabasesEqual(shot.dbs[it1], shot.dbs[it2]);
      if !same {
        break;
      }
      it1 := it2;
      it2 := it2 + 1;
    }
    return it2 == |shot.dbs|;
  }

  /** Every snapshot is checked, also after one has failed. */
  method ValidateAllSnapshots(snapshots: seq<Snapshot>) returns (ok: bool)
    ensures ok <==> forall s :: s in snapshots ==> AllKnow(s)
  {
    ok := true;
    for n := 0 to |snapshots|
      invariant ok <==> forall m :: 0 <= m < n ==> AllKnow(snapshots[m])
    {
      var good := AllKnowEachOther(snapshots[n]);
      if !good {
        ok := false;
      }
    }
  }

  // ---------- What acceptance means ----------

  predicate OwnerBetween(dbs: seq<Database>, i: nat, j: nat, g: Guid)
    requires i <= j < |dbs|
  {
    exists k :: i <= k <= j && dbs[k].guid == g
  }

  /**
   * In an accepted snapshot any two databases agree on every participant that does not own one of
   * the databases from the one to the other, although only neighbours were compared.
   */
  lemma {:induction false} AcceptedMeansAgreement(shot: Snapshot, i: nat, j: nat, g: Guid)
    requires SortedImage(shot.dbs) && AllKnow(shot)
    requires i <= j < |shot.dbs| && !OwnerBetween(shot.dbs, i, j, g)
    ensures Known(shot.dbs[i], g).Just? <==> Known(shot.dbs[j], g).Just?
    ensures Known(shot.dbs[i], g).Just? ==>
              SameInfo(Known(shot.dbs[i], g).value, Known(shot.dbs[j], g).value)
  {
    if i < j {
      AcceptedMeansAgreement(shot, i, j - 1, g);
      assert Less(shot.dbs[j - 1].guid, shot.dbs[j].guid);
      assert Same(shot.dbs[j - 1], shot.dbs[j - 1 + 1]);
      SameIsSound(shot.dbs[j - 1], shot.dbs[j], g);
    }
  }

  /** Two databases say the same about g. */
  predicate AgreeOn(d: Database, e: Database, g: Guid) {
    match (Known(d, g), Known(e, g))
    case (Just(p), Just(q)) => SameInfo(p, q)
    case (Nothing, Nothing) => true
    case _ => false
  }

  /** Any two databases agree on everybody who owns neither of them. */
  ghost predicate AllAgree(dbs: seq<Database>) {
    forall i, j, g :: 0 <= i < j < |dbs| && g != dbs[i].guid && g != dbs[j].guid ==> AgreeOn(dbs[i], dbs[j], g)
  }

  /** The two neighbours of a database agree on its owner. */
  predicate NeighboursAgree(dbs: seq<Database>, k: nat)
    requires 0 < k < |dbs| - 1
  {
    AgreeOn(dbs[k - 1], dbs[k + 1], dbs[k].guid)
  }

  /** Across the database of an owner the others agree on the owner if its neighbours do. */
  lemma AgreeAcross(shot: Snapshot, i: nat, k: nat, j: nat)
    requires SortedImage(shot.dbs) && AllKnow(shot)
    requires i < k < j < |shot.dbs| && NeighboursAgree(shot.dbs, k)
    ensures AgreeOn(shot.dbs[i], shot.dbs[j], shot.dbs[k].guid)
  {
    var g := shot.dbs[k].guid;
    assert forall m :: 0 <= m < k ==> Less(shot.dbs[m].guid, g);
    assert forall m :: k < m < |shot.dbs| ==> Less(g, shot.dbs[m].guid);
    AcceptedMeansAgreement(shot, i, k - 1, g);
    AcceptedMeansAgreement(shot, k + 1, j, g);
  }

  /**
   * An accepted snapshot's databases all agree exactly if the two neighbours of every database in
   * between agree on its owner, the one participant on which comparing neighbours is lenient.
   */
  lemma AcceptedAgreeExactly(shot: Snapshot)
    requires SortedImage(shot.dbs) && AllKnow(shot)
    ensures AllAgree(shot.dbs) <==> forall k :: 0 < k < |shot.dbs| - 1 ==> NeighboursAgree(shot.dbs, k)
  {
    var dbs := shot.dbs;
    if AllAgree(dbs) {
      forall k | 0 < k < |dbs| - 1 ensures NeighboursAgree(dbs, k) {
        assert Less(dbs[k - 1].guid, dbs[k].guid) && Less(dbs[k].guid, dbs[k + 1].guid);
      }
    }
    if forall k :: 0 < k < |dbs| - 1 ==> NeighboursAgree(dbs, k) {
      hide AllKnow, Known, NeighboursAgree;
      forall i, j, g | 0 <= i < j < |dbs| && g != dbs[i].guid && g != dbs[j].guid
        ensures AgreeOn(dbs[i], dbs[j], g)
      {
        if OwnerBetween(dbs, i, j, g) {
          var k :| i <= k <= j && dbs[k].guid == g;
          AgreeAcross(shot, i, k, j);
        } else {
          AcceptedMeansAgreement(shot, i, j, g);
        }
      }
    }
  }

  /**
   * Everybody is known to every database, with the endpoints the universe gives them; only a
   * database's own participant may be missing from it.
   */
  ghost predicate FullyDiscovered(dbs: seq<Database>, universe: map<Guid, ParticipantInfo>) {
    forall k, g :: 0 <= k < |dbs| ==>
      match Known(dbs[k], g)
      case Just(p) => g in universe && SameInfo(p, universe[g])
      case Nothing => g in universe ==> g == dbs[k].guid
  }

  /** A fully discovered snapshot is accepted. */
  lemma FullDiscoveryAccepted(shot: Snapshot, universe: map<Guid, ParticipantInfo>)
    requires SortedImage(shot.dbs) && SomeoneTest(shot) && FullyDiscovered(shot.dbs, universe)
    ensures AllKnow(shot)
  {
    hide Same;
    forall k | 0 <= k < |shot.dbs| - 1 ensures Same(shot.dbs[k], shot.dbs[k + 1]) {
      var l, r := shot.dbs[k], shot.dbs[k + 1];
      assert Less(l.guid, r.guid);
      assert forall g :: Known(l, g).Just? ==> g in universe && SameInfo(Known(l, g).value, universe[g]);
      assert forall g :: Known(r, g).Just? ==> g in universe && SameInfo(Known(r, g).value, universe[g]);
      SameIsComplete(l, r);
    }
  }

  /**
   * The comparison is not transitive, so the owners in between cannot be dropped from the theorem:
   * in this accepted snapshot the first and the last database differ about the middle owner.
   */
  lemma NeighboursAreNotEnough() returns (shot: Snapshot)
    ensures SortedImage(shot.dbs) && AllKnow(shot) && |shot.dbs| == 3
    ensures Known(shot.dbs[0], shot.dbs[1].guid).Just? && Known(shot.dbs[2], shot.dbs[1].guid).Nothing?
    ensures !Same(shot.dbs[0], shot.dbs[2]) && !AllAgree(shot.dbs)
  {
    var g1, g2, g3 := Guid(1, 0), Guid(2, 0), Guid(3, 0);
    var listed: Participant := Item(g2, ParticipantInfo(false, true, "", 0, [], []));
    var d1: Database := Item(g1, DatabaseInfo("", [listed]));
    var d2: Database := Item(g2, DatabaseInfo("", []));
    var d3: Database := Item(g3, DatabaseInfo("", []));
    shot := Snapshot(0, 0, 0, 0, true, false, "", [d1, d2, d3]);
    assert Alive([listed]) == [listed] by {
      assert [listed][1..] == [];
    }
    assert Same(d1, d2) && Same(d2, d3) && !Same(d1, d3);
    assert !AgreeOn(shot.dbs[0], shot.dbs[2], g2);
  }

  /**
   * An owner that only its own database lists is not excused if somebody sorts above it: these two
   * databases agree on everybody else and still do not compare equal.
   */
  lemma OwnOwnerIsNotExcused() returns (l: Database, r: Database)
    ensures Sorted(l.info.items) && Sorted(r.info.items) && Less(l.guid, r.guid)
    ensures forall g :: g != l.guid ==> AgreeOn(l, r, g)
    ensures Known(l, l.guid).Just? && !Same(l, r)
  {
    var owner: Participant := Item(Guid(1, 0), ParticipantInfo(false, true, "", 0, [], []));
    var other: Participant := Item(Guid(3, 0), ParticipantInfo(false, true, "", 0, [], []));
    l := Item(Guid(1, 0), DatabaseInfo("", [owner, other]));
    r := Item(Guid(2, 0), DatabaseInfo("", [other]));
    assert [owner, other][1..] == [other] && [other][1..] == [];
    assert Alive([other]) == [other] && Alive([owner, other]) == [owner, other];
  }
}
