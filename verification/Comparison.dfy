/**
 * The comparison of two participant databases: a merge of two sorted lists that forgives
 * differences about the two owners themselves.
 */
module Comparison {
  import opened Basics
  import opened Guids
  import opened SortedSets
  import opened DiscoveryItems

  // ---------- What the merge computes ----------

  /** The end of the merge: nothing is left in the other list, or one owner's entry. */
  predicate OnlyOwnerLeft(x: seq<Participant>, a: Guid, b: Guid) {
    x == [] || ((x[0].guid == a || x[0].guid == b) && |x| == 1)
  }

  /** The merge loop on the alive participants still ahead of the two cursors. */
  function Merge(x: seq<Participant>, y: seq<Participant>, a: Guid, b: Guid, sameSize: bool): bool
    decreases |x| + |y|
  {
    if x == [] then
      OnlyOwnerLeft(y, a, b)
    else if y == [] then
      OnlyOwnerLeft(x, a, b)
    else if x[0].guid == y[0].guid then
      SameInfo(x[0].info, y[0].info) && Merge(x[1..], y[1..], a, b, sameSize)
    else
      var sweepRight := y[0].guid == a;
      var sweepLeft := x[0].guid == b && (sameSize || !sweepRight);
      (sweepRight || sweepLeft) &&
      Merge(if sweepLeft then x[1..] else x, if sweepRight then y[1..] else y, a, b, sameSize)
  }

  // ---------- What it means ----------

  /** Both lists say the same about g, or only one mentions g and g is an owner. */
  predicate AgreeAt(x: seq<Participant>, y: seq<Participant>, a: Guid, b: Guid, g: Guid) {
    match (Find(x, g), Find(y, g))
    case (Just(p), Just(q)) => SameInfo(p, q)
    case (Nothing, Nothing) => true
    case _ => g == a || g == b
  }

  predicate NoneAbove(x: seq<Participant>, g: Guid) {
    forall i :: 0 <= i < |x| ==> !Less(g, x[i].guid)
  }

  predicate SomeBetween(x: seq<Participant>, a: Guid, b: Guid) {
    exists i :: 0 <= i < |x| && Less(a, x[i].guid) && Less(x[i].guid, b)
  }

  /** g is listed in x and not in y. */
  predicate OnlyIn(x: seq<Participant>, y: seq<Participant>, g: Guid) {
    Find(x, g).Just? && Find(y, g).Nothing?
  }

  /**
   * The owners a (of x) and b (of y), with a below b. That y alone lists a, or x alone lists b, is
   * expected. That an owner alone lists itself is forgiven only at the very end of the merge.
   */
  ghost predicate OwnersExcused(x: seq<Participant>, y: seq<Participant>, a: Guid, b: Guid) {
    && (OnlyIn(x, y, a) ==> NoneAbove(x, a) && NoneAbove(y, a))
    && (OnlyIn(y, x, b) ==> NoneAbove(x, b) && NoneAbove(y, b))
    && (OnlyIn(y, x, b) && OnlyIn(y, x, a) ==> SomeBetween(x, a, b))
  }

  ghost predicate Agree(x: seq<Participant>, y: seq<Participant>, a: Guid, b: Guid) {
    forall g :: AgreeAt(x, y, a, b, g)
  }

  ghost predicate Accepts(x: seq<Participant>, y: seq<Participant>, a: Guid, b: Guid) {
    Agree(x, y, a, b) && OwnersExcused(x, y, a, b)
  }

  // ---------- The merge decides exactly that ----------

  lemma FindTail(x: seq<Participant>)
    requires Sorted(x) && x != []
    ensures Sorted(x[1..])
    ensures forall g :: Find(x[1..], g) == if g == x[0].guid then Nothing else Find(x, g)
    ensures forall g :: Less(g, x[0].guid) ==> Find(x, g).Nothing?
  {
    FindAbsent(x[1..], x[0].guid);
    forall g | Less(g, x[0].guid) ensures Find(x, g).Nothing? {
      FindAbsent(x, g);
    }
  }

  lemma FindAll(x: seq<Participant>)
    requires Sorted(x)
    ensures forall i :: 0 <= i < |x| ==> Find(x, x[i].guid) == Just(x[i].info)
  {
    forall i | 0 <= i < |x| ensures Find(x, x[i].guid) == Just(x[i].info) {
      FindAt(x, i);
    }
  }

  lemma LeftDone(y: seq<Participant>, a: Guid, b: Guid)
    requires Sorted(y) && Less(a, b)
    ensures Merge([], y, a, b, true) == Merge([], y, a, b, false)
    ensures Merge([], y, a, b, true) <==> Accepts([], y, a, b)
  {
    FindAll(y);
    if Accepts([], y, a, b) && y != [] {
      assert AgreeAt([], y, a, b, y[0].guid);
      assert |y| > 1 ==> AgreeAt([], y, a, b, y[1].guid);
    }
    if |y| == 1 {
      FindTail(y);
      assert forall g :: Find(y[1..], g) == Nothing;
      assert Merge([], y, a, b, true) ==> Agree([], y, a, b);
    }
  }

  lemma RightDone(x: seq<Participant>, a: Guid, b: Guid)
    requires Sorted(x) && Less(a, b)
    ensures Merge(x, [], a, b, true) == Merge(x, [], a, b, false)
    ensures Merge(x, [], a, b, true) <==> Accepts(x, [], a, b)
  {
    FindAll(x);
    if Accepts(x, [], a, b) && x != [] {
      assert AgreeAt(x, [], a, b, x[0].guid);
      assert |x| > 1 ==> AgreeAt(x, [], a, b, x[1].guid);
    }
    if |x| == 1 {
      FindTail(x);
      assert forall g :: Find(x[1..], g) == Nothing;
      assert Merge(x, [], a, b, true) ==> Agree(x, [], a, b);
    }
  }

  /** Two sorted lists over the same GUIDs have the same length. */
  lemma {:induction false} SameGuidsSameLength(x: seq<Participant>, y: seq<Participant>)
    requires Sorted(x) && Sorted(y)
    requires forall g :: Find(x, g).Just? <==> Find(y, g).Just?
    ensures |x| == |y|
  {
    FindAll(x);
    FindAll(y);
    if x == [] || y == [] {
      assert x != [] ==> Find(y, x[0].guid).Just?;
      assert y != [] ==> Find(x, y[0].guid).Just?;
    } else {
      FindTail(x);
      FindTail(y);
      assert Find(x, x[0].guid).Just? && Find(y, y[0].guid).Just?;
      SameGuidsSameLength(x[1..], y[1..]);
    }
  }

  lemma HeadsMatch(x: seq<Participant>, y: seq<Participant>, a: Guid, b: Guid)
    requires Sorted(x) && Sorted(y) && Less(a, b) && x != [] && y != [] && x[0].guid == y[0].guid
    ensures Accepts(x, y, a, b) <==> SameInfo(x[0].info, y[0].info) && Accepts(x[1..], y[1..], a, b)
  {
    FindTail(x);
    FindTail(y);
    assert AgreeAt(x, y, a, b, x[0].guid) <==> SameInfo(x[0].info, y[0].info);
    assert forall g :: g != x[0].guid ==> AgreeAt(x, y, a, b, g) == AgreeAt(x[1..], y[1..], a, b, g);
    assert AgreeAt(x[1..], y[1..], a, b, x[0].guid);
    assert OwnersExcused(x, y, a, b) <==> OwnersExcused(x[1..], y[1..], a, b);
  }

  /** The left head is missing on the right. */
  lemma LeftHeadAlone(x: seq<Participant>, y: seq<Participant>, a: Guid, b: Guid)
    requires Sorted(x) && Sorted(y) && Less(a, b) && x != [] && y != [] && Less(x[0].guid, y[0].guid)
    ensures Accepts(x, y, a, b) <==> x[0].guid == b && Accepts(x[1..], y, a, b)
  {
    FindTail(x);
    FindTail(y);
    assert AgreeAt(x, y, a, b, x[0].guid) <==> (x[0].guid == a || x[0].guid == b);
    assert forall g :: g != x[0].guid ==> AgreeAt(x, y, a, b, g) == AgreeAt(x[1..], y, a, b, g);
    assert AgreeAt(x[1..], y, a, b, x[0].guid);
  }

  /** The right head is missing on the left and the two cursors do not both sit on an owner. */
  lemma RightHeadAlone(x: seq<Participant>, y: seq<Participant>, a: Guid, b: Guid)
    requires Sorted(x) && Sorted(y) && Less(a, b) && x != [] && y != [] && Less(y[0].guid, x[0].guid)
    ensures Accepts(x, y, a, b) <==> y[0].guid == a && Accepts(x, y[1..], a, b)
  {
    FindTail(x);
    FindTail(y);
    FindAll(x);
    assert AgreeAt(x, y, a, b, y[0].guid) <==> (y[0].guid == a || y[0].guid == b);
    assert forall g :: g != y[0].guid ==> AgreeAt(x, y, a, b, g) == AgreeAt(x, y[1..], a, b, g);
    assert AgreeAt(x, y[1..], a, b, y[0].guid);
  }

  /** Both cursors on an owner, lists of equal length: the tie break sweeps both. */
  lemma BothHeadsAlone(x: seq<Participant>, y: seq<Participant>, a: Guid, b: Guid)
    requires Sorted(x) && Sorted(y) && Less(a, b) && x != [] && y != [] && |x| == |y|
    requires x[0].guid == b && y[0].guid == a
    ensures Accepts(x, y, a, b) <==> Accepts(x[1..], y[1..], a, b)
  {
    FindTail(x);
    FindTail(y);
    FindAll(x);
    FindAll(y);
    if Find(y, b).Nothing? {
      assert AgreeAt(x, y, a, b, a) && AgreeAt(x, y, a, b, b);
      assert forall g :: g != a && g != b ==> AgreeAt(x, y, a, b, g) == AgreeAt(x[1..], y[1..], a, b, g);
      assert AgreeAt(x[1..], y[1..], a, b, a) && AgreeAt(x[1..], y[1..], a, b, b);
    } else {
      BothListRight(x, y, a, b);
    }
  }

  /** When the right list has both owners and the left only its own foe, equal lengths cannot agree. */
  lemma BothListRight(x: seq<Participant>, y: seq<Participant>, a: Guid, b: Guid)
    requires Sorted(x) && Sorted(y) && Less(a, b) && x != [] && y != [] && |x| == |y|
    requires x[0].guid == b && y[0].guid == a && Find(y, b).Just?
    ensures !Accepts(x, y, a, b) && !Accepts(x[1..], y[1..], a, b)
  {
    var u, v := x[1..], y[1..];
    FindTail(x);
    FindTail(y);
    FindAll(u);
    FindAll(v);
    if Accepts(x, y, a, b) {
      assert forall g :: AgreeAt(x, y, a, b, g);
      forall g ensures Find(x, g).Just? <==> Find(v, g).Just? {
        assert AgreeAt(x, y, a, b, g);
      }
      SameGuidsSameLength(x, v);
    }
  }

  /** The merge answers exactly whether the two lists agree up to the excused owners. */
  lemma {:induction false} MergeIsAccepts(
      x: seq<Participant>, y: seq<Participant>, a: Guid, b: Guid, sameSize: bool)
    requires Sorted(x) && Sorted(y) && Less(a, b)
    requires OnlyIn(y, x, a) && Find(x, b).Just? ==> (sameSize <==> |x| == |y|)
    ensures Merge(x, y, a, b, sameSize) <==> Accepts(x, y, a, b)
    decreases |x| + |y|
  {
    if x == [] {
      LeftDone(y, a, b);
    } else if y == [] {
      RightDone(x, a, b);
    } else {
      FindTail(x);
      FindTail(y);
      var p, q := x[0].guid, y[0].guid;
      if p == q {
        HeadsMatch(x, y, a, b);
        MergeIsAccepts(x[1..], y[1..], a, b, sameSize);
      } else if q == a && p == b && sameSize {
        BothHeadsAlone(x, y, a, b);
        MergeIsAccepts(x[1..], y[1..], a, b, sameSize);
      } else {
        if Less(p, q) {
          LeftHeadAlone(x, y, a, b);
        } else {
          RightHeadAlone(x, y, a, b);
        }
        if q == a {
          MergeIsAccepts(x, y[1..], a, b, sameSize);
        } else if p == b {
          MergeIsAccepts(x[1..], y, a, b, sameSize);
        }
      }
    }
  }

  // ---------- The comparison of two databases ----------

  /** What a database says about g, zombies aside. */
  function Known(db: Database, g: Guid): Maybe<ParticipantInfo> {
    Find(Alive(db.info.items), g)
  }

  /** The verdict of the comparison; the database with the lower GUID is the left one. */
  function Same(cl: Database, cr: Database): bool {
    var l, r := if Less(cr.guid, cl.guid) then cr else cl, if Less(cr.guid, cl.guid) then cl else cr;
    var x, y := Alive(l.info.items), Alive(r.info.items);
    Merge(x, y, l.guid, r.guid, |y| == |x|)
  }

  /**
   * Exactly when two databases compare equal: zombies aside they agree on everybody but their
   * owners, what both list is the same, and the owners' own entries are excused.
   */
  lemma SameExactly(l: Database, r: Database)
    requires Sorted(l.info.items) && Sorted(r.info.items) && Less(l.guid, r.guid)
    ensures Same(l, r) == Same(r, l)
    ensures Same(l, r) <==> Accepts(Alive(l.info.items), Alive(r.info.items), l.guid, r.guid)
  {
    var x, y := Alive(l.info.items), Alive(r.info.items);
    AliveSorted(l.info.items);
    AliveSorted(r.info.items);
    MergeIsAccepts(x, y, l.guid, r.guid, |y| == |x|);
  }

  /** Soundness: databases that compare equal agree on every participant that owns neither. */
  lemma SameIsSound(l: Database, r: Database, g: Guid)
    requires Sorted(l.info.items) && Sorted(r.info.items) && l.guid != r.guid && Same(l, r)
    ensures g != l.guid && g != r.guid ==> (Known(l, g).Just? <==> Known(r, g).Just?)
    ensures Known(l, g).Just? && Known(r, g).Just? ==> SameInfo(Known(l, g).value, Known(r, g).value)
  {
    var x, y := if Less(l.guid, r.guid) then l else r, if Less(l.guid, r.guid) then r else l;
    SameExactly(x, y);
    assert AgreeAt(Alive(x.info.items), Alive(y.info.items), x.guid, y.guid, g);
  }

  /**
   * Completeness: if each database at most additionally lists the owner of the other one, and
   * what both list is the same, they compare equal.
   */
  lemma SameIsComplete(l: Database, r: Database)
    requires Sorted(l.info.items) && Sorted(r.info.items) && l.guid != r.guid
    requires forall g :: Known(l, g).Just? && g != r.guid ==> Known(r, g).Just?
    requires forall g :: Known(r, g).Just? && g != l.guid ==> Known(l, g).Just?
    requires forall g :: Known(l, g).Just? && Known(r, g).Just? ==>
               SameInfo(Known(l, g).value, Known(r, g).value)
    ensures Same(l, r)
  {
    var x, y := if Less(l.guid, r.guid) then l else r, if Less(l.guid, r.guid) then r else l;
    SameExactly(x, y);
    var u, v := Alive(x.info.items), Alive(y.info.items);
    forall g ensures AgreeAt(u, v, x.guid, y.guid, g) {
      assert Known(x, g) == Find(u, g) && Known(y, g) == Find(v, g);
    }
    assert Known(x, x.guid) == Find(u, x.guid) && Known(y, y.guid) == Find(v, y.guid);
  }

  // ---------- The loop that computes it ----------

  lemma {:induction false} AliveFrom(items: seq<Participant>, i: nat)
    requires i < |items|
    ensures Alive(items[i..]) ==
            (if items[i].info.isAlive then [items[i]] else []) + Alive(items[i + 1..])
  {
    assert items[i..][1..] == items[i + 1..];
  }

  /** The iterator over a database that ignores zombies. */
  class SmartIterator {
    const items: seq<Participant>
    var at: nat

    ghost predicate Valid() reads this {
      at <= |items| && (at < |items| ==> items[at].info.isAlive)
    }

    /** The participants still to be visited. */
    ghost function Ahead(): seq<Participant>
      reads this
      requires Valid()
    {
      Alive(items[at..])
    }

    constructor (items: seq<Participant>)
      ensures Valid() && this.items == items && Ahead() == Alive(items)
    {
      this.items := items;
      at := 0;
      new;
      assert items[0..] == items;
      while at != |items| && !items[at].info.isAlive
        invariant at <= |items| && Alive(items[at..]) == Alive(items)
      {
        AliveFrom(items, at);
        at := at + 1;
      }
    }

    predicate AtEnd()
      reads this
      requires Valid()
      ensures AtEnd() <==> Ahead() == []
      ensures !AtEnd() ==> at < |items| && Ahead()[0] == items[at]
    {
      if at < |items| then AliveFrom(items, at); false else true
    }

    method Next()
      requires Valid() && !AtEnd()
      modifies this
      ensures Valid() && Ahead() == old(Ahead())[1..]
    {
      AliveFrom(items, at);
      ghost var rest := Alive(items[at + 1..]);
      at := at + 1;
      while at != |items| && !items[at].info.isAlive
        invariant at <= |items| && Alive(items[at..]) == rest
      {
        AliveFrom(items, at);
        at := at + 1;
      }
    }
  }

  /** std::distance from the first alive participant to the end. */
  method RealSize(db: Database) returns (n: nat)
    ensures n == |Alive(db.info.items)|
  {
    var it := new SmartIterator(db.info.items);
    n := 0;
    while !it.AtEnd()
      invariant it.Valid() && fresh(it) && n + |it.Ahead()| == |Alive(db.info.items)|
      decreases |it.Ahead()|
    {
      it.Next();
      n := n + 1;
    }
  }

  method AtMostOwnerLeft(it: SmartIterator, a: Guid, b: Guid) returns (only: bool)
    requires it.Valid()
    modifies it
    ensures only == OnlyOwnerLeft(old(it.Ahead()), a, b)
  {
    if it.AtEnd() {
      return true;
    }
    var g := it.items[it.at].guid;
    if g != a && g != b {
      return false;
    }
    it.Next();
    return it.AtEnd();
  }

  method DatabasesEqual(cl: Database, cr: Database) returns (same: bool)
    ensures same == Same(cl, cr)
  {
    hide Alive, SameInfo;
    var swap := Less(cr.guid, cl.guid);
    var l := if swap then cr else cl;
    var r := if swap then cl else cr;
    var lit := new SmartIterator(l.info.items);
    var rit := new SmartIterator(r.info.items);
    ghost var sameSize := |Alive(r.info.items)| == |Alive(l.info.items)|;
    var go := true;
    while go
      invariant lit.Valid() && rit.Valid() && lit != rit && fresh(lit) && fresh(rit)
      invariant Same(cl, cr) == (go && Merge(lit.Ahead(), rit.Ahead(), l.guid, r.guid, sameSize))
      decreases go, |lit.Ahead()| + |rit.Ahead()|
    {
      if lit.AtEnd() {
        same := AtMostOwnerLeft(rit, l.guid, r.guid);
        return;
      }
      if rit.AtEnd() {
        same := AtMostOwnerLeft(lit, r.guid, l.guid);
        return;
      }
      var p, q := lit.items[lit.at], rit.items[rit.at];
      if p.guid == q.guid {
        if !SameInfo(p.info, q.info) {
          return false;
        }
        lit.Next();
        rit.Next();
      } else {
        go := false;
        if q.guid == l.guid {
          go := true;
          rit.Next();
        }
        if p.guid == r.guid {
          var lsize := RealSize(l);
          var rsize := RealSize(r);
          if rsize == lsize || !go {
            go := true;
            lit.Next();
          }
        }
      }
    }
    return false;
  }
}
