/** GUIDs and the ordered sets keyed by them. */
module Guids {

  /** An RTPS GUID: a participant prefix and an entity identifier. */
  datatype Guid = Guid(prefix: int, entity: int)

  /** GUIDs are ordered by prefix first and by entity second. */
  predicate Less(a: Guid, b: Guid) {
    a.prefix < b.prefix || (a.prefix == b.prefix && a.entity < b.entity)
  }
}

/**
 * std::set of items ordered by GUID, as a strictly sorted sequence. An item is the GUID it is
 * sorted by (the DiscoveryItem base) together with its payload.
 */
module SortedSets {
  import opened Basics
  import opened Guids

  datatype Item<+T> = Item(guid: Guid, info: T)

  ghost predicate Sorted<T>(s: seq<Item<T>>) {
    forall i, j :: 0 <= i < j < |s| ==> Less(s[i].guid, s[j].guid)
  }

  /** The payload stored under g: the value semantics of a set of items. */
  function Find<T>(s: seq<Item<T>>, g: Guid): Maybe<T> {
    if s == [] then Nothing else if s[0].guid == g then Just(s[0].info) else Find(s[1..], g)
  }

  /** std::lower_bound: the first position whose GUID is not below g. */
  function LowerBound<T>(s: seq<Item<T>>, g: Guid): (k: nat)
    ensures k <= |s|
    ensures forall i :: 0 <= i < k ==> Less(s[i].guid, g)
    ensures k < |s| ==> !Less(s[k].guid, g)
  {
    if s == [] || !Less(s[0].guid, g) then 0 else 1 + LowerBound(s[1..], g)
  }

  /** The test `it == end || *it != g` of every lookup, negated. */
  predicate HitAt<T>(s: seq<Item<T>>, k: nat, g: Guid) {
    k < |s| && s[k].guid == g
  }

  /** emplace_hint: nothing happens when the key is present. */
  function Emplace<T>(s: seq<Item<T>>, x: Item<T>): (r: seq<Item<T>>)
    ensures HitAt(r, LowerBound(s, x.guid), x.guid)
  {
    var k := LowerBound(s, x.guid);
    if HitAt(s, k, x.guid) then s else s[..k] + [x] + s[k..]
  }

  /** Overwriting the payload of the element an iterator points at. */
  function Update<T>(s: seq<Item<T>>, k: nat, info: T): seq<Item<T>>
    requires k < |s|
  {
    s[k := Item(s[k].guid, info)]
  }

  /** Erasing the element an iterator points at. */
  function EraseAt<T>(s: seq<Item<T>>, k: nat): seq<Item<T>>
    requires k < |s|
  {
    s[..k] + s[k + 1..]
  }

  lemma {:induction false} FindAbsent<T>(s: seq<Item<T>>, g: Guid)
    requires forall i :: 0 <= i < |s| ==> s[i].guid != g
    ensures Find(s, g) == Nothing
  {
    if s != [] {
      FindAbsent(s[1..], g);
    }
  }

  lemma {:induction false} FindAt<T>(s: seq<Item<T>>, k: nat)
    requires Sorted(s) && k < |s|
    ensures Find(s, s[k].guid) == Just(s[k].info)
  {
    if k > 0 {
      assert Less(s[0].guid, s[k].guid);
      FindAt(s[1..], k - 1);
    }
  }

  /** Whatever is found sits at some position. */
  lemma {:induction false} FindWitness<T>(s: seq<Item<T>>, g: Guid) returns (k: nat)
    requires Find(s, g).Just?
    ensures k < |s| && s[k].guid == g && Find(s, g) == Just(s[k].info)
  {
    if s[0].guid == g {
      k := 0;
    } else {
      k := FindWitness(s[1..], g);
      k := k + 1;
    }
  }

  /** The lower_bound test decides membership, and the element hit is the one found. */
  lemma {:induction false} HitIffFound<T>(s: seq<Item<T>>, g: Guid)
    requires Sorted(s)
    ensures HitAt(s, LowerBound(s, g), g) <==> Find(s, g).Just?
    ensures HitAt(s, LowerBound(s, g), g) ==> Find(s, g) == Just(s[LowerBound(s, g)].info)
  {
    var k := LowerBound(s, g);
    if HitAt(s, k, g) {
      FindAt(s, k);
    } else if Find(s, g).Just? {
      var i := FindWitness(s, g);
    }
  }

  lemma {:induction false} FindConcat<T>(s: seq<Item<T>>, t: seq<Item<T>>, g: Guid)
    ensures Find(s + t, g) == if Find(s, g).Just? then Find(s, g) else Find(t, g)
  {
    if s == [] {
      assert s + t == t;
    } else {
      assert (s + t)[1..] == s[1..] + t;
      FindConcat(s[1..], t, g);
    }
  }

  lemma InsertEffect<T>(s: seq<Item<T>>, k: nat, x: Item<T>, g: Guid)
    requires k <= |s| && Find(s, x.guid).Nothing?
    ensures Find(s[..k] + [x] + s[k..], g) == if g == x.guid then Just(x.info) else Find(s, g)
  {
    assert s == s[..k] + s[k..];
    FindConcat(s[..k], s[k..], g);
    FindConcat(s[..k] + [x], s[k..], g);
    FindConcat(s[..k], [x], g);
  }

  lemma EmplaceEffect<T>(s: seq<Item<T>>, x: Item<T>)
    requires Sorted(s)
    ensures Sorted(Emplace(s, x))
    ensures forall g :: Find(Emplace(s, x), g) ==
              if g == x.guid && Find(s, g).Nothing? then Just(x.info) else Find(s, g)
  {
    var k := LowerBound(s, x.guid);
    HitIffFound(s, x.guid);
    if !HitAt(s, k, x.guid) {
      forall g {
        InsertEffect(s, k, x, g);
      }
    }
  }

  lemma UpdateEffect<T>(s: seq<Item<T>>, k: nat, info: T)
    requires Sorted(s) && k < |s|
    ensures Sorted(Update(s, k, info))
    ensures forall g :: Find(Update(s, k, info), g) == if g == s[k].guid then Just(info) else Find(s, g)
  {
    var t := Update(s, k, info);
    forall g ensures Find(t, g) == if g == s[k].guid then Just(info) else Find(s, g) {
      if g == s[k].guid {
        FindAt(t, k);
      } else {
        assert s == s[..k] + [s[k]] + s[k + 1..] && t == s[..k] + [t[k]] + s[k + 1..];
        FindConcat(s[..k] + [s[k]], s[k + 1..], g);
        FindConcat(s[..k] + [t[k]], s[k + 1..], g);
        FindConcat(s[..k], [s[k]], g);
        FindConcat(s[..k], [t[k]], g);
      }
    }
  }

  lemma EraseEffect<T>(s: seq<Item<T>>, k: nat)
    requires Sorted(s) && k < |s|
    ensures Sorted(EraseAt(s, k))
    ensures forall g :: Find(EraseAt(s, k), g) == if g == s[k].guid then Nothing else Find(s, g)
  {
    hide Find, Sorted;
    ErasedSorted(s, k);
    FindAbsent(EraseAt(s, k), s[k].guid);
    forall g | g != s[k].guid ensures Find(EraseAt(s, k), g) == Find(s, g) {
      FindWithout(s[..k], s[k], s[k + 1..], g);
      assert s == s[..k] + [s[k]] + s[k + 1..];
    }
  }

  lemma ErasedSorted<T>(s: seq<Item<T>>, k: nat)
    requires Sorted(s) && k < |s|
    ensures Sorted(EraseAt(s, k))
    ensures forall i :: 0 <= i < |EraseAt(s, k)| ==> EraseAt(s, k)[i].guid != s[k].guid
  {
    var t := EraseAt(s, k);
    forall i | 0 <= i < |t| ensures t[i] == s[if i < k then i else i + 1] && t[i].guid != s[k].guid {
    }
  }

  lemma FindWithout<T>(before: seq<Item<T>>, x: Item<T>, behind: seq<Item<T>>, g: Guid)
    requires g != x.guid
    ensures Find(before + [x] + behind, g) == Find(before + behind, g)
  {
    assert Find([x], g) == Nothing;
    hide Find;
    FindConcat(before + [x], behind, g);
    FindConcat(before, [x], g);
    FindConcat(before, behind, g);
  }

  /** A sorted set is determined by what can be found in it. */
  lemma {:induction false} SameContentSameSet<T>(s: seq<Item<T>>, t: seq<Item<T>>)
    requires Sorted(s) && Sorted(t)
    requires forall g :: Find(s, g) == Find(t, g)
    ensures s == t
  {
    if s == [] {
      if t != [] {
        FindAt(t, 0);
      }
    } else {
      FindAt(s, 0);
      var k := FindWitness(t, s[0].guid);
      FindAt(t, 0);
      var m := FindWitness(s, t[0].guid);
      assert s[0] == t[0];
      forall g ensures Find(s[1..], g) == Find(t[1..], g) {
        if g == s[0].guid {
          FindAbsent(s[1..], g);
          FindAbsent(t[1..], g);
        } else {
          assert Find(s, g) == Find(t, g);
        }
      }
      SameContentSameSet(s[1..], t[1..]);
    }
  }

  /** Inserting a list of items one after the other into an empty set. */
  function Inserted<T>(xs: seq<Item<T>>): seq<Item<T>> {
    if xs == [] then [] else Emplace(Inserted(xs[..|xs| - 1]), xs[|xs| - 1])
  }

  /** Items that arrive in order are appended. */
  lemma {:induction false} InsertedInOrder<T>(xs: seq<Item<T>>)
    requires Sorted(xs)
    ensures Inserted(xs) == xs
  {
    if xs != [] {
      var s, x := xs[..|xs| - 1], xs[|xs| - 1];
      InsertedInOrder(s);
      assert LowerBound(s, x.guid) == |s|;
      assert xs == s + [x];
    }
  }
}
