/** Parsed options, chained into circular doubly linked lists whose ends are marked on the links. */
module OptionLists {
  import opened Basics
  import opened OptionLookup

  /** A slot of the options or buffer array. A set tag marks the link that wraps around. */
  class Option {
    var next: Option
    var nextTagged: bool
    var prev: Option
    var prevTagged: bool
    var value: Maybe<Opt>

    constructor ()
      ensures value == Nothing && Chain([this])
    {
      next, nextTagged, prev, prevTagged := this, true, this, true;
      value := Nothing;
    }

    /** Becomes a copy of orig, in a list of its own. */
    method Assign(orig: Maybe<Opt>)
      modifies this
      ensures value == orig && Chain([this])
    {
      value := orig;
      next, nextTagged, prev, prevTagged := this, true, this, true;
    }

    /** The first element, whichever element of the list this is. */
    method First(ghost nodes: seq<Option>) returns (p: Option)
      requires Chain(nodes) && this in nodes
      ensures p == nodes[0]
    {
      p := this;
      ghost var k: nat :| k < |nodes| && nodes[k] == this;
      while !p.prevTagged
        invariant k < |nodes| && p == nodes[k]
        decreases k
      {
        p, k := p.prev, k - 1;
      }
    }

    method Last(ghost nodes: seq<Option>) returns (p: Option)
      requires Chain(nodes) && this in nodes
      ensures p == nodes[|nodes| - 1]
    {
      var f := First(nodes);
      p := f.prev;
    }

    /** The length of the list, whichever element of it this is. */
    method Count(ghost nodes: seq<Option>) returns (c: nat)
      requires Chain(nodes) && this in nodes
      ensures c == |nodes| - if value.Nothing? then 1 else 0
    {
      c := if value.Nothing? then 0 else 1;
      var p := First(nodes);
      ghost var k := 0;
      while !p.nextTagged
        invariant k < |nodes| && p == nodes[k] && c == k + if value.Nothing? then 0 else 1
        decreases |nodes| - k
      {
        c := c + 1;
        p, k := p.next, k + 1;
      }
    }

    /** Chains newLast in after the last element, whichever element of the list this is. */
    method Append(newLast: Option, ghost nodes: seq<Option>)
      requires Chain(nodes) && this in nodes && newLast !in nodes
      modifies nodes[0], nodes[|nodes| - 1], newLast
      ensures Chain(nodes + [newLast])
      ensures newLast.value == old(newLast.value)
      ensures forall n :: n in nodes ==> n.value == old(n.value)
    {
      var p := Last(nodes);
      var f := First(nodes);
      newLast.LinkBetween(p, f, nodes);
    }

    method LinkBetween(p: Option, f: Option, ghost nodes: seq<Option>)
      requires Chain(nodes) && this !in nodes && p == nodes[|nodes| - 1] && f == nodes[0]
      modifies p, f, this
      ensures Chain(nodes + [this])
      ensures value == old(value) && p.value == old(p.value) && f.value == old(f.value)
    {
      ghost var was := Nodes(nodes);
      OrderOfChain(nodes);
      LinkedInOrder(nodes, was, this, value);
      Distinct(nodes);
      hide Chain, Ordered;
      p.next, p.nextTagged := this, false;
      prev, prevTagged := p, false;
      next, nextTagged := f, true;
      f.prev, f.prevTagged := this, true;
      ghost var all := nodes + [this];
      ghost var now := LinkedIn(nodes, was, this, value);
      forall k | 0 <= k < |all| ensures Nodes(all)[k] == now[k] {
        assert k < |nodes| ==> all[k] == nodes[k] && nodes[k] in nodes;
      }
      hide LinkedIn;
      assert Nodes(all) == now;
      OrderOfChain(all);
    }
  }

  /** The nodes form one list, in this order. */
  ghost predicate Chain(nodes: seq<Option>)
    reads nodes
  {
    && nodes != []
    && (forall i, j :: 0 <= i < j < |nodes| ==> nodes[i] != nodes[j])
    && (forall k :: 0 <= k < |nodes| - 1 ==> nodes[k].next == nodes[k + 1] && !nodes[k].nextTagged)
    && nodes[|nodes| - 1].next == nodes[0] && nodes[|nodes| - 1].nextTagged
    && (forall k :: 1 <= k < |nodes| ==> nodes[k].prev == nodes[k - 1] && !nodes[k].prevTagged)
    && nodes[0].prev == nodes[|nodes| - 1] && nodes[0].prevTagged
  }

  // ---------- The arrays the parser fills ----------

  /** The options that belong to list i, in the order in which they were stored. */
  function Chosen(usage: seq<Descriptor>, stored: seq<Opt>, i: nat): seq<Opt> {
    if stored == [] then []
    else
      var last := stored[|stored| - 1];
      Chosen(usage, stored[..|stored| - 1], i) +
      if last.desc < |usage| && usage[last.desc].index == i then [last] else []
  }

  /** The list holds exactly the chosen options; an unused head stands alone. */
  ghost predicate Holds(nodes: seq<Option>, chosen: seq<Opt>)
    reads nodes
  {
    if chosen == [] then |nodes| == 1 && nodes[0].value == Nothing
    else |nodes| == |chosen| && forall k :: 0 <= k < |nodes| ==> nodes[k].value == Just(chosen[k])
  }

  lemma {:induction false} ChosenIndex(usage: seq<Descriptor>, stored: seq<Opt>, i: nat)
    ensures forall o :: o in Chosen(usage, stored, i) ==> o.desc < |usage| && usage[o.desc].index == i
  {
    if stored != [] {
      ChosenIndex(usage, stored[..|stored| - 1], i);
    }
  }

  lemma ChosenIndexAt(usage: seq<Descriptor>, stored: seq<Opt>, i: nat, k: nat)
    requires k < |Chosen(usage, stored, i)|
    ensures var o := Chosen(usage, stored, i)[k]; o.desc < |usage| && usage[o.desc].index == i
  {
    ChosenIndex(usage, stored, i);
    assert Chosen(usage, stored, i)[k] in Chosen(usage, stored, i);
  }

  lemma ChosenAppend(usage: seq<Descriptor>, stored: seq<Opt>, o: Opt, i: nat)
    requires o.desc < |usage|
    ensures Chosen(usage, stored + [o], i) ==
            Chosen(usage, stored, i) + if usage[o.desc].index == i then [o] else []
  {
    assert (stored + [o])[..|stored|] == stored;
  }

  ghost predicate DistinctSlots(options: seq<Option>, buffer: seq<Option>) {
    && (forall i, j :: 0 <= i < j < |options| ==> options[i] != options[j])
    && (forall i, j :: 0 <= i < j < |buffer| ==> buffer[i] != buffer[j])
    && (forall i, j :: 0 <= i < |options| && 0 <= j < |buffer| ==> options[i] != buffer[j])
  }

  /** The list is headed by its options slot; its other elements are used buffer slots. */
  ghost predicate Headed(head: Option, used: seq<Option>, nodes: seq<Option>) {
    && nodes != [] && nodes[0] == head
    && forall k :: 1 <= k < |nodes| ==> nodes[k] in used
  }

  /** The arrays after storing the given options, with one list for every index. */
  ghost predicate Linked(usage: seq<Descriptor>, options: seq<Option>, buffer: seq<Option>,
                         stored: seq<Opt>, lists: seq<seq<Option>>)
    reads options, buffer
  {
    && |stored| <= |buffer| && |lists| == |options| && Arranged(options, buffer, |stored|, lists)
    && (forall i :: 0 <= i < |options| ==> Chain(lists[i]) && Holds(lists[i], Chosen(usage, stored, i)))
    && (forall p :: 0 <= p < |buffer| ==>
          buffer[p].value == if p < |stored| then Just(stored[p]) else Nothing)
  }

  lemma NotUnused(usage: seq<Descriptor>, options: seq<Option>, buffer: seq<Option>, stored: seq<Opt>,
                  lists: seq<seq<Option>>, i: nat, p: nat)
    requires Linked(usage, options, buffer, stored, lists) && i < |options| && |stored| <= p < |buffer|
    ensures buffer[p] !in lists[i]
  {
    assert Headed(options[i], buffer[..|stored|], lists[i]);
  }

  /** No element is shared by two lists. */
  lemma ListsApart(usage: seq<Descriptor>, options: seq<Option>, buffer: seq<Option>, stored: seq<Opt>,
                   lists: seq<seq<Option>>, i: nat, j: nat, n: Option)
    requires Linked(usage, options, buffer, stored, lists)
    requires i < |options| && j < |options| && i != j && n in lists[i]
    ensures n !in lists[j]
  {
    if n in lists[j] {
      assert Headed(options[i], buffer[..|stored|], lists[i]) && Headed(options[j], buffer[..|stored|], lists[j]);
      assert options[i] != options[j];
      assert n in buffer[..|stored|];
      var k :| 0 <= k < |lists[i]| && lists[i][k] == n;
      var m :| 0 <= m < |lists[j]| && lists[j][m] == n;
      var c, d := Chosen(usage, stored, i), Chosen(usage, stored, j);
      assert k < |c| && n.value == Just(c[k]) && m < |d| && n.value == Just(d[m]);
      ChosenIndexAt(usage, stored, i, k);
      ChosenIndexAt(usage, stored, j, m);
    }
  }

  /** Which elements make up the lists, whatever they say. */
  ghost predicate Arranged(options: seq<Option>, buffer: seq<Option>, count: nat, lists: seq<seq<Option>>)
    requires count <= |buffer| && |lists| == |options|
  {
    && DistinctSlots(options, buffer)
    && (forall i :: 0 <= i < |options| ==> Headed(options[i], buffer[..count], lists[i]))
    && (forall i, k :: 0 <= i < |options| && 0 <= k < |lists[i]| ==>
          lists[i][k] in options || lists[i][k] in buffer)
  }

  /** The arrays with the lists of all indices but one in order. */
  ghost predicate LinkedBut(usage: seq<Descriptor>, options: seq<Option>, buffer: seq<Option>, stored: seq<Opt>,
                            lists: seq<seq<Option>>, idx: nat)
    reads options, buffer
  {
    && |stored| < |buffer| && |lists| == |options| && Arranged(options, buffer, |stored|, lists)
    && (forall i :: 0 <= i < |options| && i != idx ==> Chain(lists[i]) && Holds(lists[i], Chosen(usage, stored, i)))
  }

  /** The buffer slots that are used hold the options stored. */
  ghost predicate Stored(buffer: seq<Option>, stored: seq<Opt>)
    reads buffer
  {
    |stored| <= |buffer|
    && forall p :: 0 <= p < |buffer| ==>
         buffer[p].value == if p < |stored| then Just(stored[p]) else Nothing
  }

  /** What is left to check when all lists but one are as they were. */
  lemma LinkedAgain(usage: seq<Descriptor>, options: seq<Option>, buffer: seq<Option>, stored: seq<Opt>,
                    option: Opt, lists: seq<seq<Option>>, idx: nat, own: seq<Option>)
    requires LinkedBut(usage, options, buffer, stored, lists, idx)
    requires option.desc < |usage| && usage[option.desc].index == idx < |options|
    requires own == lists[idx] || own == lists[idx] + [buffer[|stored|]]
    requires Chain(own) && Holds(own, Chosen(usage, stored, idx) + [option])
    requires Stored(buffer, stored + [option])
    ensures Linked(usage, options, buffer, stored + [option], lists[idx := own])
  {
    hide Chain, Holds, DistinctSlots, Headed, Chosen;
    var next := lists[idx := own];
    forall i | 0 <= i < |options| ensures Headed(options[i], buffer[..|stored + [option]|], next[i]) {
      HeadedAgain(options[i], buffer, |stored|, lists[i], next[i]);
    }
    forall i | 0 <= i < |options| ensures Chain(next[i]) && Holds(next[i], Chosen(usage, stored + [option], i)) {
      ChosenAppend(usage, stored, option, i);
      assert Chosen(usage, stored, i) + [] == Chosen(usage, stored, i);
    }
  }

  lemma HeadedAgain(head: Option, buffer: seq<Option>, count: nat, nodes: seq<Option>, next: seq<Option>)
    requires count < |buffer| && Headed(head, buffer[..count], nodes)
    requires next == nodes || next == nodes + [buffer[count]]
    ensures Headed(head, buffer[..count + 1], next)
  {
    assert buffer[..count + 1] == buffer[..count] + [buffer[count]];
  }

  /** The head takes the first option of its list over, the slots of the later ones are chained in. */
  method Enlist(head: Option, slot: Option, option: Opt, ghost own: seq<Option>, ghost chosen: seq<Opt>)
    returns (ghost newOwn: seq<Option>)
    requires Chain(own) && own[0] == head && Holds(own, chosen)
    requires slot !in own
    modifies own, slot
    ensures newOwn == own || newOwn == own + [slot]
    ensures Chain(newOwn) && Holds(newOwn, chosen + [option])
    ensures slot.value == Just(option)
    ensures forall n :: n in own && n != head ==> n.value == old(n.value)
  {
    newOwn := own;
    assert head in own;
    slot.Assign(Just(option));
    if head.value.Just? {
      head.Append(slot, own);
      newOwn := own + [slot];
    } else {
      head.Assign(slot.value);
    }
  }

  lemma Distinct(nodes: seq<Option>)
    requires Chain(nodes)
    ensures forall i, j :: 0 <= i < j < |nodes| ==> nodes[i] != nodes[j]
  {
  }

  /** What an element of a list says, apart from where it is kept. */
  datatype Node = Node(next: Option, nextTagged: bool, prev: Option, prevTagged: bool, value: Maybe<Opt>)

  ghost function Nodes(nodes: seq<Option>): (ns: seq<Node>)
    reads nodes
    ensures |ns| == |nodes|
    ensures forall k :: 0 <= k < |nodes| ==>
              ns[k] == Node(nodes[k].next, nodes[k].nextTagged, nodes[k].prev, nodes[k].prevTagged, nodes[k].value)
  {
    seq(|nodes|, k requires 0 <= k < |nodes| reads nodes =>
      Node(nodes[k].next, nodes[k].nextTagged, nodes[k].prev, nodes[k].prevTagged, nodes[k].value))
  }

  /** The chosen options, by what the elements of their list say. */
  ghost predicate InOrder(nodes: seq<Option>, ns: seq<Node>, chosen: seq<Opt>) {
    && Ordered(nodes, ns)
    && (if chosen == [] then |nodes| == 1 && ns[0].value == Nothing
        else |nodes| == |chosen| && forall k :: 0 <= k < |nodes| ==> ns[k].value == Just(chosen[k]))
  }

  /** One list, in this order. */
  ghost predicate Ordered(nodes: seq<Option>, ns: seq<Node>) {
    && nodes != [] && |ns| == |nodes|
    && (forall i, j :: 0 <= i < j < |nodes| ==> nodes[i] != nodes[j])
    && (forall k :: 0 <= k < |nodes| - 1 ==> ns[k].next == nodes[k + 1] && !ns[k].nextTagged)
    && ns[|nodes| - 1].next == nodes[0] && ns[|nodes| - 1].nextTagged
    && (forall k :: 1 <= k < |nodes| ==> ns[k].prev == nodes[k - 1] && !ns[k].prevTagged)
    && ns[0].prev == nodes[|nodes| - 1] && ns[0].prevTagged
  }

  lemma OrderOfChain(nodes: seq<Option>)
    ensures Chain(nodes) <==> Ordered(nodes, Nodes(nodes))
  {
  }

  /** What the elements say after x has been linked in between the last and the first. */
  function LinkedIn(nodes: seq<Option>, ns: seq<Node>, x: Option, value: Maybe<Opt>): seq<Node>
    requires nodes != [] && |ns| == |nodes|
  {
    var last := |nodes| - 1;
    var forth := ns[last := ns[last].(next := x, nextTagged := false)];
    forth[0 := forth[0].(prev := x, prevTagged := true)] + [Node(nodes[0], true, nodes[last], false, value)]
  }

  lemma LinkedInOrder(nodes: seq<Option>, ns: seq<Node>, x: Option, value: Maybe<Opt>)
    requires Ordered(nodes, ns) && x !in nodes
    ensures Ordered(nodes + [x], LinkedIn(nodes, ns, x, value))
  {
  }

  lemma OrderOf(nodes: seq<Option>, chosen: seq<Opt>)
    ensures Chain(nodes) && Holds(nodes, chosen) <==> InOrder(nodes, Nodes(nodes), chosen)
  {
  }

  lemma SlotsApart(options: seq<Option>, buffer: seq<Option>, idx: nat, count: nat)
    requires DistinctSlots(options, buffer) && idx < |options| && count < |buffer|
    ensures forall p :: 0 <= p < |buffer| ==> buffer[p] != options[idx] && (p == count || buffer[p] != buffer[count])
  {
  }

  /** No list has an element of list idx, and none has the next buffer slot. */
  lemma OwnApart(usage: seq<Descriptor>, options: seq<Option>, buffer: seq<Option>, stored: seq<Opt>,
                 lists: seq<seq<Option>>, idx: nat)
    requires Linked(usage, options, buffer, stored, lists) && |stored| < |buffer| && idx < |options|
    ensures LinkedBut(usage, options, buffer, stored, lists, idx)
    ensures lists[idx][..1] == [options[idx]] && Stored(buffer, stored)
    ensures forall p :: 0 <= p < |buffer| ==>
              buffer[p] != options[idx] && (p == |stored| || buffer[p] != buffer[|stored|])
    ensures Chain(lists[idx]) && Holds(lists[idx], Chosen(usage, stored, idx))
    ensures forall n :: n in lists[idx] ==> n in options || n in buffer
    ensures forall i, n :: 0 <= i < |options| && i != idx && n in lists[i] ==> n !in lists[idx] && n != buffer[|stored|]
    ensures buffer[|stored|] !in lists[idx]
  {
    SlotsApart(options, buffer, idx, |stored|);
    hide Chain, Holds, Chosen, DistinctSlots;
    NotUnused(usage, options, buffer, stored, lists, idx, |stored|);
    forall i, n | 0 <= i < |options| && i != idx && n in lists[i] ensures n !in lists[idx] && n != buffer[|stored|] {
      NotUnused(usage, options, buffer, stored, lists, i, |stored|);
      ListsApart(usage, options, buffer, stored, lists, i, idx, n);
    }
  }

  /** Enlisting into one list leaves the lists that share no element with it in order. */
  method EnlistApart(head: Option, slot: Option, option: Opt, ghost lists: seq<seq<Option>>,
                     ghost theirs: seq<seq<Opt>>, ghost idx: nat)
    returns (ghost newOwn: seq<Option>)
    requires idx < |lists| == |theirs| && lists[idx] != [] && lists[idx][0] == head && slot !in lists[idx]
    requires forall i :: 0 <= i < |lists| ==> Chain(lists[i]) && Holds(lists[i], theirs[i])
    requires forall i, n :: 0 <= i < |lists| && i != idx && n in lists[i] ==> n !in lists[idx] && n != slot
    modifies lists[idx], slot
    ensures newOwn == lists[idx] || newOwn == lists[idx] + [slot]
    ensures Chain(newOwn) && Holds(newOwn, theirs[idx] + [option])
    ensures slot.value == Just(option)
    ensures forall n :: n in lists[idx] && n != head ==> n.value == old(n.value)
    ensures forall i :: 0 <= i < |lists| && i != idx ==> Chain(lists[i]) && Holds(lists[i], theirs[i])
  {
    hide Chain, Holds, InOrder;
    forall i | 0 <= i < |lists| ensures InOrder(lists[i], Nodes(lists[i]), theirs[i]) {
      OrderOf(lists[i], theirs[i]);
    }
    newOwn := Enlist(head, slot, option, lists[idx], theirs[idx]);
    forall i | 0 <= i < |lists| && i != idx ensures Chain(lists[i]) && Holds(lists[i], theirs[i]) {
      forall k | 0 <= k < |lists[i]| ensures Nodes(lists[i])[k] == old(Nodes(lists[i]))[k] {
        assert lists[i][k] in lists[i] && lists[i][k] !in lists[idx] && lists[i][k] != slot;
      }
      assert Nodes(lists[i]) == old(Nodes(lists[i]));
      OrderOf(lists[i], theirs[i]);
    }
  }

  /** Copying an option into the next buffer slot and chaining it into its list. */
  method StoreSlot(usage: seq<Descriptor>, options: seq<Option>, buffer: seq<Option>, option: Opt,
                   ghost stored: seq<Opt>, ghost lists: seq<seq<Option>>, count: nat)
    returns (ghost newLists: seq<seq<Option>>)
    requires Linked(usage, options, buffer, stored, lists) && count == |stored| < |buffer|
    requires option.desc < |usage| && usage[option.desc].index < |options|
    modifies options, buffer
    ensures Linked(usage, options, buffer, stored + [option], newLists)
  {
    var slot := buffer[count];
    var idx := usage[option.desc].index;
    OwnApart(usage, options, buffer, stored, lists, idx);
    ghost var theirs := seq(|lists|, i requires 0 <= i < |lists| => Chosen(usage, stored, i));
    assert lists[idx][0] == options[idx] && Stored(buffer, stored) && slot in buffer;
    assert forall k :: 0 <= k < |lists[idx]| ==> lists[idx][k] in options || lists[idx][k] in buffer;
    hide Chosen, Arranged, Chain, Holds, Linked, DistinctSlots;
    ghost var next := EnlistApart(options[idx], slot, option, lists, theirs, idx);
    assert Stored(buffer, stored + [option]);
    assert LinkedBut(usage, options, buffer, stored, lists, idx);
    hide LinkedBut, Stored;
    newLists := lists[idx := next];
    LinkedAgain(usage, options, buffer, stored, option, lists, idx, next);
  }

  /** The first options, as many as there is room for after count others; all if there is no bound. */
  function Fitting(opts: seq<Opt>, bufmax: int, count: nat): seq<Opt> {
    if bufmax < 0 || count + |opts| <= bufmax then opts
    else if bufmax <= count then [] else opts[..bufmax - count]
  }

  lemma FittingMore(opts: seq<Opt>, bufmax: int, count: nat, n: nat)
    requires n < |opts|
    ensures var fit := Fitting(opts[..n], bufmax, count);
            Fitting(opts[..n + 1], bufmax, count) ==
            fit + if bufmax < 0 || count + |fit| < bufmax then [opts[n]] else []
  {
    assert opts[..n + 1] == opts[..n] + [opts[n]];
  }

  method FreshOptions(n: nat) returns (s: seq<Option>)
    ensures |s| == n && fresh(s)
    ensures forall i, j :: 0 <= i < j < n ==> s[i] != s[j]
    ensures forall i :: 0 <= i < n ==> s[i].value == Nothing && Chain([s[i]])
  {
    s := [];
    while |s| < n
      invariant |s| <= n && fresh(s)
      invariant forall i, j :: 0 <= i < j < |s| ==> s[i] != s[j]
      invariant forall i :: 0 <= i < |s| ==> s[i].value == Nothing && Chain([s[i]])
    {
      var o := new Option();
      s := s + [o];
    }
  }
}
