/**
 The children of a node: a doubly linked list ending in null on both sides, edited in place. Each edit is proved to do
 to the links what the matching operation does to a sequence, for any index, and so does any run of edits.
 */
module JsonList {
  import JsonModel

  class CJson {
    var next: CJson?
    var prev: CJson?
    var child: CJson?

    constructor ()
      ensures next == null && prev == null && child == null
    {
      next, prev, child := null, null, null;
    }
  }

  // ----- The sequence ---------------------------------------------------------------------------------------

  /** Negative indexes count as zero, as the loops `while (c && which > 0)` make them. */
  function Index(which: int): nat {
    if which > 0 then which else 0
  }

  function At<T>(s: seq<T>, which: int): (r: seq<T>) {
    if Index(which) < |s| then [s[Index(which)]] else []
  }

  function Without<T>(s: seq<T>, which: int): seq<T> {
    if Index(which) < |s| then s[..Index(which)] + s[Index(which) + 1..] else s
  }

  /** An index beyond the end appends. */
  function With<T>(s: seq<T>, which: int, x: T): seq<T> {
    if Index(which) < |s| then s[..Index(which)] + [x] + s[Index(which)..] else s + [x]
  }

  function Replaced<T>(s: seq<T>, which: int, x: T): seq<T> {
    if Index(which) < |s| then s[Index(which) := x] else s
  }

  /** The edits in the index as it is given: inside the list, below it, and beyond its end. */
  lemma EditsAt<T>(s: seq<T>, which: int, x: T)
    ensures 0 <= which < |s| ==>
              && At(s, which) == [s[which]] && Without(s, which) == s[..which] + s[which + 1..]
              && With(s, which, x) == s[..which] + [x] + s[which..] && Replaced(s, which, x) == s[which := x]
    ensures which < 0 && s != [] ==>
              && At(s, which) == [s[0]] && Without(s, which) == s[1..]
              && With(s, which, x) == [x] + s && Replaced(s, which, x) == [x] + s[1..]
    ensures which >= |s| || s == [] ==>
              At(s, which) == [] && Without(s, which) == s && With(s, which, x) == s + [x] && Replaced(s, which, x) == s
  {}

  // ----- The links --------------------------------------------------------------------------------------------

  function Nth(s: seq<CJson>, i: int): CJson? {
    if 0 <= i < |s| then s[i] else null
  }

  ghost predicate Distinct(s: seq<CJson>) {
    forall i, j | 0 <= i < j < |s| :: s[i] != s[j]
  }

  ghost predicate LinkedAt(s: seq<CJson>, i: nat)
    requires i < |s|
    reads s
  {
    s[i].next == Nth(s, i + 1) && s[i].prev == Nth(s, i - 1)
  }

  /** next and prev mirror the order of s, and null ends it on both sides. */
  ghost predicate Linked(list: CJson, s: seq<CJson>)
    reads list, s
  {
    && list !in s && Distinct(s)
    && list.child == Nth(s, 0)
    && (forall i {:trigger LinkedAt(s, i)} | 0 <= i < |s| :: LinkedAt(s, i))
  }

  /** An item that is on no list. */
  ghost predicate Detached(item: CJson)
    reads item
  {
    item.next == null && item.prev == null
  }

  method GetArraySize(list: CJson, ghost s: seq<CJson>) returns (i: nat)
    requires Linked(list, s) && |s| <= JsonModel.INT_MAX
    ensures i == |s|
  {
    var c := list.child;
    i := 0;
    while c != null
      invariant i <= |s| && c == Nth(s, i)
      decreases |s| - i
    {
      assert LinkedAt(s, i);
      i, c := i + 1, c.next;
    }
  }

  /** Walks to the item with the given index, or to null. */
  method GetArrayItem(list: CJson, item: int, ghost s: seq<CJson>) returns (c: CJson?)
    requires Linked(list, s)
    ensures c == Nth(s, Index(item))
    ensures 0 <= item < |s| ==> c == s[item]
    ensures item < 0 && s != [] ==> c == s[0]
    ensures item >= |s| ==> c == null
  {
    c := list.child;
    var which := item;
    ghost var i := 0;
    while c != null && which > 0
      invariant 0 <= i <= |s| && c == Nth(s, i)
      invariant i + Index(which) == Index(item)
      decreases |s| - i
    {
      assert LinkedAt(s, i);
      which, c, i := which - 1, c.next, i + 1;
    }
  }

  method AddItemToArray(list: CJson, item: CJson?, ghost s: seq<CJson>)
    requires Linked(list, s)
    requires item != null ==> item != list && item !in s && Detached(item)
    modifies list, s, item
    ensures Linked(list, if item == null then s else s + [item])
  {
    var c := list.child;
    if item == null {
      return;
    }
    if c == null {
      list.child := item;
    } else {
      ghost var i := 0;
      assert LinkedAt(s, 0);
      while c.next != null
        invariant 0 <= i < |s| && c == s[i] && LinkedAt(s, i)
        decreases |s| - i
      {
        c, i := c.next, i + 1;
        assert LinkedAt(s, i);
      }
      c.next := item;
      item.prev := c;
    }
    ghost var t := s + [item];
    forall j | 0 <= j < |t|
      ensures LinkedAt(t, j)
    {
      if j < |s| {
        assert old(LinkedAt(s, j));
      }
    }
  }

  /** One step of parsing an array or an object: the new child goes behind the last one, which is at hand. */
  method LinkChild(list: CJson, last: CJson?, item: CJson, ghost s: seq<CJson>)
    requires Linked(list, s) && last == Nth(s, |s| - 1) && item != list && item !in s && Detached(item)
    modifies list, s, item
    ensures Linked(list, s + [item])
  {
    if last == null {
      list.child := item;
    } else {
      last.next := item;
      item.prev := last;
    }
    ghost var t := s + [item];
    forall j | 0 <= j < |t|
      ensures LinkedAt(t, j)
    {
      if j < |s| {
        assert old(LinkedAt(s, j));
      }
    }
  }

  /** The links that parsing makes for n children are those of a list of n. */
  method LinkChildren(n: nat) returns (list: CJson, ghost s: seq<CJson>)
    ensures Linked(list, s) && |s| == n && fresh(list) && forall x | x in s :: fresh(x)
  {
    list := new CJson();
    s := [];
    var last: CJson? := null;
    for i := 0 to n
      invariant Linked(list, s) && |s| == i && last == Nth(s, i - 1)
      invariant fresh(list) && forall k | 0 <= k < |s| :: fresh(s[k])
    {
      var item := new CJson();
      LinkChild(list, last, item, s);
      last := item;
      s := s + [item];
    }
  }

  method DetachItemFromArray(list: CJson, which: int, ghost s: seq<CJson>) returns (c: CJson?)
    requires Linked(list, s)
    modifies list, s
    ensures c == Nth(s, Index(which)) && Linked(list, Without(s, which))
    ensures 0 <= which < |s| ==> c == s[which]
    ensures which < 0 && s != [] ==> c == s[0]
    ensures which >= |s| ==> c == null
    ensures c != null ==> Detached(c) && c !in Without(s, which)
    ensures list.next == old(list.next) && list.prev == old(list.prev)
  {
    c := GetArrayItem(list, which, s);
    if c == null {
      return;
    }
    ghost var w := Index(which);
    assert LinkedAt(s, w);
    if c.prev != null {
      c.prev.next := c.next;
    }
    if c.next != null {
      c.next.prev := c.prev;
    }
    if c == list.child {
      list.child := c.next;
    }
    c.prev := null;
    c.next := null;
    forall i | 0 <= i < |s| && i != w
      ensures UnlinkedAt(s, w, i)
    {
      assert old(LinkedAt(s, i)) && s[i] != s[w];
      assert w > 0 && i != w - 1 ==> s[i] != s[w - 1];
      assert w + 1 < |s| && i != w + 1 ==> s[i] != s[w + 1];
    }
    UnlinkedIsLinked(list, s, which);
  }

  /** Every other item links past item number w. */
  ghost predicate UnlinkedAt(s: seq<CJson>, w: nat, i: nat)
    requires i < |s|
    reads s
  {
    && s[i].next == (if i + 1 == w then Nth(s, w + 1) else Nth(s, i + 1))
    && s[i].prev == (if i == w + 1 then Nth(s, w - 1) else Nth(s, i - 1))
  }

  lemma UnlinkedIsLinked(list: CJson, s: seq<CJson>, which: int)
    requires Index(which) < |s| && list !in s && Distinct(s)
    requires list.child == if Index(which) == 0 then Nth(s, 1) else Nth(s, 0)
    requires forall i {:trigger UnlinkedAt(s, Index(which), i)} |
               0 <= i < |s| && i != Index(which) :: UnlinkedAt(s, Index(which), i)
    ensures Linked(list, Without(s, which)) && s[Index(which)] !in Without(s, which)
  {
    var w, t := Index(which), Without(s, which);
    RemoveKeeps(s, which);
    NthWithout(s, which, 0);
    hide Without, Distinct, Index;
    forall j | 0 <= j < |t|
      ensures LinkedAt(t, j)
    {
      assert UnlinkedAt(s, w, if j < w then j else j + 1);
      NthWithout(s, which, j + 1);
      NthWithout(s, which, j - 1);
    }
  }

  lemma NthWithout(s: seq<CJson>, which: int, j: int)
    requires Index(which) < |s|
    ensures Nth(Without(s, which), j) == if j < Index(which) then Nth(s, j) else Nth(s, j + 1)
  {}

  /** Positions after one is taken out. */
  lemma RemoveKeeps(s: seq<CJson>, which: int)
    requires Index(which) < |s| && Distinct(s)
    ensures var w, t := Index(which), Without(s, which);
            && Distinct(t) && s[w] !in t && |t| == |s| - 1
            && (forall x | x in t :: x in s)
            && forall i | 0 <= i < |t| :: t[i] == if i < w then s[i] else s[i + 1]
  {}

  method InsertItemInArray(list: CJson, which: int, newitem: CJson, ghost s: seq<CJson>)
    requires Linked(list, s) && newitem != list && newitem !in s && Detached(newitem)
    modifies list, s, newitem
    ensures Linked(list, With(s, which, newitem))
  {
    var c := GetArrayItem(list, which, s);
    if c == null {
      AddItemToArray(list, newitem, s);
      return;
    }
    ghost var w := Index(which);
    assert LinkedAt(s, w);
    newitem.next := c;
    newitem.prev := c.prev;
    c.prev := newitem;
    if c == list.child {
      list.child := newitem;
    } else {
      newitem.prev.next := newitem;
    }
    ghost var t := With(s, which, newitem);
    InsertKeeps(s, w, newitem);
    forall j | 0 <= j < |t|
      ensures LinkedAt(t, j)
    {
      assert t[j] == if j < w then s[j] else if j == w then newitem else s[j - 1];
      if j != w {
        assert old(LinkedAt(s, if j < w then j else j - 1));
      }
      assert Nth(t, j + 1) == if j + 1 < w then Nth(s, j + 1) else if j + 1 == w then newitem else Nth(s, j);
      assert Nth(t, j - 1) == if j - 1 < w then Nth(s, j - 1) else if j - 1 == w then newitem else Nth(s, j - 2);
    }
  }

  /** Positions after one is put in. */
  lemma InsertKeeps(s: seq<CJson>, w: nat, x: CJson)
    requires w < |s| && Distinct(s) && x !in s
    ensures var t := s[..w] + [x] + s[w..];
            && Distinct(t)
            && forall i | 0 <= i < |t| :: t[i] == if i < w then s[i] else if i == w then x else s[i - 1]
  {}

  /** The item replaced is left detached, for deletion. */
  method ReplaceItemInArray(list: CJson, which: int, newitem: CJson, ghost s: seq<CJson>)
    requires Linked(list, s) && newitem != list && newitem !in s && Detached(newitem)
    modifies list, s, newitem
    ensures Linked(list, Replaced(s, which, newitem))
    ensures Index(which) < |s| ==> Detached(s[Index(which)])
    ensures Index(which) >= |s| ==> Detached(newitem)
  {
    var c := GetArrayItem(list, which, s);
    if c == null {
      return;
    }
    ghost var w := Index(which);
    assert LinkedAt(s, w);
    newitem.next := c.next;
    newitem.prev := c.prev;
    if newitem.next != null {
      newitem.next.prev := newitem;
    }
    if c == list.child {
      list.child := newitem;
    } else {
      newitem.prev.next := newitem;
    }
    c.next := null;
    c.prev := null;
    ghost var t := Replaced(s, which, newitem);
    forall j | 0 <= j < |t|
      ensures LinkedAt(t, j)
    {
      assert old(LinkedAt(s, j));
      assert Nth(t, j + 1) == if j + 1 == w then newitem else Nth(s, j + 1);
      assert Nth(t, j - 1) == if j - 1 == w then newitem else Nth(s, j - 1);
    }
  }

  // ----- Runs of edits ------------------------------------------------------------------------------------------

  datatype Edit =
    | Add(item: CJson)
    | Detach(which: int)
    | Insert(which: int, item: CJson)
    | Replace(which: int, item: CJson)

  /** The items on the list, those on no list that can be put on it, and those that a replacement has deleted. */
  datatype Shelf = Shelf(list: seq<CJson>, pool: set<CJson>, gone: set<CJson>)

  /** Detaching hands an item to the pool, from which any later edit may take it again. */
  function Step(b: Shelf, e: Edit): Shelf {
    match e
    case Add(item) => b.(list := b.list + [item], pool := b.pool - {item})
    case Detach(which) => b.(list := Without(b.list, which), pool := b.pool + ItemsAt(b.list, which))
    case Insert(which, item) => b.(list := With(b.list, which, item), pool := b.pool - {item})
    case Replace(which, item) =>
      if Index(which) < |b.list|
      then Shelf(Replaced(b.list, which, item), b.pool - {item}, b.gone + ItemsAt(b.list, which))
      else b
  }

  function ItemsAt(s: seq<CJson>, which: int): set<CJson> {
    if Index(which) < |s| then {s[Index(which)]} else {}
  }

  function Run(b: Shelf, edits: seq<Edit>): Shelf
    decreases |edits|
  {
    if edits == [] then b else Run(Step(b, edits[0]), edits[1..])
  }

  /** What an edit puts on the list is in the pool when its turn comes. */
  predicate Proper(b: Shelf, edits: seq<Edit>)
    decreases |edits|
  {
    edits != [] ==> (!edits[0].Detach? ==> edits[0].item in b.pool) && Proper(Step(b, edits[0]), edits[1..])
  }

  /** No item stands twice on the list or is in two places. */
  ghost predicate Apart(b: Shelf) {
    && Distinct(b.list)
    && (forall x | x in b.list :: x !in b.pool && x !in b.gone)
    && b.pool !! b.gone
  }

  ghost function AllItems(b: Shelf): set<CJson> {
    (set x | x in b.list) + b.pool + b.gone
  }

  lemma StepConserves(b: Shelf, e: Edit)
    requires Apart(b) && (!e.Detach? ==> e.item in b.pool)
    ensures Apart(Step(b, e)) && AllItems(Step(b, e)) == AllItems(b)
  {
    match e
    case Add(item) => PutConserves(b, b.list + [item], item);
    case Insert(which, item) =>
      if Index(which) < |b.list| {
        InsertKeeps(b.list, Index(which), item);
        assert b.list == b.list[..Index(which)] + b.list[Index(which)..];
      }
      PutConserves(b, With(b.list, which, item), item);
    case Detach(which) =>
      if Index(which) < |b.list| {
        RemoveKeeps(b.list, which);
        assert b.list == b.list[..Index(which)] + [b.list[Index(which)]] + b.list[Index(which) + 1..];
      }
    case Replace(which, item) =>
      if Index(which) < |b.list| {
        ReplaceKeeps(b.list, Index(which), item);
      }
  }

  lemma PutConserves(b: Shelf, s: seq<CJson>, item: CJson)
    requires Apart(b) && item in b.pool && Distinct(s) && forall x :: x in s <==> x in b.list || x == item
    ensures var c := b.(list := s, pool := b.pool - {item});
            Apart(c) && AllItems(c) == AllItems(b)
  {}

  lemma ReplaceKeeps(s: seq<CJson>, w: nat, x: CJson)
    requires w < |s| && Distinct(s) && x !in s
    ensures Distinct(s[w := x])
    ensures forall z :: z in s[w := x] <==> z == x || (z in s && z != s[w])
  {
    forall z | z in s && z != s[w]
      ensures z in s[w := x]
    {
      var i :| 0 <= i < |s| && s[i] == z;
      assert s[w := x][i] == z;
    }
    assert s[w := x][w] == x;
  }

  /** A run loses no item and doubles none: each ends on the list, in the pool, or deleted by a replacement. */
  lemma {:induction false} RunConserves(b: Shelf, edits: seq<Edit>)
    requires Apart(b) && Proper(b, edits)
    ensures Apart(Run(b, edits)) && AllItems(Run(b, edits)) == AllItems(b)
    decreases |edits|
  {
    if edits != [] {
      StepConserves(b, edits[0]);
      RunConserves(Step(b, edits[0]), edits[1..]);
    }
  }

  /** What an edit can touch. */
  ghost function Movable(b: Shelf): set<CJson> {
    (set x | x in b.list) + b.pool
  }

  /** The links are those of the list, and every item of the pool is on no list. */
  ghost predicate Holds(list: CJson, b: Shelf)
    reads list, b.list, b.pool
  {
    && Linked(list, b.list) && list !in b.pool && Apart(b)
    && forall x | x in b.pool :: Detached(x)
  }

  method Apply(list: CJson, e: Edit, ghost b: Shelf)
    requires Holds(list, b) && (!e.Detach? ==> e.item in b.pool)
    modifies list, b.list, b.pool
    ensures Holds(list, Step(b, e))
  {
    StepConserves(b, e);
    match e
    case Add(item) => AddItemToArray(list, item, b.list);
    case Detach(which) => var c := DetachItemFromArray(list, which, b.list);
    case Insert(which, item) => InsertItemInArray(list, which, item, b.list);
    case Replace(which, item) => ReplaceItemInArray(list, which, item, b.list);
  }

  /**
   Any run of edits, with detached items put back as often as one likes, makes of the links what it makes of the
   sequence.
   */
  method ApplyAll(list: CJson, edits: seq<Edit>, ghost b: Shelf)
    requires Holds(list, b) && Proper(b, edits)
    modifies list, b.list, b.pool
    ensures Holds(list, Run(b, edits))
  {
    hide Holds, Apart, Proper, Step;
    ghost var now := b;
    assert edits[0..] == edits;
    for i := 0 to |edits|
      invariant Holds(list, now) && Proper(now, edits[i..]) && Run(now, edits[i..]) == Run(b, edits)
      invariant Movable(now) <= Movable(b)
    {
      assert edits[i..][0] == edits[i] && edits[i..][1..] == edits[i + 1..];
      ProperStep(now, edits[i..]);
      StepItems(now, edits[i]);
      StillMovable(now, b);
      Apply(list, edits[i], now);
      now := Step(now, edits[i]);
    }
    assert edits[|edits|..] == [];
  }

  lemma ProperStep(b: Shelf, edits: seq<Edit>)
    requires Proper(b, edits) && edits != []
    ensures (!edits[0].Detach? ==> edits[0].item in b.pool) && Proper(Step(b, edits[0]), edits[1..])
  {}

  lemma StillMovable(now: Shelf, b: Shelf)
    requires Movable(now) <= Movable(b)
    ensures forall x | x in now.list || x in now.pool :: x in b.list || x in b.pool
  {
    assert forall x | x in now.list || x in now.pool :: x in Movable(now);
  }

  lemma StepItems(b: Shelf, e: Edit)
    requires !e.Detach? ==> e.item in b.pool
    ensures Movable(Step(b, e)) <= Movable(b)
  {}

  // ----- What the edits mean to each other ----------------------------------------------------------------------

  /** Detaching undoes inserting, and inserting again undoes detaching. */
  lemma InsertDetach<T>(s: seq<T>, which: int, x: T)
    ensures Index(which) <= |s| ==> Without(With(s, which, x), which) == s && At(With(s, which, x), which) == [x]
    ensures Index(which) < |s| - 1 ==> With(Without(s, which), which, s[Index(which)]) == s
  {
    var w := Index(which);
    if w < |s| {
      var t := With(s, which, x);
      assert t[..w] == s[..w] && t[w + 1..] == s[w..] && s == s[..w] + s[w..];
      var u := Without(s, which);
      assert w < |u| ==> u[..w] == s[..w] && u[w..] == s[w + 1..] && s == s[..w] + [s[w]] + s[w + 1..];
    } else if w == |s| {
      assert (s + [x])[..w] == s && (s + [x])[w + 1..] == [];
    }
  }

  /** Replacing is detaching and inserting at one place, unless that place is beyond the end. */
  lemma ReplaceIsDetachInsert<T>(s: seq<T>, which: int, x: T)
    requires Index(which) < |s|
    ensures Replaced(s, which, x) == With(Without(s, which), which, x)
    ensures multiset(Replaced(s, which, x)) == multiset(s) - multiset{s[Index(which)]} + multiset{x}
  {
    var i := Index(which);
    assert s == s[..i] + [s[i]] + s[i + 1..];
    assert s[i := x] == s[..i] + [x] + s[i + 1..];
  }
}
