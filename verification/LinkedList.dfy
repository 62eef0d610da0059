/**
 * CxxTest's intrusive doubly linked list. Links carry an activation flag that walks skip; `elems` is the ghost
 * sequence the pointers represent.
 */
module LinkedList {

  class Link<T> {
    var next: Link?<T>
    var prev: Link?<T>
    var active: bool
    const item: T

    constructor (item: T)
      ensures next == null && prev == null && active && this.item == item
    {
      next, prev, active, this.item := null, null, true, item;
    }

    method SetActive(value: bool)
      modifies this`active
      ensures active == value
    {
      active := value;
    }

    /** The next active link behind this one. */
    method Next(ghost list: List<T>, ghost i: nat) returns (l: Link?<T>)
      requires list.Valid() && i < |list.elems| && list.elems[i] == this
      ensures l == list.At(FirstActive(list.elems, i + 1))
    {
      l := next;
      ghost var k := i + 1;
      while l != null && !l.active
        invariant i < k <= |list.elems| && l == list.At(k)
        invariant FirstActive(list.elems, k) == FirstActive(list.elems, i + 1)
        decreases |list.elems| - k
      {
        l := l.next;
        k := k + 1;
      }
    }

    /** The nearest active link before this one. */
    method Prev(ghost list: List<T>, ghost i: nat) returns (l: Link?<T>)
      requires list.Valid() && i < |list.elems| && list.elems[i] == this
      ensures l == list.At(LastActive(list.elems, i))
    {
      l := prev;
      ghost var k: int := i - 1;
      while l != null && !l.active
        invariant -1 <= k < i && l == list.At(k)
        invariant LastActive(list.elems, k + 1) == LastActive(list.elems, i)
        decreases k
      {
        l := l.prev;
        k := k - 1;
      }
    }

    /** Append this link, which is in no list, to l. */
    method Attach(l: List<T>)
      requires l.Valid() && this !in l.elems
      modifies l, this`next, this`prev, l.elems`next
      ensures l.Valid() && l.elems == old(l.elems) + [this]
    {
      if l.tail != null {
        l.tail.next := this;
      }
      prev := l.tail;
      next := null;
      if l.head == null {
        l.head := this;
      }
      l.tail := this;
      l.elems := l.elems + [this];
    }

    /** Take this link, the i-th of l, out of l. */
    method Detach(l: List<T>, ghost i: nat)
      requires l.Valid() && i < |l.elems| && l.elems[i] == this
      modifies l, l.elems`next, l.elems`prev
      ensures l.Valid() && l.elems == old(l.elems)[..i] + old(l.elems)[i + 1..]
    {
      Unlink(l, i);
      ghost var was := l.elems;
      l.elems := was[..i] + was[i + 1..];
      Spliced(l, was, i);
    }

    /** The pointer updates of detach: the neighbours, or the list's ends, now pass this link by. */
    method Unlink(l: List<T>, ghost i: nat)
      requires l.Valid() && i < |l.elems| && l.elems[i] == this
      modifies l`head, l`tail, l.elems`next, l.elems`prev
      ensures l.head == l.At(if i == 0 then 1 else 0)
      ensures l.tail == l.At(if i == |l.elems| - 1 then |l.elems| - 2 else |l.elems| - 1)
      ensures forall j {:trigger l.elems[j].next} :: 0 <= j < |l.elems| && j != i ==>
        l.elems[j].next == l.At(if j == i - 1 then j + 2 else j + 1)
      ensures forall j {:trigger l.elems[j].prev} :: 0 <= j < |l.elems| && j != i ==>
        l.elems[j].prev == l.At(if j == i + 1 then j - 2 else j - 1)
      ensures Distinct(l.elems)
    {
      if prev != null {
        prev.next := next;
      } else {
        l.head := next;
      }
      if next != null {
        next.prev := prev;
      } else {
        l.tail := prev;
      }
    }
  }

  // ---------------------------------------------------------------- positions of active links

  /** The first active position from i on, or |s|. */
  ghost function FirstActive<T>(s: seq<Link<T>>, i: nat): (k: nat)
    requires i <= |s|
    reads s`active
    ensures i <= k <= |s| && (k < |s| ==> s[k].active)
    ensures forall j :: i <= j < k ==> !s[j].active
    decreases |s| - i
  {
    if i == |s| || s[i].active then i else FirstActive(s, i + 1)
  }

  /** The last active position before i, or -1. */
  ghost function LastActive<T>(s: seq<Link<T>>, i: nat): (k: int)
    requires i <= |s|
    reads s`active
    ensures -1 <= k < i && (k >= 0 ==> s[k].active)
    ensures forall j :: k < j < i ==> !s[j].active
  {
    if i == 0 then -1 else if s[i - 1].active then i - 1 else LastActive(s, i - 1)
  }

  /** The active links among the first n, in list order. */
  ghost function ActiveUpTo<T>(s: seq<Link<T>>, n: nat): (r: seq<Link<T>>)
    requires n <= |s|
    reads s`active
    ensures |r| <= n && forall x :: x in r ==> x in s && x.active
  {
    if n == 0 then [] else if s[n - 1].active then ActiveUpTo(s, n - 1) + [s[n - 1]] else ActiveUpTo(s, n - 1)
  }

  /** What a walk with head()/next() visits, starting at position i. */
  ghost function ForwardWalk<T>(s: seq<Link<T>>, i: nat): seq<Link<T>>
    requires i <= |s|
    reads s`active
    decreases |s| - i
  {
    var k := FirstActive(s, i);
    if k == |s| then [] else [s[k]] + ForwardWalk(s, k + 1)
  }

  /** What a walk with tail()/prev() visits below position i. */
  ghost function BackwardWalk<T>(s: seq<Link<T>>, i: nat): seq<Link<T>>
    requires i <= |s|
    reads s`active
    decreases i
  {
    var k := LastActive(s, i);
    if k < 0 then [] else [s[k]] + BackwardWalk(s, k)
  }

  ghost predicate Distinct<T>(s: seq<Link<T>>) {
    forall i, j :: 0 <= i < j < |s| ==> s[i] != s[j]
  }

  /** The link at position k, null outside. */
  function LinkAt<T>(s: seq<Link<T>>, k: int): Link?<T> {
    if 0 <= k < |s| then s[k] else null
  }

  /** A list whose pointers pass the i-th link by represents the sequence without it. */
  lemma Spliced<T>(l: List<T>, was: seq<Link<T>>, i: nat)
    requires i < |was| && l.elems == was[..i] + was[i + 1..] && Distinct(was)
    requires l.head == LinkAt(was, if i == 0 then 1 else 0)
    requires l.tail == LinkAt(was, if i == |was| - 1 then |was| - 2 else |was| - 1)
    requires forall j {:trigger was[j].next} :: 0 <= j < |was| && j != i ==>
      was[j].next == LinkAt(was, if j == i - 1 then j + 2 else j + 1)
    requires forall j {:trigger was[j].prev} :: 0 <= j < |was| && j != i ==>
      was[j].prev == LinkAt(was, if j == i + 1 then j - 2 else j - 1)
    ensures l.Valid()
  {
    hide Distinct, LinkAt;
    StillDistinct(was, i);
    var n := |l.elems|;
    SplicedAt(was, i, 0);
    SplicedAt(was, i, n - 1);
    NoLink(was);
    NoLink(l.elems);
    forall j | 0 <= j < n ensures l.elems[j].next == LinkAt(l.elems, j + 1) && l.elems[j].prev == LinkAt(l.elems, j - 1) {
      var o := if j < i then j else j + 1;
      assert l.elems[j] == was[o];
      SplicedAt(was, i, j + 1);
      SplicedAt(was, i, j - 1);
      assert was[o].next == LinkAt(was, if o == i - 1 then o + 2 else o + 1);
      assert was[o].prev == LinkAt(was, if o == i + 1 then o - 2 else o - 1);
    }
  }

  /** Where the links stand in the shorter sequence. */
  lemma SplicedAt<T>(was: seq<Link<T>>, i: nat, k: int)
    requires i < |was|
    ensures LinkAt(was[..i] + was[i + 1..], k) == LinkAt(was, if k < i then k else k + 1)
  {
  }

  lemma NoLink<T>(s: seq<Link<T>>)
    ensures LinkAt(s, -1) == null && LinkAt(s, -2) == null && LinkAt(s, |s|) == null && LinkAt(s, |s| + 1) == null
  {
  }

  lemma StillDistinct<T>(s: seq<Link<T>>, i: nat)
    requires Distinct(s) && i < |s|
    ensures Distinct(s[..i] + s[i + 1..])
  {
  }

  ghost function Reverse<A>(s: seq<A>): (r: seq<A>)
    ensures |r| == |s| && forall i :: 0 <= i < |s| ==> r[i] == s[|s| - 1 - i]
  {
    seq(|s|, i requires 0 <= i < |s| => s[|s| - 1 - i])
  }

  /** Every active link is among them, and no other. */
  lemma {:induction false} ActiveLinks<T>(s: seq<Link<T>>, n: nat, x: Link<T>)
    requires n <= |s|
    ensures x in ActiveUpTo(s, n) <==> x.active && x in s[..n]
  {
    if n > 0 {
      ActiveLinks(s, n - 1, x);
      assert s[..n] == s[..n - 1] + [s[n - 1]];
    }
  }

  lemma {:induction false} SkipInactive<T>(s: seq<Link<T>>, i: nat, k: nat)
    requires i <= k <= |s| && forall j :: i <= j < k ==> !s[j].active
    ensures ActiveUpTo(s, k) == ActiveUpTo(s, i)
    decreases k
  {
    if i < k {
      SkipInactive(s, i, k - 1);
    }
  }

  /** The forward walk visits exactly the active links, in list order. */
  lemma {:induction false} ForwardIsActive<T>(s: seq<Link<T>>, i: nat)
    requires i <= |s|
    ensures ActiveUpTo(s, |s|) == ActiveUpTo(s, i) + ForwardWalk(s, i)
    decreases |s| - i
  {
    var k := FirstActive(s, i);
    SkipInactive(s, i, k);
    if k < |s| {
      ForwardIsActive(s, k + 1);
    }
  }

  /** The backward walk visits exactly the active links, in reverse list order. */
  lemma {:induction false} BackwardIsActive<T>(s: seq<Link<T>>, i: nat)
    requires i <= |s|
    ensures BackwardWalk(s, i) == Reverse(ActiveUpTo(s, i))
    decreases i
  {
    var k := LastActive(s, i);
    SkipInactive(s, k + 1, i);
    if k >= 0 {
      BackwardIsActive(s, k);
    }
  }

  lemma WalksMirror<T>(s: seq<Link<T>>)
    ensures BackwardWalk(s, |s|) == Reverse(ForwardWalk(s, 0))
  {
    ForwardIsActive(s, 0);
    BackwardIsActive(s, |s|);
    assert ActiveUpTo(s, |s|) == ForwardWalk(s, 0);
  }

  // ---------------------------------------------------------------- the list

  class List<T> {
    var head: Link?<T>
    var tail: Link?<T>
    ghost var elems: seq<Link<T>>

    ghost function At(k: int): Link?<T>
      reads this
    {
      LinkAt(elems, k)
    }

    /** Head and the next pointers, and tail and the prev pointers, spell the same sequence of distinct links. */
    ghost predicate Valid()
      reads this, elems`next, elems`prev
    {
      && head == At(0) && tail == At(|elems| - 1)
      && (forall i {:trigger elems[i].next} :: 0 <= i < |elems| ==> elems[i].next == At(i + 1))
      && (forall i {:trigger elems[i].prev} :: 0 <= i < |elems| ==> elems[i].prev == At(i - 1))
      && Distinct(elems)
    }

    constructor ()
      ensures Valid() && elems == []
    {
      head, tail, elems := null, null, [];
    }

    method Head() returns (l: Link?<T>)
      requires Valid()
      ensures l == At(FirstActive(elems, 0))
    {
      l := head;
      ghost var k := 0;
      while l != null && !l.active
        invariant 0 <= k <= |elems| && l == At(k)
        invariant FirstActive(elems, k) == FirstActive(elems, 0)
        decreases |elems| - k
      {
        l := l.next;
        k := k + 1;
      }
    }

    /** The last active link; for the mock registry, the most recently attached live mock. */
    method Tail() returns (l: Link?<T>)
      requires Valid()
      ensures l == At(LastActive(elems, |elems|))
    {
      l := tail;
      ghost var k: int := |elems| - 1;
      while l != null && !l.active
        invariant -1 <= k < |elems| && l == At(k)
        invariant LastActive(elems, k + 1) == LastActive(elems, |elems|)
        decreases k
      {
        l := l.prev;
        k := k - 1;
      }
    }

    method Empty() returns (b: bool)
      requires Valid()
      ensures b <==> elems == []
    {
      b := head == null;
    }

    method Size() returns (count: nat)
      requires Valid()
      ensures count == |ActiveUpTo(elems, |elems|)|
    {
      count := 0;
      var l := Head();
      ghost var k := FirstActive(elems, 0);
      SkipInactive(elems, 0, k);
      while l != null
        invariant 0 <= k <= |elems| && l == At(k) && (k < |elems| ==> elems[k].active)
        invariant count == |ActiveUpTo(elems, k)|
        decreases |elems| - k
      {
        count := count + 1;
        l := l.Next(this, k);
        ghost var k' := FirstActive(elems, k + 1);
        SkipInactive(elems, k + 1, k');
        k := k';
      }
    }

    /** The n-th active link; one past the last gives null, and further is out of the list. */
    method Nth(n: nat) returns (l: Link?<T>)
      requires Valid() && n <= |ActiveUpTo(elems, |elems|)|
      ensures var active := ActiveUpTo(elems, |elems|);
              l == if n < |active| then active[n] else null
    {
      hide FirstActive, ForwardWalk, ActiveUpTo;
      l := Head();
      var m := n;
      ghost var k := FirstActive(elems, 0);
      ghost var active := ActiveUpTo(elems, |elems|);
      WalkIsActive(elems);
      while m > 0
        invariant 0 <= m <= n && 0 <= k <= |elems| && l == At(k) && (k < |elems| ==> elems[k].active)
        invariant n <= |active| && ForwardWalk(elems, k) == active[n - m..]
        decreases m
      {
        WalkFrom(elems, k);
        m := m - 1;
        assert active[n - m - 1..][1..] == active[n - m..];
        l := l.Next(this, k);
        k := FirstActive(elems, k + 1);
      }
      WalkFrom(elems, k);
    }

    method ActivateAll()
      requires Valid()
      modifies elems`active
      ensures forall x :: x in elems ==> x.active
    {
      var l := head;
      ghost var k := 0;
      while l != null
        invariant 0 <= k <= |elems| && l == At(k)
        invariant forall j :: 0 <= j < k ==> elems[j].active
        decreases |elems| - k
      {
        l.SetActive(true);
        l := l.next;
        k := k + 1;
      }
    }

    /** Only `link` stays active, if it was. The walk reads the flags this loop clears. */
    method LeaveOnly(link: Link<T>)
      requires Valid()
      modifies elems`active
      ensures forall x :: x in elems ==> x.active == (old(x.active) && x == link)
    {
      hide FirstActive, Flags, List.Valid;
      ghost var was := Flags(elems);
      var l := Head();
      ghost var k := FirstActive(elems, 0);
      while l != null
        invariant 0 <= k <= |was| == |elems| && l == At(k)
        invariant forall j {:trigger was[j]} :: 0 <= j < k ==> elems[j].active == (was[j] && elems[j] == link)
        invariant forall j {:trigger was[j]} :: k <= j < |elems| ==> elems[j].active == was[j]
        decreases |elems| - k
      {
        ghost var k' := Deselect(l, link, k);
        l := l.Next(this, k);
        k := k';
      }
      assert forall j :: 0 <= j < |elems| ==> elems[j].active == (was[j] && elems[j] == link);
    }

    lemma DistinctElems()
      requires Valid()
      ensures Distinct(elems)
    {
    }

    /** Clear l's flag unless it is the link to leave; what follows l is not affected. */
    method Deselect(l: Link<T>, link: Link<T>, ghost k: nat) returns (ghost k': nat)
      requires Valid() && k < |elems| && elems[k] == l
      modifies l`active
      ensures l.active == (old(l.active) && l == link)
      ensures k' == FirstActive(elems, k + 1) && forall j :: k < j < k' ==> !old(elems[j].active)
      ensures forall j :: 0 <= j < |elems| && j != k ==> elems[j].active == old(elems[j].active)
    {
      DistinctElems();
      if l != link {
        l.SetActive(false);
      }
      k' := FirstActive(elems, k + 1);
    }
  }

  ghost function Flags<T>(s: seq<Link<T>>): (r: seq<bool>)
    reads s`active
    ensures |r| == |s| && forall i :: 0 <= i < |s| ==> r[i] == s[i].active
  {
    if s == [] then [] else Flags(s[..|s| - 1]) + [s[|s| - 1].active]
  }

  /** The walk from the first active link is all active links. */
  lemma WalkIsActive<T>(s: seq<Link<T>>)
    ensures ForwardWalk(s, FirstActive(s, 0)) == ActiveUpTo(s, |s|)
  {
    ForwardIsActive(s, 0);
    SkipInactive(s, 0, FirstActive(s, 0));
    ForwardIsActive(s, FirstActive(s, 0));
  }

  lemma WalkFrom<T>(s: seq<Link<T>>, k: nat)
    requires k <= |s| && (k < |s| ==> s[k].active)
    ensures ForwardWalk(s, k) == if k == |s| then [] else [s[k]] + ForwardWalk(s, FirstActive(s, k + 1))
  {
    if k < |s| {
      var k' := FirstActive(s, k + 1);
      assert ForwardWalk(s, k + 1) == ForwardWalk(s, k');
    }
  }
}
