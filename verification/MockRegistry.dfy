/**
 * The mock registry: any run of mock constructions (attach) and destructions (detach) on one list, and which mock
 * the framework then takes as the current one, the one it makes for an empty list included.
 */
module MockRegistry {
  import opened LinkedList

  datatype Op<T> = Construct(x: T) | Destroy(x: T)

  function Position<T(==)>(s: seq<T>, x: T): (i: nat)
    requires x in s
    ensures i < |s| && s[i] == x
  {
    if s[0] == x then 0 else 1 + Position(s[1..], x)
  }

  /** What the constructor and the destructor make of the represented sequence. */
  function Apply<T(==)>(s: seq<T>, op: Op<T>): seq<T> {
    match op
    case Construct(x) => s + [x]
    case Destroy(x) => if x in s then s[..Position(s, x)] + s[Position(s, x) + 1..] else s
  }

  /** The live mocks after a run that starts with none. */
  function Live<T(==)>(ops: seq<Op<T>>): seq<T> {
    if ops == [] then [] else Apply(Live(ops[..|ops| - 1]), ops[|ops| - 1])
  }

  /** No live mock is constructed again, only live mocks are destroyed. */
  ghost predicate Legal<T>(ops: seq<Op<T>>) {
    ops == [] ||
    (&& Legal(ops[..|ops| - 1])
     && var op := ops[|ops| - 1];
        if op.Construct? then op.x !in Live(ops[..|ops| - 1]) else op.x in Live(ops[..|ops| - 1]))
  }

  /** When x was last constructed, -1 if never. */
  function Born<T(==)>(ops: seq<Op<T>>, x: T): int {
    if ops == [] then -1
    else if ops[|ops| - 1] == Construct(x) then |ops| - 1
    else Born(ops[..|ops| - 1], x)
  }

  /** The list holds the live mocks in the order of their construction. */
  lemma {:induction false} LiveInOrder<T>(ops: seq<Op<T>>)
    requires Legal(ops)
    ensures forall i :: 0 <= i < |Live(ops)| ==> 0 <= Born(ops, Live(ops)[i]) < |ops|
    ensures forall i, j :: 0 <= i < j < |Live(ops)| ==> Born(ops, Live(ops)[i]) < Born(ops, Live(ops)[j])
  {
    if ops != [] {
      var before, op := ops[..|ops| - 1], ops[|ops| - 1];
      LiveInOrder(before);
      var s := Live(before);
      if op.Construct? {
        forall i | 0 <= i < |s| ensures Born(ops, s[i]) == Born(before, s[i]) {
          assert s[i] in s;
        }
      } else {
        var p := Position(s, op.x);
        assert Live(ops) == s[..p] + s[p + 1..];
        assert forall i :: 0 <= i < |Live(ops)| ==> Live(ops)[i] == if i < p then s[i] else s[i + 1];
      }
    }
  }

  /** Every mock in the list was constructed in the run. */
  lemma {:induction false} LiveWasConstructed<T>(ops: seq<Op<T>>, x: T)
    requires x in Live(ops)
    ensures exists i :: 0 <= i < |ops| && ops[i].x == x
  {
    var before, op := ops[..|ops| - 1], ops[|ops| - 1];
    if x in Live(before) {
      LiveWasConstructed(before, x);
      var i :| 0 <= i < |before| && before[i].x == x;
      assert ops[i].x == x;
    } else {
      assert op.x == x;
    }
  }

  class Registry<T> {
    // _list
    const list: List<T>
    // The static mock that current() makes for an empty list; it lives until the program ends.
    var unimplemented: Link?<T>
    ghost var ops: seq<Op<Link<T>>>

    /** The list holds what the run so far has left alive. */
    ghost predicate Valid()
      reads this, list, list.elems
    {
      list.Valid() && Legal(ops) && list.elems == Live(ops) && (unimplemented != null ==> unimplemented in list.elems)
    }

    constructor ()
      ensures Valid() && fresh(list) && ops == [] && unimplemented == null
    {
      list := new List();
      unimplemented := null;
      ops := [];
    }

    /** The constructor and the destructor of a mock. */
    method Perform(op: Op<Link<T>>)
      requires Valid() && Legal(ops + [op]) && (op.Destroy? ==> op.x != unimplemented)
      modifies this`ops, list, op.x`next, op.x`prev, list.elems`next, list.elems`prev
      ensures Valid() && ops == old(ops) + [op]
      ensures list.elems == Apply(old(list.elems), op)
    {
      assert (ops + [op])[..|ops|] == ops;
      ghost var before := list.elems;
      match op {
        case Construct(x) => x.Attach(list);
        case Destroy(x) =>
          ghost var i := Position(list.elems, x);
          x.Detach(list, i);
          if unimplemented != null {
            Keeps(before, i, unimplemented);
          }
      }
      ops := ops + [op];
    }

    /**
     * current(): for an empty list a new mock, attached like any other; else the link returned is active, and every
     * other active live mock was constructed before it. Null stands for a list of inactive mocks only.
     */
    method Current(item: T) returns (mock: Link?<T>)
      requires Valid()
      modifies this`ops, this`unimplemented, list, list.elems`next
      ensures Valid()
      ensures if old(list.elems) == [] then
                mock != null && fresh(mock) && unimplemented == mock && list.elems == [mock] && ops == old(ops) + [Construct(mock)]
              else ops == old(ops) && list.elems == old(list.elems) && unimplemented == old(unimplemented)
      ensures mock == null <==> forall x :: x in list.elems ==> !x.active
      ensures mock != null ==> mock in list.elems && mock.active
      ensures mock != null ==> forall x :: x in list.elems && x.active && x != mock ==> Born(ops, x) < Born(ops, mock)
    {
      hide Live, Legal, Apply, Born, List.Valid;
      var empty := list.Empty();
      if empty {
        var made := new Link(item);
        MayConstruct(ops, made, list.elems);
        Perform(Construct(made));
        unimplemented := made;
      }
      mock := MostRecent();
    }

    /** The tail of the list: the most recently constructed active live mock. */
    method MostRecent() returns (mock: Link?<T>)
      requires Valid()
      ensures mock == null <==> forall x :: x in list.elems ==> !x.active
      ensures mock != null ==> mock in list.elems && mock.active
      ensures mock != null ==> forall x :: x in list.elems && x.active && x != mock ==> Born(ops, x) < Born(ops, mock)
    {
      mock := list.Tail();
      LiveInOrder(ops);
      ghost var k := LastActive(list.elems, |list.elems|);
      forall x | x in list.elems && x.active && x != mock
        ensures k >= 0 && Born(ops, x) < Born(ops, list.elems[k])
      {
        var i :| 0 <= i < |list.elems| && list.elems[i] == x;
      }
    }
  }

  lemma MayConstruct<A>(ops: seq<Op<A>>, x: A, live: seq<A>)
    requires Legal(ops) && live == Live(ops) && x !in live
    ensures Legal(ops + [Construct(x)]) && Apply(live, Construct(x)) == live + [x]
  {
    assert (ops + [Construct(x)])[..|ops|] == ops;
  }

  lemma Keeps<A>(s: seq<A>, i: nat, x: A)
    requires i < |s| && x in s && x != s[i]
    ensures x in s[..i] + s[i + 1..]
  {
    var j :| 0 <= j < |s| && s[j] == x;
    assert (s[..i] + s[i + 1..])[if j < i then j else j - 1] == x;
  }

  /** The links a run is about. */
  ghost function Mocks<T>(ops: seq<Op<Link<T>>>): set<Link<T>> {
    set i | 0 <= i < |ops| :: ops[i].x
  }

  lemma {:induction false} LegalPrefix<T>(ops: seq<Op<T>>, n: nat)
    requires Legal(ops) && n <= |ops|
    ensures Legal(ops[..n])
    decreases |ops|
  {
    if n == |ops| {
      assert ops[..n] == ops;
    } else {
      LegalPrefix(ops[..|ops| - 1], n);
      assert ops[..|ops| - 1][..n] == ops[..n];
    }
  }

  lemma LiveAreMocks<T>(ops: seq<Op<Link<T>>>, n: nat)
    requires n <= |ops|
    ensures forall x :: x in Live(ops[..n]) ==> x in Mocks(ops)
  {
    hide Live;
    forall x | x in Live(ops[..n]) ensures x in Mocks(ops) {
      LiveWasConstructed(ops[..n], x);
    }
  }

  lemma MockOf<T>(ops: seq<Op<Link<T>>>, n: nat)
    requires n < |ops|
    ensures ops[n].x in Mocks(ops)
  {
  }

  /** Any legal interleaving of constructions and destructions leaves the list with exactly the live mocks, in order. */
  method Replay<T>(ops: seq<Op<Link<T>>>) returns (registry: Registry<T>)
    requires Legal(ops)
    modifies Mocks(ops)`next, Mocks(ops)`prev
    ensures fresh(registry) && fresh(registry.list) && registry.Valid() && registry.list.elems == Live(ops)
  {
    hide Live, Legal, Apply, List.Valid, Mocks;
    registry := new Registry();
    for n := 0 to |ops|
      invariant fresh(registry) && fresh(registry.list) && registry.Valid() && registry.ops == ops[..n]
      invariant registry.unimplemented == null
    {
      assert ops[..n] + [ops[n]] == ops[..n + 1];
      LegalPrefix(ops, n + 1);
      LiveAreMocks(ops, n);
      MockOf(ops, n);
      registry.Perform(ops[n]);
    }
    assert ops[..|ops|] == ops;
  }
}
