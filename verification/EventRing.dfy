/**
 The intrusive ring of event binders and the walk over it that survives sinks which unlink binders.
 */
module EventRing {

  /** A node of a ring; a node on its own is a ring of one. Sinks are known by number; 0 is the empty sink. */
  class Binder {
    var sink: nat
    var prev: Binder
    var next: Binder

    constructor ()
      ensures sink == 0 && prev == this && next == this
    {
      sink, prev, next := 0, this, this;
    }
  }

  ghost predicate Distinct<T>(s: seq<T>) {
    forall i, j :: 0 <= i < j < |s| ==> s[i] != s[j]
  }

  /** The nodes of `ring`, each once, linked in this order in both directions and closed. */
  ghost predicate Linked(ring: seq<Binder>)
    reads ring
  {
    && |ring| > 0 && Distinct(ring)
    && (forall i {:trigger ring[i].next} :: 0 <= i < |ring| - 1 ==> ring[i].next == ring[i + 1])
    && (forall i {:trigger ring[i].prev} :: 1 <= i < |ring| ==> ring[i].prev == ring[i - 1])
    && ring[|ring| - 1].next == ring[0]
    && ring[0].prev == ring[|ring| - 1]
  }

  function Cut<T>(s: seq<T>, k: nat): seq<T>
    requires k < |s|
  {
    s[..k] + s[k + 1..]
  }

  function Insert<T>(s: seq<T>, k: nat, x: T): seq<T>
    requires k < |s|
  {
    s[..k + 1] + [x] + s[k + 1..]
  }

  lemma CutIsDistinct<T>(s: seq<T>, k: nat)
    requires Distinct(s) && k <= |s|
    ensures k < |s| ==> Distinct(Cut(s, k))
  {
  }

  /** Unlink a node from wherever it is: its neighbours become each other's, and it becomes a ring of one. */
  method Unlink(b: Binder)
    modifies b, b.prev, b.next
    ensures b.next == b && b.prev == b && b.sink == old(b.sink)
    ensures old(b.prev) != b ==> old(b.prev).next == old(b.next)
    ensures old(b.next) != b ==> old(b.next).prev == old(b.prev)
    ensures old(b.prev) != b && old(b.prev) != old(b.next) ==> old(b.prev).prev == old(b.prev.prev)
    ensures old(b.next) != b && old(b.prev) != old(b.next) ==> old(b.next).next == old(b.next.next)
    ensures old(b.prev).sink == old(b.prev.sink) && old(b.next).sink == old(b.next.sink)
  {
    b.prev.next := b.next;
    b.next.prev := b.prev;
    b.next, b.prev := b, b;
  }

  /** From position k of a ring, unlinking leaves the ring of the others; a node on its own leaves the ring alone. */
  method UnlinkFrom(ghost ring: seq<Binder>, ghost k: nat, b: Binder)
    requires Linked(ring) && 0 < k <= |ring|
    requires if k < |ring| then ring[k] == b else b !in ring && b.next == b && b.prev == b
    modifies ring, b
    ensures Linked(if k < |ring| then Cut(ring, k) else ring) && b.next == b && b.prev == b
    ensures b.sink == old(b.sink) && forall x :: x in ring ==> x.sink == old(x.sink)
  {
    assert k < |ring| ==> b.prev == ring[k - 1] && b.next == if k + 1 == |ring| then ring[0] else ring[k + 1];
    CutIsDistinct(ring, k);
    Unlink(b);
    if k < |ring| {
      assert Linked(Cut(ring, k));
    } else {
      assert Linked(ring);
    }
  }

  /** Link a node of its own after the node at position k. */
  method AttachAfter(ghost ring: seq<Binder>, what: Binder, ghost k: nat, b: Binder)
    requires Linked(ring) && k < |ring| && ring[k] == what && b !in ring
    modifies ring, b
    ensures Linked(Insert(ring, k, b))
    ensures b.sink == old(b.sink) && forall x :: x in ring ==> x.sink == old(x.sink)
  {
    assert what.next == if k + 1 == |ring| then ring[0] else ring[k + 1];
    b.next := what.next;
    b.next.prev := b;
    what.next := b;
    b.prev := what;
  }

  /** The elements of s that are not gone, in order. */
  function Keep<T(==)>(s: seq<T>, gone: set<T>): seq<T> {
    if s == [] then [] else if s[0] in gone then Keep(s[1..], gone) else [s[0]] + Keep(s[1..], gone)
  }

  lemma {:induction false} KeepAppend<T>(s: seq<T>, t: seq<T>, gone: set<T>)
    ensures Keep(s + t, gone) == Keep(s, gone) + Keep(t, gone)
  {
    if s == [] {
      assert s + t == t;
    } else {
      assert (s + t)[1..] == s[1..] + t;
      KeepAppend(s[1..], t, gone);
    }
  }

  lemma {:induction false} KeepAll<T>(s: seq<T>, gone: set<T>)
    requires forall x :: x in s ==> x !in gone
    ensures Keep(s, gone) == s
  {
    if s != [] {
      KeepAll(s[1..], gone);
    }
  }

  lemma {:induction false} KeepKeep<T>(s: seq<T>, g: set<T>, h: set<T>)
    ensures Keep(Keep(s, g), h) == Keep(s, g + h)
  {
    if s != [] {
      KeepKeep(s[1..], g, h);
      if s[0] !in g {
        assert Keep(s, g)[1..] == Keep(s[1..], g);
      }
    }
  }

  lemma {:induction false} KeepMembers<T>(s: seq<T>, gone: set<T>)
    ensures forall x :: x in Keep(s, gone) <==> x in s && x !in gone
  {
    if s != [] {
      KeepMembers(s[1..], gone);
    }
  }

  lemma {:induction false} KeepCut<T>(s: seq<T>, k: nat)
    requires Distinct(s) && k < |s|
    ensures Keep(s, {s[k]}) == Cut(s, k)
  {
    if k == 0 {
      KeepAll(s[1..], {s[0]});
    } else {
      KeepCut(s[1..], k - 1);
      CutRest(s, k);
      hide Cut, Distinct;
      assert s[1..][k - 1] == s[k] && s[0] !in {s[k]};
    }
  }

  lemma CutRest<T>(s: seq<T>, k: nat)
    requires Distinct(s) && 0 < k < |s|
    ensures Cut(s, k) == [s[0]] + Cut(s[1..], k - 1) && s[0] != s[k]
  {
  }

  lemma KeepFirst<T>(s: seq<T>, x: T)
    requires s != [] && s[0] != x
    ensures Keep(s, {x}) != [] && Keep(s, {x})[0] == s[0] && x !in Keep(s, {x})
  {
    KeepMembers(s, {x});
  }

  /** The first position of x, or the length of s. */
  ghost function PositionOf<T>(s: seq<T>, x: T): (k: nat)
    ensures k <= |s| && (k < |s| ==> s[k] == x) && (k == |s| ==> x !in s)
  {
    if s == [] || s[0] == x then 0 else 1 + PositionOf(s[1..], x)
  }

  // ----- Which sinks are called -----

  /** What the sink of each binder unbinds while it runs. */
  type Effects = map<Binder, seq<Binder>>

  function Elements<T>(s: seq<T>): set<T> {
    set x | x in s
  }

  lemma NoElements<T>(s: seq<T>)
    ensures Elements(s[..0]) == {}
  {
  }

  lemma OneMoreElement<T>(s: seq<T>, i: nat)
    requires i < |s|
    ensures Elements(s[..i + 1]) == Elements(s[..i]) + {s[i]} && s[i] in Elements(s)
  {
  }

  function Unbinds(effects: Effects, b: Binder): set<Binder> {
    if b in effects then Elements(effects[b]) else {}
  }

  /**
   The walk as the caller sees it: a binder with a sink is called, and what it unbinds leaves the rest of the walk.
   */
  function Walk(todo: seq<Binder>, hasSink: set<Binder>, effects: Effects): seq<Binder>
    decreases |todo|
  {
    if todo == [] then []
    else if todo[0] !in hasSink then Walk(todo[1..], hasSink, effects)
    else
      KeepShortens(todo[1..], Unbinds(effects, todo[0]));
      [todo[0]] + Walk(Keep(todo[1..], Unbinds(effects, todo[0])), hasSink, effects)
  }

  lemma {:induction false} KeepShortens<T>(s: seq<T>, gone: set<T>)
    ensures |Keep(s, gone)| <= |s|
  {
    if s != [] {
      KeepShortens(s[1..], gone);
    }
  }

  /** Everything that the called sinks have unbound. */
  function UnboundBy(calls: seq<Binder>, effects: Effects): set<Binder> {
    if calls == [] then {} else UnboundBy(calls[..|calls| - 1], effects) + Unbinds(effects, calls[|calls| - 1])
  }

  lemma UnbindsElements(effects: Effects, b: Binder, allowed: set<Binder>)
    requires forall c :: c in effects ==> Elements(effects[c]) <= allowed
    ensures var unbound := if b in effects then effects[b] else [];
            Elements(unbound) == Unbinds(effects, b) && Elements(unbound) <= allowed
  {
  }

  lemma OneMoreCall(calls: seq<Binder>, b: Binder, effects: Effects)
    ensures UnboundBy(calls + [b], effects) == UnboundBy(calls, effects) + Unbinds(effects, b)
  {
    assert (calls + [b])[..|calls|] == calls;
  }

  class EventSource {
    const listHead: Binder
    ghost var ring: seq<Binder>    // the head first
    ghost var nodes: set<Binder>   // the ring and the binders that are on their own

    ghost predicate Valid()
      reads this, nodes
    {
      && (forall x :: x in ring ==> x in nodes)
      && (forall x :: x in nodes && x !in ring ==> x.next == x && x.prev == x)
      && Linked(ring) && ring[0] == listHead
    }

    constructor ()
      ensures Valid() && fresh(nodes) && ring == [listHead]
    {
      var head := new Binder();
      listHead := head;
      ring, nodes := [head], {head};
    }

    /** Unbinding takes a binder out of the ring, and does nothing to one that is on its own. */
    method Unbind(b: Binder)
      requires Valid() && b in nodes && b != listHead
      modifies this`ring, nodes
      ensures Valid() && ring == Keep(old(ring), {b}) && nodes == old(nodes)
      ensures forall x :: x in nodes ==> x.sink == old(x.sink)
    {
      ghost var k := PositionOf(ring, b);
      if k < |ring| { KeepCut(ring, k); } else { KeepAll(ring, {b}); }
      ghost var rest := if k < |ring| then Cut(ring, k) else ring;
      UnlinkFrom(ring, k, b);
      ring := rest;
    }

    /** Link a binder that is on its own behind the node at position pos. */
    method Attach(b: Binder, what: Binder, ghost pos: nat)
      requires Valid() && pos < |ring| && ring[pos] == what
      requires b in nodes && b !in ring
      modifies this`ring, nodes
      ensures Valid() && ring == Insert(old(ring), pos, b)
      ensures forall x :: x in nodes ==> x.sink == old(x.sink)
    {
      AttachAfter(ring, what, pos, b);
      ring := Insert(ring, pos, b);
    }

    /** A binder on its own may be bound to this source. */
    ghost method Adopt(b: Binder)
      requires Valid() && b.next == b && b.prev == b && b != listHead
      modifies this`nodes
      ensures Valid() && nodes == old(nodes) + {b}
    {
      nodes := nodes + {b};
    }

    /** Binding moves a binder to the front of the ring, from wherever it was. */
    method Bind(b: Binder, sink: nat)
      requires Valid() && b in nodes && b != listHead
      modifies this`ring, nodes
      ensures Valid() && b.sink == sink
      ensures |Keep(old(ring), {b})| > 0 && ring == Insert(Keep(old(ring), {b}), 0, b) && ring[0] == listHead
      ensures forall x :: x in nodes && x != b ==> x.sink == old(x.sink)
    {
      KeepFirst(ring, b);
      Unbind(b);
      Attach(b, listHead, 0);
      SetSink(b, sink);
    }

    method SetSink(b: Binder, sink: nat)
      requires Valid() && b in nodes
      modifies b`sink
      ensures Valid() && b.sink == sink
    {
      b.sink := sink;
    }

    /** A binder on its own may go to another source. */
    ghost method Release(b: Binder)
      requires Valid() && b in nodes && b !in ring
      modifies this`nodes
      ensures Valid() && nodes == old(nodes) - {b} && b.next == b && b.prev == b
    {
      nodes := nodes - {b};
    }

    /** Binding a binder that is linked in the ring of another source moves it from there to here. */
    method BindFrom(other: EventSource, b: Binder, sink: nat)
      requires Valid() && other.Valid() && other != this && nodes !! other.nodes
      requires b in other.nodes && b != other.listHead
      modifies this`ring, this`nodes, nodes, other`ring, other`nodes, other.nodes
      ensures Valid() && other.Valid() && nodes == old(nodes) + {b} && other.nodes == old(other.nodes) - {b}
      ensures other.ring == Keep(old(other.ring), {b}) && old(|ring|) > 0 && ring == Insert(old(ring), 0, b)
              && b.sink == sink
      ensures forall x :: x in nodes + other.nodes && x != b ==> x.sink == old(x.sink)
    {
      TakeFrom(other, b);
      hide Linked, Keep, Insert, Distinct;
      KeepAll(ring, {b});
      Bind(b, sink);
    }

    /** A binder of another source leaves its ring, and may be bound here. */
    method TakeFrom(other: EventSource, b: Binder)
      requires Valid() && other.Valid() && other != this && nodes !! other.nodes
      requires b in other.nodes && b != other.listHead
      modifies this`nodes, other`ring, other`nodes, other.nodes
      ensures Valid() && other.Valid() && nodes == old(nodes) + {b} && other.nodes == old(other.nodes) - {b}
      ensures other.ring == Keep(old(other.ring), {b}) && b !in ring && |ring| > 0
      ensures forall x :: x in nodes + other.nodes ==> x.sink == old(x.sink)
    {
      assert b !in nodes && listHead in nodes && |ring| > 0;
      KeepMembers(other.ring, {b});
      hide Linked, Keep, Insert, Distinct;
      other.Unbind(b);
      other.Release(b);
      Adopt(b);
    }

    ghost function HasSink(): set<Binder>
      reads this, nodes
    {
      set x | x in nodes && x.sink != 0
    }

    /** A sink runs and unbinds what it likes. */
    method RunSink(unbound: seq<Binder>)
      requires Valid() && Elements(unbound) <= nodes - {listHead}
      modifies this`ring, nodes
      ensures Valid() && ring == Keep(old(ring), Elements(unbound)) && nodes == old(nodes)
      ensures forall x :: x in nodes ==> x.sink == old(x.sink)
    {
      hide *;
      KeepAll(ring, {});
      NoElements(unbound);
      for i := 0 to |unbound|
        invariant Valid() && nodes == old(nodes)
        invariant ring == Keep(old(ring), Elements(unbound[..i]))
        invariant forall x :: x in nodes ==> x.sink == old(x.sink)
      {
        OneMoreElement(unbound, i);
        Unbind(unbound[i]);
        KeepKeep(old(ring), Elements(unbound[..i]), {unbound[i]});
      }
      assert unbound[..|unbound|] == unbound;
    }

    method PlaceBookmark(current: Binder, ghost pos: nat) returns (bookmark: Binder)
      requires Valid() && pos < |ring| && ring[pos] == current
      modifies this, nodes
      ensures Valid() && fresh(bookmark) && nodes == old(nodes) + {bookmark}
      ensures ring == Insert(old(ring), pos, bookmark)
      ensures bookmark.sink == 0 && forall x :: x in old(nodes) ==> x.sink == old(x.sink)
    {
      bookmark := new Binder();
      nodes := nodes + {bookmark};
      Attach(bookmark, current, pos);
    }

    /** Read where the walk goes on, and let the bookmark leave the ring. */
    method RemoveBookmark(bookmark: Binder, ghost pos: nat) returns (next: Binder)
      requires Valid() && 0 < pos < |ring| && ring[pos] == bookmark
      modifies this, nodes
      ensures Valid() && nodes == old(nodes) - {bookmark} && ring == Cut(old(ring), pos)
      ensures next == if pos < |ring| then ring[pos] else listHead
      ensures forall x :: x in nodes ==> x.sink == old(x.sink)
    {
      next := bookmark.next;
      KeepCut(ring, pos);
      KeepMembers(ring, {bookmark});
      Unbind(bookmark);
      nodes := nodes - {bookmark};
    }

    /**
     Call the sink of `current` with a bookmark behind it, and read from the bookmark where the walk goes on.
     The bookmark is gone again afterwards.
     */
    method CallSink(current: Binder, ghost pos: nat, unbound: seq<Binder>) returns (next: Binder, ghost nextPos: nat)
      requires Valid() && 0 < pos < |ring| && ring[pos] == current
      requires Elements(unbound) <= nodes - {listHead}
      modifies this, nodes
      ensures Valid() && nodes == old(nodes)
      ensures forall x :: x in nodes ==> x.sink == old(x.sink)
      ensures ring == Keep(old(ring), Elements(unbound))
      ensures 0 < nextPos <= |ring| && ring[nextPos..] == Keep(old(ring)[pos + 1..], Elements(unbound))
      ensures next == if nextPos < |ring| then ring[nextPos] else listHead
    {
      var bookmark := PlaceBookmark(current, pos);
      RunSink(unbound);
      nextPos := |Keep(old(ring)[..pos + 1], Elements(unbound))|;
      BookmarkSplits(old(ring), pos, bookmark, Elements(unbound));
      next := RemoveBookmark(bookmark, nextPos);
    }

    /** The sink at the current position is called, and the call is logged. */
    method Visit(ghost start: seq<Binder>, current: Binder, ghost pos: nat, effects: Effects, log: seq<Binder>)
      returns (next: Binder, ghost nextPos: nat, calls: seq<Binder>)
      requires Valid() && 0 < pos < |ring| && ring[pos] == current
      requires forall b :: b in effects ==> Elements(effects[b]) <= nodes - {listHead}
      requires ring == Keep(start, UnboundBy(log, effects))
      modifies this, nodes
      ensures Valid() && nodes == old(nodes) && HasSink() == old(HasSink())
      ensures calls == log + [current] && ring == Keep(start, UnboundBy(calls, effects))
      ensures 0 < nextPos <= |ring| && ring[nextPos..] == Keep(old(ring)[pos + 1..], Unbinds(effects, current))
      ensures next == if nextPos < |ring| then ring[nextPos] else listHead
    {
      hide Linked, Keep, Distinct, Insert, Cut, Valid, UnboundBy, Unbinds, Elements;
      var unbound := if current in effects then effects[current] else [];
      KeepKeep(start, UnboundBy(log, effects), Unbinds(effects, current));
      UnbindsElements(effects, current, nodes - {listHead});
      next, nextPos := CallSink(current, pos, unbound);
      calls := log + [current];
      OneMoreCall(log, current, effects);
    }

    /** What the node at a position of the ring is linked to, and whether it is to be called. */
    lemma AtPosition(pos: nat)
      requires Valid() && pos < |ring|
      ensures ring[pos].next == if pos + 1 < |ring| then ring[pos + 1] else listHead
      ensures pos > 0 ==> ring[pos] != listHead
      ensures ring[pos] in nodes && (ring[pos] in HasSink() <==> ring[pos].sink != 0)
    {
    }

    lemma HeadFirst()
      requires Valid()
      ensures |ring| > 0 && ring[0] == listHead
    {
    }

    /**
     Post an event: walk the ring and call every sink that is still bound when its turn comes. Whatever the sinks
     unbind, themselves included, the walk ends and leaves a linked ring without what was unbound.
     */
    method PostEvent(effects: Effects) returns (log: seq<Binder>)
      requires Valid()
      requires forall b :: b in effects ==> Elements(effects[b]) <= nodes - {listHead}
      modifies this, nodes
      ensures Valid() && nodes == old(nodes) && HasSink() == old(HasSink())
      ensures log == Walk(old(ring)[1..], old(HasSink()), effects)
      ensures ring == Keep(old(ring), UnboundBy(log, effects))
    {
      log := [];
      HeadFirst();
      AtPosition(0);
      KeepAll(ring, {});
      var current := listHead.next;
      ghost var pos := 1;
      ghost var start, sinks := ring, HasSink();
      hide *;
      NoCalls(effects);
      assert start[1..] == ring[pos..];
      while current != listHead
        invariant Valid() && nodes == old(nodes) && HasSink() == sinks
        invariant 0 < pos <= |ring| && current == if pos < |ring| then ring[pos] else listHead
        invariant ring == Keep(start, UnboundBy(log, effects))
        invariant log + Walk(ring[pos..], sinks, effects) == Walk(start[1..], sinks, effects)
        decreases |ring| - pos
      {
        ghost var todo := ring[pos..];
        AtPosition(pos);
        WalkStep(todo, sinks, effects, log);
        assert todo[0] == current && todo[1..] == ring[pos + 1..];
        if current.sink != 0 {
          KeepShortens(todo[1..], Unbinds(effects, current));
          current, pos, log := Visit(start, current, pos, effects, log);
        } else {
          current, pos := current.next, pos + 1;
        }
      }
      if pos < |ring| {
        AtPosition(pos);
      }
      WalkEnds(log, sinks, effects);
      assert ring[pos..] == [];
    }
  }

  lemma NoCalls(effects: Effects)
    ensures UnboundBy([], effects) == {}
  {
  }

  lemma WalkEnds(log: seq<Binder>, hasSink: set<Binder>, effects: Effects)
    ensures log + Walk([], hasSink, effects) == log
  {
  }

  /** One step of the walk, on the binders that are still to come. */
  lemma WalkStep(todo: seq<Binder>, hasSink: set<Binder>, effects: Effects, log: seq<Binder>)
    requires todo != []
    ensures todo[0] !in hasSink ==> log + Walk(todo, hasSink, effects) == log + Walk(todo[1..], hasSink, effects)
    ensures todo[0] in hasSink ==>
              log + Walk(todo, hasSink, effects)
              == log + [todo[0]] + Walk(Keep(todo[1..], Unbinds(effects, todo[0])), hasSink, effects)
  {
  }

  // ----- What the walk means -----

  /** Only binders of the ring that have a sink are called, each at most once. */
  lemma {:induction false} WalkCallsOnce(todo: seq<Binder>, hasSink: set<Binder>, effects: Effects)
    requires Distinct(todo)
    ensures Distinct(Walk(todo, hasSink, effects))
    ensures forall b :: b in Walk(todo, hasSink, effects) ==> b in todo && b in hasSink
    decreases |todo|
  {
    if todo != [] {
      if todo[0] !in hasSink {
        WalkCallsOnce(todo[1..], hasSink, effects);
      } else {
        var gone := Unbinds(effects, todo[0]);
        KeepShortens(todo[1..], gone);
        KeepMembers(todo[1..], gone);
        KeepDistinct(todo[1..], gone);
        WalkCallsOnce(Keep(todo[1..], gone), hasSink, effects);
      }
    }
  }

  lemma {:induction false} KeepDistinct<T>(s: seq<T>, gone: set<T>)
    requires Distinct(s)
    ensures Distinct(Keep(s, gone))
  {
    if s != [] {
      KeepDistinct(s[1..], gone);
      KeepMembers(s[1..], gone);
    }
  }

  /** Only what is in s decides what is kept of it. */
  lemma {:induction false} KeepSame<T>(s: seq<T>, g: set<T>, h: set<T>)
    requires forall x :: x in s ==> (x in g <==> x in h)
    ensures Keep(s, g) == Keep(s, h)
  {
    if s != [] {
      KeepSame(s[1..], g, h);
    }
  }

  /** The calls are made in the order of the ring: they are the ring without the binders that are not called. */
  lemma {:induction false} WalkInRingOrder(todo: seq<Binder>, hasSink: set<Binder>, effects: Effects)
    requires Distinct(todo)
    ensures var calls := Walk(todo, hasSink, effects); calls == Keep(todo, Elements(todo) - Elements(calls))
    decreases |todo|
  {
    if todo != [] {
      var calls := Walk(todo, hasSink, effects);
      var skipped := Elements(todo) - Elements(calls);
      if todo[0] !in hasSink {
        WalkCallsOnce(todo[1..], hasSink, effects);
        WalkInRingOrder(todo[1..], hasSink, effects);
        KeepSame(todo[1..], skipped, Elements(todo[1..]) - Elements(calls));
      } else {
        CallInRingOrder(todo, hasSink, effects);
      }
    }
  }

  lemma {:induction false} CallInRingOrder(todo: seq<Binder>, hasSink: set<Binder>, effects: Effects)
    requires Distinct(todo) && todo != [] && todo[0] in hasSink
    ensures var calls := Walk(todo, hasSink, effects); calls == Keep(todo, Elements(todo) - Elements(calls))
    decreases |todo|, 0
  {
    var first, rest, gone := todo[0], todo[1..], Unbinds(effects, todo[0]);
    var kept := Keep(rest, gone);
    var later := Walk(kept, hasSink, effects);
    var skipped := Elements(todo) - Elements([first] + later);
    KeepShortens(rest, gone);
    KeepDistinct(rest, gone);
    KeepMembers(rest, gone);
    WalkCallsOnce(kept, hasSink, effects);
    WalkInRingOrder(kept, hasSink, effects);
    KeepKeep(rest, gone, Elements(kept) - Elements(later));
    KeepSame(rest, skipped, gone + (Elements(kept) - Elements(later)));
    assert Walk(todo, hasSink, effects) == [first] + later && first !in skipped;
  }

  /** A binder is called exactly when it has a sink and no call before it in the ring has unbound it. */
  lemma {:induction false} CalledIffBoundAtItsTurn(before: seq<Binder>, b: Binder, after: seq<Binder>,
                                                   hasSink: set<Binder>, effects: Effects)
    requires Distinct(before + [b] + after)
    ensures var calls := Walk(before + [b] + after, hasSink, effects);
            b in calls <==> b in hasSink && forall c :: c in before && c in calls ==> b !in Unbinds(effects, c)
    decreases |before|
  {
    var todo := before + [b] + after;
    if before == [] {
      assert todo == [b] + after;
      HeadIsCalledIffSink(todo, hasSink, effects);
    } else {
      var rest := before[1..] + [b] + after;
      assert todo == [before[0]] + rest && todo[1..] == rest;
      if before[0] !in hasSink {
        CalledIffBoundAtItsTurn(before[1..], b, after, hasSink, effects);
        WalkCallsOnce(rest, hasSink, effects);
      } else {
        CalledBehindCall(before, b, after, hasSink, effects);
      }
    }
  }

  lemma HeadIsCalledIffSink(todo: seq<Binder>, hasSink: set<Binder>, effects: Effects)
    requires todo != [] && Distinct(todo)
    ensures todo[0] in Walk(todo, hasSink, effects) <==> todo[0] in hasSink
  {
    WalkCallsOnce(todo, hasSink, effects);
  }

  lemma {:induction false} CalledBehindCall(before: seq<Binder>, b: Binder, after: seq<Binder>,
                                            hasSink: set<Binder>, effects: Effects)
    requires Distinct(before + [b] + after) && before != [] && before[0] in hasSink
    ensures var calls := Walk(before + [b] + after, hasSink, effects);
            b in calls <==> b in hasSink && forall c :: c in before && c in calls ==> b !in Unbinds(effects, c)
    decreases |before|, 0
  {
    var todo, rest := before + [b] + after, before[1..] + [b] + after;
    var gone := Unbinds(effects, before[0]);
    var kept := Keep(rest, gone);
    assert todo[0] == before[0] && todo[|before|] == b && todo[1..] == rest;
    var calls, later := Walk(todo, hasSink, effects), Walk(kept, hasSink, effects);
    assert calls == [before[0]] + later;
    KeepMembers(rest, gone);
    KeepDistinct(rest, gone);
    WalkCallsOnce(kept, hasSink, effects);
    assert b != before[0] && before[0] in calls && before[0] in before;
    if b in gone {
      assert b !in later;
    } else {
      KeptAround(before[1..], b, after, gone);
      CalledIffBoundAtItsTurn(Keep(before[1..], gone), b, Keep(after, gone), hasSink, effects);
      KeepMembers(before[1..], gone);
      assert forall c :: c in before && c in calls <==> c == before[0] || (c in Keep(before[1..], gone) && c in later);
    }
  }

  lemma KeptAround<T>(before: seq<T>, b: T, after: seq<T>, gone: set<T>)
    requires b !in gone
    ensures Keep(before + [b] + after, gone) == Keep(before, gone) + [b] + Keep(after, gone)
    ensures |Keep(before, gone)| <= |before|
  {
    KeepAppend(before + [b], after, gone);
    KeepAppend(before, [b], gone);
    KeepShortens(before, gone);
  }

  /** The bookmark keeps its place between what stays before it and what stays behind it. */
  lemma BookmarkSplits<T>(ring: seq<T>, pos: nat, bookmark: T, gone: set<T>)
    requires pos < |ring| && bookmark !in ring && bookmark !in gone && ring[0] !in gone
    ensures var all := Keep(Insert(ring, pos, bookmark), gone);
            var k := |Keep(ring[..pos + 1], gone)|;
            && 0 < k < |all| && all[k] == bookmark
            && Cut(all, k) == Keep(ring, gone)
            && Cut(all, k)[k..] == Keep(ring[pos + 1..], gone)
  {
    var before, after := ring[..pos + 1], ring[pos + 1..];
    assert ring == before + after && Insert(ring, pos, bookmark) == before + ([bookmark] + after);
    KeepAppend(before, [bookmark] + after, gone);
    KeepAppend(before, after, gone);
    assert Keep([bookmark] + after, gone) == [bookmark] + Keep(after, gone);
  }
}
