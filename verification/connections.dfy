/** The WebSocket connection registry (`ConnectionManager` in app/api/websocket.py): a map
    from car number to the connections subscribed to that car, in subscription order.
    Connections are opaque ids; accepting, sending and receiving are I/O and are not
    modelled, except that a broadcast is told which connections' sends fail. */
module Connections {

  type ConnId = nat

  type Registry = map<int, seq<ConnId>>

  /** The registry's invariant: no car is kept with an empty list. */
  predicate Valid(reg: Registry) {
    forall car :: car in reg ==> |reg[car]| > 0
  }

  /** `connect`: append `ws` to the car's list, creating the list if needed. */
  function Connect(reg: Registry, ws: ConnId, car: int): (r: Registry)
    ensures r.Keys == reg.Keys + {car}
    ensures r[car] == (if car in reg then reg[car] else []) + [ws]
    ensures forall c :: c in reg && c != car ==> r[c] == reg[c]
    ensures Valid(reg) ==> Valid(r)
  {
    reg[car := (if car in reg then reg[car] else []) + [ws]]
  }

  /** The position of the first occurrence of `x` in `s`. */
  function FirstIndex(s: seq<ConnId>, x: ConnId): (i: nat)
    requires x in s
    ensures i < |s| && s[i] == x && x !in s[..i]
  {
    if s[0] == x then 0
    else
      var j := FirstIndex(s[1..], x);
      assert s[..j + 1] == [s[0]] + s[1..][..j];
      j + 1
  }

  /** Python's `list.remove(x)` for a present `x`: drop its first occurrence. An absent
      `x` leaves the list as it is. */
  function RemoveFirst(s: seq<ConnId>, x: ConnId): (r: seq<ConnId>)
    ensures x !in s ==> r == s
    ensures x in s ==> r == s[..FirstIndex(s, x)] + s[FirstIndex(s, x) + 1..]
  {
    if s == [] then []
    else if s[0] == x then s[1..]
    else
      var rest := RemoveFirst(s[1..], x);
      assert x in s ==> x in s[1..];
      assert x in s ==>
        var j := FirstIndex(s[1..], x);
        && s[..j + 1] == [s[0]] + s[1..][..j]
        && s[j + 2..] == s[1..][j + 1..];
      [s[0]] + rest
  }

  /** `disconnect`: for a registered car, remove the first occurrence of `ws` (if any) and
      drop the car once its list is empty. */
  function Disconnect(reg: Registry, ws: ConnId, car: int): (r: Registry)
    ensures car !in reg ==> r == reg
    ensures car in reg ==> (RemoveFirst(reg[car], ws) == [] <==> car !in r)
    ensures car in r ==> r[car] == RemoveFirst(reg[car], ws)
    ensures forall c :: c != car ==> (c in r <==> c in reg)
    ensures forall c :: c in r && c != car ==> r[c] == reg[c]
    ensures Valid(reg) ==> Valid(r)
  {
    if car in reg then
      var rest := RemoveFirst(reg[car], ws);
      if rest == [] then reg - {car} else reg[car := rest]
    else reg
  }

  /** Disconnecting a connection the registry does not hold changes nothing. */
  lemma DisconnectAbsentIsNoop(reg: Registry, ws: ConnId, car: int)
    requires Valid(reg)
    requires car !in reg || ws !in reg[car]
    ensures Disconnect(reg, ws, car) == reg
  {
  }

  lemma {:induction false} RemoveFirstAppended(s: seq<ConnId>, ws: ConnId)
    requires ws !in s
    ensures RemoveFirst(s + [ws], ws) == s
  {
    if s != [] {
      assert (s + [ws])[1..] == s[1..] + [ws];
      RemoveFirstAppended(s[1..], ws);
    }
  }

  /** Disconnecting a connection right after connecting it restores the registry. */
  lemma DisconnectUndoesConnect(reg: Registry, ws: ConnId, car: int)
    requires Valid(reg)
    requires car !in reg || ws !in reg[car]
    ensures Disconnect(Connect(reg, ws, car), ws, car) == reg
  {
    var c := Connect(reg, ws, car);
    if car in reg {
      var prior := reg[car];
      assert Disconnect(c, ws, car) == c[car := prior] by {
        RemoveFirstAppended(prior, ws);
      }
      assert c[car := prior] == reg;
    } else {
      assert Disconnect(c, ws, car) == c - {car} by {
        RemoveFirstAppended([], ws);
      }
      assert c - {car} == reg;
    }
  }

  // ---------------------------------------------------------------------------------------
  // Broadcasting

  /** The connections of `s` whose send fails, in order. */
  function Failures(s: seq<ConnId>, failed: set<ConnId>): (r: seq<ConnId>)
    ensures forall x :: x in r <==> x in s && x in failed
  {
    if s == [] then []
    else if s[0] in failed then [s[0]] + Failures(s[1..], failed)
    else Failures(s[1..], failed)
  }

  /** The connections of `s` whose send succeeds, in order. */
  function Survivors(s: seq<ConnId>, failed: set<ConnId>): (r: seq<ConnId>)
    ensures forall x :: x in r <==> x in s && x !in failed
    ensures |r| <= |s|
  {
    if s == [] then []
    else if s[0] in failed then Survivors(s[1..], failed)
    else [s[0]] + Survivors(s[1..], failed)
  }

  /** Remove, one at a time, the first occurrence of each element of `d`. */
  function RemoveEach(s: seq<ConnId>, d: seq<ConnId>): seq<ConnId>
    decreases |d|
  {
    if d == [] then s else RemoveEach(RemoveFirst(s, d[0]), d[1..])
  }

  lemma {:induction false} RemoveEachFromEmpty(d: seq<ConnId>)
    ensures RemoveEach([], d) == []
    decreases |d|
  {
    if d != [] {
      RemoveEachFromEmpty(d[1..]);
    }
  }

  lemma {:induction false} RemoveEachSkipsHead(a: ConnId, t: seq<ConnId>, d: seq<ConnId>)
    requires a !in d
    ensures RemoveEach([a] + t, d) == [a] + RemoveEach(t, d)
    decreases |d|
  {
    if d != [] {
      assert ([a] + t)[1..] == t;
      assert RemoveFirst([a] + t, d[0]) == [a] + RemoveFirst(t, d[0]);
      RemoveEachSkipsHead(a, RemoveFirst(t, d[0]), d[1..]);
    }
  }

  /** Removing, one by one, the connections whose send failed leaves exactly the ones
      whose send succeeded, in their original order. */
  lemma {:induction false} RemovingFailuresLeavesSurvivors(s: seq<ConnId>, failed: set<ConnId>)
    ensures RemoveEach(s, Failures(s, failed)) == Survivors(s, failed)
    decreases |s|
  {
    if s != [] {
      RemovingFailuresLeavesSurvivors(s[1..], failed);
      if s[0] in failed {
        assert RemoveFirst(s, s[0]) == s[1..];
      } else {
        assert s == [s[0]] + s[1..];
        RemoveEachSkipsHead(s[0], s[1..], Failures(s[1..], failed));
      }
    }
  }

  /** The registry with `car` given the list `l`, or without `car` when `l` is empty. */
  function WithList(reg: Registry, car: int, l: seq<ConnId>): Registry {
    if l == [] then reg - {car} else reg[car := l]
  }

  /** The cleanup loop of `broadcast_to_car`: `disconnect` each failed connection in turn. */
  function DisconnectAll(reg: Registry, d: seq<ConnId>, car: int): Registry
    decreases |d|
  {
    if d == [] then reg else DisconnectAll(Disconnect(reg, d[0], car), d[1..], car)
  }

  lemma {:induction false} DisconnectAllShape(reg: Registry, car: int, l: seq<ConnId>, d: seq<ConnId>)
    ensures DisconnectAll(WithList(reg, car, l), d, car) == WithList(reg, car, RemoveEach(l, d))
    decreases |d|
  {
    if d != [] {
      var start := WithList(reg, car, l);
      if l == [] {
        assert start == reg - {car};
        assert Disconnect(start, d[0], car) == start;
        RemoveEachFromEmpty(d[1..]);
        DisconnectAllShape(reg, car, [], d[1..]);
      } else {
        var l' := RemoveFirst(l, d[0]);
        assert start == reg[car := l];
        if l' == [] {
          assert Disconnect(start, d[0], car) == start - {car};
          assert start - {car} == reg - {car};
        } else {
          assert Disconnect(start, d[0], car) == start[car := l'];
          assert start[car := l'] == reg[car := l'];
        }
        DisconnectAllShape(reg, car, l', d[1..]);
      }
    }
  }

  lemma CleanupLeavesSurvivors(reg: Registry, car: int, failed: set<ConnId>)
    requires car in reg
    ensures reg[car] != [] ==>
              DisconnectAll(reg, Failures(reg[car], failed), car) == WithList(reg, car, Survivors(reg[car], failed))
    ensures reg[car] == [] ==> DisconnectAll(reg, Failures(reg[car], failed), car) == reg
  {
    var l := reg[car];
    if l != [] {
      assert reg == WithList(reg, car, l);
      DisconnectAllShape(reg, car, l, Failures(l, failed));
      RemovingFailuresLeavesSurvivors(l, failed);
    }
  }

  /** `broadcast_to_car`: send to every connection of the car, then disconnect those whose
      send failed. An unknown car changes nothing. */
  function BroadcastToCar(reg: Registry, car: int, failed: set<ConnId>): (r: Registry)
    ensures car !in reg ==> r == reg
    ensures forall c :: c != car ==> (c in r <==> c in reg)
    ensures forall c :: c in r && c != car ==> r[c] == reg[c]
    ensures car in reg && reg[car] != [] ==>
              (car in r <==> Survivors(reg[car], failed) != []) &&
              (car in r ==> r[car] == Survivors(reg[car], failed))
    ensures Valid(reg) ==> Valid(r)
  {
    if car in reg then
      CleanupLeavesSurvivors(reg, car, failed);
      DisconnectAll(reg, Failures(reg[car], failed), car)
    else reg
  }

  /** Every car's list pruned to the connections whose send succeeded, cars left with none
      removed. */
  function Pruned(reg: Registry, failed: set<ConnId>): (r: Registry)
    ensures Valid(r)
  {
    map car | car in reg && Survivors(reg[car], failed) != [] :: Survivors(reg[car], failed)
  }

  /** Part-way through `broadcast_all`: the cars still `pending` have their original
      lists, the others have been pruned. */
  predicate BroadcastProgress(reg: Registry, r: Registry, pending: set<int>, failed: set<ConnId>) {
    && pending <= reg.Keys
    && r.Keys <= reg.Keys
    && (forall car :: car in pending ==> car in r && r[car] == reg[car])
    && (forall car :: car in reg && car !in pending ==>
          (car in r <==> Survivors(reg[car], failed) != []) &&
          (car in r ==> r[car] == Survivors(reg[car], failed)))
  }

  lemma BroadcastStep(reg: Registry, r: Registry, pending: set<int>, car: int, failed: set<ConnId>)
    requires Valid(reg) && BroadcastProgress(reg, r, pending, failed) && car in pending
    ensures BroadcastProgress(reg, BroadcastToCar(r, car, failed), pending - {car}, failed)
  {
    assert r[car] == reg[car] && reg[car] != [];
  }

  lemma BroadcastDone(reg: Registry, r: Registry, failed: set<ConnId>)
    requires BroadcastProgress(reg, r, {}, failed)
    ensures r == Pruned(reg, failed)
  {
    var p := Pruned(reg, failed);
    forall car
      ensures car in r <==> car in p
    {
      if car in r {
        assert car in reg;
      }
    }
    assert r.Keys == p.Keys;
    forall car | car in r
      ensures r[car] == p[car]
    {
    }
  }

  /** `broadcast_all`: broadcast to each car in `snapshot`, the list of the registry's
      keys taken when the call starts (Python's `list(d.keys())`: every key once). The
      result does not depend on the snapshot's order. */
  method BroadcastAll(reg: Registry, snapshot: seq<int>, failed: set<ConnId>) returns (r: Registry)
    requires Valid(reg)
    requires forall car :: car in snapshot <==> car in reg
    requires forall i, j :: 0 <= i < j < |snapshot| ==> snapshot[i] != snapshot[j]
    ensures r == Pruned(reg, failed)
    ensures Valid(r)
  {
    r := reg;
    var pending := reg.Keys;
    var i := 0;
    while i < |snapshot|
      invariant i <= |snapshot|
      invariant forall car :: car in pending <==> car in snapshot[i..]
      invariant BroadcastProgress(reg, r, pending, failed)
    {
      var car := snapshot[i];
      assert car !in snapshot[i + 1..];
      BroadcastStep(reg, r, pending, car, failed);
      r := BroadcastToCar(r, car, failed);
      pending := pending - {car};
      i := i + 1;
    }
    assert pending == {};
    BroadcastDone(reg, r, failed);
  }
}
