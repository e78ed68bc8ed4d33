/** Definitions in the data flow graph. A definition is a cell or a phi node that joins cells; the
    arena that allocates them keeps phi nodes flat, so that joining behaves like a union. */
module Defs {
  import opened Wrappers

  /** Definitions are identified by the order of their allocation. */
  type DefId = nat

  datatype Def = Cell(subscripted: bool) | Phi(operands: seq<DefId>)

  type Arena = seq<Def>

  /** Cells and phi nodes without operands stand for themselves. */
  predicate IsAtom(defs: Arena, d: DefId) {
    d < |defs| && (defs[d].Cell? || defs[d].operands == [])
  }

  /** What every arena keeps: a phi node has no operands or at least two different ones, and its
      operands are atoms allocated before it. */
  ghost predicate Flat(defs: Arena) {
    forall d :: 0 <= d < |defs| && defs[d].Phi? ==>
      && |defs[d].operands| != 1 && Distinct(defs[d].operands)
      && forall o :: o in defs[d].operands ==> o < d && IsAtom(defs, o)
  }

  /** The atoms a definition joins. */
  function Atoms(defs: Arena, d: DefId): seq<DefId>
    requires d < |defs|
  {
    if IsAtom(defs, d) then [d] else defs[d].operands
  }

  predicate Known(defs: Arena, ds: seq<DefId>) {
    forall i :: 0 <= i < |ds| ==> ds[i] < |defs|
  }

  function AtomsOfAll(defs: Arena, ds: seq<DefId>): seq<DefId>
    requires Known(defs, ds)
  {
    if ds == [] then [] else Atoms(defs, ds[0]) + AtomsOfAll(defs, ds[1..])
  }

  /** Append what is new, in order. */
  function AppendNew(acc: seq<DefId>, ids: seq<DefId>): seq<DefId>
    decreases ids
  {
    if ids == [] then acc
    else AppendNew(if ids[0] in acc then acc else acc + [ids[0]], ids[1..])
  }

  /** The order-preserving deduplicated flattening of a list of definitions. */
  function Joined(defs: Arena, ds: seq<DefId>): seq<DefId>
    requires Known(defs, ds)
  {
    AppendNew([], AtomsOfAll(defs, ds))
  }

  // ----- appending what is new -----

  lemma {:induction false} AppendNewMembers(acc: seq<DefId>, ids: seq<DefId>)
    ensures forall x :: x in AppendNew(acc, ids) <==> x in acc || x in ids
    ensures Distinct(acc) ==> Distinct(AppendNew(acc, ids))
    ensures acc <= AppendNew(acc, ids)
    decreases ids
  {
    if ids != [] {
      var next := if ids[0] in acc then acc else acc + [ids[0]];
      AppendNewMembers(next, ids[1..]);
      assert ids == [ids[0]] + ids[1..];
    }
  }

  lemma {:induction false} AppendNewConcat(acc: seq<DefId>, a: seq<DefId>, b: seq<DefId>)
    ensures AppendNew(acc, a + b) == AppendNew(AppendNew(acc, a), b)
    decreases a
  {
    if a == [] {
      assert a + b == b;
    } else {
      assert (a + b)[0] == a[0] && (a + b)[1..] == a[1..] + b;
      AppendNewConcat(if a[0] in acc then acc else acc + [a[0]], a[1..], b);
    }
  }

  lemma {:induction false} AppendNewLast(acc: seq<DefId>, x: DefId)
    ensures AppendNew(acc, [x]) == if x in acc then acc else acc + [x]
  {
    assert [x][1..] == [];
  }

  /** Removing duplicates first makes no difference. */
  lemma {:induction false} AppendNewTwice(acc: seq<DefId>, ids: seq<DefId>)
    ensures AppendNew(acc, AppendNew([], ids)) == AppendNew(acc, ids)
    decreases |ids|
  {
    if ids != [] {
      var front, x := ids[..|ids| - 1], ids[|ids| - 1];
      assert ids == front + [x];
      AppendNewTwice(acc, front);
      AppendNewConcat([], front, [x]);
      AppendNewConcat(acc, front, [x]);
      AppendNewMembers([], front);
      AppendNewMembers(acc, front);
      var once := AppendNew([], front);
      AppendNewLast(once, x);
      AppendNewLast(AppendNew(acc, front), x);
      if x !in once {
        AppendNewConcat(acc, once, [x]);
      }
    }
  }

  /** Nothing new to append. */
  lemma {:induction false} AppendNewNothing(acc: seq<DefId>, ids: seq<DefId>)
    requires forall x :: x in ids ==> x in acc
    ensures AppendNew(acc, ids) == acc
    decreases ids
  {
    if ids != [] {
      assert ids[0] in ids;
      AppendNewNothing(acc, ids[1..]);
    }
  }

  /** Distinct and disjoint ids are all new. */
  lemma {:induction false} AppendNewAll(acc: seq<DefId>, ids: seq<DefId>)
    requires Distinct(ids) && forall x :: x in ids ==> x !in acc
    ensures AppendNew(acc, ids) == acc + ids
    decreases ids
  {
    if ids != [] {
      assert ids[0] in ids;
      assert ids == [ids[0]] + ids[1..];
      AppendNewAll(acc + [ids[0]], ids[1..]);
      assert acc + [ids[0]] + ids[1..] == acc + ids;
    } else {
      assert acc + ids == acc;
    }
  }

  // ----- phi -----

  /** The arena and the definition that `phi` yields. */
  function PhiOf(defs: Arena, ds: seq<DefId>): (Arena, DefId)
    requires Known(defs, ds)
  {
    var operands := Joined(defs, ds);
    if |operands| == 1 then (defs, operands[0]) else (defs + [Phi(operands)], |defs|)
  }

  lemma {:induction false} AtomsAreAtoms(defs: Arena, ds: seq<DefId>)
    requires Flat(defs) && Known(defs, ds)
    ensures forall o :: o in AtomsOfAll(defs, ds) ==> IsAtom(defs, o)
    ensures ds != [] ==> AtomsOfAll(defs, ds) != []
  {
    if ds != [] {
      assert ds[0] in ds;
      AtomsAreAtoms(defs, ds[1..]);
    }
  }

  /** Allocation keeps an arena flat and leaves the earlier definitions as they are. */
  lemma {:induction false} PhiKeepsFlat(defs: Arena, ds: seq<DefId>)
    requires Flat(defs) && Known(defs, ds)
    ensures var (defs', r) := PhiOf(defs, ds);
            && Flat(defs') && defs <= defs' && r < |defs'|
            && (ds != [] ==> Atoms(defs', r) == Joined(defs, ds))
    ensures ds == [] ==> PhiOf(defs, ds) == (defs + [Phi([])], |defs|)
  {
    var atoms, operands := AtomsOfAll(defs, ds), Joined(defs, ds);
    AtomsAreAtoms(defs, ds);
    AppendNewMembers([], atoms);
    if |operands| != 1 {
      var defs' := defs + [Phi(operands)];
      assert forall o :: o in operands ==> o in atoms;
      assert forall d :: 0 <= d < |defs| ==> defs'[d] == defs[d];
      if ds != [] {
        assert atoms[0] in operands;
      }
    } else {
      assert operands[0] in operands;
    }
  }

  /** Later allocations do not change what a definition joins. */
  lemma {:induction false} AtomsStable(defs: Arena, defs': Arena, ds: seq<DefId>)
    requires defs <= defs' && Known(defs, ds)
    ensures AtomsOfAll(defs, ds) == AtomsOfAll(defs', ds) && Joined(defs, ds) == Joined(defs', ds)
  {
    if ds != [] {
      AtomsStable(defs, defs', ds[1..]);
    }
  }

  lemma {:induction false} AtomsOfAllConcat(defs: Arena, a: seq<DefId>, b: seq<DefId>)
    requires Known(defs, a) && Known(defs, b)
    ensures AtomsOfAll(defs, a + b) == AtomsOfAll(defs, a) + AtomsOfAll(defs, b)
  {
    if a == [] {
      assert a + b == b;
    } else {
      assert (a + b)[0] == a[0] && (a + b)[1..] == a[1..] + b;
      AtomsOfAllConcat(defs, a[1..], b);
      var first, rest, more := Atoms(defs, a[0]), AtomsOfAll(defs, a[1..]), AtomsOfAll(defs, b);
      assert first + (rest + more) == (first + rest) + more;
    }
  }

  /** Deduplicating the middle of a list first makes no difference. */
  lemma {:induction false} AppendNewMiddle(x: seq<DefId>, y: seq<DefId>, z: seq<DefId>)
    ensures AppendNew([], (x + AppendNew([], y)) + z) == AppendNew([], (x + y) + z)
  {
    AppendNewConcat([], x + y, z);
    AppendNewConcat([], x, y);
    AppendNewConcat([], x + AppendNew([], y), z);
    AppendNewConcat([], x, AppendNew([], y));
    AppendNewTwice(AppendNew([], x), y);
  }

  lemma {:induction false} AtomsOfThree(defs: Arena, x: seq<DefId>, y: seq<DefId>, z: seq<DefId>)
    requires Known(defs, x) && Known(defs, y) && Known(defs, z)
    ensures AtomsOfAll(defs, (x + y) + z) == (AtomsOfAll(defs, x) + AtomsOfAll(defs, y)) + AtomsOfAll(defs, z)
  {
    AtomsOfAllConcat(defs, x + y, z);
    AtomsOfAllConcat(defs, x, y);
  }

  /** Joining a phi node is joining what it was made of: nested phi nodes leave no trace. */
  lemma {:induction false} NestedPhi(defs: Arena, xs: seq<DefId>, ys: seq<DefId>, zs: seq<DefId>)
    requires Flat(defs) && ys != [] && Known(defs, xs) && Known(defs, ys) && Known(defs, zs)
    ensures var (defs', r) := PhiOf(defs, ys);
            Known(defs', xs + [r] + zs) && Joined(defs', xs + [r] + zs) == Joined(defs, xs + ys + zs)
  {
    var (defs', r) := PhiOf(defs, ys);
    PhiKeepsFlat(defs, ys);
    AtomsOfThree(defs, xs, ys, zs);
    AtomsStable(defs, defs', xs);
    AtomsStable(defs, defs', zs);
    AtomsOfThree(defs', xs, [r], zs);
    assert AtomsOfAll(defs', [r]) == Atoms(defs', r) by { assert [r][1..] == []; }
    AppendNewMiddle(AtomsOfAll(defs, xs), AtomsOfAll(defs, ys), AtomsOfAll(defs, zs));
  }

  /** Associativity: both ways of joining three definitions join the same atoms in the same order. */
  lemma {:induction false} PhiAssociative(defs: Arena, a: DefId, b: DefId, c: DefId)
    requires Flat(defs) && a < |defs| && b < |defs| && c < |defs|
    ensures var (d1, ab) := PhiOf(defs, [a, b]);
            var (d2, bc) := PhiOf(defs, [b, c]);
            && ab < |d1| && bc < |d2| && c < |d1| && a < |d2|
            && Joined(d1, [ab, c]) == Joined(d2, [a, bc]) == Joined(defs, [a, b, c])
  {
    assert [] + [a, b] + [c] == [a, b, c] && [a] + [b, c] + [] == [a, b, c];
    NestedPhi(defs, [], [a, b], [c]);
    NestedPhi(defs, [a], [b, c], []);
    PhiKeepsFlat(defs, [a, b]);
    PhiKeepsFlat(defs, [b, c]);
    assert [] + [PhiOf(defs, [a, b]).1] + [c] == [PhiOf(defs, [a, b]).1, c];
    assert [a] + [PhiOf(defs, [b, c]).1] + [] == [a, PhiOf(defs, [b, c]).1];
  }

  lemma {:induction false} JoinedPair(defs: Arena, a: DefId, b: DefId)
    requires Flat(defs) && a < |defs| && b < |defs|
    ensures Joined(defs, [a, b]) == AppendNew([], Atoms(defs, a) + Atoms(defs, b))
    ensures forall x :: x in Joined(defs, [a, b]) <==> x in Atoms(defs, a) || x in Atoms(defs, b)
  {
    assert [a, b][1..] == [b] && [b][1..] == [];
    assert AtomsOfAll(defs, [b]) == Atoms(defs, b);
    AppendNewMembers([], Atoms(defs, a) + Atoms(defs, b));
  }

  /** Commutativity, as sets of atoms; a definition joined with itself is the same atoms again. */
  lemma {:induction false} PhiCommutativeIdempotent(defs: Arena, a: DefId, b: DefId)
    requires Flat(defs) && a < |defs| && b < |defs|
    ensures (set x | x in Joined(defs, [a, b])) == (set x | x in Joined(defs, [b, a]))
    ensures Joined(defs, [a, a]) == Atoms(defs, a)
    ensures IsAtom(defs, a) ==> PhiOf(defs, [a, a]) == (defs, a)
  {
    JoinedPair(defs, a, b);
    JoinedPair(defs, b, a);
    JoinedPair(defs, a, a);
    var atoms := Atoms(defs, a);
    AppendNewConcat([], atoms, atoms);
    AppendNewAll([], atoms);
    assert [] + atoms == atoms;
    AppendNewNothing(atoms, atoms);
  }

  lemma {:induction false} JoinedStep(defs: Arena, ds: seq<DefId>, i: nat)
    requires Known(defs, ds) && i < |ds|
    ensures Joined(defs, ds[..i + 1]) == AppendNew(Joined(defs, ds[..i]), Atoms(defs, ds[i]))
  {
    assert ds[..i + 1] == ds[..i] + [ds[i]];
    AtomsOfAllConcat(defs, ds[..i], [ds[i]]);
    assert AtomsOfAll(defs, [ds[i]]) == Atoms(defs, ds[i]) by { assert [ds[i]][1..] == []; }
    AppendNewConcat([], AtomsOfAll(defs, ds[..i]), Atoms(defs, ds[i]));
  }

  /** A request to the arena; joins name definitions that exist. */
  datatype Request = Fresh(subscripted: bool) | Join(ds: seq<DefId>)

  function Serve(requests: seq<Request>): Arena {
    if requests == [] then []
    else
      var defs, last := Serve(requests[..|requests| - 1]), requests[|requests| - 1];
      match last
      case Fresh(subscripted) => defs + [Cell(subscripted)]
      case Join(ds) => if Known(defs, ds) then PhiOf(defs, ds).0 else defs
  }

  /** Every arena that requests can build is flat. */
  lemma {:induction false} EveryArenaIsFlat(requests: seq<Request>)
    ensures Flat(Serve(requests))
    decreases |requests|
  {
    if requests != [] {
      var defs, last := Serve(requests[..|requests| - 1]), requests[|requests| - 1];
      EveryArenaIsFlat(requests[..|requests| - 1]);
      if last.Join? && Known(defs, last.ds) {
        PhiKeepsFlat(defs, last.ds);
      } else if last.Fresh? {
        var defs' := defs + [Cell(last.subscripted)];
        assert forall d :: 0 <= d < |defs| ==> defs'[d] == defs[d];
      }
    }
  }

  // ----- subscripted definitions -----

  /** `containsSubscriptedDefinition`. */
  predicate ContainsSubscripted(defs: Arena, d: DefId)
    requires Flat(defs) && d < |defs|
    decreases d
  {
    match defs[d]
    case Cell(subscripted) => subscripted
    case Phi(operands) => exists o :: o in operands && ContainsSubscripted(defs, o)
  }

  lemma {:induction false} SubscriptedByAtoms(defs: Arena, d: DefId)
    requires Flat(defs) && d < |defs|
    ensures (forall o :: o in Atoms(defs, d) ==> o < |defs|)
            && (ContainsSubscripted(defs, d) <==> exists o :: o in Atoms(defs, d) && ContainsSubscripted(defs, o))
  {
    assert IsAtom(defs, d) ==> Atoms(defs, d) == [d];
  }

  lemma {:induction false} SubscriptedStable(defs: Arena, defs': Arena, d: DefId)
    requires Flat(defs) && Flat(defs') && defs <= defs' && d < |defs|
    ensures ContainsSubscripted(defs', d) == ContainsSubscripted(defs, d)
    decreases d
  {
    if defs[d].Phi? {
      forall o | o in defs[d].operands ensures ContainsSubscripted(defs', o) == ContainsSubscripted(defs, o) {
        SubscriptedStable(defs, defs', o);
      }
    }
  }

  lemma {:induction false} AtomsOfAllMembers(defs: Arena, ds: seq<DefId>, o: DefId)
    requires Known(defs, ds)
    ensures o in AtomsOfAll(defs, ds) <==> exists d :: d in ds && o in Atoms(defs, d)
  {
    if ds != [] {
      AtomsOfAllMembers(defs, ds[1..], o);
      assert ds == [ds[0]] + ds[1..];
    }
  }

  /** A join contains a subscripted definition exactly when one of its inputs does. */
  lemma {:induction false} PhiSubscripted(defs: Arena, ds: seq<DefId>)
    requires Flat(defs) && Known(defs, ds)
    ensures var (defs', r) := PhiOf(defs, ds);
            && Flat(defs') && r < |defs'|
            && (ContainsSubscripted(defs', r) <==> exists d :: d in ds && ContainsSubscripted(defs, d))
  {
    var (defs', r) := PhiOf(defs, ds);
    PhiKeepsFlat(defs, ds);
    SubscriptedByAtoms(defs', r);
    if ds != [] {
      AppendNewMembers([], AtomsOfAll(defs, ds));
      if ContainsSubscripted(defs', r) {
        var o :| o in Atoms(defs', r) && ContainsSubscripted(defs', o);
        AtomsOfAllMembers(defs, ds, o);
        var d :| d in ds && o in Atoms(defs, d);
        SubscriptedByAtoms(defs, d);
        SubscriptedStable(defs, defs', o);
      }
      if d :| d in ds && ContainsSubscripted(defs, d) {
        SubscriptedByAtoms(defs, d);
        var o :| o in Atoms(defs, d) && ContainsSubscripted(defs, o);
        AtomsOfAllMembers(defs, ds, o);
        SubscriptedStable(defs, defs', o);
      }
    }
  }

  // ----- the arena object -----

  class DefArena {
    var defs: Arena

    ghost predicate Valid()
      reads this
    {
      Flat(defs)
    }

    constructor ()
      ensures Valid() && defs == []
    {
      defs := [];
    }

    method FreshCell(subscripted: bool) returns (d: DefId)
      requires Valid()
      modifies this
      ensures Valid() && defs == old(defs) + [Cell(subscripted)] && d == |old(defs)|
      ensures ContainsSubscripted(defs, d) == subscripted
    {
      d := |defs|;
      defs := defs + [Cell(subscripted)];
      assert forall e :: 0 <= e < |old(defs)| ==> defs[e] == old(defs)[e];
    }

    /** `collectOperands`: the atoms of a definition, appended where new. */
    method CollectOperands(d: DefId, operands0: seq<DefId>) returns (operands: seq<DefId>)
      requires Valid() && d < |defs| && forall o :: o in operands0 ==> IsAtom(defs, o)
      ensures operands == AppendNew(operands0, Atoms(defs, d))
      decreases d
    {
      operands := operands0;
      if d in operands {
        AppendNewNothing(operands, [d]);
        return;
      }
      if IsAtom(defs, d) {
        AppendNewLast(operands, d);
        operands := operands + [d];
        return;
      }
      var inner := defs[d].operands;
      for i := 0 to |inner|
        invariant operands == AppendNew(operands0, inner[..i])
      {
        assert inner[i] in inner;
        AppendNewMembers(operands0, inner[..i]);
        assert forall o :: o in inner[..i] ==> o in inner;
        operands := CollectOperands(inner[i], operands);
        AppendNewConcat(operands0, inner[..i], [inner[i]]);
        assert inner[..i + 1] == inner[..i] + [inner[i]];
      }
      assert inner[..|inner|] == inner;
    }

    /** `phi`: no node is allocated for a single operand. */
    method Phi(ds: seq<DefId>) returns (r: DefId)
      requires Valid() && Known(defs, ds)
      modifies this
      ensures Valid() && (defs, r) == PhiOf(old(defs), ds)
      ensures ds != [] ==> r < |defs| && Atoms(defs, r) == Joined(old(defs), ds)
    {
      var operands := [];
      for i := 0 to |ds|
        invariant defs == old(defs) && operands == Joined(defs, ds[..i])
      {
        AtomsAreAtoms(defs, ds[..i]);
        AppendNewMembers([], AtomsOfAll(defs, ds[..i]));
        operands := CollectOperands(ds[i], operands);
        JoinedStep(defs, ds, i);
      }
      assert ds[..|ds|] == ds;
      PhiKeepsFlat(defs, ds);
      if |operands| == 1 {
        r := operands[0];
      } else {
        r := |defs|;
        defs := defs + [Def.Phi(operands)];
      }
    }
  }
}
