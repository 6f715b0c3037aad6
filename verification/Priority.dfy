/** The HTTP/2 priority tree (section 5.3 of RFC 7540) as parent pointers between streams. A
    stream is its id; 0 stands for no parent. Streams that are closed stay in the tree as long
    as others point to them, but are not open any more. */
module Priority {
  import opened Wrappers

  type Parents = map<nat, nat>

  /** No nonempty set of streams keeps all its parents: there is no cycle. */
  ghost predicate Acyclic(p: Parents) {
    forall ids: set<nat> :: ids != {} && ids <= p.Keys ==> Leaves(p, ids)
  }

  ghost predicate Leaves(p: Parents, ids: set<nat>)
    requires ids <= p.Keys
  {
    exists x :: x in ids && p[x] !in ids
  }

  ghost predicate Forest(p: Parents) {
    && 0 !in p && Acyclic(p)
    && forall x :: x in p ==> p[x] == 0 || p[x] in p
  }

  /** From each stream to its parent. */
  predicate IsPath(p: Parents, path: seq<nat>) {
    && path != [] && (forall i :: 0 <= i < |path| ==> path[i] in p)
    && forall i :: 0 <= i < |path| - 1 ==> p[path[i]] == path[i + 1]
  }

  predicate Joins(p: Parents, path: seq<nat>, x: nat, a: nat) {
    IsPath(p, path) && path[0] == x && path[|path| - 1] == a
  }

  /** x is a or depends on it, directly or not. */
  ghost predicate Below(p: Parents, x: nat, a: nat) {
    exists path :: Joins(p, path, x, a)
  }

  /** adjustStreamPriority on the parents: a stream made dependent on one of its own
      dependents sees that dependent moved under its old parent first; an exclusive dependency
      adopts the other open dependents. */
  ghost function Adjust(p: Parents, open: set<nat>, id: nat, dep: nat, exclusive: bool): Parents
    requires open <= p.Keys
  {
    var parent := if dep in open then dep else 0;
    if id !in open || parent == id then p
    else
      var q := Reparented(p, id, parent);
      if exclusive && (parent != 0 || dep == 0) then Adopted(q, open, id, parent) else q
  }

  ghost function Reparented(p: Parents, id: nat, parent: nat): Parents
    requires id in p
  {
    if parent in p && Below(p, parent, id) then p[parent := p[id]][id := parent] else p[id := parent]
  }

  function Adopted(p: Parents, open: set<nat>, id: nat, parent: nat): Parents {
    map x | x in p :: if x in open && x != id && p[x] == parent then id else p[x]
  }

  // ----- paths -----

  lemma BelowItself(p: Parents, x: nat)
    requires x in p
    ensures Below(p, x, x)
  {
    assert Joins(p, [x], x, x);
  }

  lemma BelowParent(p: Parents, x: nat, y: nat)
    requires Below(p, x, y) && p[y] in p
    ensures Below(p, x, p[y])
  {
    var path :| Joins(p, path, x, y);
    assert Joins(p, path + [p[y]], x, p[y]);
  }

  lemma BelowTransitive(p: Parents, x: nat, y: nat, z: nat)
    requires Below(p, x, y) && Below(p, y, z)
    ensures Below(p, x, z)
  {
    var a :| Joins(p, a, x, y);
    var b :| Joins(p, b, y, z);
    var c := a + b[1..];
    assert forall i :: |a| <= i < |c| ==> c[i] == b[i - |a| + 1];
    assert Joins(p, c, x, z);
  }

  lemma Cyclic(p: Parents, ids: set<nat>)
    requires ids != {} && ids <= p.Keys && forall x :: x in ids ==> p[x] in ids
    ensures !Acyclic(p)
  {
    assert !Leaves(p, ids);
  }

  /** Nothing is below its own dependents. */
  lemma NotBelowDependent(p: Parents, y: nat)
    requires Acyclic(p) && y in p && p[y] in p
    ensures !Below(p, p[y], y)
  {
    if Below(p, p[y], y) {
      var path :| Joins(p, path, p[y], y);
      var ids := set i | 0 <= i < |path| :: path[i];
      assert path[0] in ids && ids <= p.Keys;
      forall x | x in ids ensures p[x] in ids {
        var i :| 0 <= i < |path| && path[i] == x;
        assert p[x] == if i < |path| - 1 then path[i + 1] else path[0];
      }
      Cyclic(p, ids);
    }
  }

  /** A set that keeps its parents in q and holds x cannot exist when q agrees with the forest
      p above x. */
  lemma Escapes(p: Parents, q: Parents, ids: set<nat>, x: nat)
    requires Forest(p) && q.Keys == p.Keys && ids <= q.Keys && x in ids
    requires forall y :: y in p && Below(p, x, y) ==> q[y] == p[y]
    ensures Leaves(q, ids)
  {
    if !Leaves(q, ids) {
      BelowItself(p, x);
      var above := set y | y in ids && Below(p, x, y);
      assert Leaves(p, above);
      var y :| y in above && p[y] !in above;
      assert q[y] in ids;
      BelowParent(p, x, y);
    }
  }

  // ----- adjustments keep the forest -----

  lemma ReparentedForest(p: Parents, id: nat, parent: nat)
    requires Forest(p) && id in p && parent != id && (parent == 0 || parent in p)
    ensures Forest(Reparented(p, id, parent))
  {
    var q := Reparented(p, id, parent);
    forall ids: set<nat> | ids != {} && ids <= q.Keys ensures Leaves(q, ids) {
      if parent in p && Below(p, parent, id) {
        MovedLeaves(p, q, id, parent, ids);
      } else {
        PlainLeaves(p, q, id, parent, ids);
      }
    }
  }

  lemma PlainLeaves(p: Parents, q: Parents, id: nat, parent: nat, ids: set<nat>)
    requires Forest(p) && id in p && parent != id && (parent == 0 || parent in p)
    requires !(parent in p && Below(p, parent, id)) && q == p[id := parent]
    requires ids != {} && ids <= q.Keys
    ensures Leaves(q, ids)
  {
    if id !in ids {
      assert Leaves(p, ids);
      var x :| x in ids && p[x] !in ids;
      assert q[x] !in ids;
    } else if parent !in ids {
      assert q[id] !in ids;
    } else {
      Escapes(p, q, ids, parent);
    }
  }

  lemma MovedLeaves(p: Parents, q: Parents, id: nat, parent: nat, ids: set<nat>)
    requires Forest(p) && id in p && parent != id && parent in p && Below(p, parent, id)
    requires q == p[parent := p[id]][id := parent]
    requires ids != {} && ids <= q.Keys
    ensures Leaves(q, ids)
  {
    var former := p[id];
    if parent !in ids && id !in ids {
      assert Leaves(p, ids);
      var x :| x in ids && p[x] !in ids;
      assert q[x] !in ids;
    } else if parent !in ids {
      assert q[id] !in ids;
    } else if former !in ids {
      assert q[parent] !in ids;
    } else {
      forall y | y in p && Below(p, former, y) ensures q[y] == p[y] {
        if y == id {
          NotBelowDependent(p, id);
        } else if y == parent {
          BelowTransitive(p, former, parent, id);
          NotBelowDependent(p, id);
        }
      }
      Escapes(p, q, ids, former);
    }
  }

  lemma AdoptedForest(p: Parents, open: set<nat>, id: nat, parent: nat)
    requires Forest(p) && id in p && p[id] == parent && id != parent
    ensures Forest(Adopted(p, open, id, parent))
  {
    var q := Adopted(p, open, id, parent);
    forall ids: set<nat> | ids != {} && ids <= q.Keys ensures Leaves(q, ids) {
      if id !in ids {
        assert Leaves(p, ids);
        var x :| x in ids && p[x] !in ids;
        assert q[x] !in ids;
      } else if parent !in ids {
        assert q[id] !in ids;
      } else {
        forall y | y in p && Below(p, parent, y) ensures q[y] == p[y] {
          if p[y] == parent { NotBelowDependent(p, y); }
        }
        Escapes(p, q, ids, parent);
      }
    }
  }

  /** Every reprioritization keeps the parent graph a forest: exclusive or not, onto the
      stream's own dependents, with closed streams still referenced. */
  lemma AdjustKeepsForest(p: Parents, open: set<nat>, id: nat, dep: nat, exclusive: bool)
    requires Forest(p) && open <= p.Keys
    ensures Forest(Adjust(p, open, id, dep, exclusive)) && Adjust(p, open, id, dep, exclusive).Keys == p.Keys
  {
    var parent := if dep in open then dep else 0;
    if id in open && parent != id {
      ReparentedForest(p, id, parent);
      var q := Reparented(p, id, parent);
      AdoptedForest(q, open, id, parent);
    }
  }

  /** Section 5.3.3: the stream lands under what it was made to depend on; a dependent that
      it is put under goes to its old parent; and the others stay, or are adopted when the
      dependency is exclusive. */
  lemma AdjustMoves(p: Parents, open: set<nat>, id: nat, dep: nat, exclusive: bool)
    requires Forest(p) && open <= p.Keys && id in open && dep != id
    ensures
      var parent := if dep in open then dep else 0;
      var q := Adjust(p, open, id, dep, exclusive);
      var moved := parent in p && Below(p, parent, id);
      var adopts := exclusive && (parent != 0 || dep == 0);
      && q[id] == parent
      && (moved ==> q[parent] == p[id])
      && forall x :: x in p && x != id && !(moved && x == parent) ==>
           q[x] == if adopts && x in open && p[x] == parent then id else p[x]
  {
    var parent := if dep in open then dep else 0;
    if parent in p && Below(p, parent, id) && p[id] == parent { NotBelowDependent(p, id); }
  }

  // ----- runs -----

  datatype Event = Open(id: nat) | Close(id: nat) | Prioritize(id: nat, dep: nat, exclusive: bool)

  /** The parents of all streams there have been, and those that are open. */
  datatype Tree = Tree(parents: Parents, open: set<nat>)

  ghost function Step(t: Tree, e: Event): Tree
    requires t.open <= t.parents.Keys
  {
    match e
    case Open(id) => if id == 0 || id in t.parents then t else Tree(t.parents[id := 0], t.open + {id})
    case Close(id) => t.(open := t.open - {id})
    case Prioritize(id, dep, exclusive) =>
      var p := Adjust(t.parents, t.open, id, dep, exclusive);
      if t.open <= p.Keys then t.(parents := p) else t
  }

  ghost predicate GoodTree(t: Tree) {
    Forest(t.parents) && t.open <= t.parents.Keys
  }

  lemma OpenKeepsForest(p: Parents, id: nat)
    requires Forest(p) && id != 0 && id !in p
    ensures Forest(p[id := 0])
  {
    var q := p[id := 0];
    forall ids: set<nat> | ids != {} && ids <= q.Keys ensures Leaves(q, ids) {
      if id in ids {
        assert q[id] !in ids;
      } else {
        assert Leaves(p, ids);
        var x :| x in ids && p[x] !in ids;
        assert q[x] !in ids;
      }
    }
  }

  lemma StepKeeps(t: Tree, e: Event)
    requires GoodTree(t)
    ensures GoodTree(Step(t, e))
    ensures e.Prioritize? ==> Step(t, e).parents == Adjust(t.parents, t.open, e.id, e.dep, e.exclusive)
  {
    match e
    case Open(id) => if id != 0 && id !in t.parents { OpenKeepsForest(t.parents, id); }
    case Close(id) =>
    case Prioritize(id, dep, exclusive) => AdjustKeepsForest(t.parents, t.open, id, dep, exclusive);
  }

  /** So every sequence of openings, closings and reprioritizations, from the empty tree on,
      leaves a forest. */
  ghost function After(es: seq<Event>): (t: Tree)
    ensures GoodTree(t)
  {
    if es == [] then
      Tree(map[], {})
    else
      var t := After(es[..|es| - 1]);
      StepKeeps(t, es[|es| - 1]);
      Step(t, es[|es| - 1])
  }
}
