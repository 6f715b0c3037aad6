/** adjustStreamPriority on stream objects: it walks up the parent pointers, and the walk ends
    because the pointers have no cycle. */
module PriorityRoutines {
  import opened Wrappers
  import opened Priority

  class Stream {
    const id: nat
    var parent: Stream?
    var weight: nat

    constructor (id: nat)
      ensures this.id == id && parent == null && weight == 0
    {
      this.id, parent, weight := id, null, 0;
    }
  }

  /** All streams there have been, by id. */
  type Registry = map<nat, Stream>

  ghost function StreamsOf(all: Registry): set<Stream> {
    set id | id in all :: all[id]
  }

  function IdOf(st: Stream?): nat {
    if st == null then 0 else st.id
  }

  /** Parents are streams of the connection. */
  ghost predicate Linked(all: Registry)
    reads StreamsOf(all)
  {
    && 0 !in all
    && (forall id :: id in all ==> all[id].id == id)
    && (forall id :: id in all && all[id].parent != null ==>
          all[id].parent.id in all && all[all[id].parent.id] == all[id].parent)
  }

  ghost function View(all: Registry): (p: Parents)
    reads StreamsOf(all)
    ensures p.Keys == all.Keys && forall id :: id in all ==> p[id] == IdOf(all[id].parent)
  {
    map id | id in all :: IdOf(all[id].parent)
  }

  lemma SameParents(p: Parents, q: Parents)
    requires p.Keys == q.Keys && forall x :: x in p ==> p[x] == q[x]
    ensures p == q
  {
  }

  /** The walk so far, and the walk one stream further. */
  lemma WalkOn(p: Parents, path: seq<nat>, x: nat)
    requires Forest(p) && IsPath(p, path) && p[path[|path| - 1]] == x && x in p
    ensures IsPath(p, path + [x]) && x !in path
  {
    var y := path[|path| - 1];
    if x in path {
      var i :| 0 <= i < |path| && path[i] == x;
      assert Joins(p, path[i..], x, y);
      NotBelowDependent(p, y);
    }
  }

  /** A walk that has ended at a root has met everything that its start is below. */
  lemma {:induction false} WalkMeets(p: Parents, path: seq<nat>, other: seq<nat>)
    requires Forest(p) && IsPath(p, path) && p[path[|path| - 1]] == 0
    requires IsPath(p, other) && other[0] == path[0]
    ensures |other| <= |path| && other == path[..|other|]
    ensures other[|other| - 1] in path
    decreases |other|
  {
    if |other| > 1 {
      var shorter := other[..|other| - 1];
      WalkMeets(p, path, shorter);
      var k := |shorter|;
      assert p[other[k - 1]] == other[k] && other[k - 1] == path[k - 1];
      assert other[k] in p;
      assert k < |path|;
      assert other == shorter + [other[k]];
    }
  }

  lemma WalkDecides(p: Parents, path: seq<nat>, id: nat)
    requires Forest(p) && IsPath(p, path) && p[path[|path| - 1]] == 0
    requires id !in path
    ensures !Below(p, path[0], id)
  {
    if Below(p, path[0], id) {
      var other :| Joins(p, other, path[0], id);
      assert other[|other| - 1] == id;
      WalkMeets(p, path, other);
    }
  }

  /** The loop over the ancestors: whether st is among parent and its ancestors. */
  method IsAncestor(ghost all: Registry, st: Stream, parent: Stream) returns (found: bool)
    requires Linked(all) && Forest(View(all))
    requires st.id in all && all[st.id] == st && parent.id in all && all[parent.id] == parent
    ensures View(all) == old(View(all)) && found == Below(View(all), parent.id, st.id)
  {
    ghost var p := View(all);
    var piter: Stream? := parent;
    ghost var path: seq<nat> := [];
    while piter != null
      invariant Linked(all) && View(all) == p
      invariant piter != null ==> piter.id in all && all[piter.id] == piter
      invariant path == [] ==> piter == parent
      invariant path != [] ==> IsPath(p, path) && path[0] == parent.id && p[path[|path| - 1]] == IdOf(piter)
      invariant st.id !in path
      invariant forall i, j :: 0 <= i < j < |path| ==> path[i] != path[j]
      invariant forall i :: 0 <= i < |path| ==> path[i] in p
      decreases |p| - |path|
    {
      if path != [] { WalkOn(p, path, piter.id); }
      path := path + [piter.id];
      Bounded(path, p.Keys);
      if piter == st {
        assert Joins(p, path, parent.id, st.id);
        return true;
      }
      piter := piter.parent;
    }
    WalkDecides(p, path, st.id);
    found := false;
  }

  lemma {:induction false} Bounded(path: seq<nat>, ids: set<nat>)
    requires forall i, j :: 0 <= i < j < |path| ==> path[i] != path[j]
    requires forall i :: 0 <= i < |path| ==> path[i] in ids
    ensures |path| <= |ids|
  {
    if path != [] {
      var last := path[|path| - 1];
      Bounded(path[..|path| - 1], ids - {last});
    }
  }

  method SetWeight(ghost all: Registry, st: Stream, weight: nat)
    requires Linked(all) && st.id in all && all[st.id] == st
    modifies st`weight
    ensures Linked(all) && View(all) == old(View(all))
    ensures forall id :: id in all ==> all[id].weight == if id == st.id then weight else old(all[id].weight)
  {
    st.weight := weight;
    SameParents(View(all), old(View(all)));
  }

  lemma AdjustIs(p: Parents, open: set<nat>, id: nat, dep: nat, exclusive: bool)
    requires open <= p.Keys
    ensures
      var parent := if dep in open then dep else 0;
      Adjust(p, open, id, dep, exclusive)
      == if id !in open || parent == id then p
         else if exclusive && (parent != 0 || dep == 0) then Adopted(Reparented(p, id, parent), open, id, parent)
         else Reparented(p, id, parent)
  {
  }

  method AdjustStreamPriority(streams: Registry, ghost all: Registry, streamID: nat, dep: nat, exclusive: bool,
                              weight: nat)
    requires Linked(all) && Forest(View(all))
    requires forall id :: id in streams ==> id in all && all[id] == streams[id]
    modifies StreamsOf(all)
    ensures Linked(all)
    ensures streams.Keys <= all.Keys && View(all) == Adjust(old(View(all)), streams.Keys, streamID, dep, exclusive)
    ensures forall id :: id in all ==>
              all[id].weight == if id == streamID && id in streams then weight else old(all[id].weight)
  {
    hide Forest, Adjust, Reparented, Adopted;
    ghost var p := View(all);
    AdjustIs(p, streams.Keys, streamID, dep, exclusive);
    if streamID !in streams { return; }
    var st := streams[streamID];
    SetWeight(all, st, weight);
    var parent: Stream? := if dep in streams then streams[dep] else null;
    if parent == st { return; }
    Reparent(all, st, parent);
    if exclusive && (st.parent != null || dep == 0) {
      AdoptOthers(streams, all, st);
    }
  }

  /** The moved dependent and the stream itself get their new parents. */
  method Reparent(ghost all: Registry, st: Stream, parent: Stream?)
    requires Linked(all) && Forest(View(all)) && st.id in all && all[st.id] == st && parent != st
    requires parent != null ==> parent.id in all && all[parent.id] == parent
    modifies st`parent, (if parent == null then {} else {parent})`parent
    ensures Linked(all) && View(all) == Reparented(old(View(all)), st.id, IdOf(parent)) && st.parent == parent
  {
    ghost var p := View(all);
    hide Forest;
    if parent != null {
      var found := IsAncestor(all, st, parent);
      assert View(all) == p;
      assert found == Below(p, IdOf(parent), st.id);
      if found { SetParent(all, parent, st.parent); }
    }
    SetParent(all, st, parent);
  }

  method SetParent(ghost all: Registry, x: Stream, parent: Stream?)
    requires Linked(all) && x.id in all && all[x.id] == x
    requires parent != null ==> parent.id in all && all[parent.id] == parent
    modifies x`parent
    ensures Linked(all) && View(all) == old(View(all))[x.id := IdOf(parent)] && x.parent == parent
  {
    x.parent := parent;
    SameParents(View(all), old(View(all))[x.id := IdOf(parent)]);
  }

  /** Adoption by part of the open streams, and by one more. */
  lemma AdoptedMore(p: Parents, done: set<nat>, id: nat, parent: nat, x: nat)
    requires x in p && x !in done
    ensures
      var q := Adopted(p, done, id, parent);
      q[x] == p[x] && Adopted(p, done + {x}, id, parent) == if x != id && p[x] == parent then q[x := id] else q
  {
    var q := Adopted(p, done, id, parent);
    SameParents(Adopted(p, done + {x}, id, parent), if x != id && p[x] == parent then q[x := id] else q);
  }

  lemma AdoptedNone(p: Parents, id: nat, parent: nat)
    ensures Adopted(p, {}, id, parent) == p
  {
    SameParents(Adopted(p, {}, id, parent), p);
  }

  lemma SameId(all: Registry, x: Stream?, y: Stream?)
    requires Linked(all)
    requires x != null ==> x.id in all && all[x.id] == x
    requires y != null ==> y.id in all && all[y.id] == y
    ensures IdOf(x) == IdOf(y) <==> x == y
  {
  }

  /** The loop over the open streams, in whatever order the map gives them. */
  method AdoptOthers(streams: Registry, ghost all: Registry, st: Stream)
    requires Linked(all) && st.id in all && all[st.id] == st && st.parent != st
    requires forall id :: id in streams ==> id in all && all[id] == streams[id]
    modifies (set id | id in streams :: streams[id])`parent
    ensures Linked(all) && st.parent == old(st.parent)
    ensures View(all) == Adopted(old(View(all)), streams.Keys, st.id, IdOf(st.parent))
  {
    ghost var p := View(all);
    var parent := st.parent;
    var todo := streams.Keys;
    AdoptedNone(p, st.id, IdOf(parent));
    assert streams.Keys - todo == {};
    hide Adopted;
    while todo != {}
      invariant todo <= streams.Keys && Linked(all) && st.parent == parent
      invariant View(all) == Adopted(p, streams.Keys - todo, st.id, IdOf(parent))
      decreases |todo|
    {
      var id :| id in todo;
      var openStream := streams[id];
      assert openStream.id == id && all[id] == openStream;
      AdoptedMore(p, streams.Keys - todo, st.id, IdOf(parent), id);
      SameId(all, openStream.parent, parent);
      assert streams.Keys - (todo - {id}) == streams.Keys - todo + {id};
      if openStream != st && openStream.parent == st.parent {
        SetParent(all, openStream, st);
      }
      todo := todo - {id};
    }
    assert streams.Keys - todo == streams.Keys;
  }
}
