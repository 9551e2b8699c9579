/** Union-find over a dictionary, with path halving: the `parent` / `find` / `union` of
    core/units.py and core/planner.py. */
module UnionFind {
  import opened Sorting

  /** x sits in a tree whose root is rep[x]; ranks strictly increase towards the root. */
  ghost predicate Node<T>(parent: map<T, T>, rep: map<T, T>, rank: map<T, nat>, top: nat, x: T)
    requires rep.Keys == rank.Keys == parent.Keys && x in parent
  {
    && rank[x] <= top
    && rep[x] in parent && parent[rep[x]] == rep[x]
    && parent[x] in parent && rep[parent[x]] == rep[x]
    && if parent[x] == x then rep[x] == x else rank[x] < rank[parent[x]]
  }

  ghost predicate Trees<T>(parent: map<T, T>, rep: map<T, T>, rank: map<T, nat>, top: nat) {
    && rep.Keys == rank.Keys == parent.Keys
    && forall x {:trigger Node(parent, rep, rank, top, x)} :: x in parent ==> Node(parent, rep, rank, top, x)
  }

  lemma Halve<T>(parent: map<T, T>, rep: map<T, T>, rank: map<T, nat>, top: nat, x: T)
    requires Trees(parent, rep, rank, top) && x in parent && parent[x] != x
    ensures parent[x] in parent && rep[x] in rep && rank[x] < rank[parent[x]] <= top
    ensures rep[parent[x]] == rep[x]
    ensures parent[parent[x]] in parent && rep[parent[parent[x]]] == rep[x] && rank[x] < rank[parent[parent[x]]] <= top
    ensures Trees(parent[x := parent[parent[x]]], rep, rank, top)
  {
    assert Node(parent, rep, rank, top, x);
    assert Node(parent, rep, rank, top, parent[x]);
    assert Node(parent, rep, rank, top, parent[parent[x]]);
    var p := parent[x := parent[parent[x]]];
    forall y | y in p ensures Node(p, rep, rank, top, y) {
      assert Node(parent, rep, rank, top, y);
    }
  }

  /** Hanging root a under root b. */
  lemma Link<T>(parent: map<T, T>, rep: map<T, T>, rank: map<T, nat>, top: nat, a: T, b: T)
    returns (rep': map<T, T>, rank': map<T, nat>, top': nat)
    requires Trees(parent, rep, rank, top) && a in parent && b in parent
    requires rep[a] == a && rep[b] == b
    ensures rep' == map x | x in rep :: if rep[x] == a then b else rep[x]
    ensures Trees(parent[a := b], rep', rank', top')
  {
    assert Node(parent, rep, rank, top, a) && Node(parent, rep, rank, top, b);
    rep' := map x | x in rep :: if rep[x] == a then b else rep[x];
    if a == b {
      assert parent[a := b] == parent && rep' == rep;
      return rep', rank, top;
    }
    rank' := rank[b := if rank[b] > rank[a] then rank[b] else rank[a] + 1];
    top' := if rank'[b] > top then rank'[b] else top;
    forall y | y in parent ensures Node(parent[a := b], rep', rank', top', y) {
      assert Node(parent, rep, rank, top, y);
      assert Node(parent, rep, rank, top, parent[y]);
      assert Node(parent, rep, rank, top, rep[y]);
    }
  }

  class Forest<T(==)> {
    var parent: map<T, T>
    /** The representative each element leads to. */
    ghost var rep: map<T, T>
    ghost var rank: map<T, nat>
    ghost var top: nat

    ghost predicate Valid()
      reads this
    {
      Trees(parent, rep, rank, top)
    }

    constructor (elements: seq<T>)
      ensures Valid()
      ensures rep == map x | x in elements :: x
    {
      parent := map x | x in elements :: x;
      rep := map x | x in elements :: x;
      rank := map x | x in elements :: 0;
      top := 0;
    }

    method Find(x: T) returns (r: T)
      requires Valid() && x in rep
      modifies this`parent
      ensures Valid() && r in rep && r == rep[x] && rep[r] == r
    {
      r := x;
      while parent[r] != r
        invariant Valid() && r in rep && rep[r] == rep[x]
        decreases top - rank[r]
      {
        Halve(parent, rep, rank, top, r);
        parent := parent[r := parent[parent[r]]];
        r := parent[r];
      }
      assert Node(parent, rep, rank, top, r);
    }

    /** The trees of a and b become one, rooted where b's was. */
    method Union(a: T, b: T)
      requires Valid() && a in rep && b in rep
      modifies this
      ensures Valid()
      ensures rep == map x | x in old(rep) :: if old(rep)[x] == old(rep)[a] then old(rep)[b] else old(rep)[x]
    {
      var rootB := Find(b);
      var rootA := Find(a);
      rep, rank, top := Link(parent, rep, rank, top, rootA, rootB);
      parent := parent[rootA := rootB];
    }
  }

  // ----- collecting the trees -----------------------------------------------

  /** The members found under `root` among the lines in `done`, in the order they were met. */
  ghost predicate Component<T(!new)>(done: seq<T>, rep: map<T, T>, root: T, members: seq<T>) {
    && members != [] && Distinct(members)
    && forall x :: x in members <==> x in done && x in rep && rep[x] == root
  }

  ghost predicate Collected<T(!new)>(done: seq<T>, rep: map<T, T>, roots: seq<T>,
                            components: map<T, seq<T>>)
  {
    && Distinct(roots) && (forall r :: r in roots <==> r in components)
    && (forall r {:trigger Component(done, rep, r, components[r])} :: r in components ==>
          Component(done, rep, r, components[r]))
    && (forall x :: x in done && x in rep ==> rep[x] in components)
  }

  lemma CollectOne<T(!new)>(done: seq<T>, rep: map<T, T>, roots: seq<T>,
                   components: map<T, seq<T>>, ref: T,
                   roots': seq<T>, components': map<T, seq<T>>)
    requires Collected(done, rep, roots, components) && ref in rep && ref !in done
    requires var root := rep[ref];
             if root in components
             then roots' == roots && components' == components[root := components[root] + [ref]]
             else roots' == roots + [root] && components' == components[root := [ref]]
    ensures Collected(done + [ref], rep, roots', components')
  {
    var root := rep[ref];
    forall r | r in components' ensures Component(done + [ref], rep, r, components'[r]) {
      if r in components { assert Component(done, rep, r, components[r]); }
    }
  }

  method CollectComponents<T(==,!new)>(refs: seq<T>, forest: Forest<T>)
    returns (roots: seq<T>, components: map<T, seq<T>>)
    requires forest.Valid() && Distinct(refs) && forall r :: r in refs ==> r in forest.rep
    modifies forest
    ensures forest.rep == old(forest.rep) && Collected(refs, forest.rep, roots, components)
  {
    roots, components := [], map[];
    for k := 0 to |refs|
      invariant forest.Valid() && forest.rep == old(forest.rep)
      invariant Collected(refs[..k], forest.rep, roots, components)
    {
      var ref := refs[k];
      var root := forest.Find(ref);
      ghost var before, roots0 := components, roots;
      if root in components {
        components := components[root := components[root] + [ref]];
      } else {
        roots, components := roots + [root], components[root := [ref]];
      }
      CollectOne(refs[..k], forest.rep, roots0, before, ref, roots, components);
      assert refs[..k + 1] == refs[..k] + [ref];
    }
    assert refs[..|refs|] == refs;
  }
}
