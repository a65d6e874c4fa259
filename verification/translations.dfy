// Translation trees: dotted lookup, and the in-place merge of runtime overrides.
module Translations {
  import opened Text

  // A translation tree as a value. A leaf is anything that is not a plain object.
  datatype Tree = Leaf(value: string) | Node(kids: map<string, Tree>)

  // --- The merge law ----------------------------------------------------------------

  function Merged(t: Tree, s: Tree): Tree
    decreases s
  {
    match s
    case Leaf(_) => s
    case Node(overrides) =>
      var kids := Kids(t);
      Node(map k | k in kids.Keys + overrides.Keys ::
        if k !in overrides then kids[k]
        else Merged(if k in kids then kids[k] else Node(map[]), overrides[k]))
  }

  function Kids(t: Tree): map<string, Tree> {
    if t.Node? then t.kids else map[]
  }

  // _resolve: None is undefined.
  function Lookup(t: Tree, path: seq<string>): Option<Tree> {
    if path == [] then Some(t)
    else if t.Leaf? || path[0] !in t.kids then None
    else Lookup(t.kids[path[0]], path[1..])
  }

  // --- Heap objects -------------------------------------------------------------------

  datatype Value = Prim(text: string) | Ref(obj: Obj)

  class Obj {
    var entries: map<string, Value>
    ghost var Repr: set<Obj>

    constructor ()
      ensures entries == map[] && Repr == {this}
    {
      entries := map[];
      Repr := {this};
    }

    // A tree: no object is reached twice.
    ghost predicate Valid()
      reads this, Repr
      ensures Valid() ==> this in Repr
      decreases Repr
    {
      && this in Repr
      && (forall k :: k in entries && entries[k].Ref? ==>
            && entries[k].obj in Repr
            && entries[k].obj.Repr <= Repr - {this}
            && entries[k].obj.Valid())
      && (forall k, l :: k in entries && l in entries && k != l && entries[k].Ref? && entries[l].Ref? ==>
            entries[k].obj.Repr !! entries[l].obj.Repr)
    }

    ghost function Tree(): (t: Tree)
      requires Valid()
      reads this, Repr
      ensures t.Node?
      decreases Repr
    {
      Node(map k | k in entries :: TreeOf(k))
    }

    ghost function TreeOf(k: string): Tree
      requires Valid() && k in entries
      reads this, Repr
      decreases Repr, 0
    {
      match entries[k]
      case Prim(text) => Leaf(text)
      case Ref(obj) => obj.Tree()
    }
  }

  // What one entry of an object contributes to its tree.
  lemma EntryTree(o: Obj)
    requires o.Valid()
    ensures o.Tree().kids.Keys == o.entries.Keys
    ensures forall k :: k in o.entries ==>
      match o.entries[k]
      case Prim(text) => o.Tree().kids[k] == Leaf(text)
      case Ref(child) => child.Valid() && child.Repr < o.Repr && o.Tree().kids[k] == child.Tree() && child.Tree().Node?
  {
  }

  lemma EntryAt(o: Obj, k: string)
    requires o.Valid()
    ensures o.Tree() == Node(o.Tree().kids)
    ensures k in o.Tree().kids <==> k in o.entries
    ensures k in o.entries ==>
      match o.entries[k]
      case Prim(text) => o.Tree().kids[k] == Leaf(text)
      case Ref(child) => child.Valid() && o.Tree().kids[k] == child.Tree() && child.Tree().Node?
  {
    hide Obj.Valid, Obj.Tree;
    EntryTree(o);
  }

  // Different entries share no object.
  lemma EntriesApart(o: Obj)
    requires o.Valid()
    ensures forall k :: k in o.entries && o.entries[k].Ref? ==>
      o.entries[k].obj in o.Repr && o.entries[k].obj.Repr <= o.Repr - {o}
    ensures forall k, l :: k in o.entries && l in o.entries && k != l && o.entries[k].Ref? && o.entries[l].Ref? ==>
      o.entries[k].obj.Repr !! o.entries[l].obj.Repr
  {
  }

  // --- _deepMerge ------------------------------------------------------------------------

  // target[k] = text. The object that may have stood there is dropped.
  method SetLeaf(target: Obj, k: string, text: string)
    requires target.Valid()
    modifies target`entries
    ensures target.Valid() && target.Repr == old(target.Repr)
    ensures target.Tree() == Node(old(target.Tree()).kids[k := Leaf(text)])
  {
    target.entries := target.entries[k := Prim(text)];
    assert target.Tree().kids == old(target.Tree()).kids[k := Leaf(text)];
  }

  // The object at target[k], a new empty one if there is none.
  method ChildAt(target: Obj, k: string) returns (child: Obj)
    requires target.Valid()
    modifies target`entries, target`Repr
    ensures target.Valid() && old(target.Repr) <= target.Repr && fresh(target.Repr - old(target.Repr))
    ensures k in target.entries && target.entries[k] == Ref(child)
    ensures
      var kids := old(target.Tree()).kids;
      && child.Tree() == Node(if k in kids then Kids(kids[k]) else map[])
      && target.Tree() == Node(kids[k := child.Tree()])
  {
    hide Kids, Obj.Valid, Obj.Tree;
    ghost var before := target.Tree().kids;
    EntryAt(target, k);
    if k in target.entries && target.entries[k].Ref? {
      child := target.entries[k].obj;
      ObjectKids(before[k]);
      assert before[k := child.Tree()] == before;
    } else {
      child := NewChild(target, k);
      if k in before {
        LeafKids(before[k]);
      }
    }
  }

  // target[k] = {}
  method NewChild(target: Obj, k: string) returns (child: Obj)
    requires target.Valid()
    modifies target`entries, target`Repr
    ensures target.Valid() && old(target.Repr) <= target.Repr && fresh(target.Repr - old(target.Repr))
    ensures k in target.entries && target.entries[k] == Ref(child)
    ensures child.Tree() == Node(map[]) && target.Tree() == Node(old(target.Tree()).kids[k := Node(map[])])
  {
    hide Obj.Valid, Obj.Tree;
    ghost var before := target.Tree().kids;
    EntryTree(target);
    EntriesApart(target);
    child := new Obj();
    EmptyTree(child);
    target.entries := target.entries[k := Ref(child)];
    target.Repr := target.Repr + {child};
    ParentRestored(target, k, child, before[k := child.Tree()]);
  }

  lemma EmptyTree(o: Obj)
    requires o.entries == map[] && o.Repr == {o}
    ensures o.Valid() && o.Tree() == Node(map[])
  {
  }

  lemma ObjectKids(t: Tree)
    requires t.Node?
    ensures Node(Kids(t)) == t
  {
  }

  lemma LeafKids(t: Tree)
    requires t.Leaf?
    ensures Kids(t) == map[]
  {
  }

  // What a merge restricted to some of the override's keys gives.
  ghost function PartMerged(t: map<string, Tree>, s: map<string, Tree>, done: set<string>): map<string, Tree>
    requires done <= s.Keys
  {
    map k | k in t.Keys + done ::
      if k !in done then t[k] else Merged(if k in t then t[k] else Node(map[]), s[k])
  }

  // The merge of one key whose override is an object. Only the child's objects
  // and new ones change, so the siblings keep their trees.
  method MergeChild(target: Obj, k: string, child: Obj, source: Obj)
    requires target.Valid() && source.Valid() && target.Repr !! source.Repr
    requires k in target.entries && target.entries[k] == Ref(child)
    modifies target.Repr
    ensures target.Valid() && fresh(target.Repr - old(target.Repr))
    ensures target.Tree() == Node(old(target.Tree()).kids[k := Merged(old(child.Tree()), old(source.Tree()))])
    decreases source.Repr, 2
  {
    hide Merged, Kids, Obj.Valid, Obj.Tree;
    ghost var before := target.Tree().kids;
    EntryTree(target);
    EntriesApart(target);
    DeepMerge(child, source);
    target.Repr := target.Repr + child.Repr;
    assert forall l :: l in target.entries && l != k && target.entries[l].Ref? ==>
      target.entries[l].obj.Valid() && target.entries[l].obj.Tree() == before[l];
    ParentRestored(target, k, child, before);
  }

  // A parent whose children are trees of their own, the one at k being `child`.
  lemma ParentRestored(target: Obj, k: string, child: Obj, before: map<string, Tree>)
    requires target in target.Repr && k in target.entries && target.entries[k] == Ref(child)
    requires child.Valid() && child.Repr <= target.Repr - {target}
    requires before.Keys == target.entries.Keys
    requires forall l :: l in target.entries && l != k && target.entries[l].Ref? ==>
      var o := target.entries[l].obj;
      o in target.Repr && o.Repr <= target.Repr - {target} && o.Repr !! child.Repr && o.Valid() && o.Tree() == before[l]
    requires forall l :: l in target.entries && l != k && target.entries[l].Prim? ==>
      before[l] == Leaf(target.entries[l].text)
    requires forall l, m ::
      (l in target.entries && m in target.entries && l != m && l != k && m != k
        && target.entries[l].Ref? && target.entries[m].Ref?) ==>
      target.entries[l].obj.Repr !! target.entries[m].obj.Repr
    ensures target.Valid() && target.Tree() == Node(before[k := child.Tree()])
  {
    assert target.Valid();
    assert target.Tree().kids == before[k := child.Tree()];
  }

  // One entry of the override, as the loop body handles it.
  method MergeKey(target: Obj, source: Obj, k: string)
    requires target.Valid() && source.Valid() && target.Repr !! source.Repr
    requires k in source.entries
    modifies target.Repr
    ensures target.Valid() && fresh(target.Repr - old(target.Repr))
    ensures
      var kids := old(target.Tree()).kids;
      target.Tree() ==
        Node(kids[k := Merged(if k in kids then kids[k] else Node(map[]), old(source.Tree()).kids[k])])
    decreases source.Repr, 0
  {
    hide Merged, Kids, Obj.Valid, Obj.Tree;
    ghost var kids := target.Tree().kids;
    EntryTree(source);
    match source.entries[k] {
      case Prim(text) =>
        SetLeaf(target, k, text);
        LeafMerged(if k in kids then kids[k] else Node(map[]), text);
      case Ref(v) => MergeObject(target, k, v);
    }
  }

  // An override that is an object: find or make the object to merge into.
  method MergeObject(target: Obj, k: string, source: Obj)
    requires target.Valid() && source.Valid() && target.Repr !! source.Repr
    modifies target.Repr
    ensures target.Valid() && fresh(target.Repr - old(target.Repr))
    ensures
      var kids := old(target.Tree()).kids;
      target.Tree() == Node(kids[k := Merged(if k in kids then kids[k] else Node(map[]), old(source.Tree()))])
    decreases source.Repr, 3
  {
    hide Merged, Kids, Obj.Valid, Obj.Tree;
    ghost var kids := target.Tree().kids;
    var child := ChildAt(target, k);
    MergeChild(target, k, child, source);
    ObjectMerged(if k in kids then kids[k] else Node(map[]), old(source.Tree()));
  }

  lemma LeafMerged(t: Tree, text: string)
    ensures Merged(t, Leaf(text)) == Leaf(text)
  {
  }

  // Merging an object into anything is merging it into that thing's object part.
  lemma ObjectMerged(t: Tree, s: Tree)
    requires s.Node?
    ensures Merged(Node(Kids(t)), s) == Merged(t, s)
  {
  }

  // The override tree is neither modified nor shared by the result.
  method DeepMerge(target: Obj, source: Obj)
    requires target.Valid() && source.Valid() && target.Repr !! source.Repr
    modifies target.Repr
    ensures target.Valid() && fresh(target.Repr - old(target.Repr))
    ensures target.Tree() == Merged(old(target.Tree()), old(source.Tree()))
    ensures source.Valid() && source.Tree() == old(source.Tree())
    ensures target.Repr !! source.Repr
    decreases source.Repr, 1
  {
    hide Merged, PartMerged, Obj.Valid, Obj.Tree;
    TreeKeys(source);
    ghost var t, s := target.Tree().kids, source.Tree().kids;
    var keys := source.entries.Keys;
    PartMergedEnds(t, s);
    assert s.Keys - keys == {};
    while keys != {}
      invariant keys <= source.entries.Keys == s.Keys
      invariant unchanged(source.Repr) && source.Valid() && source.Tree().kids == s
      invariant target.Valid() && fresh(target.Repr - old(target.Repr)) && target.Repr !! source.Repr
      invariant target.Tree().kids == PartMerged(t, s, s.Keys - keys)
      decreases |keys|
    {
      var k :| k in keys;
      ghost var done := s.Keys - keys;
      MergeKey(target, source, k);
      keys := keys - {k};
      PartMergedNext(t, s, done, k);
      assert s.Keys - keys == done + {k};
    }
    assert s.Keys - keys == s.Keys;
  }

  lemma TreeKeys(o: Obj)
    requires o.Valid()
    ensures o.Tree().kids.Keys == o.entries.Keys
  {
    hide Obj.Valid, Obj.Tree;
    EntryTree(o);
  }

  lemma PartMergedEnds(t: map<string, Tree>, s: map<string, Tree>)
    ensures PartMerged(t, s, {}) == t
    ensures Node(PartMerged(t, s, s.Keys)) == Merged(Node(t), Node(s))
  {
  }

  lemma PartMergedNext(t: map<string, Tree>, s: map<string, Tree>, done: set<string>, k: string)
    requires done <= s.Keys && k in s && k !in done
    ensures
      var part := PartMerged(t, s, done);
      PartMerged(t, s, done + {k}) == part[k := Merged(if k in part then part[k] else Node(map[]), s[k])]
  {
  }

  // --- What a merge means for lookups -------------------------------------------------------

  function Resolve(t: Tree, key: string): Option<Tree> {
    Lookup(t, Split(key, '.'))
  }

  // The nodes on the way along a path.
  predicate Walk(nodes: seq<Tree>, path: seq<string>) {
    && |nodes| == |path| + 1
    && forall i :: 0 <= i < |path| ==>
         nodes[i].Node? && path[i] in nodes[i].kids && nodes[i + 1] == nodes[i].kids[path[i]]
  }

  // A lookup finds exactly what stands at the end of the path.
  lemma {:induction false} LookupExactly(t: Tree, path: seq<string>, found: Tree)
    ensures Lookup(t, path) == Some(found) <==>
      exists nodes: seq<Tree> :: Walk(nodes, path) && nodes[0] == t && nodes[|path|] == found
  {
    if Lookup(t, path) == Some(found) {
      var nodes := Walked(t, path);
    }
    if nodes: seq<Tree> :| Walk(nodes, path) && nodes[0] == t && nodes[|path|] == found {
      WalkFound(nodes, path);
    }
  }

  lemma {:induction false} Walked(t: Tree, path: seq<string>) returns (nodes: seq<Tree>)
    requires Lookup(t, path).Some?
    ensures Walk(nodes, path) && nodes[0] == t && nodes[|path|] == Lookup(t, path).value
    decreases |path|
  {
    if path == [] {
      nodes := [t];
    } else {
      var rest := Walked(t.kids[path[0]], path[1..]);
      nodes := [t] + rest;
      forall i | 0 <= i < |path|
        ensures nodes[i].Node? && path[i] in nodes[i].kids && nodes[i + 1] == nodes[i].kids[path[i]]
      {
        assert i > 0 ==> path[i] == path[1..][i - 1] && nodes[i] == rest[i - 1];
      }
    }
  }

  lemma {:induction false} WalkFound(nodes: seq<Tree>, path: seq<string>)
    requires Walk(nodes, path)
    ensures Lookup(nodes[0], path) == Some(nodes[|path|])
    decreases |path|
  {
    if path != [] {
      assert forall i :: 0 <= i < |path| - 1 ==> path[1..][i] == path[i + 1] && nodes[1..][i] == nodes[i + 1];
      WalkFound(nodes[1..], path[1..]);
    }
  }

  // A dotted key stands for the path of its parts.
  lemma ResolveExactly(t: Tree, path: seq<string>)
    requires path != [] && forall i :: 0 <= i < |path| ==> '.' !in path[i]
    ensures Resolve(t, Join(path, '.')) == Lookup(t, path)
  {
    hide Split, Join, Lookup;
    SplitJoin(path, '.');
  }

  // The path runs through a leaf of s before its end.
  predicate ThroughLeaf(s: Tree, path: seq<string>) {
    path != [] && (s.Leaf? || (path[0] in s.kids && ThroughLeaf(s.kids[path[0]], path[1..])))
  }

  // The override's leaf wins; below a leaf of the override there is nothing; where
  // the override has nothing the old value is untouched; two objects are merged.
  lemma {:induction false} MergedLookup(t: Tree, s: Tree, path: seq<string>)
    ensures
      var now := Lookup(Merged(t, s), path);
      match Lookup(s, path)
      case Some(Leaf(v)) => now == Some(Leaf(v))
      case Some(sub) =>
        now == Some(Merged(match Lookup(t, path) case Some(old') => old' case None => Node(map[]), sub))
      case None => now == if ThroughLeaf(s, path) then None else Lookup(t, path)
    decreases |path|
  {
    if path != [] && s.Node? && path[0] in s.kids {
      var k := path[0];
      var t' := if k in Kids(t) then Kids(t)[k] else Node(map[]);
      MergedLookup(t', s.kids[k], path[1..]);
    }
  }

  lemma MergedResolve(t: Tree, s: Tree, key: string)
    requires Resolve(s, key).None? || Resolve(s, key).value.Leaf?
    ensures Resolve(Merged(t, s), key) ==
      if Resolve(s, key).Some? then Resolve(s, key)
      else if ThroughLeaf(s, Split(key, '.')) then None
      else Resolve(t, key)
  {
    hide Split;
    MergedLookup(t, s, Split(key, '.'));
  }

  // Merging the same overrides twice is merging them once.
  lemma {:induction false} MergedTwice(t: Tree, s: Tree)
    ensures Merged(Merged(t, s), s) == Merged(t, s)
    decreases s
  {
    if s.Node? {
      var once := Merged(t, s).kids;
      var twice := Merged(Merged(t, s), s).kids;
      forall k | k in once ensures k in twice && twice[k] == once[k] {
        if k in s.kids {
          MergedTwice(if k in Kids(t) then Kids(t)[k] else Node(map[]), s.kids[k]);
        }
      }
      assert twice == once;
    }
  }
}
