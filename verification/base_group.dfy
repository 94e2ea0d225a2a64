/**
 * BaseGroup: the frame graph without payloads. A BaseGroupChild record
 * holds nothing but a frame name (the factory makes a record from a
 * name), so m_childs is modelled as frame name to the names of its
 * records, in list order. findPath is the same breadth-first search as
 * TransFormsGroup's; addChild stores a link, and its back link unless the
 * child lists itself: its duplicate check on the child's side compares
 * the child's records with child instead of parent.
 */
module Groups {
  import opened Graph
  import opened PathSearch
  import Matrices
  import Transforms

  /** m_childs: frame name to the names of its records. */
  type ChildMap = Links

  /** Every frame lists each neighbour at most once. */
  ghost predicate NoDuplicates(m: ChildMap)
  {
    forall k :: k in m ==> Distinct(m[k])
  }

  /** Only frames with empty lists were added: every frame keeps its list. */
  ghost predicate OnlyEmptyAdded(m0: ChildMap, m1: ChildMap)
  {
    m0.Keys <= m1.Keys && forall k :: k in m1 ==> m1[k] == Neighbours(m0, k)
  }

  /**
   * m0 as the search from start leaves it: only empty records added, for
   * start and for names some frame of m0 lists.
   */
  ghost predicate GrownFrom(m0: ChildMap, m: ChildMap, start: string)
  {
    OnlyEmptyAdded(m0, m) && start in m && m.Keys <= m0.Keys + {start} + Listed(m0)
  }

  // ---------------------------------------------------------------------
  // addChild

  /** The parent's side of addChild: child is appended unless listed; a new parent gets [child]. */
  function ParentSide(m: ChildMap, parent: string, child: string): (r: ChildMap)
    ensures r.Keys == m.Keys + {parent}
    ensures child in r[parent]
  {
    if parent in m then
      if child in m[parent] then m else m[parent := m[parent] + [child]]
    else m[parent := [child]]
  }

  /**
   * The map after addChild(parent, child) as written. Which frames exist
   * is decided before either side is written. On the child's side a
   * record naming parent is appended unless the child's list already
   * holds a record named child.
   */
  function Added(m: ChildMap, parent: string, child: string): (r: ChildMap)
    ensures r.Keys == m.Keys + {parent, child}
    ensures child in r[parent] && (parent in r[child] || child in r[child])
  {
    var m1 := ParentSide(m, parent, child);
    if child in m then
      if child in m1[child] then m1 else m1[child := m1[child] + [parent]]
    else m1[child := [parent]]
  }

  /** addChild with the child's side checking for a record named parent, as its parent's side does. */
  function AddedIntended(m: ChildMap, parent: string, child: string): (r: ChildMap)
    ensures r.Keys == m.Keys + {parent, child}
    ensures child in r[parent] && parent in r[child]
  {
    var m1 := ParentSide(m, parent, child);
    if child in m then
      if parent in m1[child] then m1 else m1[child := m1[child] + [parent]]
    else m1[child := [parent]]
  }

  /**
   * The parent's side of addChild: parent becomes a frame; its list is
   * unchanged when it already names child, and otherwise gains one record
   * named child at the end (a new parent gets the list [child]).
   */
  lemma AddChildParentSide(m: ChildMap, parent: string, child: string)
    ensures var r := Added(m, parent, child);
      && parent in r
      && (child in Neighbours(m, parent) ==> r[parent] == m[parent])
      && (child !in Neighbours(m, parent) ==> r[parent] == Neighbours(m, parent) + [child])
  {
  }

  /**
   * The child's side of addChild as written, for two distinct frames: a
   * new child gets [parent]; an existing child gains a record named
   * parent at the end unless it lists itself, whether or not it already
   * names parent.
   */
  lemma AddChildChildSide(m: ChildMap, parent: string, child: string)
    requires parent != child
    ensures var r := Added(m, parent, child);
      && child in r
      && (child !in m ==> r[child] == [parent])
      && (child in m && child in m[child] ==> r[child] == m[child])
      && (child in m && child !in m[child] ==> r[child] == m[child] + [parent])
  {
  }

  /** addChild adds the frames parent and child and touches no other frame. */
  lemma AddChildKeepsOthers(m: ChildMap, parent: string, child: string)
    ensures var r := Added(m, parent, child);
      && r.Keys == m.Keys + {parent, child}
      && forall x :: x in m && x != parent && x != child ==> r[x] == m[x]
  {
  }

  /**
   * The child's-side check as written: when child does not list itself,
   * calling addChild(parent, child) a second time appends a second record
   * naming parent to child's list, so the lists are no longer free of
   * duplicates.
   */
  lemma AddChildRepeatsBackRecord(m: ChildMap, parent: string, child: string)
    requires parent != child && child !in Neighbours(m, child)
    ensures var r1 := Added(m, parent, child);
      var r2 := Added(r1, parent, child);
      && parent in r1[child]
      && r2[parent] == r1[parent]
      && r2[child] == r1[child] + [parent]
      && !NoDuplicates(r2)
  {
    var r1 := Added(m, parent, child);
    var r2 := Added(r1, parent, child);
    AddChildChildSide(m, parent, child);
    AddChildParentSide(r1, parent, child);
    AddChildChildSide(r1, parent, child);
    var i :| 0 <= i < |r1[child]| && r1[child][i] == parent;
    assert r2[child][i] == r2[child][|r1[child]|];
  }

  /**
   * The child's-side check as written: when child lists itself but not
   * parent, addChild(parent, child) stores parent -> child without the
   * link back, so the links are no longer stored both ways.
   */
  lemma SelfRecordSuppressesBackRecord(m: ChildMap, parent: string, child: string)
    requires parent != child && child in m && child in m[child] && parent !in m[child]
    ensures var r := Added(m, parent, child);
      && child in Neighbours(r, parent)
      && parent !in Neighbours(r, child)
      && !Symmetric(r)
  {
    var r := Added(m, parent, child);
    AddChildParentSide(m, parent, child);
    AddChildChildSide(m, parent, child);
    assert child in Neighbours(r, parent);
  }

  /**
   * The links addChild as written stores: every old link stays, the only
   * new ones are parent -> child and child -> parent, parent lists child,
   * and child lists parent unless it lists itself.
   */
  lemma AddChildLinks(m: ChildMap, parent: string, child: string)
    ensures var r := Added(m, parent, child);
      && r.Keys == m.Keys + {parent, child}
      && (forall x, y :: y in Neighbours(m, x) ==> y in Neighbours(r, x))
      && (forall x, y :: y in Neighbours(r, x) && y !in Neighbours(m, x) ==>
            (x == parent && y == child) || (x == child && y == parent))
      && child in Neighbours(r, parent)
      && (parent in Neighbours(r, child) || child in Neighbours(r, child))
  {
    var r := Added(m, parent, child);
    AddChildParentSide(m, parent, child);
    if parent != child {
      AddChildChildSide(m, parent, child);
    }
    forall x, y | y in Neighbours(m, x)
      ensures y in Neighbours(r, x)
    {
      if x != parent && x != child {
        AddChildKeepsOthers(m, parent, child);
      }
    }
    forall x, y | y in Neighbours(r, x) && y !in Neighbours(m, x)
      ensures (x == parent && y == child) || (x == child && y == parent)
    {
      if x != parent && x != child {
        AddChildKeepsOthers(m, parent, child);
        assert false;
      }
    }
  }

  /**
   * addChild as written keeps every link answered: the link it adds to
   * child is answered by child's record for parent or by child's record
   * for itself, and the link back is answered by parent's record for child.
   */
  lemma AddChildKeepsAnswered(m: ChildMap, parent: string, child: string)
    requires Answered(m)
    ensures Answered(Added(m, parent, child))
  {
    var r := Added(m, parent, child);
    AddChildLinks(m, parent, child);
    forall a, b | b in Neighbours(r, a)
      ensures a in Neighbours(r, b) || b in Neighbours(r, b)
    {
      if b in Neighbours(m, a) {
        assert a in Neighbours(m, b) || b in Neighbours(m, b);
      }
    }
  }

  /** addChild makes both its frames keys, so every listed neighbour stays a frame. */
  lemma AddChildKeepsClosed(m: ChildMap, parent: string, child: string)
    requires Closed(m)
    ensures Closed(Added(m, parent, child))
  {
    var r := Added(m, parent, child);
    AddChildLinks(m, parent, child);
    forall a, b | a in r && b in r[a]
      ensures b in r
    {
      assert b in Neighbours(r, a);
      if b in Neighbours(m, a) {
        assert a in m && b in m[a];
      }
    }
  }

  /** The smallest instance: two calls on an empty group leave child listing parent twice. */
  lemma AddChildTwiceFromEmpty()
    ensures Added(Added(map[], "P", "C"), "P", "C") == map["P" := ["C"], "C" := ["P", "P"]]
  {
    assert "P" != "C" by {
      assert "P"[0] != "C"[0];
    }
    var r1 := Added(map[], "P", "C");
    assert r1 == map["P" := ["C"], "C" := ["P"]];
    assert "C" in r1["P"] && "C" !in r1["C"];
    assert ParentSide(r1, "P", "C") == r1;
    assert Added(r1, "P", "C") == r1["C" := ["P"] + ["P"]];
    assert ["P"] + ["P"] == ["P", "P"];
    assert r1["C" := ["P", "P"]] == map["P" := ["C"], "C" := ["P", "P"]];
  }

  /**
   * With the intended check, addChild adds exactly the links
   * parent -> child and child -> parent, and the frames parent and child.
   */
  lemma IntendedLinks(m: ChildMap, parent: string, child: string)
    ensures var r := AddedIntended(m, parent, child);
      && r.Keys == m.Keys + {parent, child}
      && forall x, y :: y in Neighbours(r, x) <==>
        y in Neighbours(m, x) || (x == parent && y == child) || (x == child && y == parent)
  {
    var r := AddedIntended(m, parent, child);
    forall x, y
      ensures y in Neighbours(r, x) <==>
        y in Neighbours(m, x) || (x == parent && y == child) || (x == child && y == parent)
    {
      if x == child {
        assert parent in Neighbours(r, x);
      }
      if x == parent {
        assert child in Neighbours(r, x);
      }
    }
  }

  /** With the intended check, addChild keeps every link stored both ways. */
  lemma IntendedKeepsSymmetric(m: ChildMap, parent: string, child: string)
    requires Symmetric(m)
    ensures Symmetric(AddedIntended(m, parent, child))
  {
    var r := AddedIntended(m, parent, child);
    IntendedLinks(m, parent, child);
    forall a, b | b in Neighbours(r, a)
      ensures a in Neighbours(r, b)
    {
      if !((a == parent && b == child) || (a == child && b == parent)) {
        assert b in Neighbours(m, a);
      }
    }
  }

  lemma DistinctAppend(s: seq<string>, x: string)
    requires Distinct(s) && x !in s
    ensures Distinct(s + [x])
  {
    var t := s + [x];
    forall i, j | 0 <= i < j < |t|
      ensures t[i] != t[j]
    {
      assert t[i] == s[i];
    }
  }

  /** With the intended check, addChild never creates a second record for the same neighbour. */
  lemma IntendedKeepsNoDuplicates(m: ChildMap, parent: string, child: string)
    requires NoDuplicates(m)
    ensures NoDuplicates(AddedIntended(m, parent, child))
  {
    var m1 := ParentSide(m, parent, child);
    if parent in m && child !in m[parent] {
      DistinctAppend(m[parent], child);
    }
    assert NoDuplicates(m1);
    if child in m && parent !in m1[child] {
      DistinctAppend(m1[child], parent);
    }
  }

  /** With the intended check, a repeated addChild changes nothing. */
  lemma IntendedIdempotent(m: ChildMap, parent: string, child: string)
    ensures AddedIntended(AddedIntended(m, parent, child), parent, child) == AddedIntended(m, parent, child)
  {
    var r := AddedIntended(m, parent, child);
    IntendedLinks(m, parent, child);
    assert child in r[parent] && parent in r[child];
  }

  /** A name list after storing x: unchanged when x is listed, otherwise x appended. */
  function Appended(s: seq<string>, x: string): seq<string>
  {
    if x in s then s else s + [x]
  }

  /** The corrected addChild appends child on parent's side, then parent on child's side of the result. */
  lemma IntendedAsAppends(m: ChildMap, parent: string, child: string)
    ensures var m1 := m[parent := Appended(Neighbours(m, parent), child)];
      AddedIntended(m, parent, child) == m1[child := Appended(Neighbours(m1, child), parent)]
  {
    var m1 := m[parent := Appended(Neighbours(m, parent), child)];
    if parent in m && child in m[parent] {
      assert m1 == m;
    }
    if parent !in m {
      assert Appended(Neighbours(m, parent), child) == [child];
    }
    assert ParentSide(m, parent, child) == m1;
    if child !in m {
      assert Appended(Neighbours(m1, child), parent) == [parent];
    }
  }

  /** The names after an upsert are the old names with the stored name appended if absent. */
  lemma UpsertNamesAppend(kids: seq<Transforms.Child>, name: string, t: Matrices.Matrix4)
    ensures Transforms.NamesOf(Transforms.Upsert(kids, name, t)) == Appended(Transforms.NamesOf(kids), name)
  {
    var r := Transforms.Upsert(kids, name, t);
    if name !in Transforms.NamesOf(kids) {
      assert Transforms.NamesOf(r) == Transforms.NamesOf(kids) + [name];
    }
  }

  /** Seen through names, storing a record list for frame k stores its names. */
  lemma NameGraphUpdate(m: Transforms.FrameMap, k: string, kids: seq<Transforms.Child>)
    ensures Transforms.NameGraph(m[k := kids]) == Transforms.NameGraph(m)[k := Transforms.NamesOf(kids)]
  {
  }

  /**
   * The intended addChild is TransFormsGroup's pushTransForm without the
   * payload: on names, pushTransForm(parent, child, matrix) makes exactly
   * the change the corrected addChild(parent, child) makes.
   */
  lemma IntendedIsPushedNames(m: Transforms.FrameMap, parent: string, child: string, matrix: Matrices.Matrix4)
    ensures Transforms.NameGraph(Transforms.Pushed(m, parent, child, matrix))
      == AddedIntended(Transforms.NameGraph(m), parent, child)
  {
    var g := Transforms.NameGraph(m);
    Transforms.PushedAsUpserts(m, parent, child, matrix);
    var u1 := Transforms.Upsert(Transforms.Entries(m, parent), child, matrix);
    var m1 := m[parent := u1];
    var u2 := Transforms.Upsert(Transforms.Entries(m1, child), parent, Matrices.Inverse(matrix));
    UpsertNamesAppend(Transforms.Entries(m, parent), child, matrix);
    UpsertNamesAppend(Transforms.Entries(m1, child), parent, Matrices.Inverse(matrix));
    Transforms.NeighboursAreNames(m, parent);
    Transforms.NeighboursAreNames(m1, child);
    NameGraphUpdate(m, parent, u1);
    NameGraphUpdate(m1, child, u2);
    IntendedAsAppends(g, parent, child);
  }

  /**
   * The empty lists findPath inserts change no frame's neighbours, so they
   * keep the links answered and every neighbour a frame.
   */
  lemma EmptyAddedKeepsLinks(m0: ChildMap, m: ChildMap)
    requires OnlyEmptyAdded(m0, m)
    ensures forall x :: Neighbours(m, x) == Neighbours(m0, x)
    ensures Answered(m0) ==> Answered(m)
    ensures Closed(m0) ==> Closed(m)
  {
    forall x
      ensures Neighbours(m, x) == Neighbours(m0, x)
    {
    }
    if Closed(m0) {
      forall a, b | a in m && b in m[a]
        ensures b in m
      {
        assert b in Neighbours(m0, a);
        assert a in m0 && b in m0[a];
      }
    }
  }

  // ---------------------------------------------------------------------
  // The group object

  class BaseGroup {
    /** m_childs: frame name to the names of its records. */
    var childs: ChildMap

    /**
     * What every group keeps: each link is answered (its target lists it
     * back or lists itself) and each listed neighbour is a frame.
     */
    ghost predicate Valid()
      reads this
    {
      Answered(childs) && Closed(childs)
    }

    constructor ()
      ensures Valid() && childs == map[]
    {
      childs := map[];
    }

    /** The scan of addChild's loops: whether some record of kids is named name. */
    static method Lists(kids: seq<string>, name: string) returns (found: bool)
      ensures found <==> name in kids
    {
      found := false;
      var i := 0;
      while i < |kids|
        invariant 0 <= i <= |kids|
        invariant found <==> name in kids[..i]
      {
        assert kids[..i + 1] == kids[..i] + [kids[i]];
        if kids[i] == name {
          found := true;
        }
        i := i + 1;
      }
      assert kids[..|kids|] == kids;
    }

    /**
     * addChild(parent, child): appends a record named child to parent's
     * list unless one is there, then a record named parent to child's list
     * unless child's list holds a record named child; always returns true.
     */
    method AddChild(parent: string, child: string) returns (ok: bool)
      requires Valid()
      modifies this
      ensures Valid()
      ensures ok
      ensures childs == Added(old(childs), parent, child)
    {
      AddChildKeepsAnswered(childs, parent, child);
      AddChildKeepsClosed(childs, parent, child);
      var hasParentNode := parent in childs;
      var hasChildNode := child in childs;
      if hasParentNode {
        var hasChild := Lists(childs[parent], child);
        if !hasChild {
          childs := childs[parent := childs[parent] + [child]];
        }
      } else {
        childs := childs[parent := [child]];
      }
      if hasChildNode {
        var hasChild := Lists(childs[child], child);
        if !hasChild {
          childs := childs[child := childs[child] + [parent]];
        }
      } else {
        childs := childs[child := [parent]];
      }
      ok := true;
    }

    /** The first loop of findPath: one record [start, c] for every record c of start, in list order. */
    static method Seed(start: string, kids: seq<string>) returns (que: seq<Path>)
      ensures que == Seeds(start, kids)
    {
      que := [];
      var i := 0;
      while i < |kids|
        invariant 0 <= i <= |kids|
        invariant que == Seeds(start, kids[..i])
      {
        que := que + [Path(kids[i], [start, kids[i]])];
        i := i + 1;
      }
      assert kids[..|kids|] == kids;
    }

    /**
     * The inner loop of findPath: one record path + [c] for every record c
     * in cs whose name is not in researched, in list order.
     */
    static method Expand(path: Path, cs: seq<string>, researched: seq<string>) returns (ext: seq<Path>)
      ensures ext == Extensions(path, cs, researched)
    {
      ext := [];
      var j := 0;
      while j < |cs|
        invariant 0 <= j <= |cs|
        invariant ext == Extensions(path, cs[..j], researched)
      {
        ExtensionsPrefix(path, cs, j, researched);
        if cs[j] !in researched {
          ext := ext + [Path(cs[j], path.path + [cs[j]])];
        }
        j := j + 1;
      }
      assert cs[..|cs|] == cs;
    }

    /**
     * findPath(start, end): the same search as TransFormsGroup's. Looking
     * a frame up inserts an empty list for an unknown frame, as
     * std::map::operator[] does.
     */
    method FindPath(start: string, end: string) returns (r: seq<string>)
      requires Valid() && Terminates(childs, start, end)
      modifies this
      ensures Valid()
      ensures r == SearchPath(old(childs), start, end)
      ensures OnlyEmptyAdded(old(childs), childs)
      ensures childs.Keys <= old(childs).Keys + {start}
      ensures start == end ==> childs == old(childs)
      ensures start != end ==> start in childs
    {
      r, childs := Search(childs, start, end);
      EmptyAddedKeepsLinks(old(childs), childs);
      ClosedListed(old(childs));
    }

    /** The body of findPath on a value m0 of the map; m is the map afterwards. */
    static method Search(m0: ChildMap, start: string, end: string) returns (r: seq<string>, m: ChildMap)
      requires Terminates(m0, start, end)
      ensures r == SearchPath(m0, start, end)
      ensures OnlyEmptyAdded(m0, m)
      ensures m.Keys <= m0.Keys + {start} + Listed(m0)
      ensures start == end ==> m == m0
      ensures start != end ==> start in m
    {
      m := m0;
      var researched := [start];
      if start == end {
        return researched, m;
      }
      if start !in m {
        m := m[start := []];
      }
      assert m[start] == Neighbours(m0, start);
      var que := Seed(start, m[start]);
      r, m := Drain(m0, m, start, end, que, researched);
    }

    /**
     * The while loop of findPath, from the seeded queue: turns until a
     * record reaches end, or the queue empties and researched is returned.
     */
    static method Drain(ghost m0: ChildMap, m1: ChildMap, start: string, end: string, que0: seq<Path>, researched: seq<string>)
      returns (r: seq<string>, m: ChildMap)
      requires start != end && Terminates(m0, start, end) && researched == [start]
      requires que0 == Seeds(start, Neighbours(m0, start))
      requires GrownFrom(m0, m1, start)
      ensures r == SearchPath(m0, start, end)
      ensures GrownFrom(m0, m, start)
    {
      ghost var g := m0;
      m := m1;
      var que := que0;
      ghost var total := MidwayAtSeeds(g, start, end);
      ghost var steps: nat := 0;
      while que != []
        invariant Midway(g, start, end, steps, total, que)
        invariant GrownFrom(m0, m, start)
        decreases total - steps
      {
        var found, path;
        found, path, m, que := Turn(m0, m, start, end, que, researched, steps, total);
        if found {
          return path, m;
        }
        steps := steps + 1;
      }
      RunDrained(g, start, end, steps, total);
      return researched, m;
    }

    /**
     * One turn of findPath's loop: take the front record; a frame other
     * than start that is end stops the search with the record's path,
     * any other such frame is looked up and its extensions are queued.
     */
    static method Turn(ghost m0: ChildMap, m: ChildMap, start: string, end: string, que: seq<Path>, researched: seq<string>,
                       ghost n: nat, ghost total: nat)
      returns (found: bool, path: seq<string>, m': ChildMap, que': seq<Path>)
      requires que != [] && researched == [start] && GrownFrom(m0, m, start)
      requires Midway(m0, start, end, n, total, que)
      ensures found ==> path == SearchPath(m0, start, end)
      ensures !found ==> Midway(m0, start, end, n + 1, total, que')
      ensures GrownFrom(m0, m', start)
    {
      RunTurn(m0, start, end, n, total, que);
      FrontListed(m0, start, end, n, que);
      m' := m;
      var front := que[0];
      que' := que[1..];
      found := false;
      path := [];
      if front.name !in researched {
        if front.name == end {
          return true, front.path, m', que';
        }
        if front.name !in m' {
          m' := m'[front.name := []];
        }
        assert m'[front.name] == Neighbours(m0, front.name);
        var ext := Expand(front, m'[front.name], researched);
        que' := que' + ext;
      }
    }
  }
}
