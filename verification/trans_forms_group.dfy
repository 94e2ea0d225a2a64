/**
 * TransFormsGroup: named frames, each with an ordered list of neighbour
 * records {name, t}, where t is the transform from the owning frame to the
 * neighbour. pushTransForm stores an edge both ways, findPath searches
 * the graph breadth-first, getTransForm multiplies the stored transforms
 * along the path it finds.
 */
module Transforms {
  import opened Matrices
  import opened Graph
  import opened PathSearch

  /** A neighbour record: the neighbour's frame and the transform to it. */
  datatype Child = Child(name: string, t: Matrix4)

  /** The adjacency map tfg: frame name to its neighbour records. */
  type FrameMap = map<string, seq<Child>>

  function NamesOf(kids: seq<Child>): seq<string>
  {
    seq(|kids|, i requires 0 <= i < |kids| => kids[i].name)
  }

  /** What operator[] yields for frame x: its records, or none for an unknown frame. */
  function Entries(m: FrameMap, x: string): seq<Child>
  {
    if x in m then m[x] else []
  }

  /** The map seen through frame names only. */
  function NameGraph(m: FrameMap): Links
  {
    map k | k in m :: NamesOf(m[k])
  }

  /** Every frame lists each neighbour at most once. */
  ghost predicate NoDuplicates(m: FrameMap)
  {
    forall k :: k in m ==> Distinct(NamesOf(m[k]))
  }

  /** Frame b lists a with a transform inverse to t. */
  ghost predicate HasCompanion(m: FrameMap, a: string, b: string, t: Matrix4)
  {
    b in m && exists j :: 0 <= j < |m[b]| && m[b][j].name == a && InversePair(t, m[b][j].t)
  }

  /** Every record a -> b with a != b has a companion record b -> a holding the inverse transform. */
  ghost predicate Paired(m: FrameMap)
  {
    forall a, i :: a in m && 0 <= i < |m[a]| && m[a][i].name != a ==> HasCompanion(m, a, m[a][i].name, m[a][i].t)
  }

  /** Only frames with empty record lists were added: every frame keeps its records. */
  ghost predicate OnlyEmptyAdded(m0: FrameMap, m1: FrameMap)
  {
    m0.Keys <= m1.Keys && forall k :: k in m1 ==> m1[k] == Entries(m0, k)
  }

  /**
   * m0 as the search from start leaves it: only empty records added, for
   * start and for names some frame of m0 lists.
   */
  ghost predicate GrownFrom(m0: FrameMap, m: FrameMap, start: string)
  {
    OnlyEmptyAdded(m0, m) && start in m && m.Keys <= m0.Keys + {start} + Listed(NameGraph(m0))
  }

  // ---------------------------------------------------------------------
  // pushTransForm

  /**
   * A record list after storing (name, t): the transform of every record
   * named name is replaced in place, or, when there is none, a record is
   * appended at the end.
   */
  function Upsert(kids: seq<Child>, name: string, t: Matrix4): (r: seq<Child>)
    ensures Child(name, t) in r
    ensures forall j :: 0 <= j < |r| && r[j].name == name ==> r[j].t == t
    ensures forall j :: 0 <= j < |r| && r[j].name != name ==> j < |kids| && r[j] == kids[j]
    ensures name in NamesOf(kids) ==> NamesOf(r) == NamesOf(kids)
    ensures name !in NamesOf(kids) ==> r == kids + [Child(name, t)]
  {
    if name in NamesOf(kids) then
      var r := seq(|kids|, i requires 0 <= i < |kids| => if kids[i].name == name then kids[i].(t := t) else kids[i]);
      var i :| 0 <= i < |kids| && NamesOf(kids)[i] == name;
      assert r[i] == Child(name, t);
      r
    else
      assert forall j :: 0 <= j < |kids| ==> kids[j].name != name by {
        forall j | 0 <= j < |kids|
          ensures kids[j].name != name
        {
          assert NamesOf(kids)[j] == kids[j].name;
        }
      }
      kids + [Child(name, t)]
  }

  /**
   * The map after pushTransForm(parent, child, matrix). Which frames exist
   * is decided before either side is written; the parent side is written
   * first, then the child side on the updated map.
   */
  function Pushed(m: FrameMap, parent: string, child: string, matrix: Matrix4): (r: FrameMap)
    ensures r.Keys == m.Keys + {parent, child}
  {
    var m1 := if parent in m then m[parent := Upsert(m[parent], child, matrix)]
              else m[parent := [Child(child, matrix)]];
    if child in m then m1[child := Upsert(m1[child], parent, Inverse(matrix))]
    else m1[child := [Child(parent, Inverse(matrix))]]
  }

  lemma UpsertEmpty(name: string, t: Matrix4)
    ensures Upsert([], name, t) == [Child(name, t)]
  {
    assert NamesOf([]) == [];
  }

  /**
   * Whether or not either frame existed, pushTransForm upserts
   * (child, matrix) into the parent's records, then (parent, matrix^-1)
   * into the child's records of the map that results.
   */
  lemma PushedAsUpserts(m: FrameMap, parent: string, child: string, matrix: Matrix4)
    ensures var m1 := m[parent := Upsert(Entries(m, parent), child, matrix)];
      Pushed(m, parent, child, matrix) == m1[child := Upsert(Entries(m1, child), parent, Inverse(matrix))]
  {
    UpsertEmpty(child, matrix);
    UpsertEmpty(parent, Inverse(matrix));
    if parent == child && parent !in m {
      var u := Upsert([Child(child, matrix)], parent, Inverse(matrix));
      assert NamesOf([Child(child, matrix)]) == [child];
      assert NamesOf(u) == [child];
      assert u == [Child(parent, Inverse(matrix))];
    }
  }

  /**
   * For two distinct frames, pushTransForm upserts (child, matrix) into the
   * parent's records and (parent, matrix^-1) into the child's, whether or
   * not either frame existed, and leaves every other frame as it was.
   */
  lemma PushUpsertsBothSides(m: FrameMap, parent: string, child: string, matrix: Matrix4)
    requires parent != child
    ensures Pushed(m, parent, child, matrix)
      == m[parent := Upsert(Entries(m, parent), child, matrix)]
          [child := Upsert(Entries(m, child), parent, Inverse(matrix))]
  {
    PushedAsUpserts(m, parent, child, matrix);
  }

  /** Both directions are stored: parent lists child with matrix, child lists parent with its inverse. */
  lemma PushStoresBothDirections(m: FrameMap, parent: string, child: string, matrix: Matrix4)
    requires parent != child
    ensures var r := Pushed(m, parent, child, matrix);
      && parent in r && child in r
      && Child(child, matrix) in r[parent]
      && (forall i :: 0 <= i < |r[parent]| && r[parent][i].name == child ==> r[parent][i].t == matrix)
      && Child(parent, Inverse(matrix)) in r[child]
      && (forall i :: 0 <= i < |r[child]| && r[child][i].name == parent ==> r[child][i].t == Inverse(matrix))
  {
    PushUpsertsBothSides(m, parent, child, matrix);
  }

  /**
   * Update versus append, on the parent's side: an existing record for
   * child is overwritten in place (same length, same names in the same
   * order, other records untouched); otherwise one record is appended
   * after the unchanged old ones. The child's side is the same with parent
   * and the inverse.
   */
  lemma PushUpdatesOrAppends(m: FrameMap, parent: string, child: string, matrix: Matrix4)
    requires parent != child
    ensures var r := Pushed(m, parent, child, matrix);
      && (child in NamesOf(Entries(m, parent)) ==>
            NamesOf(r[parent]) == NamesOf(m[parent])
            && forall i :: 0 <= i < |m[parent]| && m[parent][i].name != child ==> r[parent][i] == m[parent][i])
      && (child !in NamesOf(Entries(m, parent)) ==> r[parent] == Entries(m, parent) + [Child(child, matrix)])
      && (parent in NamesOf(Entries(m, child)) ==>
            NamesOf(r[child]) == NamesOf(m[child])
            && forall i :: 0 <= i < |m[child]| && m[child][i].name != parent ==> r[child][i] == m[child][i])
      && (parent !in NamesOf(Entries(m, child)) ==> r[child] == Entries(m, child) + [Child(parent, Inverse(matrix))])
  {
    PushUpsertsBothSides(m, parent, child, matrix);
    var r := Pushed(m, parent, child, matrix);
    if child in NamesOf(Entries(m, parent)) {
      forall i | 0 <= i < |m[parent]| && m[parent][i].name != child
        ensures r[parent][i] == m[parent][i]
      {
        assert NamesOf(r[parent])[i] == NamesOf(m[parent])[i];
      }
    }
    if parent in NamesOf(Entries(m, child)) {
      forall i | 0 <= i < |m[child]| && m[child][i].name != parent
        ensures r[child][i] == m[child][i]
      {
        assert NamesOf(r[child])[i] == NamesOf(m[child])[i];
      }
    }
  }

  /**
   * A self edge ends up inverted: after pushTransForm(a, a, matrix) every
   * record of a naming a holds matrix^-1, because the child side is
   * written last.
   */
  lemma PushSelfEdgeInverted(m: FrameMap, a: string, matrix: Matrix4)
    ensures var r := Pushed(m, a, a, matrix);
      && a in r
      && Child(a, Inverse(matrix)) in r[a]
      && (forall i :: 0 <= i < |r[a]| && r[a][i].name == a ==> r[a][i].t == Inverse(matrix))
      && forall k :: k in m && k != a ==> k in r && r[k] == m[k]
  {
  }

  /** pushTransForm never creates a second record for the same neighbour. */
  lemma PushKeepsNoDuplicates(m: FrameMap, parent: string, child: string, matrix: Matrix4)
    requires NoDuplicates(m)
    ensures NoDuplicates(Pushed(m, parent, child, matrix))
  {
    var r := Pushed(m, parent, child, matrix);
    var m1 := if parent in m then m[parent := Upsert(m[parent], child, matrix)]
              else m[parent := [Child(child, matrix)]];
    UpsertKeepsDistinct(Entries(m, parent), child, matrix);
    UpsertEmpty(child, matrix);
    assert NoDuplicates(m1);
    UpsertKeepsDistinct(Entries(m1, child), parent, Inverse(matrix));
    UpsertEmpty(parent, Inverse(matrix));
  }

  lemma UpsertKeepsDistinct(kids: seq<Child>, name: string, t: Matrix4)
    requires Distinct(NamesOf(kids))
    ensures Distinct(NamesOf(Upsert(kids, name, t)))
  {
    var r := Upsert(kids, name, t);
    if name !in NamesOf(kids) {
      forall i, j | 0 <= i < j < |r|
        ensures NamesOf(r)[i] != NamesOf(r)[j]
      {
        if j == |kids| {
          assert NamesOf(kids)[i] == NamesOf(r)[i];
        } else {
          assert NamesOf(kids)[i] == NamesOf(r)[i] && NamesOf(kids)[j] == NamesOf(r)[j];
        }
      }
    }
  }

  /** Frame x's neighbours in the name graph are the names of its records. */
  lemma NeighboursAreNames(m: FrameMap, x: string)
    ensures Neighbours(NameGraph(m), x) == NamesOf(Entries(m, x))
  {
    if x !in m {
      assert NamesOf([]) == [];
    }
  }

  /**
   * At the level of names, pushTransForm adds exactly the links
   * parent -> child and child -> parent, and the frames parent and child.
   */
  lemma PushLinks(m: FrameMap, parent: string, child: string, matrix: Matrix4)
    ensures Pushed(m, parent, child, matrix).Keys == m.Keys + {parent, child}
    ensures var g, h := NameGraph(m), NameGraph(Pushed(m, parent, child, matrix));
      forall x, y :: y in Neighbours(h, x) <==>
        y in Neighbours(g, x) || (x == parent && y == child) || (x == child && y == parent)
  {
    var r := Pushed(m, parent, child, matrix);
    PushedAsUpserts(m, parent, child, matrix);
    var m1 := m[parent := Upsert(Entries(m, parent), child, matrix)];
    var g, h := NameGraph(m), NameGraph(r);
    forall x, y
      ensures y in Neighbours(h, x) <==>
        y in Neighbours(g, x) || (x == parent && y == child) || (x == child && y == parent)
    {
      NeighboursAreNames(m, x);
      NeighboursAreNames(r, x);
      UpsertNames(Entries(m, parent), child, matrix, y);
      UpsertNames(Entries(m1, child), parent, Inverse(matrix), y);
      if x == child && x == parent {
        UpsertNames(Entries(m, parent), child, matrix, parent);
      }
    }
  }

  /** The names listed after an upsert are the old ones plus the stored one. */
  lemma UpsertNames(kids: seq<Child>, name: string, t: Matrix4, y: string)
    ensures y in NamesOf(Upsert(kids, name, t)) <==> y in NamesOf(kids) || y == name
  {
    var r := Upsert(kids, name, t);
    if name !in NamesOf(kids) {
      assert NamesOf(r) == NamesOf(kids) + [name];
    } else {
      assert Child(name, t) in r;
    }
  }

  /** pushTransForm keeps the links stored both ways, and every listed neighbour a frame. */
  lemma PushKeepsSymmetricAndClosed(m: FrameMap, parent: string, child: string, matrix: Matrix4)
    ensures Symmetric(NameGraph(m)) ==> Symmetric(NameGraph(Pushed(m, parent, child, matrix)))
    ensures Closed(NameGraph(m)) ==> Closed(NameGraph(Pushed(m, parent, child, matrix)))
  {
    var r := Pushed(m, parent, child, matrix);
    var g, h := NameGraph(m), NameGraph(r);
    PushLinks(m, parent, child, matrix);
    if Symmetric(g) {
      forall a, b | a in h && b in h[a]
        ensures a in Neighbours(h, b)
      {
        assert b in Neighbours(h, a);
      }
    }
    if Closed(g) {
      forall a, b | a in h && b in h[a]
        ensures b in h
      {
        assert b in Neighbours(h, a);
        if b != parent && b != child {
          assert b in Neighbours(g, a);
          assert a in g && b in g[a];
          assert b in g;
          assert b in r;
        }
      }
    }
  }

  /** pushTransForm keeps every record naming another frame paired with a companion holding its inverse. */
  lemma PushKeepsPaired(m: FrameMap, parent: string, child: string, matrix: Matrix4)
    requires Paired(m)
    ensures Paired(Pushed(m, parent, child, matrix))
  {
    var r: FrameMap := Pushed(m, parent, child, matrix);
    if parent == child {
      forall a: string, i: int | a in r && 0 <= i < |r[a]| && r[a][i].name != a
        ensures HasCompanion(r, a, r[a][i].name, r[a][i].t)
      {
        var b := r[a][i].name;
        if a == parent {
          PairedSelfSide(m, parent, matrix, i);
        } else {
          assert r[a][i] == m[a][i];
          var j :| 0 <= j < |m[b]| && m[b][j].name == a && InversePair(r[a][i].t, m[b][j].t);
          if b == parent {
            PairedSelfSide(m, parent, matrix, j);
          } else {
            PushKeepsOthers(m, parent, child, matrix, b);
          }
        }
      }
    } else {
      PushUpsertsBothSides(m, parent, child, matrix);
      forall a: string, i: int | a in r && 0 <= i < |r[a]| && r[a][i].name != a
        ensures HasCompanion(r, a, r[a][i].name, r[a][i].t)
      {
        PairedStep(m, parent, child, matrix, a, i);
      }
    }
  }

  /** pushTransForm touches no frame other than parent and child. */
  lemma PushKeepsOthers(m: FrameMap, parent: string, child: string, matrix: Matrix4, x: string)
    requires x != parent && x != child
    ensures var r := Pushed(m, parent, child, matrix);
      (x in r <==> x in m) && (x in m ==> r[x] == m[x])
  {
  }

  /** After pushTransForm(a, a, matrix), a's records not naming a are the old ones at the same index. */
  lemma PairedSelfSide(m: FrameMap, a: string, matrix: Matrix4, i: nat)
    ensures var r := Pushed(m, a, a, matrix);
      a in r && (i < |r[a]| && r[a][i].name != a ==> a in m && i < |m[a]| && r[a][i] == m[a][i])
      && (a in m && i < |m[a]| && m[a][i].name != a ==> i < |r[a]| && r[a][i] == m[a][i])
  {
    var m1 := if a in m then m[a := Upsert(m[a], a, matrix)] else m[a := [Child(a, matrix)]];
    if a in m {
      var u := Upsert(m[a], a, matrix);
      if i < |m[a]| && m[a][i].name != a {
        if a in NamesOf(m[a]) {
          assert NamesOf(u)[i] == NamesOf(m[a])[i];
        }
        assert u[i] == m[a][i];
        var v := Upsert(u, a, Inverse(matrix));
        assert a in NamesOf(u) by {
          var k :| 0 <= k < |u| && u[k] == Child(a, matrix);
          assert NamesOf(u)[k] == a;
        }
        assert NamesOf(v)[i] == NamesOf(u)[i];
      }
    }
  }

  lemma PairedStep(m: FrameMap, parent: string, child: string, matrix: Matrix4, a: string, i: nat)
    requires Paired(m) && parent != child
    requires var r := Pushed(m, parent, child, matrix);
      a in r && i < |r[a]| && r[a][i].name != a
    ensures var r := Pushed(m, parent, child, matrix);
      HasCompanion(r, a, r[a][i].name, r[a][i].t)
  {
    var r: FrameMap := Pushed(m, parent, child, matrix);
    PushUpsertsBothSides(m, parent, child, matrix);
    var e: Child := r[a][i];
    if a == parent && e.name == child {
      var uc := Upsert(Entries(m, child), parent, Inverse(matrix));
      var j :| 0 <= j < |uc| && uc[j] == Child(parent, Inverse(matrix));
      assert r[child][j].name == a && InversePair(e.t, r[child][j].t);
    } else if a == child && e.name == parent {
      var up := Upsert(Entries(m, parent), child, matrix);
      var j :| 0 <= j < |up| && up[j] == Child(child, matrix);
      assert r[parent][j].name == a && InversePair(e.t, r[parent][j].t);
    } else {
      PairedStepOld(m, parent, child, matrix, a, i);
    }
  }

  /** A record that is not the new pair's was there before, and its old companion is still in place. */
  lemma PairedStepOld(m: FrameMap, parent: string, child: string, matrix: Matrix4, a: string, i: nat)
    requires Paired(m) && parent != child
    requires var r := Pushed(m, parent, child, matrix);
      a in r && i < |r[a]| && r[a][i].name != a
      && !(a == parent && r[a][i].name == child) && !(a == child && r[a][i].name == parent)
    ensures var r := Pushed(m, parent, child, matrix);
      HasCompanion(r, a, r[a][i].name, r[a][i].t)
  {
    var r: FrameMap := Pushed(m, parent, child, matrix);
    PushedOldRecord(m, parent, child, matrix, a, i);
    var e: Child := r[a][i];
    var b := e.name;
    assert HasCompanion(m, a, b, e.t);
    var j :| 0 <= j < |m[b]| && m[b][j].name == a && InversePair(e.t, m[b][j].t);
    PushedKeepsRecord(m, parent, child, matrix, b, j);
  }

  /** For two distinct frames, a record after pushTransForm other than the new pair's is an old one at the same index. */
  lemma PushedOldRecord(m: FrameMap, parent: string, child: string, matrix: Matrix4, a: string, i: nat)
    requires parent != child
    requires var r := Pushed(m, parent, child, matrix);
      a in r && i < |r[a]| && !(a == parent && r[a][i].name == child) && !(a == child && r[a][i].name == parent)
    ensures var r := Pushed(m, parent, child, matrix);
      a in m && i < |m[a]| && r[a][i] == m[a][i]
  {
    PushUpsertsBothSides(m, parent, child, matrix);
    if a != parent && a != child {
      PushKeepsOthers(m, parent, child, matrix, a);
    }
  }

  /** For two distinct frames, pushTransForm keeps every old record other than the pair's at its index. */
  lemma PushedKeepsRecord(m: FrameMap, parent: string, child: string, matrix: Matrix4, b: string, j: nat)
    requires parent != child && b in m && j < |m[b]|
    requires !(b == parent && m[b][j].name == child) && !(b == child && m[b][j].name == parent)
    ensures var r := Pushed(m, parent, child, matrix);
      b in r && j < |r[b]| && r[b][j] == m[b][j]
  {
    PushUpsertsBothSides(m, parent, child, matrix);
    if b == parent {
      UpsertKeepsOthers(m[parent], child, matrix, j);
    } else if b == child {
      UpsertKeepsOthers(m[child], parent, Inverse(matrix), j);
    } else {
      PushKeepsOthers(m, parent, child, matrix, b);
    }
  }

  /** An upsert leaves every record with another name at its index. */
  lemma UpsertKeepsOthers(kids: seq<Child>, name: string, t: Matrix4, j: nat)
    requires j < |kids| && kids[j].name != name
    ensures var r := Upsert(kids, name, t); j < |r| && r[j] == kids[j]
  {
    var r := Upsert(kids, name, t);
    if name in NamesOf(kids) {
      assert NamesOf(r)[j] == NamesOf(kids)[j];
    }
  }

  /** The empty map of a fresh group satisfies every invariant above. */
  lemma EmptyMapInvariants()
    ensures NoDuplicates(map[]) && Paired(map[])
    ensures Symmetric(NameGraph(map[])) && Closed(NameGraph(map[]))
  {
  }

  // ---------------------------------------------------------------------
  // The quaternion overload's rotation

  /**
   * The quaternion the overload builds from its parameters rx, ry, rz, rw:
   * it hands them to Eigen's four-scalar constructor in that order, which
   * reads them as w, x, y, z.
   */
  function QuatAsWritten(rx: real, ry: real, rz: real, rw: real): (q: Quaternion)
    ensures q == QuatOfComponents(ry, rz, rw, rx)
  {
    Quaternion(rx, ry, rz, rw)
  }

  /** The quaternion whose x, y, z and w components are rx, ry, rz and rw, the roles the parameters are documented with. */
  function QuatOfComponents(rx: real, ry: real, rz: real, rw: real): Quaternion
  {
    Quaternion(rw, rx, ry, rz)
  }

  /**
   * As written, passing a quaternion's x, y, z and w components gives it
   * back only when all four are equal: the documented identity rotation
   * (0, 0, 0, 1) becomes w = 0, z = 1, a half turn about z.
   */
  lemma QuatAsWrittenRoundTrip(q: Quaternion)
    ensures QuatAsWritten(q.x, q.y, q.z, q.w) == q <==> q.w == q.x == q.y == q.z
    ensures QuatAsWritten(0.0, 0.0, 0.0, 1.0) == Quaternion(0.0, 0.0, 0.0, 1.0)
    ensures QuatAsWritten(0.0, 0.0, 0.0, 1.0) != Quaternion(1.0, 0.0, 0.0, 0.0)
  {
  }

  /** Building from the documented roles gives every quaternion back, and each parameter lands in its component. */
  lemma QuatOfComponentsRoundTrip(q: Quaternion, rx: real, ry: real, rz: real, rw: real)
    ensures QuatOfComponents(q.x, q.y, q.z, q.w) == q
    ensures var p := QuatOfComponents(rx, ry, rz, rw); p.x == rx && p.y == ry && p.z == rz && p.w == rw
    ensures QuatOfComponents(0.0, 0.0, 0.0, 1.0) == Quaternion(1.0, 0.0, 0.0, 0.0)
  {
  }

  // ---------------------------------------------------------------------
  // getTransForm

  /**
   * acc multiplied on the right, in list order, by the transform of every
   * record in kids named next.
   */
  function MulMatching(acc: Matrix4, kids: seq<Child>, next: string): (r: Matrix4)
    ensures next !in NamesOf(kids) ==> r == acc
  {
    if kids == [] then acc
    else
      assert NamesOf(kids[..|kids| - 1]) == NamesOf(kids)[..|kids| - 1];
      assert NamesOf(kids)[|kids| - 1] == kids[|kids| - 1].name;
      var a := MulMatching(acc, kids[..|kids| - 1], next);
      if kids[|kids| - 1].name == next then Mul(a, kids[|kids| - 1].t) else a
  }

  /**
   * What getTransForm computes for path p: the identity for at most one
   * frame, otherwise, pair by pair along p, the product with every record
   * of p[i] naming p[i + 1].
   */
  function Compose(m: FrameMap, p: seq<string>): (r: Matrix4)
    ensures (forall i :: 0 <= i < |p| - 1 ==> p[i + 1] !in NamesOf(Entries(m, p[i]))) ==> r == Identity
  {
    if |p| <= 1 then Identity
    else MulMatching(Compose(m, p[..|p| - 1]), Entries(m, p[|p| - 2]), p[|p| - 1])
  }

  /** The transform stored on a's record for b (there is exactly one when names do not repeat). */
  ghost function EdgeTransform(m: FrameMap, a: string, b: string): Matrix4
    requires b in NamesOf(Entries(m, a))
  {
    var j :| 0 <= j < |Entries(m, a)| && Entries(m, a)[j].name == b; Entries(m, a)[j].t
  }

  /** The left-to-right product of the stored edge transforms along the walk p, from the identity. */
  ghost function EdgeProduct(m: FrameMap, p: seq<string>): Matrix4
    requires IsWalk(NameGraph(m), p)
  {
    if |p| <= 1 then Identity
    else
      assert p[|p| - 1] in NamesOf(Entries(m, p[|p| - 2]));
      assert IsWalk(NameGraph(m), p[..|p| - 1]);
      Mul(EdgeProduct(m, p[..|p| - 1]), EdgeTransform(m, p[|p| - 2], p[|p| - 1]))
  }

  lemma {:induction false} MulMatchingNone(acc: Matrix4, kids: seq<Child>, next: string)
    requires forall i :: 0 <= i < |kids| ==> kids[i].name != next
    ensures MulMatching(acc, kids, next) == acc
  {
    if kids != [] {
      MulMatchingNone(acc, kids[..|kids| - 1], next);
    }
  }

  lemma {:induction false} MulMatchingOne(acc: Matrix4, kids: seq<Child>, next: string, j: nat)
    requires j < |kids| && kids[j].name == next
    requires forall i :: 0 <= i < |kids| && i != j ==> kids[i].name != next
    ensures MulMatching(acc, kids, next) == Mul(acc, kids[j].t)
  {
    var init := kids[..|kids| - 1];
    if j == |kids| - 1 {
      MulMatchingNone(acc, init, next);
    } else {
      MulMatchingOne(acc, init, next, j);
    }
  }

  /**
   * When no frame lists a neighbour twice, getTransForm's product along a
   * walk is the left-to-right product of the stored edge transforms.
   */
  lemma {:induction false} ComposeIsEdgeProduct(m: FrameMap, p: seq<string>)
    requires NoDuplicates(m) && IsWalk(NameGraph(m), p)
    ensures Compose(m, p) == EdgeProduct(m, p)
  {
    if |p| > 1 {
      var init := p[..|p| - 1];
      assert IsWalk(NameGraph(m), init);
      ComposeIsEdgeProduct(m, init);
      var a, b := p[|p| - 2], p[|p| - 1];
      var kids := Entries(m, a);
      assert b in NamesOf(kids);
      var j :| 0 <= j < |kids| && kids[j].name == b && EdgeTransform(m, a, b) == kids[j].t;
      forall i | 0 <= i < |kids| && i != j
        ensures kids[i].name != b
      {
        assert NamesOf(kids)[i] == kids[i].name && NamesOf(kids)[j] == kids[j].name;
      }
      MulMatchingOne(Compose(m, init), kids, b, j);
    }
  }

  /**
   * Reading frame x from a map that only gained empty record lists since
   * m0 sees x's records in m0, and the insertion that operator[] makes
   * keeps that so.
   */
  lemma LookupAgrees(m0: FrameMap, m: FrameMap, x: string)
    requires OnlyEmptyAdded(m0, m)
    ensures Entries(m, x) == Entries(m0, x)
    ensures NamesOf(Entries(m0, x)) == Neighbours(NameGraph(m0), x)
    ensures OnlyEmptyAdded(m0, m[x := Entries(m0, x)])
    ensures m[x := Entries(m0, x)].Keys == m.Keys + {x}
  {
    NeighboursAreNames(m0, x);
  }

  /**
   * One pair of a walk in getTransForm's outer loop: the frame p[i] has a
   * neighbour, so it is a key that the lookup reads without inserting,
   * and the product up to p[i + 1] extends the one up to p[i].
   */
  lemma ComposeStep(m0: FrameMap, m: FrameMap, p: seq<string>, i: nat)
    requires OnlyEmptyAdded(m0, m) && IsWalk(NameGraph(m0), p) && i < |p| - 1
    ensures p[i] in m && m[p[i]] == Entries(m0, p[i])
    ensures Compose(m0, p[..i + 2]) == MulMatching(Compose(m0, p[..i + 1]), m[p[i]], p[i + 1])
  {
    assert p[i + 1] in Neighbours(NameGraph(m0), p[i]);
    LookupAgrees(m0, m, p[i]);
    assert p[..i + 2][..i + 1] == p[..i + 1];
  }

  /**
   * The empty record lists findPath inserts change no frame's records or
   * neighbours, so every invariant of the map survives them.
   */
  lemma EmptyAddedKeepsInvariants(m0: FrameMap, m: FrameMap)
    requires OnlyEmptyAdded(m0, m)
    ensures NoDuplicates(m0) ==> NoDuplicates(m)
    ensures Paired(m0) ==> Paired(m)
    ensures Symmetric(NameGraph(m0)) ==> Symmetric(NameGraph(m))
    ensures Closed(NameGraph(m0)) ==> Closed(NameGraph(m))
  {
    var g, h := NameGraph(m0), NameGraph(m);
    forall x
      ensures Neighbours(h, x) == Neighbours(g, x)
    {
      LookupAgrees(m0, m, x);
      NeighboursAreNames(m, x);
    }
    if NoDuplicates(m0) {
      forall k | k in m
        ensures Distinct(NamesOf(m[k]))
      {
        if k !in m0 {
          assert m[k] == [];
        }
      }
    }
    if Paired(m0) {
      forall a, i | a in m && 0 <= i < |m[a]| && m[a][i].name != a
        ensures HasCompanion(m, a, m[a][i].name, m[a][i].t)
      {
        assert a in m0 && m[a] == m0[a];
        var b := m[a][i].name;
        assert HasCompanion(m0, a, b, m0[a][i].t);
        assert m[b] == m0[b];
      }
    }
    if Closed(g) {
      forall a, b | a in h && b in h[a]
        ensures b in h
      {
        assert b in Neighbours(h, a) && b in Neighbours(g, a);
        assert a in g && b in g[a];
        assert b in g;
      }
    }
  }

  // ---------------------------------------------------------------------
  // The group object

  class TransFormsGroup {
    /** tfg: frame name to its neighbour records. */
    var tfg: FrameMap

    /**
     * What every group keeps: one record per neighbour, every record
     * naming another frame matched by one holding the inverse transform,
     * links stored both ways and every listed neighbour a frame.
     */
    ghost predicate Valid()
      reads this
    {
      NoDuplicates(tfg) && Paired(tfg) && Symmetric(NameGraph(tfg)) && Closed(NameGraph(tfg))
    }

    constructor ()
      ensures Valid() && tfg == map[]
    {
      tfg := map[];
      EmptyMapInvariants();
    }

    /**
     * Overwrites the transform of every record of frame with the given
     * name; reports whether there was one.
     */
    method UpdateChild(frame: string, name: string, t: Matrix4) returns (found: bool)
      requires frame in tfg
      modifies this
      ensures found <==> name in NamesOf(old(tfg)[frame])
      ensures found ==> tfg == old(tfg)[frame := Upsert(old(tfg)[frame], name, t)]
      ensures !found ==> tfg == old(tfg)
    {
      var childs := tfg[frame];
      found := false;
      var i := 0;
      while i < |childs|
        invariant 0 <= i <= |childs|
        invariant found <==> exists j :: 0 <= j < i && childs[j].name == name
        invariant frame in tfg && |tfg[frame]| == |childs|
        invariant forall j :: 0 <= j < |childs| ==>
          tfg[frame][j] == if j < i && childs[j].name == name then childs[j].(t := t) else childs[j]
        invariant tfg == old(tfg)[frame := tfg[frame]]
      {
        if childs[i].name == name {
          found := true;
          tfg := tfg[frame := tfg[frame][i := tfg[frame][i].(t := t)]];
        }
        i := i + 1;
      }
      if found {
        var j :| 0 <= j < |childs| && childs[j].name == name;
        assert NamesOf(childs)[j] == name;
        assert tfg[frame] == Upsert(childs, name, t);
      } else {
        assert tfg[frame] == childs;
        assert forall j :: 0 <= j < |childs| ==> NamesOf(childs)[j] != name;
      }
    }

    /**
     * pushTransForm(parent, child, matrix): stores matrix on parent's record
     * for child and matrix^-1 on child's record for parent, updating a
     * record in place or appending one; returns matrix.
     */
    method PushTransForm(parent: string, child: string, matrix: Matrix4) returns (r: Matrix4)
      requires Valid()
      modifies this
      ensures Valid()
      ensures r == matrix
      ensures tfg == Pushed(old(tfg), parent, child, matrix)
    {
      PushKeepsNoDuplicates(tfg, parent, child, matrix);
      PushKeepsPaired(tfg, parent, child, matrix);
      PushKeepsSymmetricAndClosed(tfg, parent, child, matrix);
      var hasParentNode := parent in tfg;
      var hasChildNode := child in tfg;
      if hasParentNode {
        var hasChild := UpdateChild(parent, child, matrix);
        if !hasChild {
          tfg := tfg[parent := tfg[parent] + [Child(child, matrix)]];
        }
      } else {
        tfg := tfg[parent := [Child(child, matrix)]];
      }
      if hasChildNode {
        var hasChild := UpdateChild(child, parent, Inverse(matrix));
        if !hasChild {
          tfg := tfg[child := tfg[child] + [Child(parent, Inverse(matrix))]];
        }
      } else {
        tfg := tfg[child := [Child(parent, Inverse(matrix))]];
      }
      r := matrix;
    }

    /** The Euler-angle overload: composes the transform, then stores it as above. */
    method PushTransFormEuler(parent: string, child: string, x: real, y: real, z: real, rx: real, ry: real, rz: real)
      returns (r: Matrix4)
      requires Valid()
      modifies this
      ensures Valid()
      ensures r == ComposeEuler(x, y, z, rx, ry, rz)
      ensures tfg == Pushed(old(tfg), parent, child, r)
    {
      r := PushTransForm(parent, child, ComposeEuler(x, y, z, rx, ry, rz));
    }

    /** The quaternion overload: composes the transform, then stores it as above. */
    method PushTransFormQuat(parent: string, child: string, x: real, y: real, z: real, rx: real, ry: real, rz: real, rw: real)
      returns (r: Matrix4)
      requires Valid()
      modifies this
      ensures Valid()
      ensures var q := QuatAsWritten(rx, ry, rz, rw); r == ComposeQuat(x, y, z, q.w, q.x, q.y, q.z)
      ensures tfg == Pushed(old(tfg), parent, child, r)
    {
      var quat := QuatAsWritten(rx, ry, rz, rw);
      r := PushTransForm(parent, child, ComposeQuat(x, y, z, quat.w, quat.x, quat.y, quat.z));
    }

    /** The first loop of findPath: one record [start, c] for every record c of start, in list order. */
    static method Seed(start: string, kids: seq<Child>) returns (que: seq<Path>)
      ensures que == Seeds(start, NamesOf(kids))
    {
      que := [];
      var i := 0;
      while i < |kids|
        invariant 0 <= i <= |kids|
        invariant que == Seeds(start, NamesOf(kids)[..i])
      {
        que := que + [Path(kids[i].name, [start, kids[i].name])];
        i := i + 1;
      }
      assert NamesOf(kids)[..|kids|] == NamesOf(kids);
    }

    /**
     * The inner loop of findPath: one record path + [c] for every record c
     * in cs whose name is not in researched, in list order.
     */
    static method Expand(path: Path, cs: seq<Child>, researched: seq<string>) returns (ext: seq<Path>)
      ensures ext == Extensions(path, NamesOf(cs), researched)
    {
      ghost var names := NamesOf(cs);
      ext := [];
      var j := 0;
      while j < |cs|
        invariant 0 <= j <= |cs|
        invariant ext == Extensions(path, names[..j], researched)
      {
        ExtensionsPrefix(path, names, j, researched);
        if cs[j].name !in researched {
          ext := ext + [Path(cs[j].name, path.path + [cs[j].name])];
        }
        j := j + 1;
      }
      assert names[..|cs|] == names;
    }

    /**
     * findPath(start, end): the breadth-first search over whole-path
     * records. Looking a frame up inserts an empty record list for an
     * unknown frame, as std::map::operator[] does; the search runs on the
     * map's value and the object keeps the map it leaves behind.
     */
    method FindPath(start: string, end: string) returns (r: seq<string>)
      requires Valid() && Terminates(NameGraph(tfg), start, end)
      modifies this
      ensures Valid()
      ensures r == SearchPath(NameGraph(old(tfg)), start, end)
      ensures OnlyEmptyAdded(old(tfg), tfg)
      ensures tfg.Keys <= old(tfg).Keys + {start}
      ensures start == end ==> tfg == old(tfg)
      ensures start != end ==> start in tfg
    {
      r, tfg := Search(tfg, start, end);
      EmptyAddedKeepsInvariants(old(tfg), tfg);
      ClosedListed(NameGraph(old(tfg)));
    }

    /** The body of findPath on a value m0 of the map; m is the map afterwards. */
    static method Search(m0: FrameMap, start: string, end: string) returns (r: seq<string>, m: FrameMap)
      requires Terminates(NameGraph(m0), start, end)
      ensures r == SearchPath(NameGraph(m0), start, end)
      ensures OnlyEmptyAdded(m0, m)
      ensures m.Keys <= m0.Keys + {start} + Listed(NameGraph(m0))
      ensures start == end ==> m == m0
      ensures start != end ==> start in m
    {
      m := m0;
      var researched := [start];
      if start == end {
        return researched, m;
      }
      LookupAgrees(m0, m, start);
      if start !in m {
        m := m[start := []];
      }
      var que := Seed(start, m[start]);
      r, m := Drain(m0, m, start, end, que, researched);
    }

    /**
     * The while loop of findPath, from the seeded queue: turns until a
     * record reaches end, or the queue empties and researched is returned.
     */
    static method Drain(ghost m0: FrameMap, m1: FrameMap, start: string, end: string, que0: seq<Path>, researched: seq<string>)
      returns (r: seq<string>, m: FrameMap)
      requires start != end && Terminates(NameGraph(m0), start, end) && researched == [start]
      requires que0 == Seeds(start, Neighbours(NameGraph(m0), start))
      requires GrownFrom(m0, m1, start)
      ensures r == SearchPath(NameGraph(m0), start, end)
      ensures GrownFrom(m0, m, start)
    {
      ghost var g := NameGraph(m0);
      m := m1;
      var que := que0;
      ghost var total := MidwayAtSeeds(g, start, end);
      ghost var steps: nat := 0;
      while que != []
        invariant Midway(g, start, end, steps, total, que)
        invariant GrownFrom(m0, m, start)
        decreases total - steps
      {
        var found, path;
        found, path, m, que := Turn(m0, m, start, end, que, researched, steps, total);
        if found {
          return path, m;
        }
        steps := steps + 1;
      }
      RunDrained(g, start, end, steps, total);
      return researched, m;
    }

    /**
     * One turn of findPath's loop: take the front record; a frame other
     * than start that is end stops the search with the record's path,
     * any other such frame is looked up and its extensions are queued.
     */
    static method Turn(ghost m0: FrameMap, m: FrameMap, start: string, end: string, que: seq<Path>, researched: seq<string>,
                       ghost n: nat, ghost total: nat)
      returns (found: bool, path: seq<string>, m': FrameMap, que': seq<Path>)
      requires que != [] && researched == [start] && GrownFrom(m0, m, start)
      requires Midway(NameGraph(m0), start, end, n, total, que)
      ensures found ==> path == SearchPath(NameGraph(m0), start, end)
      ensures !found ==> Midway(NameGraph(m0), start, end, n + 1, total, que')
      ensures GrownFrom(m0, m', start)
    {
      RunTurn(NameGraph(m0), start, end, n, total, que);
      FrontListed(NameGraph(m0), start, end, n, que);
      m' := m;
      var front := que[0];
      que' := que[1..];
      found := false;
      path := [];
      if front.name !in researched {
        if front.name == end {
          return true, front.path, m', que';
        }
        LookupAgrees(m0, m', front.name);
        if front.name !in m' {
          m' := m'[front.name := []];
        }
        var ext := Expand(front, m'[front.name], researched);
        que' := que' + ext;
      }
    }

    /**
     * getTransForm(start, end): the identity when the path found has at
     * most one frame, otherwise the product, from the identity, of the
     * transforms on the records along it.
     */
    method GetTransForm(start: string, end: string) returns (matrix: Matrix4)
      requires Valid() && Terminates(NameGraph(tfg), start, end)
      modifies this
      ensures Valid()
      ensures matrix == Compose(old(tfg), SearchPath(NameGraph(old(tfg)), start, end))
      ensures var p := SearchPath(NameGraph(old(tfg)), start, end);
        IsWalk(NameGraph(old(tfg)), p) && matrix == EdgeProduct(old(tfg), p)
      ensures start == end || !Reachable(NameGraph(old(tfg)), start, end) ==> matrix == Identity
      ensures OnlyEmptyAdded(old(tfg), tfg)
      ensures tfg.Keys <= old(tfg).Keys + {start}
      ensures start != end ==> start in tfg
    {
      ghost var m0 := tfg;
      if start != end {
        SearchPathShortest(NameGraph(m0), start, end);
      }
      ComposeIsEdgeProduct(m0, SearchPath(NameGraph(m0), start, end));
      matrix := Identity;
      var paths := FindPath(start, end);
      if |paths| <= 1 {
        return;
      }
      SearchPathShortest(NameGraph(old(tfg)), start, end);
      matrix := Product(old(tfg), tfg, paths);
    }

    /**
     * The loops of getTransForm over a path of at least two frames, reading
     * the map m that findPath left behind from the map m0 it started with.
     */
    static method Product(ghost m0: FrameMap, m: FrameMap, paths: seq<string>) returns (matrix: Matrix4)
      requires OnlyEmptyAdded(m0, m) && IsWalk(NameGraph(m0), paths)
      ensures matrix == Compose(m0, paths)
    {
      matrix := Identity;
      var i := 0;
      while i < |paths| - 1
        invariant 0 <= i <= |paths| - 1
        invariant matrix == Compose(m0, paths[..i + 1])
      {
        ComposeStep(m0, m, paths, i);
        matrix := MulRecords(matrix, m[paths[i]], paths[i + 1]);
        i := i + 1;
      }
      assert paths[..|paths|] == paths;
    }

    /** The inner loop of getTransForm: multiply in, in order, every record of kids naming next. */
    static method MulRecords(acc: Matrix4, kids: seq<Child>, next: string) returns (r: Matrix4)
      ensures r == MulMatching(acc, kids, next)
    {
      r := acc;
      var j := 0;
      while j < |kids|
        invariant 0 <= j <= |kids|
        invariant r == MulMatching(acc, kids[..j], next)
      {
        assert kids[..j + 1][..j] == kids[..j];
        if kids[j].name == next {
          r := Mul(r, kids[j].t);
        }
        j := j + 1;
      }
      assert kids[..|kids|] == kids;
    }
  }
}
