/**
 * The frame graph seen through frame names only: each frame maps to the
 * names of its neighbour records, in list order. Both TransFormsGroup and
 * BaseGroup project their maps onto this view; the path search reads
 * nothing else.
 */
module Graph {

  type Links = map<string, seq<string>>

  /** The neighbour names of frame x; an unknown frame has none. */
  function Neighbours(g: Links, x: string): seq<string>
  {
    if x in g then g[x] else []
  }

  /** w is a non-empty sequence of frames, each consecutive pair a stored link. */
  ghost predicate IsWalk(g: Links, w: seq<string>)
  {
    |w| >= 1 && forall i :: 0 <= i < |w| - 1 ==> w[i + 1] in Neighbours(g, w[i])
  }

  ghost predicate WalkFromTo(g: Links, s: string, e: string, w: seq<string>)
  {
    IsWalk(g, w) && w[0] == s && w[|w| - 1] == e
  }

  ghost predicate Reachable(g: Links, s: string, e: string)
  {
    exists w :: WalkFromTo(g, s, e, w)
  }

  /** w never comes back to s after its first frame. */
  ghost predicate AvoidsStart(w: seq<string>, s: string)
  {
    forall i :: 0 < i < |w| ==> w[i] != s
  }

  ghost predicate DirectWalk(g: Links, s: string, e: string, w: seq<string>)
  {
    WalkFromTo(g, s, e, w) && AvoidsStart(w, s)
  }

  ghost predicate HasDirectWalk(g: Links, s: string, e: string)
  {
    exists w :: DirectWalk(g, s, e, w)
  }

  /** No name occurs twice in s. */
  ghost predicate Distinct(s: seq<string>)
  {
    forall i, j :: 0 <= i < j < |s| ==> s[i] != s[j]
  }

  /** Every link is stored in both directions (by name). */
  ghost predicate Symmetric(g: Links)
  {
    forall a, b :: b in Neighbours(g, a) ==> a in Neighbours(g, b)
  }

  /**
   * Every link a -> b is answered at b: b lists a back, or b lists
   * itself. Links stored both ways are answered, and so are the links
   * BaseGroup's addChild stores, whose back record a self record can
   * suppress.
   */
  ghost predicate Answered(g: Links)
  {
    forall a, b :: b in Neighbours(g, a) ==> a in Neighbours(g, b) || b in Neighbours(g, b)
  }

  lemma SymmetricIsAnswered(g: Links)
    requires Symmetric(g)
    ensures Answered(g)
  {
  }

  /** Every neighbour name is itself a frame of the map. */
  ghost predicate Closed(g: Links)
  {
    forall a, b :: a in g && b in g[a] ==> b in g
  }

  /** Every name that some frame lists as a neighbour. */
  ghost function Listed(g: Links): set<string>
  {
    set a, b | a in g && b in g[a] :: b
  }

  /** When every listed neighbour is a frame, the listed names are frames. */
  lemma ClosedListed(g: Links)
    requires Closed(g)
    ensures Listed(g) <= g.Keys
  {
  }

  /**
   * No frame can be reached from s in two hops without the second hop
   * returning to s: the seeds of the search are its only paths.
   */
  ghost predicate NoSecondHop(g: Links, s: string)
  {
    forall n, c :: n in Neighbours(g, s) && n != s && c in Neighbours(g, n) ==> c == s
  }

  /**
   * The calls of findPath that finish: the same frame twice, a reachable
   * end, or a start whose neighbours lead nowhere else.
   */
  ghost predicate Terminates(g: Links, s: string, e: string)
  {
    s == e || Reachable(g, s, e) || NoSecondHop(g, s)
  }

  /** A walk from s to e can be cut at its last visit of s. */
  lemma {:induction false} Shortcut(g: Links, s: string, e: string, w: seq<string>)
    requires WalkFromTo(g, s, e, w)
    ensures exists v :: DirectWalk(g, s, e, v) && |v| <= |w|
    decreases |w|
  {
    if AvoidsStart(w, s) {
      assert DirectWalk(g, s, e, w);
    } else {
      var i :| 0 < i < |w| && w[i] == s;
      var v := w[i..];
      forall j | 0 <= j < |v| - 1
        ensures v[j + 1] in Neighbours(g, v[j])
      {
        assert v[j] == w[i + j] && v[j + 1] == w[i + j + 1];
      }
      assert WalkFromTo(g, s, e, v);
      Shortcut(g, s, e, v);
    }
  }

  /** Reachability and direct reachability coincide. */
  lemma ReachableIffDirect(g: Links, s: string, e: string)
    ensures Reachable(g, s, e) <==> HasDirectWalk(g, s, e)
  {
    if Reachable(g, s, e) {
      var w :| WalkFromTo(g, s, e, w);
      Shortcut(g, s, e, w);
    }
  }
}
