/**
 * The breadth-first search shared by TransFormsGroup::findPath and
 * BaseGroup::findPath, as specification functions over frame names.
 *
 * The search keeps a FIFO queue of whole paths. Its visited list
 * (`researched`) is seeded with the start frame and never extended, so the
 * only frame it ever filters out is the start frame itself.
 */
module PathSearch {
  import opened Graph

  /** A queued search record: the frontier frame and the frames from start to it. */
  datatype Path = Path(name: string, path: seq<string>)

  /** The state after one turn of the search loop. */
  datatype Status = Searching(queue: seq<Path>) | Done(result: seq<string>)

  /** One seed [start, c] per stored neighbour c of start, in list order; start itself is not filtered. */
  function Seeds(start: string, cs: seq<string>): (q: seq<Path>)
    ensures |q| == |cs|
    ensures forall p :: p in q ==> p.name in cs && p.path == [start, p.name]
  {
    seq(|cs|, i requires 0 <= i < |cs| => Path(cs[i], [start, cs[i]]))
  }

  /** The records appended when p is expanded: p extended by each neighbour in cs not in seen, in list order. */
  function Extensions(p: Path, cs: seq<string>, seen: seq<string>): (r: seq<Path>)
    ensures forall q :: q in r ==> q.path == p.path + [q.name] && q.name in cs && q.name !in seen
  {
    if cs == [] then []
    else
      var c := cs[|cs| - 1];
      assert forall d :: d in cs[..|cs| - 1] ==> d in cs;
      Extensions(p, cs[..|cs| - 1], seen) + (if c !in seen then [Path(c, p.path + [c])] else [])
  }

  /** Taking one more name of the neighbour list appends at most that name's record. */
  lemma ExtensionsPrefix(p: Path, cs: seq<string>, j: nat, seen: seq<string>)
    requires j < |cs|
    ensures Extensions(p, cs[..j + 1], seen)
            == Extensions(p, cs[..j], seen) + (if cs[j] !in seen then [Path(cs[j], p.path + [cs[j]])] else [])
  {
    assert cs[..j + 1][..j] == cs[..j];
  }

  /** Every neighbour not yet seen gets its extension. */
  lemma {:induction false} ExtensionsComplete(p: Path, cs: seq<string>, seen: seq<string>, c: string)
    requires c in cs && c !in seen
    ensures Path(c, p.path + [c]) in Extensions(p, cs, seen)
  {
    var last := cs[|cs| - 1];
    if c != last {
      assert c in cs[..|cs| - 1] by {
        var k :| 0 <= k < |cs| && cs[k] == c;
        assert cs[..|cs| - 1][k] == c;
      }
      ExtensionsComplete(p, cs[..|cs| - 1], seen, c);
    }
  }

  /**
   * One turn of the loop: pop the front record; skip it if it ends at
   * start (the only researched frame); return its path if it ends at end;
   * otherwise append its extensions. An empty queue returns [start].
   */
  function Step(g: Links, start: string, end: string, que: seq<Path>): (st: Status)
    ensures st.Done? ==> st.result == [start] || (que != [] && que[0].name == end && st.result == que[0].path)
  {
    if que == [] then Done([start])
    else
      var p := que[0];
      if p.name == start then Searching(que[1..])
      else if p.name == end then Done(p.path)
      else Searching(que[1..] + Extensions(p, Neighbours(g, p.name), [start]))
  }

  /** The search state after n turns of the loop, started from queue q0. */
  function Run(g: Links, start: string, end: string, q0: seq<Path>, n: nat): (st: Status)
    ensures st.Done? ==> n > 0
  {
    if n == 0 then Searching(q0)
    else match Run(g, start, end, q0, n - 1)
      case Done(r) => Done(r)
      case Searching(q) => Step(g, start, end, q)
  }

  // ---------------------------------------------------------------------
  // The invariant of the queue

  /** A record that the search can hold: a walk from start of at least two frames, ending at its name. */
  ghost predicate Sound(g: Links, start: string, p: Path)
  {
    |p.path| >= 2 && p.path[0] == start && p.name == p.path[|p.path| - 1] && IsWalk(g, p.path)
  }

  ghost predicate Queued(que: seq<Path>, s: seq<string>)
  {
    exists i :: 0 <= i < |que| && que[i].path == s
  }

  /** Some prefix of w, of at least two frames, is queued. */
  ghost predicate Covered(que: seq<Path>, w: seq<string>)
  {
    exists k :: 2 <= k <= |w| && Queued(que, w[..k])
  }

  ghost predicate Frontier(g: Links, start: string, end: string, que: seq<Path>)
  {
    && (forall i :: 0 <= i < |que| ==> Sound(g, start, que[i]))
    && (forall i, j :: 0 <= i <= j < |que| ==> |que[i].path| <= |que[j].path|)
    && (forall i :: 0 <= i < |que| ==> |que[i].path| <= |que[0].path| + 1)
    && (forall w :: DirectWalk(g, start, end, w) ==> Covered(que, w))
    && (!HasDirectWalk(g, start, end) ==>
          NoSecondHop(g, start) && forall i :: 0 <= i < |que| ==> |que[i].path| == 2)
  }

  // ---------------------------------------------------------------------
  // The termination measure

  ghost function Witness(g: Links, s: string, e: string): (w: seq<string>)
    requires HasDirectWalk(g, s, e)
    ensures DirectWalk(g, s, e, w)
  {
    var w :| DirectWalk(g, s, e, w); w
  }

  /** No record longer than this is ever at the front of the queue. */
  ghost function Bound(g: Links, s: string, e: string): nat
  {
    if HasDirectWalk(g, s, e) then |Witness(g, s, e)| else 2
  }

  ghost function Height(g: Links, s: string, e: string, que: seq<Path>): nat
  {
    if que == [] || |que[0].path| > Bound(g, s, e) then 0 else Bound(g, s, e) - |que[0].path|
  }

  /** The number of queued records with a path of n frames. */
  function Count(que: seq<Path>, n: nat): nat
  {
    if que == [] then 0 else (if |que[0].path| == n then 1 else 0) + Count(que[1..], n)
  }

  ghost function Level(que: seq<Path>): nat
  {
    if que == [] then 0 else Count(que, |que[0].path|)
  }

  lemma {:induction false} CountAppend(a: seq<Path>, b: seq<Path>, n: nat)
    ensures Count(a + b, n) == Count(a, n) + Count(b, n)
  {
    if a == [] {
      assert a + b == b;
    } else {
      assert (a + b)[1..] == a[1..] + b;
      CountAppend(a[1..], b, n);
    }
  }

  lemma {:induction false} CountNone(a: seq<Path>, n: nat)
    requires forall i :: 0 <= i < |a| ==> |a[i].path| != n
    ensures Count(a, n) == 0
  {
    if a != [] {
      CountNone(a[1..], n);
    }
  }

  // ---------------------------------------------------------------------
  // The invariant holds initially and is kept by every turn

  lemma FrontWithinBound(g: Links, start: string, end: string, que: seq<Path>)
    requires Frontier(g, start, end, que) && que != []
    ensures |que[0].path| <= Bound(g, start, end)
  {
    if HasDirectWalk(g, start, end) {
      var w := Witness(g, start, end);
      assert Covered(que, w);
      var k :| 2 <= k <= |w| && Queued(que, w[..k]);
      var i :| 0 <= i < |que| && que[i].path == w[..k];
      assert |que[0].path| <= |que[i].path|;
    }
  }

  lemma SeedsFrontier(g: Links, start: string, end: string)
    requires start != end && Terminates(g, start, end)
    ensures Frontier(g, start, end, Seeds(start, Neighbours(g, start)))
  {
    var cs := Neighbours(g, start);
    var que := Seeds(start, cs);
    forall i | 0 <= i < |que|
      ensures Sound(g, start, que[i])
    {
      assert que[i].path == [start, cs[i]];
    }
    forall w | DirectWalk(g, start, end, w)
      ensures Covered(que, w)
    {
      assert w[1] in cs;
      var j :| 0 <= j < |cs| && cs[j] == w[1];
      assert que[j].path == w[..2];
      assert Queued(que, w[..2]);
    }
    if !HasDirectWalk(g, start, end) {
      ReachableIffDirect(g, start, end);
    }
  }

  /** Popping a record that ends neither at start nor at end, when the start has no second hop, appends nothing. */
  lemma NoExtensionsBeyondSeeds(g: Links, start: string, p: Path)
    requires NoSecondHop(g, start) && Sound(g, start, p) && |p.path| == 2 && p.name != start
    ensures Extensions(p, Neighbours(g, p.name), [start]) == []
  {
    var ext := Extensions(p, Neighbours(g, p.name), [start]);
    assert p.name in Neighbours(g, start) by {
      assert p.path[1] in Neighbours(g, p.path[0]);
    }
    ExtensionsOnlyStart(p, Neighbours(g, p.name), [start]);
  }

  lemma {:induction false} ExtensionsOnlyStart(p: Path, cs: seq<string>, seen: seq<string>)
    requires forall c :: c in cs ==> c in seen
    ensures Extensions(p, cs, seen) == []
  {
    if cs != [] {
      var init := cs[..|cs| - 1];
      forall c | c in init
        ensures c in seen
      {
        var i :| 0 <= i < |init| && init[i] == c;
        assert cs[i] in cs;
      }
      assert cs[|cs| - 1] in cs;
      ExtensionsOnlyStart(p, init, seen);
    }
  }

  /** The records appended when a sound p is expanded are sound and one frame longer. */
  lemma ExtensionsSound(g: Links, start: string, p: Path)
    requires Sound(g, start, p)
    ensures forall q :: q in Extensions(p, Neighbours(g, p.name), [start]) ==>
      Sound(g, start, q) && |q.path| == |p.path| + 1
  {
    forall q | q in Extensions(p, Neighbours(g, p.name), [start])
      ensures Sound(g, start, q) && |q.path| == |p.path| + 1
    {
      var pp := q.path;
      assert pp == p.path + [q.name];
      forall j | 0 <= j < |pp| - 1
        ensures pp[j + 1] in Neighbours(g, pp[j])
      {
        if j < |p.path| - 1 {
          assert pp[j] == p.path[j] && pp[j + 1] == p.path[j + 1];
        }
      }
    }
  }

  /** The records after one turn are sound and still ordered by length, spanning at most two lengths. */
  lemma NextOrdered(g: Links, start: string, que: seq<Path>, ext: seq<Path>)
    requires que != []
    requires forall i :: 0 <= i < |que| ==> Sound(g, start, que[i])
    requires forall i, j :: 0 <= i <= j < |que| ==> |que[i].path| <= |que[j].path|
    requires forall i :: 0 <= i < |que| ==> |que[i].path| <= |que[0].path| + 1
    requires forall q :: q in ext ==> Sound(g, start, q) && |q.path| == |que[0].path| + 1
    ensures var next := que[1..] + ext;
      && (forall i :: 0 <= i < |next| ==> Sound(g, start, next[i]))
      && (forall i, j :: 0 <= i <= j < |next| ==> |next[i].path| <= |next[j].path|)
      && (forall i :: 0 <= i < |next| ==> |next[i].path| <= |next[0].path| + 1)
      && (next != [] ==> |que[0].path| <= |next[0].path|)
  {
    var next := que[1..] + ext;
    var n := |que| - 1;
    assert forall i :: 0 <= i < n ==> next[i] == que[i + 1];
    assert forall i :: n <= i < |next| ==> next[i] == ext[i - n] && next[i] in ext;
  }

  /** The queued prefix of each direct walk survives a turn or is extended by it. */
  lemma NextCovers(g: Links, start: string, end: string, que: seq<Path>, ext: seq<Path>, w: seq<string>)
    requires start != end && que != [] && Sound(g, start, que[0])
    requires que[0].name != end
    requires que[0].name != start ==> ext == Extensions(que[0], Neighbours(g, que[0].name), [start])
    requires DirectWalk(g, start, end, w) && Covered(que, w)
    ensures Covered(que[1..] + ext, w)
  {
    var p := que[0];
    var next := que[1..] + ext;
    var k :| 2 <= k <= |w| && Queued(que, w[..k]);
    var i :| 0 <= i < |que| && que[i].path == w[..k];
    if i > 0 {
      assert next[i - 1] == que[i];
      assert Queued(next, w[..k]);
    } else {
      FrontCovers(g, start, end, que, ext, w, k);
    }
  }

  /** When the front record is a prefix of w, its extension by w's next frame is queued. */
  lemma FrontCovers(g: Links, start: string, end: string, que: seq<Path>, ext: seq<Path>, w: seq<string>, k: nat)
    requires start != end && que != [] && Sound(g, start, que[0])
    requires que[0].name != end
    requires que[0].name != start ==> ext == Extensions(que[0], Neighbours(g, que[0].name), [start])
    requires DirectWalk(g, start, end, w) && 2 <= k <= |w| && que[0].path == w[..k]
    ensures Queued(que[1..] + ext, w[..k + 1])
  {
    var p := que[0];
    var next := que[1..] + ext;
    assert p.name == w[k - 1];
    var c := w[k];
    assert c in Neighbours(g, w[k - 1]);
    assert w[..k + 1] == p.path + [c];
    ExtensionsComplete(p, Neighbours(g, p.name), [start], c);
    QueuedAppend(que[1..], ext, Path(c, p.path + [c]));
  }

  /** A record of the appended part is queued in the whole. */
  lemma QueuedAppend(a: seq<Path>, b: seq<Path>, q: Path)
    requires q in b
    ensures Queued(a + b, q.path)
  {
    var j :| 0 <= j < |b| && b[j] == q;
    assert (a + b)[|a| + j] == q;
  }

  /** Replacing the front record by records one frame longer lowers the measure. */
  lemma MeasureDrops(g: Links, start: string, end: string, que: seq<Path>, ext: seq<Path>)
    requires que != []
    requires forall i :: 0 <= i < |que| ==> |que[0].path| <= |que[i].path| <= |que[0].path| + 1
    requires forall q :: q in ext ==> |q.path| == |que[0].path| + 1
    requires |que[0].path| <= Bound(g, start, end)
    requires que[1..] + ext != [] ==> |(que[1..] + ext)[0].path| <= Bound(g, start, end)
    ensures var next := que[1..] + ext;
      Height(g, start, end, next) < Height(g, start, end, que)
      || (Height(g, start, end, next) == Height(g, start, end, que) && Level(next) < Level(que))
  {
    var L := |que[0].path|;
    var next := que[1..] + ext;
    CountAppend(que[1..], ext, L);
    assert forall i :: 0 <= i < |ext| ==> ext[i] in ext;
    CountNone(ext, L);
    assert que == [que[0]] + que[1..];
    CountAppend([que[0]], que[1..], L);
    if next != [] {
      assert L <= |next[0].path| <= L + 1 by {
        if |que| > 1 {
          assert next[0] == que[1];
        } else {
          assert next[0] in ext;
        }
      }
    }
  }

  /** The invariant after a turn that pops p and appends ext. */
  lemma NextFrontier(g: Links, start: string, end: string, que: seq<Path>, ext: seq<Path>)
    requires start != end && Frontier(g, start, end, que) && que != []
    requires que[0].name != end
    requires ext == if que[0].name == start then [] else Extensions(que[0], Neighbours(g, que[0].name), [start])
    ensures Frontier(g, start, end, que[1..] + ext)
    ensures forall q :: q in ext ==> |q.path| == |que[0].path| + 1
    ensures que[1..] + ext != [] ==> |que[0].path| <= |(que[1..] + ext)[0].path|
  {
    var p := que[0];
    var next := que[1..] + ext;
    assert Sound(g, start, p);
    ExtensionsSound(g, start, p);
    NextOrdered(g, start, que, ext);
    NextCoversAll(g, start, end, que, ext);
    if !HasDirectWalk(g, start, end) {
      NextNoWalk(g, start, end, que, ext);
    }
  }

  /** Every direct walk stays covered after the turn. */
  lemma NextCoversAll(g: Links, start: string, end: string, que: seq<Path>, ext: seq<Path>)
    requires start != end && Frontier(g, start, end, que) && que != []
    requires que[0].name != end
    requires ext == if que[0].name == start then [] else Extensions(que[0], Neighbours(g, que[0].name), [start])
    ensures forall w :: DirectWalk(g, start, end, w) ==> Covered(que[1..] + ext, w)
  {
    assert Sound(g, start, que[0]);
    forall w | DirectWalk(g, start, end, w)
      ensures Covered(que[1..] + ext, w)
    {
      NextCovers(g, start, end, que, ext, w);
    }
  }

  /** Without a direct walk the queue holds only seeds, and a turn only drops one. */
  lemma NextNoWalk(g: Links, start: string, end: string, que: seq<Path>, ext: seq<Path>)
    requires start != end && Frontier(g, start, end, que) && que != [] && !HasDirectWalk(g, start, end)
    requires ext == if que[0].name == start then [] else Extensions(que[0], Neighbours(g, que[0].name), [start])
    ensures forall i :: 0 <= i < |que[1..] + ext| ==> |(que[1..] + ext)[i].path| == 2
  {
    var p := que[0];
    assert Sound(g, start, p);
    if p.name != start {
      NoExtensionsBeyondSeeds(g, start, p);
    }
    assert que[1..] + ext == que[1..];
  }

  /** Every turn that keeps searching keeps the invariant and lowers the measure. */
  lemma StepPreserves(g: Links, start: string, end: string, que: seq<Path>)
    requires start != end && Frontier(g, start, end, que)
    requires Step(g, start, end, que).Searching?
    ensures var next := Step(g, start, end, que).queue;
      && Frontier(g, start, end, next)
      && (Height(g, start, end, next) < Height(g, start, end, que)
          || (Height(g, start, end, next) == Height(g, start, end, que) && Level(next) < Level(que)))
  {
    var p := que[0];
    var ext := if p.name == start then [] else Extensions(p, Neighbours(g, p.name), [start]);
    assert Step(g, start, end, que).queue == que[1..] + ext;
    NextFrontier(g, start, end, que, ext);
    FrontWithinBound(g, start, end, que);
    if que[1..] + ext != [] {
      FrontWithinBound(g, start, end, que[1..] + ext);
    }
    MeasureDrops(g, start, end, que, ext);
  }

  /** When the front record ends at end, its path is a fewest-hops walk from start to end. */
  lemma DoneIsShortest(g: Links, start: string, end: string, que: seq<Path>)
    requires start != end && Frontier(g, start, end, que)
    requires que != [] && que[0].name == end
    ensures var r := que[0].path;
      |r| >= 2 && WalkFromTo(g, start, end, r)
      && forall w :: WalkFromTo(g, start, end, w) ==> |r| <= |w|
  {
    assert Sound(g, start, que[0]);
    forall w | WalkFromTo(g, start, end, w)
      ensures |que[0].path| <= |w|
    {
      Shortcut(g, start, end, w);
      var v :| DirectWalk(g, start, end, v) && |v| <= |w|;
      assert Covered(que, v);
      var k :| 2 <= k <= |v| && Queued(que, v[..k]);
      var i :| 0 <= i < |que| && que[i].path == v[..k];
      assert |que[0].path| <= |que[i].path|;
    }
  }

  /**
   * Runs the loop to completion. The result is a fewest-hops walk from
   * start to end, or [start] exactly when end cannot be reached.
   */
  function Explore(g: Links, start: string, end: string, que: seq<Path>): (r: seq<string>)
    requires start != end && Frontier(g, start, end, que)
    ensures |r| >= 2 ==>
      WalkFromTo(g, start, end, r) && forall w :: WalkFromTo(g, start, end, w) ==> |r| <= |w|
    ensures |r| < 2 ==> r == [start] && !Reachable(g, start, end)
    decreases Height(g, start, end, que), Level(que)
  {
    match Step(g, start, end, que)
    case Done(r) =>
      if que == [] then
        ReachableIffDirect(g, start, end);
        r
      else
        DoneIsShortest(g, start, end, que);
        r
    case Searching(next) =>
      StepPreserves(g, start, end, que);
      Explore(g, start, end, next)
  }

  // ---------------------------------------------------------------------
  // When the loop ends, and when it does not

  /** Running one turn and then n more is running n turns from the queue the first turn left. */
  lemma {:induction false} RunShift(g: Links, start: string, end: string, q0: seq<Path>, q1: seq<Path>, n: nat)
    requires Step(g, start, end, q0) == Searching(q1)
    ensures Run(g, start, end, q0, n + 1) == Run(g, start, end, q1, n)
  {
    if n > 0 {
      RunShift(g, start, end, q0, q1, n - 1);
    }
  }

  /** From a queue satisfying the invariant, the loop stops after finitely many turns, returning Explore's answer. */
  lemma {:induction false} ExploreRuns(g: Links, start: string, end: string, que: seq<Path>)
    requires start != end && Frontier(g, start, end, que)
    ensures exists n: nat :: Run(g, start, end, que, n) == Done(Explore(g, start, end, que))
    decreases Height(g, start, end, que), Level(que)
  {
    match Step(g, start, end, que)
    case Done(r) =>
      assert Run(g, start, end, que, 1) == Done(Explore(g, start, end, que));
    case Searching(next) =>
      StepPreserves(g, start, end, que);
      ExploreRuns(g, start, end, next);
      var n: nat :| Run(g, start, end, next, n) == Done(Explore(g, start, end, next));
      RunShift(g, start, end, que, next, n);
  }

  /** Once the loop has stopped it stays stopped, with the same answer. */
  lemma {:induction false} RunStaysDone(g: Links, start: string, end: string, q0: seq<Path>, n: nat, m: nat)
    requires n <= m && Run(g, start, end, q0, n).Done?
    ensures Run(g, start, end, q0, m) == Run(g, start, end, q0, n)
    decreases m - n
  {
    if n < m {
      RunStaysDone(g, start, end, q0, n, m - 1);
    }
  }

  /** Whenever the loop has stopped from a queue satisfying the invariant, it stopped with Explore's answer. */
  lemma RunAnswer(g: Links, start: string, end: string, que: seq<Path>, n: nat)
    requires start != end && Frontier(g, start, end, que)
    requires Run(g, start, end, que, n).Done?
    ensures Run(g, start, end, que, n) == Done(Explore(g, start, end, que))
  {
    ExploreRuns(g, start, end, que);
    var m: nat :| Run(g, start, end, que, m) == Done(Explore(g, start, end, que));
    if n <= m {
      RunStaysDone(g, start, end, que, n, m);
    } else {
      RunStaysDone(g, start, end, que, m, n);
    }
  }

  /**
   * What findPath returns: [start] for the same frame twice; otherwise the
   * answer its loop stops with (SearchPathShortest says what that is).
   */
  ghost function SearchPath(g: Links, start: string, end: string): (r: seq<string>)
    requires Terminates(g, start, end)
    ensures start == end ==> r == [start]
    ensures start != end ==> exists n: nat :: Run(g, start, end, Seeds(start, Neighbours(g, start)), n) == Done(r)
  {
    if start == end then [start]
    else
      var seeds := Seeds(start, Neighbours(g, start));
      SeedsFrontier(g, start, end);
      ExploreRuns(g, start, end, seeds);
      var n: nat :| Run(g, start, end, seeds, n).Done?;
      RunAnswer(g, start, end, seeds, n);
      Run(g, start, end, seeds, n).result
  }

  /**
   * findPath's answer for two different frames is a fewest-hops walk from
   * start to end, or [start] exactly when end cannot be reached.
   */
  lemma SearchPathShortest(g: Links, start: string, end: string)
    requires start != end && Terminates(g, start, end)
    ensures var r := SearchPath(g, start, end);
      Reachable(g, start, end) ==>
        |r| >= 2 && WalkFromTo(g, start, end, r) && forall w :: WalkFromTo(g, start, end, w) ==> |r| <= |w|
    ensures !Reachable(g, start, end) ==> SearchPath(g, start, end) == [start]
  {
    var seeds := Seeds(start, Neighbours(g, start));
    SeedsFrontier(g, start, end);
    var n: nat :| Run(g, start, end, seeds, n) == Done(SearchPath(g, start, end));
    RunAnswer(g, start, end, seeds, n);
  }

  /**
   * One turn of the loop as the methods run it, from the seeds of a call
   * that stops after total turns with SearchPath's answer: the turn is
   * one of those, and if it stops the loop it returns that answer.
   */
  lemma RunTurn(g: Links, start: string, end: string, n: nat, total: nat, que: seq<Path>)
    requires start != end && Terminates(g, start, end)
    requires Run(g, start, end, Seeds(start, Neighbours(g, start)), total) == Done(SearchPath(g, start, end))
    requires Run(g, start, end, Seeds(start, Neighbours(g, start)), n) == Searching(que)
    ensures n < total
    ensures Run(g, start, end, Seeds(start, Neighbours(g, start)), n + 1) == Step(g, start, end, que)
    ensures Step(g, start, end, que).Done? ==> Step(g, start, end, que).result == SearchPath(g, start, end)
  {
    var seeds := Seeds(start, Neighbours(g, start));
    if total <= n {
      RunStaysDone(g, start, end, seeds, total, n);
    }
    if Step(g, start, end, que).Done? {
      RunStaysDone(g, start, end, seeds, n + 1, total);
    }
  }

  /**
   * The loop from the seeds, n turns in, holds que and will answer
   * SearchPath at turn total.
   */
  ghost predicate Midway(g: Links, start: string, end: string, n: nat, total: nat, que: seq<Path>)
  {
    start != end && Terminates(g, start, end) && n <= total &&
    Run(g, start, end, Seeds(start, Neighbours(g, start)), total) == Done(SearchPath(g, start, end)) &&
    Run(g, start, end, Seeds(start, Neighbours(g, start)), n) == Searching(que)
  }

  /** The loop from the seeds is midway at turn 0, for some last turn. */
  lemma MidwayAtSeeds(g: Links, start: string, end: string) returns (total: nat)
    requires start != end && Terminates(g, start, end)
    ensures Midway(g, start, end, 0, total, Seeds(start, Neighbours(g, start)))
  {
    total :| Run(g, start, end, Seeds(start, Neighbours(g, start)), total) == Done(SearchPath(g, start, end));
  }

  /** A loop whose queue runs empty answers [start]. */
  lemma RunDrained(g: Links, start: string, end: string, n: nat, total: nat)
    requires start != end && Terminates(g, start, end)
    requires Run(g, start, end, Seeds(start, Neighbours(g, start)), total) == Done(SearchPath(g, start, end))
    requires Run(g, start, end, Seeds(start, Neighbours(g, start)), n) == Searching([])
    ensures SearchPath(g, start, end) == [start]
  {
    RunTurn(g, start, end, n, total, []);
  }

  /** Every record the loop holds, started from the seeds, is a sound record. */
  lemma {:induction false} RunSound(g: Links, start: string, end: string, n: nat)
    ensures var st := Run(g, start, end, Seeds(start, Neighbours(g, start)), n);
      st.Searching? ==> forall p :: p in st.queue ==> Sound(g, start, p)
  {
    var cs := Neighbours(g, start);
    var seeds := Seeds(start, cs);
    if n == 0 {
      forall p | p in seeds
        ensures Sound(g, start, p)
      {
        var i :| 0 <= i < |seeds| && seeds[i] == p;
        assert p.path == [start, cs[i]];
      }
    } else {
      RunSound(g, start, end, n - 1);
      var st := Run(g, start, end, seeds, n - 1);
      if st.Searching? && st.queue != [] {
        var que := st.queue;
        var p := que[0];
        assert Sound(g, start, p);
        ExtensionsSound(g, start, p);
        assert forall q :: q in que[1..] ==> q in que;
      }
    }
  }

  /** Every record the search holds ends at a name some frame lists. */
  lemma SoundListed(g: Links, start: string, p: Path)
    requires Sound(g, start, p)
    ensures p.name in Listed(g)
  {
    var k := |p.path| - 2;
    var a := p.path[k];
    assert p.name in Neighbours(g, a);
    assert a in g && p.name in g[a];
  }

  /** The record at the front of any turn of findPath's loop ends at a name some frame lists. */
  lemma FrontListed(g: Links, start: string, end: string, n: nat, que: seq<Path>)
    requires que != []
    requires Run(g, start, end, Seeds(start, Neighbours(g, start)), n) == Searching(que)
    ensures que[0].name in Listed(g)
  {
    RunSound(g, start, end, n);
    SoundListed(g, start, que[0]);
  }

  /** A record the search never drops: it leaves start and can step on to a frame other than start. */
  ghost predicate Live(g: Links, start: string, p: Path)
  {
    Sound(g, start, p) && p.name != start && exists y :: y in Neighbours(g, p.name) && y != start
  }

  ghost predicate KeepsGoing(g: Links, start: string, que: seq<Path>)
  {
    (forall i :: 0 <= i < |que| ==> Sound(g, start, que[i])) && exists i :: 0 <= i < |que| && Live(g, start, que[i])
  }

  /**
   * On a graph whose links are answered, a live record has a live
   * extension: it steps on to a frame other than start, which lists the
   * record's frame back or lists itself.
   */
  lemma LiveExtends(g: Links, start: string, p: Path) returns (q: Path)
    requires Answered(g) && Live(g, start, p)
    ensures q in Extensions(p, Neighbours(g, p.name), [start]) && Live(g, start, q)
  {
    var y :| y in Neighbours(g, p.name) && y != start;
    q := Path(y, p.path + [y]);
    ExtensionsComplete(p, Neighbours(g, p.name), [start], y);
    ExtensionsSound(g, start, p);
    if p.name !in Neighbours(g, y) {
      assert y in Neighbours(g, y);
    }
  }

  /** A turn from a queue of sound records with a live one, whose front is not end, keeps searching with such a queue. */
  lemma StepKeepsGoing(g: Links, start: string, end: string, que: seq<Path>)
    requires Answered(g) && start != end && KeepsGoing(g, start, que) && que[0].name != end
    ensures Step(g, start, end, que).Searching?
    ensures KeepsGoing(g, start, Step(g, start, end, que).queue)
  {
    var i :| 0 <= i < |que| && Live(g, start, que[i]);
    var p := que[0];
    assert Sound(g, start, p);
    var ext := if p.name == start then [] else Extensions(p, Neighbours(g, p.name), [start]);
    var next := que[1..] + ext;
    assert Step(g, start, end, que) == Searching(next);
    ExtensionsSound(g, start, p);
    NextSound(g, start, que, ext);
    if i > 0 {
      assert next[i - 1] == que[i];
    } else {
      var q := LiveExtends(g, start, p);
      assert q in next;
    }
  }

  /** Dropping the front record and appending sound records leaves only sound records. */
  lemma NextSound(g: Links, start: string, que: seq<Path>, ext: seq<Path>)
    requires que != [] && forall i :: 0 <= i < |que| ==> Sound(g, start, que[i])
    requires forall q :: q in ext ==> Sound(g, start, q)
    ensures forall j :: 0 <= j < |que[1..] + ext| ==> Sound(g, start, (que[1..] + ext)[j])
  {
    var next := que[1..] + ext;
    forall j | 0 <= j < |next|
      ensures Sound(g, start, next[j])
    {
      if j < |que| - 1 {
        assert next[j] == que[j + 1];
      } else {
        assert next[j] in ext;
      }
    }
  }

  /** A sound record cannot end at end when end cannot be reached. */
  lemma SoundNotEnd(g: Links, start: string, end: string, p: Path)
    requires Sound(g, start, p) && !Reachable(g, start, end)
    ensures p.name != end
  {
    if p.name == end {
      assert WalkFromTo(g, start, end, p.path);
    }
  }

  /** A queue that keeps going has a front record, and it is not end when end is out of reach. */
  lemma FrontNotEnd(g: Links, start: string, end: string, que: seq<Path>)
    requires KeepsGoing(g, start, que) && !Reachable(g, start, end)
    ensures que != [] && que[0].name != end
  {
    var i :| 0 <= i < |que| && Live(g, start, que[i]);
    SoundNotEnd(g, start, end, que[0]);
  }

  /** With end out of reach, a turn from a queue that keeps going keeps searching with such a queue. */
  lemma UnreachableStep(g: Links, start: string, end: string, que: seq<Path>)
    requires Answered(g) && start != end && !Reachable(g, start, end) && KeepsGoing(g, start, que)
    ensures Step(g, start, end, que).Searching?
    ensures KeepsGoing(g, start, Step(g, start, end, que).queue)
  {
    FrontNotEnd(g, start, end, que);
    StepKeepsGoing(g, start, end, que);
  }

  /** Any property of queues that every turn keeps holds after any number of turns, which all keep searching. */
  lemma {:induction false} RunKeeps(g: Links, start: string, end: string, q0: seq<Path>, n: nat, inv: seq<Path> -> bool)
    requires inv(q0)
    requires forall q :: inv(q) ==> Step(g, start, end, q).Searching? && inv(Step(g, start, end, q).queue)
    ensures Run(g, start, end, q0, n).Searching? && inv(Run(g, start, end, q0, n).queue)
  {
    if n > 0 {
      RunKeeps(g, start, end, q0, n - 1, inv);
    }
  }

  lemma RunKeepsGoing(g: Links, start: string, end: string, q0: seq<Path>, n: nat)
    requires Answered(g) && start != end && !Reachable(g, start, end) && KeepsGoing(g, start, q0)
    ensures Run(g, start, end, q0, n).Searching?
    ensures KeepsGoing(g, start, Run(g, start, end, q0, n).queue)
  {
    var inv := q => KeepsGoing(g, start, q);
    forall q | inv(q)
      ensures Step(g, start, end, q).Searching? && inv(Step(g, start, end, q).queue)
    {
      UnreachableStep(g, start, end, q);
    }
    RunKeeps(g, start, end, q0, n, inv);
  }

  /**
   * On a graph whose every link is answered (stored both ways, or its
   * target lists itself), every call outside Terminates never stops:
   * after any number of turns the loop is still searching with a
   * non-empty queue (the records keep stepping between frames other than
   * start, which is the only frame ever marked researched).
   */
  lemma SearchDiverges(g: Links, start: string, end: string, n: nat)
    requires Answered(g) && !Terminates(g, start, end)
    ensures Run(g, start, end, Seeds(start, Neighbours(g, start)), n).Searching?
    ensures Run(g, start, end, Seeds(start, Neighbours(g, start)), n).queue != []
  {
    var cs := Neighbours(g, start);
    var que := Seeds(start, cs);
    var m, c :| m in cs && m != start && c in Neighbours(g, m) && c != start;
    var j :| 0 <= j < |cs| && cs[j] == m;
    assert que[j] == Path(m, [start, m]);
    assert Live(g, start, que[j]);
    forall i | 0 <= i < |que|
      ensures Sound(g, start, que[i])
    {
      assert que[i].path == [start, cs[i]];
    }
    RunKeepsGoing(g, start, end, que, n);
  }
}
