/**
 * The robot-arm scene: a gripper held by the base, a bottle seen by the
 * base, and a camera looking at the bottle. Whatever the three stored
 * transforms are, the transform from gripper to camera that getTransForm
 * computes is Tbg^-1 * Tbw * Tcw^-1, after the identity it starts from.
 */
module Scenario {
  import opened Matrices
  import opened Graph
  import opened PathSearch
  import opened Transforms

  /** The map after pushing base->grapper, camera->bottle and base->bottle, in that order. */
  function Scene(tbg: Matrix4, tcw: Matrix4, tbw: Matrix4): FrameMap
  {
    Pushed(Pushed(Pushed(map[], "base", "grapper", tbg), "camera", "bottle", tcw), "base", "bottle", tbw)
  }

  lemma NamesDiffer()
    ensures "base" != "grapper" && "base" != "camera" && "base" != "bottle"
    ensures "grapper" != "camera" && "grapper" != "bottle" && "camera" != "bottle"
  {
    assert |"base"| == 4 && |"grapper"| == 7 && |"camera"| == 6 && |"bottle"| == 6;
    assert "camera"[0] != "bottle"[0];
  }

  /** The records of each frame after the three pushes, in list order. */
  function SceneRecords(tbg: Matrix4, tcw: Matrix4, tbw: Matrix4): FrameMap
  {
    map[
      "base" := [Child("grapper", tbg), Child("bottle", tbw)],
      "grapper" := [Child("base", Inverse(tbg))],
      "camera" := [Child("bottle", tcw)],
      "bottle" := [Child("camera", Inverse(tcw)), Child("base", Inverse(tbw))]]
  }

  /** The scene through names: the links base-grapper, camera-bottle and base-bottle, both ways. */
  const SceneLinks: Links :=
    map["base" := ["grapper", "bottle"], "grapper" := ["base"], "camera" := ["bottle"], "bottle" := ["camera", "base"]]

  lemma FirstPush(tbg: Matrix4)
    ensures Pushed(map[], "base", "grapper", tbg)
      == map["base" := [Child("grapper", tbg)], "grapper" := [Child("base", Inverse(tbg))]]
  {
    NamesDiffer();
  }

  lemma SecondPush(tbg: Matrix4, tcw: Matrix4)
    ensures Pushed(map["base" := [Child("grapper", tbg)], "grapper" := [Child("base", Inverse(tbg))]], "camera", "bottle", tcw)
      == map["base" := [Child("grapper", tbg)], "grapper" := [Child("base", Inverse(tbg))],
             "camera" := [Child("bottle", tcw)], "bottle" := [Child("camera", Inverse(tcw))]]
  {
    NamesDiffer();
  }

  lemma ThirdPush(m: FrameMap, tbg: Matrix4, tcw: Matrix4, tbw: Matrix4)
    requires m == map["base" := [Child("grapper", tbg)], "grapper" := [Child("base", Inverse(tbg))],
                      "camera" := [Child("bottle", tcw)], "bottle" := [Child("camera", Inverse(tcw))]]
    ensures Pushed(m, "base", "bottle", tbw) == SceneRecords(tbg, tcw, tbw)
  {
    NamesDiffer();
    PushUpsertsBothSides(m, "base", "bottle", tbw);
    assert NamesOf(m["base"]) == ["grapper"];
    assert NamesOf(m["bottle"]) == ["camera"];
    assert Upsert(m["base"], "bottle", tbw) == [Child("grapper", tbg), Child("bottle", tbw)];
    assert Upsert(m["bottle"], "base", Inverse(tbw)) == [Child("camera", Inverse(tcw)), Child("base", Inverse(tbw))];
  }

  /** The three pushes leave the scene's records. */
  lemma SceneIsRecords(tbg: Matrix4, tcw: Matrix4, tbw: Matrix4)
    ensures Scene(tbg, tcw, tbw) == SceneRecords(tbg, tcw, tbw)
  {
    FirstPush(tbg);
    SecondPush(tbg, tcw);
    ThirdPush(Pushed(Pushed(map[], "base", "grapper", tbg), "camera", "bottle", tcw), tbg, tcw, tbw);
  }

  /** Seen through names, the scene's records are the scene's links. */
  lemma SceneGraph(tbg: Matrix4, tcw: Matrix4, tbw: Matrix4)
    ensures NameGraph(SceneRecords(tbg, tcw, tbw)) == SceneLinks
  {
    var m := SceneRecords(tbg, tcw, tbw);
    assert NamesOf(m["base"]) == ["grapper", "bottle"];
    assert NamesOf(m["bottle"]) == ["camera", "base"];
    assert NamesOf(m["grapper"]) == ["base"];
    assert NamesOf(m["camera"]) == ["bottle"];
  }

  /** The only walk of at most four frames from grapper to camera goes through base and bottle. */
  lemma OnlyShortWalk(v: seq<string>)
    requires WalkFromTo(SceneLinks, "grapper", "camera", v) && |v| <= 4
    ensures v == ["grapper", "base", "bottle", "camera"]
  {
    NamesDiffer();
    var g := SceneLinks;
    assert v[1] in Neighbours(g, v[0]);
    assert v[1] == "base";
    assert v[2] in Neighbours(g, v[1]);
    assert v[3] in Neighbours(g, v[2]);
  }

  /** findPath("grapper", "camera") on the scene's links returns grapper, base, bottle, camera. */
  lemma ScenePath()
    ensures Terminates(SceneLinks, "grapper", "camera")
    ensures SearchPath(SceneLinks, "grapper", "camera") == ["grapper", "base", "bottle", "camera"]
  {
    var g := SceneLinks;
    NamesDiffer();
    assert WalkFromTo(g, "grapper", "camera", ["grapper", "base", "bottle", "camera"]);
    SearchPathShortest(g, "grapper", "camera");
    OnlyShortWalk(SearchPath(g, "grapper", "camera"));
  }

  /** getTransForm's product along grapper, base, bottle, camera over the scene's records. */
  lemma SceneCompose(m: FrameMap, tbg: Matrix4, tcw: Matrix4, tbw: Matrix4)
    requires m == SceneRecords(tbg, tcw, tbw)
    ensures Compose(m, ["grapper", "base", "bottle", "camera"]) == Mul(Mul(Mul(Identity, Inverse(tbg)), tbw), Inverse(tcw))
  {
    NamesDiffer();
    var w1, w2, w3, w4 := ["grapper"], ["grapper", "base"], ["grapper", "base", "bottle"], ["grapper", "base", "bottle", "camera"];
    assert w2[..1] == w1 && w3[..2] == w2 && w4[..3] == w3;
    assert Compose(m, w1) == Identity;
    var c1 := Compose(m, w2);
    assert c1 == MulMatching(Identity, m["grapper"], "base");
    MulMatchingOne(Identity, m["grapper"], "base", 0);
    var c2 := Compose(m, w3);
    assert c2 == MulMatching(c1, m["base"], "bottle");
    MulMatchingOne(c1, m["base"], "bottle", 1);
    assert Compose(m, w4) == MulMatching(c2, m["bottle"], "camera");
    MulMatchingOne(c2, m["bottle"], "camera", 0);
  }

  /**
   * getTransForm("grapper", "camera") on the scene finds the path
   * grapper, base, bottle, camera and returns Tbg^-1 * Tbw * Tcw^-1.
   */
  lemma GrapperToCamera(tbg: Matrix4, tcw: Matrix4, tbw: Matrix4)
    ensures var m := Scene(tbg, tcw, tbw);
      && Terminates(NameGraph(m), "grapper", "camera")
      && Compose(m, SearchPath(NameGraph(m), "grapper", "camera"))
        == Mul(Mul(Mul(Identity, Inverse(tbg)), tbw), Inverse(tcw))
  {
    SceneIsRecords(tbg, tcw, tbw);
    SceneGraph(tbg, tcw, tbw);
    ScenePath();
    SceneCompose(Scene(tbg, tcw, tbw), tbg, tcw, tbw);
  }
}
