# transforms3d frame graph in Dafny

A model of the frame graph of the transforms3d library: named coordinate
frames joined by stored 4x4 transforms, a breadth-first search for a chain
of frames between two of them, and the product of the transforms along
that chain. The library has two copies of this graph, and the model
covers both:

- **TransFormsGroup** (`trans_forms_group.dfy`, module `Transforms`). The
  map `tfg` takes a frame name to its ordered list of records
  `{name, t}`.
  - `pushTransForm` stores an edge both ways, with the transform one way
    and its inverse the other.
  - `findPath` searches the graph breadth-first.
  - `getTransForm` multiplies the stored transforms along the path it
    finds.
- **BaseGroup** (`base_group.dfy`, module `Groups`). This is the same
  graph without payloads.
  - A `BaseGroupChild` record carries only a frame name, so `m_childs` is
    modelled as frame name to the names of its records.
  - `addChild` stores a link, and its back link unless the child lists
    itself. `findPath` is the same search.

The other files:

- `graph.dfy` (module `Graph`) defines the name-level view that both
  searches read: neighbours, walks, reachability, and links stored both
  ways.
- `path_search.dfy` (module `PathSearch`) states the search once, as
  specification functions (`Step`, `Run`, `Explore`, `SearchPath`). It
  also proves the search's invariant: every queued record is a walk from
  the start, the queue is ordered by length, and every start-avoiding
  walk to the end has a queued prefix.
- `matrices.dfy` (module `Matrices`) keeps transforms symbolic. A
  transform is a term over:
  - the identity;
  - matrices given by the caller;
  - the Euler and quaternion composition helpers;
  - product and inverse.
- `scenario.dfy` (module `Scenario`) replays the gripper/bottle/camera
  scene of `tests/transforms_group_test.cpp` for arbitrary transforms.

Every method that changes the map is a method of the class. Each one is
proved against a function of the old map: `Pushed`, `Added`, or
`SearchPath` together with the map that findPath leaves behind. The
properties are lemmas about those functions. Both `findPath` loops are
proved against the single `Run`/`SearchPath` specification: a ghost count
of remaining turns decreases on every pass.

Each class keeps a ghost invariant `Valid()`, which its constructor
establishes and every method preserves:

- For TransFormsGroup, no list names a neighbour twice, every record
  naming another frame has a companion holding the inverse, every link is
  stored both ways, and every listed neighbour is a frame. A self record
  A to A has no such companion: after pushTransForm(A, A, M) it holds
  the inverse of M.
- For BaseGroup, every link is answered, and every listed neighbour is a
  frame. A link a to b is answered when b lists a, or b lists itself.
  addChild as written can leave a link without its back record, but
  only when the child lists itself.

Three behaviours of the search follow from the code:

- `researched` is seeded with the start frame and never extended. No
  other frame is ever marked visited.
- When the queue empties, the search returns exactly `[start]`.
- Some searches never stop (see `PathSearch.SearchDiverges`).

## Model

| member | source | states |
|---|---|---|
| Graph.Shortcut | include/transforms3d/trans_forms_group-inl.h:179-184 | a walk from start to end can be cut at its last visit of start into one that never returns to start and is no longer, which is why filtering only start never loses a shortest answer |
| Graph.ReachableIffDirect | include/transforms3d/trans_forms_group-inl.h:179-196 | end is reachable from start exactly when a walk reaches it without passing start again |
| PathSearch.Seeds | include/transforms3d/trans_forms_group-inl.h:159-162 | the seeding loop: one record per stored neighbour of start, each the two-frame path from start to that neighbour (SeedsFrontier gives the seeds' meaning for the search) |
| PathSearch.Extensions | include/transforms3d/trans_forms_group-inl.h:186-196 | every record appended on expanding p is p's path plus one neighbour that is not in researched, named by that neighbour |
| PathSearch.ExtensionsComplete | include/transforms3d/trans_forms_group-inl.h:186-196 | every neighbour not in researched gets its extended record |
| PathSearch.ExtensionsPrefix | include/transforms3d/trans_forms_group-inl.h:186-196 | records are appended in the order of the neighbour list, one per neighbour at most |
| PathSearch.Step | include/transforms3d/trans_forms_group-inl.h:164-198 | one pass of the loop body; a pass that returns answers [start] or the popped record's path, which ends at end (StepPreserves and DoneIsShortest give its meaning) |
| PathSearch.Run | include/transforms3d/trans_forms_group-inl.h:163-200 | the while loop as n passes of Step from a queue; it cannot have returned before its first pass (RunStaysDone, RunAnswer and RunTurn give its meaning) |
| PathSearch.SeedsFrontier | include/transforms3d/trans_forms_group-inl.h:157-162 | the seeded queue meets the search invariant: sound walks from start, ordered by length, within one hop of the front, every start-avoiding walk to end has a queued prefix |
| PathSearch.NoExtensionsBeyondSeeds | include/transforms3d/trans_forms_group-inl.h:186-196 | when no frame two hops from start differs from start, expanding a seed queues nothing |
| PathSearch.StepPreserves | include/transforms3d/trans_forms_group-inl.h:163-200 | a turn that keeps searching keeps the invariant and lowers the termination measure (front length, then count at that length) |
| PathSearch.DoneIsShortest | include/transforms3d/trans_forms_group-inl.h:182-184 | when the popped record ends at end, its path is a walk from start to end with the fewest frames of any such walk |
| PathSearch.Explore | include/transforms3d/trans_forms_group-inl.h:163-202 | from an invariant queue the loop returns a fewest-hops walk from start to end, or exactly [start] when end is unreachable |
| PathSearch.ExploreRuns | include/transforms3d/trans_forms_group-inl.h:163-200 | from an invariant queue the loop stops after finitely many turns with Explore's answer |
| PathSearch.RunStaysDone | include/transforms3d/trans_forms_group-inl.h:182-184 | once the loop has returned, later turns change nothing |
| PathSearch.RunAnswer | include/transforms3d/trans_forms_group-inl.h:163-202 | whenever the loop has stopped, it stopped with Explore's answer |
| PathSearch.SearchPath | include/transforms3d/trans_forms_group-inl.h:153-203 | findPath returns [start] when start equals end, and otherwise the answer at which the loop, run from the seeds, stops |
| PathSearch.SearchPathShortest | include/transforms3d/trans_forms_group-inl.h:157-202 | for two different frames the answer is a fewest-hops walk from start to end when end is reachable, and exactly [start] when it is not |
| PathSearch.RunTurn | include/transforms3d/trans_forms_group-inl.h:163-200 | each pass of a method's loop is the next turn of the specified run, and a pass that returns returns SearchPath's answer |
| PathSearch.MidwayAtSeeds | include/transforms3d/trans_forms_group-inl.h:157-163 | before the first pass, with start not equal to end, the loop holds the seeds and some later turn gives SearchPath's answer |
| PathSearch.RunDrained | include/transforms3d/trans_forms_group-inl.h:163-202 | a loop whose queue runs empty means that SearchPath is exactly [start] |
| PathSearch.SoundListed | include/transforms3d/trans_forms_group-inl.h:186-196 | the name of every queued record is a neighbour listed by some frame |
| PathSearch.FrontListed | include/transforms3d/trans_forms_group-inl.h:164-186 | the record the loop pops is named by some frame's list, so the map lookup at line 186 only inserts such names |
| PathSearch.RunSound | include/transforms3d/trans_forms_group-inl.h:159-196 | every record the loop ever holds is a walk of two or more frames from start ending at its name |
| PathSearch.StepKeepsGoing | include/transforms3d/trans_forms_group-inl.h:177-196 | when every link is answered, a turn from a queue holding a record that can step on to a frame other than start keeps such a record |
| PathSearch.RunKeeps | include/transforms3d/trans_forms_group-inl.h:163-200 | a property of queues that every turn keeps holds after any number of turns, all of which keep searching |
| PathSearch.RunKeepsGoing | include/transforms3d/trans_forms_group-inl.h:163-200 | when end is unreachable and every link is answered, a queue with a live record keeps the loop searching forever |
| PathSearch.SearchDiverges | include/transforms3d/trans_forms_group-inl.h:157-200 | when every link is answered (stored both ways, or its target lists itself), every call with start not equal to end where end is unreachable and start has a second hop never returns |
| Transforms.Pushed | include/transforms3d/trans_forms_group-inl.h:61-125 | the map after pushTransForm: exactly the frames parent and child are added (PushedAsUpserts, PushStoresBothDirections, PushUpdatesOrAppends, PushKeepsOthers and the Push lemmas give its meaning) |
| Transforms.Upsert | include/transforms3d/trans_forms_group-inl.h:69-85 | after storing (name, t) the list holds that record, every record named name has t, every other record is unchanged at its index, the names are unchanged if name was listed and otherwise name is appended |
| Transforms.PushedAsUpserts | include/transforms3d/trans_forms_group-inl.h:64-123 | whether or not either frame existed, pushTransForm upserts (child, M) into parent's list and then (parent, M^-1) into child's list of the result |
| Transforms.PushUpsertsBothSides | include/transforms3d/trans_forms_group-inl.h:64-123 | for two distinct frames, the two upserts act on the old lists independently |
| Transforms.PushStoresBothDirections | include/transforms3d/trans_forms_group-inl.h:63-123 | after pushTransForm(P, C, M) with P != C both are frames, P's records for C all hold M and C's records for P all hold M^-1 |
| Transforms.PushUpdatesOrAppends | include/transforms3d/trans_forms_group-inl.h:69-114 | a listed neighbour is updated in place (same names, same order, other records untouched); an unlisted one is appended after the unchanged old records, on both sides |
| Transforms.PushSelfEdgeInverted | include/transforms3d/trans_forms_group-inl.h:98-123 | pushTransForm(A, A, M) leaves A's self-records holding M^-1 and every other frame unchanged |
| Transforms.PushKeepsNoDuplicates | include/transforms3d/trans_forms_group-inl.h:72-122 | if no list names a neighbour twice before pushTransForm, none does after it |
| Transforms.UpsertKeepsDistinct | include/transforms3d/trans_forms_group-inl.h:72-85 | an upsert keeps a list free of repeated names |
| Transforms.PushLinks | include/transforms3d/trans_forms_group-inl.h:60-125 | at the level of names, pushTransForm adds exactly the frames P and C and the links P to C and C to P |
| Transforms.PushKeepsSymmetricAndClosed | include/transforms3d/trans_forms_group-inl.h:60-125 | pushTransForm keeps every link stored both ways and every listed neighbour a frame |
| Transforms.PushKeepsPaired | include/transforms3d/trans_forms_group-inl.h:60-125 | pushTransForm keeps every record a to b (a != b) matched by a record b to a holding the inverse transform |
| Transforms.PushKeepsOthers | include/transforms3d/trans_forms_group-inl.h:61-125 | pushTransForm leaves every frame other than P and C as it was, present or absent |
| Transforms.EmptyMapInvariants | include/transforms3d/transforms3d.h:198 | the empty map of a new group has no duplicates, is paired, is stored both ways and is closed |
| Transforms.EmptyAddedKeepsInvariants | include/transforms3d/trans_forms_group-inl.h:186 | adding frames with empty lists, as findPath does, keeps no duplicates, the inverse companions, links stored both ways and listed neighbours being frames |
| Transforms.QuatAsWrittenRoundTrip | include/transforms3d/trans_forms_group-inl.h:56 | the quaternion built as written gives back the components it was given only when all four are equal; the identity (0, 0, 0, 1) becomes w = 0, z = 1 |
| Transforms.QuatOfComponentsRoundTrip | include/transforms3d/transforms3d.h:262-270 | the quaternion built with w first gives back exactly the components rx, ry, rz, rw in their named fields, and (0, 0, 0, 1) is the identity |
| Transforms.QuatAsWritten | include/transforms3d/trans_forms_group-inl.h:56 | the quaternion line 56 builds is the documented-order quaternion of its arguments rotated by one place, rx taken as w (QuatAsWrittenRoundTrip gives the consequence) |
| Transforms.MulMatching | include/transforms3d/trans_forms_group-inl.h:33-37 | the inner loop of getTransForm: a list with no record naming the next frame leaves the product unchanged (MulMatchingOne gives the single-match case) |
| Transforms.Compose | include/transforms3d/trans_forms_group-inl.h:26-38 | getTransForm's product along a path: the identity when no frame of the path lists the next one (ComposeIsEdgeProduct gives its meaning on maps without repeated names) |
| Transforms.MulMatchingOne | include/transforms3d/trans_forms_group-inl.h:33-37 | when exactly one record names the next frame, the inner loop multiplies in exactly its transform |
| Transforms.ComposeIsEdgeProduct | include/transforms3d/trans_forms_group-inl.h:32-38 | without duplicate names, getTransForm's product along a walk is the left-to-right product of the stored edge transforms |
| Transforms.LookupAgrees | include/transforms3d/trans_forms_group-inl.h:186 | reading a frame through operator[] after findPath's insertions sees the records it had before the call |
| Transforms.ComposeStep | include/transforms3d/trans_forms_group-inl.h:32-38 | each frame of a found path but the last is a key that getTransForm reads without inserting, and the product grows by that frame's matching records |
| Transforms.TransFormsGroup.constructor | include/transforms3d/transforms3d.h:198 | a new group has no frames and meets the class invariant |
| Transforms.TransFormsGroup.UpdateChild | include/transforms3d/trans_forms_group-inl.h:70-78 | the scan reports whether the frame names the neighbour, and overwrites the transform of every record that does |
| Transforms.TransFormsGroup.PushTransForm | include/transforms3d/trans_forms_group-inl.h:60-125 | keeps the class invariant, returns the matrix unchanged and leaves tfg equal to Pushed of the old map |
| Transforms.TransFormsGroup.PushTransFormEuler | include/transforms3d/trans_forms_group-inl.h:42-48 | stores and returns the transform composed from translation and Euler angles |
| Transforms.TransFormsGroup.PushTransFormQuat | include/transforms3d/trans_forms_group-inl.h:50-58 | stores and returns the transform composed from the translation and the quaternion Eigen builds from (rx, ry, rz, rw), with rx as w |
| Transforms.TransFormsGroup.Seed | include/transforms3d/trans_forms_group-inl.h:159-162 | the first loop queues [start, c] for each record c of start, in list order |
| Transforms.TransFormsGroup.Expand | include/transforms3d/trans_forms_group-inl.h:186-196 | the inner loop queues exactly Extensions of the popped record |
| Transforms.TransFormsGroup.FindPath | include/transforms3d/trans_forms_group-inl.h:153-203 | keeps the class invariant and returns SearchPath of the old map; the map only gains start, with an empty list, when start is unknown and differs from end |
| Transforms.TransFormsGroup.Search | include/transforms3d/trans_forms_group-inl.h:156-202 | returns SearchPath's answer on the map value it is given; it adds only empty lists, for start and for names some frame lists |
| Transforms.TransFormsGroup.Drain | include/transforms3d/trans_forms_group-inl.h:163-202 | the while loop from the seeds returns SearchPath's answer, researched when the queue runs empty, and adds only empty lists for start and listed names |
| Transforms.TransFormsGroup.Turn | include/transforms3d/trans_forms_group-inl.h:164-198 | one pass of the loop is the next turn of the specified run, a returning pass returns SearchPath, and only listed names gain empty keys |
| Transforms.TransFormsGroup.GetTransForm | include/transforms3d/trans_forms_group-inl.h:23-40 | keeps the class invariant and returns the product along SearchPath, which is a walk of the old map; that product is the left-to-right product of the stored edge transforms, and the identity when start equals end or end is unreachable |
| Transforms.TransFormsGroup.Product | include/transforms3d/trans_forms_group-inl.h:32-38 | the outer loop computes Compose along the found path |
| Transforms.TransFormsGroup.MulRecords | include/transforms3d/trans_forms_group-inl.h:33-37 | the inner loop multiplies in, in list order, the transform of every record naming the next frame |
| Groups.ParentSide | include/transforms3d/BaseGroup.h:133-160 | the parent's side of addChild: parent becomes a frame listing child, and no other frame is added (AddChildParentSide gives the rest) |
| Groups.Added | include/transforms3d/BaseGroup.h:127-193 | addChild as written: adds exactly the frames parent and child, parent lists child, and child lists parent or itself (AddChildLinks, AddChildChildSide and AddChildKeepsAnswered give its meaning) |
| Groups.AddedIntended | include/transforms3d/BaseGroup.h:163-190 | addChild with the child side checking for parent: adds exactly the two frames and lists the link both ways (IntendedLinks, IntendedKeepsSymmetric and IntendedKeepsNoDuplicates give its meaning) |
| Groups.AddChildParentSide | include/transforms3d/BaseGroup.h:133-160 | parent becomes a frame; its list is unchanged if it names child, and otherwise gains one record named child at the end |
| Groups.AddChildChildSide | include/transforms3d/BaseGroup.h:163-190 | for P != C, a new child gets [P]; an existing child gains a record P at the end unless it lists itself, even when it already lists P |
| Groups.AddChildKeepsOthers | include/transforms3d/BaseGroup.h:127-193 | addChild adds the frames parent and child and changes no other frame |
| Groups.AddChildRepeatsBackRecord | include/transforms3d/BaseGroup.h:163-180 | as written, a second addChild(P, C) leaves P's list alone but appends a second P to C's list, so the lists have duplicates |
| Groups.SelfRecordSuppressesBackRecord | include/transforms3d/BaseGroup.h:163-180 | as written, if C lists itself but not P, addChild(P, C) stores P to C without C to P |
| Groups.AddChildTwiceFromEmpty | include/transforms3d/BaseGroup.h:127-193 | two calls addChild("P", "C") on an empty group give P: [C] and C: [P, P] |
| Groups.AddChildLinks | include/transforms3d/BaseGroup.h:127-193 | addChild adds the frames parent and child, keeps every old link, adds no link other than parent to child and child to parent, stores parent to child, and stores child to parent unless child lists itself |
| Groups.AddChildKeepsAnswered | include/transforms3d/BaseGroup.h:127-193 | as written, addChild keeps every link answered |
| Groups.AddChildKeepsClosed | include/transforms3d/BaseGroup.h:127-193 | addChild keeps every listed neighbour a frame |
| Groups.EmptyAddedKeepsLinks | include/transforms3d/BaseGroup.h:102 | adding frames with empty lists, as findPath does, changes no frame's neighbours and keeps both invariants |
| Groups.IntendedLinks | include/transforms3d/BaseGroup.h:163-190 | with the child side checking for parent, addChild adds exactly the frames P, C and the links P to C and C to P |
| Groups.IntendedKeepsSymmetric | include/transforms3d/BaseGroup.h:163-190 | with the intended check, addChild keeps every link stored both ways |
| Groups.IntendedKeepsNoDuplicates | include/transforms3d/BaseGroup.h:163-190 | with the intended check, addChild never lists a neighbour twice |
| Groups.IntendedIdempotent | include/transforms3d/BaseGroup.h:127-193 | with the intended check, repeating addChild(P, C) changes nothing |
| Groups.IntendedIsPushedNames | include/transforms3d/trans_forms_group-inl.h:60-125 | on names, pushTransForm makes exactly the change of the corrected addChild |
| Groups.BaseGroup.constructor | include/transforms3d/BaseGroup.h:39-40 | a new group has no frames and meets the class invariant |
| Groups.BaseGroup.Lists | include/transforms3d/BaseGroup.h:136-142 | the scan reports exactly whether some record has the given name |
| Groups.BaseGroup.AddChild | include/transforms3d/BaseGroup.h:127-193 | keeps the class invariant, returns true and leaves m_childs equal to Added of the old map |
| Groups.BaseGroup.Seed | include/transforms3d/BaseGroup.h:75-78 | the first loop queues [start, c] for each record c of start, in list order |
| Groups.BaseGroup.Expand | include/transforms3d/BaseGroup.h:102-112 | the inner loop queues exactly Extensions of the popped record |
| Groups.BaseGroup.FindPath | include/transforms3d/BaseGroup.h:70-119 | keeps the class invariant and returns SearchPath of the old map; the map only gains start, with an empty list, when start is unknown and differs from end |
| Groups.BaseGroup.Search | include/transforms3d/BaseGroup.h:72-118 | returns SearchPath's answer on the map value it is given; it adds only empty lists, for start and for names some frame lists |
| Groups.BaseGroup.Drain | include/transforms3d/BaseGroup.h:79-118 | the while loop from the seeds returns SearchPath's answer, researched when the queue runs empty, and adds only empty lists for start and listed names |
| Groups.BaseGroup.Turn | include/transforms3d/BaseGroup.h:80-114 | one pass of the loop is the next turn of the specified run, a returning pass returns SearchPath, and only listed names gain empty keys |
| Scenario.SceneIsRecords | tests/transforms_group_test.cpp:25-28 | the three pushes leave base: [grapper Tbg, bottle Tbw], grapper: [base Tbg^-1], camera: [bottle Tcw], bottle: [camera Tcw^-1, base Tbw^-1] |
| Scenario.ScenePath | tests/transforms_group_test.cpp:31 | findPath("grapper", "camera") on that scene returns grapper, base, bottle, camera |
| Scenario.GrapperToCamera | tests/transforms_group_test.cpp:26-32 | getTransForm("grapper", "camera") on the scene is Tbg^-1 * Tbw * Tcw^-1, after the identity it starts from |

## Left out

- Floating point.
  - Matrices are symbolic terms, so `Mul(Identity, X)` is not simplified
    to `X`.
  - `TransForms` (include/transforms3d/trans_forms-inl.h) and the Euler
    and quaternion conversions are not modelled. They are trigonometry on
    Eigen matrices.
- `getTransWithPointCloud` is not modelled. It applies `R * p + t` to
  floating-point vectors.
- The two `toString` functions are not modelled. They format text for
  debugging and write to standard output.
- The DH-table classes (DHTable.h, DhTableCraig.h, DhTableAddY.h,
  IDhTable.h and src/) are not modelled. They are trigonometric matrix
  builders outside the frame graph.
- addChild as written pushes the factory's `std::unique_ptr` by name into
  a vector of `std::shared_ptr` (BaseGroup.h:149, 157, 179 and 188), which
  does not compile. The model takes the evident move of the new record.
- `IGroupChildFactory` is replaced by "a record with this name". Records
  are plain names, so shared ownership and object identity of
  BaseGroupChild objects are not modelled.
- The scalar template parameter `S` (float or double) is not modelled.
  The reference parameters of the pushTransForm overloads are read only.
- Transforms.TransFormsGroup.FindPath and Groups.BaseGroup.FindPath
  require `Terminates`: start equals end, end is reachable, or start has
  no second hop.
  - Calls outside that set do not return. `PathSearch.SearchDiverges`
    proves this whenever every link is answered.
  - `Valid()` of either class implies that every link is answered, so
    the precondition excludes only calls that never return.
  - So the model states nothing about those calls, and GetTransForm
    inherits the same precondition.
- The claim that `getTransForm(A, B)` and `getTransForm(B, A)` are
  inverses is not modelled.
  - Transforms are symbolic terms without equations, so
    `Mul(X, Inverse(X))` is not `Identity`.
  - And when two shortest paths tie, the two searches can pick paths
    that are not reverses of each other.

## Findings

| source | as written | input that shows it | evidently intended | confidence | as-written member | corrected member |
|---|---|---|---|---|---|---|
| include/transforms3d/BaseGroup.h:167 | the child-side scan compares each record of child's list with `child` | `addChild("P", "C")` twice on an empty group: C's list becomes [P, P] | compare with `parent`, as pushTransForm does at trans_forms_group-inl.h:102, so no neighbour is listed twice | high; not executed | Groups.AddChildRepeatsBackRecord | Groups.IntendedKeepsNoDuplicates |
| include/transforms3d/BaseGroup.h:167 | the same scan finds a record when child lists itself | `addChild("C", "C")` then `addChild("P", "C")`: P lists C but C does not list P | compare with `parent`, so every link is stored both ways | high; not executed | Groups.SelfRecordSuppressesBackRecord | Groups.IntendedKeepsSymmetric |
| include/transforms3d/trans_forms_group-inl.h:56 | `Quaternion<S> quat(rx, ry, rz, rw)`, while Eigen's four-scalar constructor takes w first | the identity rotation given as rx = ry = rz = 0, rw = 1 becomes w = 0, z = 1, a half turn about z | `quat(rw, rx, ry, rz)`, matching the parameters documented at transforms3d.h:262-270 | medium; not executed | Transforms.QuatAsWrittenRoundTrip | Transforms.QuatOfComponentsRoundTrip |

The corrected addChild (`Groups.AddedIntended`) is, on names, what
TransFormsGroup's pushTransForm does (`Groups.IntendedIsPushedNames`).
The TransFormsGroup part of the model is built on that behaviour.
`Groups.BaseGroup.AddChild` keeps the code as written.

`Transforms.TransFormsGroup.PushTransFormQuat` also keeps the code as
written: it passes the components in the order line 56 gives them to
Eigen. `Transforms.QuatOfComponents` is the component order that the
parameter documentation describes.
