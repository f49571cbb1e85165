/** One pose per image, only where the recorded transforms support it. */
module PoseExport {
  import opened Common
  import opened HlocTransform
  import opened PoseComposition
  import opened TransformTables
  import opened FramePath

  // ---------------------------------------------------------------- sorted stamps

  predicate Increasing(s: seq<int>) {
    forall i, j :: 0 <= i < j < |s| ==> s[i] < s[j]
  }

  ghost predicate Lists(s: seq<int>, keys: set<int>) {
    Increasing(s) && forall x :: x in s <==> x in keys
  }

  /** The leftmost position at which `x` can be inserted. */
  method BisectLeft(s: seq<int>, x: int) returns (k: nat)
    requires Increasing(s)
    ensures k <= |s|
    ensures forall i :: 0 <= i < k ==> s[i] < x
    ensures forall i :: k <= i < |s| ==> x <= s[i]
  {
    var high := |s|;
    k := 0;
    while k < high
      invariant 0 <= k <= high <= |s|
      invariant forall i :: 0 <= i < k ==> s[i] < x
      invariant forall i :: high <= i < |s| ==> x <= s[i]
    {
      var mid := (k + high) / 2;
      if s[mid] < x {
        k := mid + 1;
      } else {
        high := mid;
      }
    }
  }

  method Sorted(keys: set<int>) returns (s: seq<int>)
    ensures Lists(s, keys)
  {
    s := [];
    var rest := keys;
    while rest != {}
      invariant rest <= keys && Lists(s, keys - rest)
      decreases |rest|
    {
      HasMember(rest);
      var x :| x in rest;
      var k := BisectLeft(s, x);
      Inserted(s, x, k);
      s := s[..k] + [x] + s[k..];
      rest := rest - {x};
    }
  }

  lemma Inserted(s: seq<int>, x: int, k: nat)
    requires Increasing(s) && x !in s && k <= |s|
    requires forall i :: 0 <= i < k ==> s[i] < x
    requires forall i :: k <= i < |s| ==> x <= s[i]
    ensures Increasing(s[..k] + [x] + s[k..])
    ensures forall y :: y in s[..k] + [x] + s[k..] <==> y in s || y == x
  {
    var t := s[..k] + [x] + s[k..];
    assert forall i :: k <= i < |s| ==> x < s[i];
    assert forall i :: 0 <= i < |t| ==> t[i] == if i < k then s[i] else if i == k then x else s[i - 1];
    forall y ensures y in t <==> y in s || y == x {
      if y in s {
        var i :| 0 <= i < |s| && s[i] == y;
        assert t[if i < k then i else i + 1] == y;
      }
      assert t[k] == x;
    }
  }

  // ---------------------------------------------------------------- loading

  datatype Transforms = Transforms(parents: Parents, stamps: map<string, seq<int>>, conflicts: set<(string, int)>)

  ghost predicate StampsListed(t: Tables, stamps: map<string, seq<int>>) {
    stamps.Keys == t.dynamics.Keys && forall c :: c in stamps ==> Lists(stamps[c], t.dynamics[c].Keys)
  }

  ghost predicate Describes(t: Tables, r: Transforms) {
    r.parents == t.parents && r.conflicts == t.conflicts && StampsListed(t, r.stamps)
  }

  method SortStamps(t: Tables) returns (stamps: map<string, seq<int>>)
    ensures StampsListed(t, stamps)
  {
    stamps := map[];
    var rest := t.dynamics.Keys;
    while rest != {}
      invariant rest <= t.dynamics.Keys && stamps.Keys == t.dynamics.Keys - rest
      invariant forall c :: c in stamps ==> Lists(stamps[c], t.dynamics[c].Keys)
      decreases |rest|
    {
      var c :| c in rest;
      var s := Sorted(t.dynamics[c].Keys);
      stamps := stamps[c := s];
      rest := rest - {c};
    }
  }

  /** None when the tree has a cycle at either end, or a child on the path was flagged. */
  method LoadTransforms(records: seq<Record>, world: string, source: string)
    returns (r: Option<Transforms>, path: PathResult)
    ensures var t := Finish(Load(records));
            && (path.HasCycle? <==> Cycles(t.parents, world) || Cycles(t.parents, source))
            && (path.Path? ==> IsPath(t.parents, world, source, path.children, path.common))
            && (r.None? <==> path.HasCycle? || (path.Path? && exists c :: c in path.children && Flagged(t, c)))
            && (r.Some? ==> Describes(t, r.value) && r.value.parents == t.parents)
  {
    hide IsPath, Cycles;
    var t := LoadTables(records);
    path := PathChildren(t.parents, world, source);
    if path.HasCycle? {
      return None, path;
    }
    var used := if path.Path? then path.children else [];
    var i := 0;
    while i < |used|
      invariant 0 <= i <= |used|
      invariant forall k :: 0 <= k < i ==> !Flagged(t, used[k])
    {
      if Flagged(t, used[i]) {
        return None, path;
      }
      i := i + 1;
    }
    var stamps := SortStamps(t);
    return Some(Transforms(t.parents, stamps, t.conflicts)), path;
  }

  // ---------------------------------------------------------------- one image

  /** Neighbouring samples around a stamp that has none itself. */
  predicate Brackets(s: seq<int>, stamp: int, i: int) {
    0 < i < |s| && s[i - 1] < stamp < s[i]
  }

  predicate CleanBracket(t: Transforms, child: string, stamp: int, i: int)
    requires child in t.stamps
  {
    var s := t.stamps[child];
    Brackets(s, stamp, i) && (child, s[i - 1]) !in t.conflicts && (child, s[i]) !in t.conflicts
  }

  /** The edge above `child` has a usable pose at `stamp`. */
  ghost predicate SoundEdge(t: Transforms, child: string, stamp: int) {
    || child !in t.stamps
    || (stamp in t.stamps[child] && (child, stamp) !in t.conflicts)
    || exists i :: CleanBracket(t, child, stamp, i)
  }

  ghost predicate Widest(t: Transforms, children: seq<string>, stamp: int, gap: int) {
    && gap >= 0
    && (forall c, i :: c in children && c in t.stamps && Brackets(t.stamps[c], stamp, i) ==>
          t.stamps[c][i] - t.stamps[c][i - 1] <= gap)
    && (gap > 0 ==> exists c, i :: c in children && c in t.stamps && Brackets(t.stamps[c], stamp, i)
                                   && t.stamps[c][i] - t.stamps[c][i - 1] == gap)
  }

  ghost predicate AllIncreasing(t: Transforms) {
    forall c :: c in t.stamps ==> Increasing(t.stamps[c])
  }

  ghost predicate EdgeWidth(s: seq<int>, stamp: int, width: int) {
    && width >= 0
    && (forall i :: Brackets(s, stamp, i) ==> s[i] - s[i - 1] == width)
    && (width > 0 ==> exists i :: Brackets(s, stamp, i))
  }

  /** One edge: None for an unusable one, and otherwise the width of the bracket used. */
  method EdgeGap(t: Transforms, child: string, stamp: int) returns (r: Option<int>)
    requires child in t.stamps && Increasing(t.stamps[child])
    ensures r.Some? <==> SoundEdge(t, child, stamp)
    ensures r.Some? ==> EdgeWidth(t.stamps[child], stamp, r.value)
  {
    var s := t.stamps[child];
    var index := BisectLeft(s, stamp);
    if index < |s| && s[index] == stamp {
      assert forall i :: !Brackets(s, stamp, i);
      if (child, stamp) in t.conflicts {
        return None;
      }
      return Some(0);
    }
    assert stamp !in s;
    assert forall i :: Brackets(s, stamp, i) ==> i == index;
    if index == 0 || index == |s| {
      return None;
    }
    assert Brackets(s, stamp, index);
    if (child, s[index - 1]) in t.conflicts || (child, s[index]) in t.conflicts {
      return None;
    }
    assert CleanBracket(t, child, stamp, index);
    return Some(s[index] - s[index - 1]);
  }

  method InterpolationGap(t: Transforms, children: seq<string>, stamp: int) returns (r: Option<int>)
    requires AllIncreasing(t)
    ensures r.Some? <==> forall c :: c in children ==> SoundEdge(t, c, stamp)
    ensures r.Some? ==> Widest(t, children, stamp, r.value)
  {
    hide SoundEdge, Widest, EdgeWidth;
    var gap := 0;
    NothingIsWidest(t, stamp);
    var k := 0;
    while k < |children|
      invariant 0 <= k <= |children|
      invariant forall c :: c in children[..k] ==> SoundEdge(t, c, stamp)
      invariant Widest(t, children[..k], stamp, gap)
    {
      var child := children[k];
      var before := gap;
      if child in t.stamps {
        var edge := EdgeGap(t, child, stamp);
        if edge.None? {
          return None;
        }
        if edge.value > gap {
          gap := edge.value;
        }
        WidestGrows(t, children[..k], child, stamp, before, edge.value);
      } else {
        StaticIsSound(t, child, stamp);
        WidestSkips(t, children[..k], child, stamp, before);
      }
      assert children[..k + 1] == children[..k] + [child];
      k := k + 1;
    }
    assert children[..k] == children;
    return Some(gap);
  }

  lemma NothingIsWidest(t: Transforms, stamp: int)
    ensures Widest(t, [], stamp, 0)
  {
  }

  lemma StaticIsSound(t: Transforms, child: string, stamp: int)
    requires child !in t.stamps
    ensures SoundEdge(t, child, stamp)
  {
  }

  lemma WidestSkips(t: Transforms, some: seq<string>, child: string, stamp: int, gap: int)
    requires Widest(t, some, stamp, gap) && child !in t.stamps
    ensures Widest(t, some + [child], stamp, gap)
  {
    hide Brackets;
    assert forall c :: c in some + [child] <==> c in some || c == child;
  }

  lemma WidestGrows(t: Transforms, some: seq<string>, child: string, stamp: int, gap: int, edge: int)
    requires Widest(t, some, stamp, gap) && child in t.stamps && EdgeWidth(t.stamps[child], stamp, edge)
    ensures Widest(t, some + [child], stamp, if edge > gap then edge else gap)
  {
    var all := some + [child];
    assert child in all && forall c :: c in all <==> c in some || c == child;
    if edge > gap {
      var i :| Brackets(t.stamps[child], stamp, i);
      assert t.stamps[child][i] - t.stamps[child][i - 1] == edge;
    }
  }

  // ---------------------------------------------------------------- all images

  datatype Status = Ok | GapTooLarge | Unavailable

  datatype PoseRow = PoseRow(status: Status, gap: Option<int>, pose: Option<Transform>)

  datatype Report = Report(rows: seq<PoseRow>, ok: nat, gapTooLarge: nat, unavailable: nat, maxValidGap: int)

  /** The camera's pose, if the transform library found the frame's and it can be composed. */
  function PoseOf(camera: Camera, found: Option<Transform>): Option<Transform> {
    if found.None? then None else ComposePose(camera, found.value)
  }

  ghost predicate RowIsRight(t: Transforms, path: PathResult, stamp: int, pose: Option<Transform>, limit: int,
                             row: PoseRow) {
    && (row.status.Unavailable? <==>
          !path.Path?
          || (exists c :: c in path.children && !SoundEdge(t, c, stamp))
          || (row.gap.Some? && row.gap.value <= limit && pose.None?))
    && (row.gap.Some? <==> path.Path? && forall c :: c in path.children ==> SoundEdge(t, c, stamp))
    && (row.gap.Some? ==> Widest(t, path.children, stamp, row.gap.value))
    && (row.status.GapTooLarge? <==> row.gap.Some? && row.gap.value > limit)
    && row.pose == (if row.status.Ok? then pose else None)
  }

  method ExportRow(t: Transforms, path: PathResult, stamp: int, camera: Camera, found: Option<Transform>, limit: int)
    returns (row: PoseRow)
    requires AllIncreasing(t)
    ensures RowIsRight(t, path, stamp, PoseOf(camera, found), limit, row)
  {
    hide SoundEdge, Widest, ComposePose;
    if !path.Path? {
      return PoseRow(Unavailable, None, None);
    }
    var gap := InterpolationGap(t, path.children, stamp);
    if gap.None? {
      return PoseRow(Unavailable, None, None);
    }
    if gap.value > limit {
      return PoseRow(GapTooLarge, gap, None);
    }
    if found.None? {
      return PoseRow(Unavailable, gap, None);
    }
    var pose := ComposePose(camera, found.value);
    return PoseRow(if pose.Some? then Ok else Unavailable, gap, pose);
  }

  function Count(rows: seq<PoseRow>, status: Status): nat {
    if rows == [] then 0
    else Count(rows[..|rows| - 1], status) + if rows[|rows| - 1].status == status then 1 else 0
  }

  /** Every row has one status. */
  lemma {:induction false} CountsAddUp(rows: seq<PoseRow>)
    ensures Count(rows, Ok) + Count(rows, GapTooLarge) + Count(rows, Unavailable) == |rows|
  {
    if rows == [] {
    } else {
      CountsAddUp(rows[..|rows| - 1]);
    }
  }

  ghost predicate IsMaxValidGap(rows: seq<PoseRow>, gap: int) {
    && (forall i :: 0 <= i < |rows| && rows[i].status.Ok? && rows[i].gap.Some? ==> rows[i].gap.value <= gap)
    && (gap != 0 ==> exists i :: 0 <= i < |rows| && rows[i].status.Ok? && rows[i].gap == Some(gap))
  }

  ghost predicate Tallied(r: Report) {
    && r.ok == Count(r.rows, Ok) && r.gapTooLarge == Count(r.rows, GapTooLarge)
    && r.unavailable == Count(r.rows, Unavailable)
    && IsMaxValidGap(r.rows, r.maxValidGap)
  }

  lemma CountOneMore(rows: seq<PoseRow>, row: PoseRow, status: Status)
    ensures Count(rows + [row], status) == Count(rows, status) + if row.status == status then 1 else 0
  {
    assert (rows + [row])[..|rows|] == rows;
  }

  lemma MaxOneMore(rows: seq<PoseRow>, row: PoseRow, gap: int)
    requires IsMaxValidGap(rows, gap) && (row.status.Ok? ==> row.gap.Some?)
    ensures IsMaxValidGap(rows + [row], if row.status.Ok? && row.gap.value > gap then row.gap.value else gap)
  {
    var all := rows + [row];
    assert all[|rows|] == row && forall i :: 0 <= i < |rows| ==> all[i] == rows[i];
  }

  method ExportRows(t: Transforms, path: PathResult, stamps: seq<int>, camera: Camera,
                    found: seq<Option<Transform>>, limit: int)
    returns (r: Report)
    requires AllIncreasing(t) && |found| == |stamps|
    ensures |r.rows| == |stamps| && Tallied(r)
    ensures forall i :: 0 <= i < |stamps| ==> RowIsRight(t, path, stamps[i], PoseOf(camera, found[i]), limit, r.rows[i])
  {
    hide SoundEdge, Widest, Count, IsMaxValidGap, PoseOf;
    r := Report([], 0, 0, 0, 0);
    NothingTallied();
    var i := 0;
    while i < |stamps|
      invariant 0 <= i == |r.rows| <= |stamps|
      invariant Tallied(r)
      invariant forall k :: 0 <= k < i ==> RowIsRight(t, path, stamps[k], PoseOf(camera, found[k]), limit, r.rows[k])
      decreases |stamps| - i
    {
      var row := ExportRow(t, path, stamps[i], camera, found[i], limit);
      CountOneMore(r.rows, row, Ok);
      CountOneMore(r.rows, row, GapTooLarge);
      CountOneMore(r.rows, row, Unavailable);
      MaxOneMore(r.rows, row, r.maxValidGap);
      match row.status {
      case Ok =>
        r := r.(ok := r.ok + 1, rows := r.rows + [row],
                maxValidGap := if row.gap.value > r.maxValidGap then row.gap.value else r.maxValidGap);
      case GapTooLarge => r := r.(gapTooLarge := r.gapTooLarge + 1, rows := r.rows + [row]);
      case Unavailable => r := r.(unavailable := r.unavailable + 1, rows := r.rows + [row]);
      }
      i := i + 1;
    }
  }

  lemma NothingTallied()
    ensures Tallied(Report([], 0, 0, 0, 0))
  {
  }

  // ---------------------------------------------------------------- what an exported pose rests on

  /** Every sample of the edge at this time is the same. */
  ghost predicate Certain(records: seq<Record>, child: string, stamp: int) {
    Sampled(records, child, stamp) && !Disagree(records, child, stamp)
  }

  ghost predicate CertainAround(records: seq<Record>, child: string, stamp: int, limit: int, a: int, b: int) {
    && a < stamp < b <= a + limit
    && Certain(records, child, a) && Certain(records, child, b)
    && forall x :: a < x < b ==> !Sampled(records, child, x)
  }

  /** The bag supports the edge above `child` at `stamp`: one parent throughout, and either only
      static records that agree, or a certain sample at that time, or two certain neighbours close enough. */
  ghost predicate Grounded(records: seq<Record>, child: string, stamp: int, limit: int) {
    && (exists r :: r in records && IsEdge(r, child))
    && !Reparented(records, child)
    && (|| (HasStatic(records, child) && !StaticsDisagree(records, child) && forall x :: !Sampled(records, child, x))
        || (!HasStatic(records, child)
            && (Certain(records, child, stamp)
                || exists a, b :: CertainAround(records, child, stamp, limit, a, b))))
  }

  lemma FinishKeeps(t: Tables, child: string)
    ensures Finish(t).parents == t.parents && Finish(t).conflicts == t.conflicts
    ensures Finish(t).dynamics == t.dynamics && Finish(t).statics == t.statics
    ensures !Flagged(Finish(t), child) ==>
              !Flagged(t, child) && !(child in t.statics && child in t.dynamics)
  {
    if child in t.statics && child in t.dynamics {
      assert (child, BothTopics) in Finish(t).issues;
    }
    if Flagged(t, child) {
      var p :| p in t.issues && p.0 == child;
      assert p in Finish(t).issues;
    }
  }

  lemma FlaggedBy(t: Tables, child: string, issue: Issue)
    ensures (child, issue) in t.issues ==> Flagged(t, child)
  {
    if (child, issue) in t.issues {
      var p := (child, issue);
      assert p in t.issues && p.0 == child;
    }
  }

  lemma UnflaggedEdge(records: seq<Record>, child: string)
    requires !Flagged(Finish(Load(records)), child) && child in Load(records).parents
    ensures (exists r :: r in records && IsEdge(r, child)) && !Reparented(records, child)
    ensures child in Load(records).statics <==> child !in Load(records).dynamics
    ensures child in Load(records).statics <==> HasStatic(records, child)
    ensures !StaticsDisagree(records, child)
  {
    hide Load, Finish, Reparented, HasStatic, IsEdge, StaticsDisagree;
    FinishKeeps(Load(records), child);
    ParentsExactly(records, child);
    EdgesExactly(records, child);
    StaticsExactly(records, child);
    FlaggedBy(Load(records), child, StaticChanged);
    FlaggedBy(Load(records), child, ParentChanged);
  }

  lemma ListedIsSampled(records: seq<Record>, t: Transforms, child: string, stamp: int)
    requires Describes(Finish(Load(records)), t)
    ensures Sampled(records, child, stamp) <==> child in t.stamps && stamp in t.stamps[child]
    ensures child in t.stamps && stamp in t.stamps[child] && (child, stamp) !in t.conflicts ==>
              Certain(records, child, stamp)
  {
    hide Load, Finish, Disagree, Sampled, Increasing;
    FinishKeeps(Load(records), child);
    ConflictsExactly(records, child, stamp);
  }

  lemma NoneBetween(s: seq<int>, stamp: int, i: int, x: int)
    requires Increasing(s) && Brackets(s, stamp, i) && s[i - 1] < x < s[i]
    ensures x !in s
  {
    forall k | 0 <= k < |s| ensures s[k] != x {
      if k < i - 1 {
        assert s[k] < s[i - 1];
      } else if k > i {
        assert s[i] < s[k];
      }
    }
  }

  /** A usable edge whose bracket is within the limit is supported by the bag. */
  lemma SoundEdgeIsGrounded(records: seq<Record>, t: Transforms, child: string, stamp: int, limit: int)
    requires Describes(Finish(Load(records)), t)
    requires !Flagged(Finish(Load(records)), child) && child in t.parents
    requires SoundEdge(t, child, stamp)
    requires child in t.stamps ==> forall i :: Brackets(t.stamps[child], stamp, i) ==>
               t.stamps[child][i] - t.stamps[child][i - 1] <= limit
    ensures Grounded(records, child, stamp, limit)
  {
    hide Load, Reparented, HasStatic, StaticsDisagree, IsEdge, Disagree, Sampled, Certain, Flagged;
    FinishKeeps(Load(records), child);
    UnflaggedEdge(records, child);
    forall x ensures Sampled(records, child, x) <==> child in t.stamps && x in t.stamps[child] {
      ListedIsSampled(records, t, child, x);
    }
    if child in t.stamps {
      ListedIsSampled(records, t, child, stamp);
      if !(stamp in t.stamps[child] && (child, stamp) !in t.conflicts) {
        var s := t.stamps[child];
        var i :| CleanBracket(t, child, stamp, i);
        ListedIsSampled(records, t, child, s[i - 1]);
        ListedIsSampled(records, t, child, s[i]);
        forall x | s[i - 1] < x < s[i] ensures !Sampled(records, child, x) {
          NoneBetween(s, stamp, i, x);
        }
        assert CertainAround(records, child, stamp, limit, s[i - 1], s[i]);
      }
    }
  }

  lemma OkRowIsGrounded(records: seq<Record>, t: Transforms, path: PathResult, world: string, source: string,
                        stamp: int, pose: Option<Transform>, limit: int, row: PoseRow, child: string)
    requires Describes(Finish(Load(records)), t)
    requires path.Path? && IsPath(t.parents, world, source, path.children, path.common)
    requires child in path.children && !Flagged(Finish(Load(records)), child)
    requires RowIsRight(t, path, stamp, pose, limit, row) && row.status.Ok?
    ensures Grounded(records, child, stamp, limit)
  {
    hide SoundEdge, Flagged, Describes, Brackets, Load, Finish;
    assert child in t.parents by {
      PathIsShortest(t.parents, world, source, path.children, path.common);
    }
    hide IsPath;
    SoundEdgeIsGrounded(records, t, child, stamp, limit);
  }

  /** With a unit extrinsic, an image within the limit gets a pose exactly if the frame's pose was found
      and its rotation can be normalised; the pose then takes a point of the camera where the extrinsic
      and the frame's normalised pose take it. */
  lemma ExportedPose(t: Transforms, path: PathResult, stamp: int, camera: Camera, found: Option<Transform>,
                     limit: int, row: PoseRow)
    requires RowIsRight(t, path, stamp, PoseOf(camera, found), limit, row)
    requires IsSqrt(camera.sqrt) && Unit(camera.extrinsic)
    ensures row.status.Ok? <==>
              && path.Path? && (forall c :: c in path.children ==> SoundEdge(t, c, stamp))
              && row.gap.Some? && row.gap.value <= limit
              && found.Some? && camera.sqrt(Norm2(found.value.q)) >= SHORTEST
    ensures row.status.Ok? ==>
              && found.Some? && camera.sqrt(Norm2(found.value.q)) != 0.0
              && row.pose.Some? && Unit(row.pose.value)
              && forall p :: Moves(row.pose.value, p) ==
                             Moves(Normal(camera.sqrt, found.value), Moves(camera.extrinsic, p))
    ensures !row.status.Ok? ==> row.pose.None?
  {
    hide SoundEdge, Widest, Moves, Norm2, ComposePose, Normal, Compose, IsSqrt;
    if found.Some? {
      ComposePoseExact(camera, found.value);
      if camera.sqrt(Norm2(found.value.q)) >= SHORTEST {
        forall p ensures Moves(Compose(Normal(camera.sqrt, found.value), camera.extrinsic), p) ==
                         Moves(Normal(camera.sqrt, found.value), Moves(camera.extrinsic, p))
        {
          ComposeMoves(Normal(camera.sqrt, found.value), camera.extrinsic, p);
        }
      }
    }
  }

  lemma OkHasPath(t: Transforms, path: PathResult, stamp: int, pose: Option<Transform>, limit: int, row: PoseRow)
    requires RowIsRight(t, path, stamp, pose, limit, row) && row.status.Ok?
    ensures path.Path?
  {
  }

  lemma StampsIncrease(records: seq<Record>, t: Transforms)
    requires Describes(Finish(Load(records)), t)
    ensures AllIncreasing(t)
  {
  }

  /** The whole export: every row is right, and every pose it calls ok is supported by the bag on each
      edge of the path. */
  method ExportPoses(records: seq<Record>, world: string, source: string, stamps: seq<int>, camera: Camera,
                     found: seq<Option<Transform>>, limit: int)
    returns (r: Option<Report>, t: Transforms, path: PathResult)
    requires |found| == |stamps|
    ensures r.Some? ==> Describes(Finish(Load(records)), t)
    ensures r.Some? && path.Path? ==>
              && IsPath(t.parents, world, source, path.children, path.common)
              && forall c :: c in path.children ==> !Flagged(Finish(Load(records)), c)
    ensures r.Some? ==>
              && |r.value.rows| == |stamps| && Tallied(r.value)
              && forall i :: 0 <= i < |stamps| ==>
                   RowIsRight(t, path, stamps[i], PoseOf(camera, found[i]), limit, r.value.rows[i])
    ensures r.Some? ==> forall i :: 0 <= i < |stamps| && r.value.rows[i].status.Ok? ==>
              path.Path? && forall c :: c in path.children ==> Grounded(records, c, stamps[i], limit)
  {
    hide RowIsRight, Tallied, IsPath, Cycles, Flagged, Grounded, Describes, Load, Finish, PoseOf;
    var loaded;
    loaded, path := LoadTransforms(records, world, source);
    if loaded.None? {
      return None, Transforms(map[], map[], {}), path;
    }
    t := loaded.value;
    StampsIncrease(records, t);
    var report := ExportRows(t, path, stamps, camera, found, limit);
    forall i | 0 <= i < |stamps| && report.rows[i].status.Ok?
      ensures path.Path? && forall c :: c in path.children ==> Grounded(records, c, stamps[i], limit)
    {
      OkHasPath(t, path, stamps[i], PoseOf(camera, found[i]), limit, report.rows[i]);
      forall c | c in path.children ensures Grounded(records, c, stamps[i], limit) {
        OkRowIsGrounded(records, t, path, world, source, stamps[i], PoseOf(camera, found[i]), limit, report.rows[i], c);
      }
    }
    return Some(report), t, path;
  }
}
