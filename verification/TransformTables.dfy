/** What a recorded bag's transforms are reduced to before poses are exported. */
module TransformTables {
  import opened Common
  import opened HlocTransform

  /** What the checks on a transform's numbers found. */
  datatype Check = Sound | NotFinite | NotNormalized

  datatype Record = Record(
    isStatic: bool, child: string, parent: string, stamp: int, transform: Transform, check: Check)

  datatype Issue =
    | BadFrames | ParentChanged | BadNumbers | BadNorm | StaticChanged | NegativeStamp | BothTopics

  datatype Tables = Tables(
    parents: map<string, string>, statics: map<string, Transform>,
    dynamics: map<string, map<int, Transform>>,
    issues: set<(string, Issue)>, conflicts: set<(string, int)>)

  const NOTHING := Tables(map[], map[], map[], {}, {})

  predicate Named(r: Record) {
    r.child != "" && r.parent != "" && r.child != r.parent
  }

  predicate Usable(r: Record) {
    Named(r) && r.check.Sound? && (r.isStatic || r.stamp >= 0)
  }

  function Samples(t: Tables, child: string): map<int, Transform> {
    if child in t.dynamics then t.dynamics[child] else map[]
  }

  function AddParent(t: Tables, r: Record): Tables {
    if r.child !in t.parents then t.(parents := t.parents[r.child := r.parent])
    else if t.parents[r.child] != r.parent then t.(issues := t.issues + {(r.child, ParentChanged)})
    else t
  }

  function AddTransform(t: Tables, r: Record): Tables {
    if r.check.NotFinite? then t.(issues := t.issues + {(r.child, BadNumbers)})
    else if r.check.NotNormalized? then t.(issues := t.issues + {(r.child, BadNorm)})
    else if r.isStatic then
      t.(statics := t.statics[r.child := r.transform],
         issues := if r.child in t.statics && t.statics[r.child] != r.transform
                   then t.issues + {(r.child, StaticChanged)} else t.issues)
    else if r.stamp < 0 then t.(issues := t.issues + {(r.child, NegativeStamp)})
    else
      var samples := Samples(t, r.child);
      t.(dynamics := t.dynamics[r.child := samples[r.stamp := r.transform]],
         conflicts := if r.stamp in samples && samples[r.stamp] != r.transform
                      then t.conflicts + {(r.child, r.stamp)} else t.conflicts)
  }

  function Add(t: Tables, r: Record): Tables {
    if !Named(r) then t.(issues := t.issues + {(r.child, BadFrames)})
    else AddTransform(AddParent(t, r), r)
  }

  function Load(records: seq<Record>): Tables {
    if records == [] then NOTHING
    else Add(Load(records[..|records| - 1]), records[|records| - 1])
  }

  function Finish(t: Tables): Tables {
    t.(issues := t.issues + set c | c in t.statics.Keys && c in t.dynamics.Keys :: (c, BothTopics))
  }

  method ReadRecord(t: Tables, r: Record) returns (after: Tables)
    ensures after == Add(t, r)
  {
    after := t;
    if r.child == "" || r.parent == "" || r.child == r.parent {
      return after.(issues := after.issues + {(r.child, BadFrames)});
    }
    if r.child in after.parents && after.parents[r.child] != r.parent {
      after := after.(issues := after.issues + {(r.child, ParentChanged)});
    }
    if r.child !in after.parents {
      after := after.(parents := after.parents[r.child := r.parent]);
    }
    if r.check.NotFinite? {
      return after.(issues := after.issues + {(r.child, BadNumbers)});
    }
    if r.check.NotNormalized? {
      return after.(issues := after.issues + {(r.child, BadNorm)});
    }
    if r.isStatic {
      if r.child in after.statics && after.statics[r.child] != r.transform {
        after := after.(issues := after.issues + {(r.child, StaticChanged)});
      }
      return after.(statics := after.statics[r.child := r.transform]);
    }
    if r.stamp < 0 {
      return after.(issues := after.issues + {(r.child, NegativeStamp)});
    }
    var samples := Samples(after, r.child);
    if r.stamp in samples && samples[r.stamp] != r.transform {
      after := after.(conflicts := after.conflicts + {(r.child, r.stamp)});
    }
    after := after.(dynamics := after.dynamics[r.child := samples[r.stamp := r.transform]]);
  }

  method LoadTables(records: seq<Record>) returns (t: Tables)
    ensures t == Finish(Load(records))
  {
    t := NOTHING;
    var i := 0;
    while i < |records|
      invariant 0 <= i <= |records|
      invariant t == Load(records[..i])
    {
      t := ReadRecord(t, records[i]);
      assert records[..i + 1][..i] == records[..i];
      i := i + 1;
    }
    assert records[..i] == records;
    t := t.(issues := t.issues + set c | c in t.statics.Keys && c in t.dynamics.Keys :: (c, BothTopics));
  }

  // ---------------------------------------------------------------- what the tables say

  predicate IsSample(r: Record, child: string, stamp: int) {
    Usable(r) && !r.isStatic && r.child == child && r.stamp == stamp
  }

  /** Two samples of one edge at one time disagree. */
  ghost predicate Disagree(records: seq<Record>, child: string, stamp: int) {
    exists a, b ::
      a in records && b in records && IsSample(a, child, stamp) && IsSample(b, child, stamp)
      && a.transform != b.transform
  }

  ghost predicate Sampled(records: seq<Record>, child: string, stamp: int) {
    exists a :: a in records && IsSample(a, child, stamp)
  }

  /** The tables hold one of the samples of each time, and flag exactly the times that disagree. */
  ghost predicate SamplesAgree(records: seq<Record>, t: Tables, child: string, stamp: int) {
    && (stamp in Samples(t, child) <==> Sampled(records, child, stamp))
    && (stamp in Samples(t, child) ==>
          exists a :: a in records && IsSample(a, child, stamp) && a.transform == Samples(t, child)[stamp])
    && ((child, stamp) in t.conflicts <==> Disagree(records, child, stamp))
  }

  /** `u` says of `child` at `stamp` what `t` says. */
  predicate SameAt(t: Tables, u: Tables, child: string, stamp: int) {
    && (stamp in Samples(u, child) <==> stamp in Samples(t, child))
    && (stamp in Samples(u, child) ==> Samples(u, child)[stamp] == Samples(t, child)[stamp])
    && ((child, stamp) in u.conflicts <==> (child, stamp) in t.conflicts)
  }

  lemma SamplesAgreeSkip(init: seq<Record>, r: Record, t: Tables, u: Tables, child: string, stamp: int)
    requires SamplesAgree(init, t, child, stamp) && !IsSample(r, child, stamp) && SameAt(t, u, child, stamp)
    ensures SamplesAgree(init + [r], u, child, stamp)
  {
    hide IsSample;
    var all := init + [r];
    assert forall a :: a in all <==> a in init || a == r;
  }

  lemma SamplesAgreeAdd(init: seq<Record>, r: Record, t: Tables, child: string, stamp: int)
    requires SamplesAgree(init, t, child, stamp) && IsSample(r, child, stamp)
    ensures SamplesAgree(init + [r], Add(t, r), child, stamp)
  {
    var all, u := init + [r], Add(t, r);
    assert r in all && forall a :: a in all <==> a in init || a == r;
    assert Samples(u, child)[stamp] == r.transform;
    assert Samples(AddParent(t, r), child) == Samples(t, child);
    hide IsSample, Add, Samples;
    if Disagree(all, child, stamp) && !Disagree(init, child, stamp) {
      var a, b :| a in all && b in all && IsSample(a, child, stamp) && IsSample(b, child, stamp)
                  && a.transform != b.transform;
      assert a in init || b in init;
    }
  }

  /** Whatever the order of the bag, a stamp is flagged exactly when two of its samples differ. */
  lemma {:induction false} ConflictsExactly(records: seq<Record>, child: string, stamp: int)
    ensures SamplesAgree(records, Load(records), child, stamp)
  {
    if records == [] {
    } else {
      var init, r := records[..|records| - 1], records[|records| - 1];
      ConflictsExactly(init, child, stamp);
      assert records == init + [r];
      if IsSample(r, child, stamp) {
        SamplesAgreeAdd(init, r, Load(init), child, stamp);
      } else {
        OtherSampleLeaves(Load(init), r, child, stamp);
        SamplesAgreeSkip(init, r, Load(init), Load(records), child, stamp);
      }
    }
  }

  lemma OtherSampleLeaves(t: Tables, r: Record, child: string, stamp: int)
    requires !IsSample(r, child, stamp)
    ensures SameAt(t, Add(t, r), child, stamp)
  {
    if Named(r) {
      hide AddTransform;
      OtherTransformLeaves(AddParent(t, r), r, child, stamp);
    }
  }

  lemma OtherTransformLeaves(t: Tables, r: Record, child: string, stamp: int)
    requires Named(r) && !IsSample(r, child, stamp)
    ensures SameAt(t, AddTransform(t, r), child, stamp)
  {
    if Usable(r) && !r.isStatic {
      assert r.child != child || r.stamp != stamp;
    }
  }

  /** So the flagged stamps do not depend on the order in which the bag replays its messages. */
  lemma ConflictsIgnoreOrder(records: seq<Record>, other: seq<Record>)
    requires multiset(records) == multiset(other)
    ensures Load(records).conflicts == Load(other).conflicts
  {
    hide Load;
    SameMembers(records, other);
    forall p | true ensures p in Load(records).conflicts <==> p in Load(other).conflicts {
      ConflictsExactly(records, p.0, p.1);
      ConflictsExactly(other, p.0, p.1);
      DisagreeBySet(records, other, p.0, p.1);
    }
  }

  lemma SameMembers(records: seq<Record>, other: seq<Record>)
    requires multiset(records) == multiset(other)
    ensures forall r :: r in records <==> r in other
  {
    forall r ensures r in records <==> r in other {
      assert r in records <==> r in multiset(records);
      assert r in other <==> r in multiset(other);
    }
  }

  lemma DisagreeBySet(records: seq<Record>, other: seq<Record>, child: string, stamp: int)
    requires forall r :: r in records <==> r in other
    ensures Disagree(records, child, stamp) <==> Disagree(other, child, stamp)
  {
    hide IsSample;
  }

  predicate IsEdge(r: Record, child: string) {
    Named(r) && r.child == child
  }

  ghost predicate Reparented(records: seq<Record>, child: string) {
    exists a, b ::
      a in records && b in records && IsEdge(a, child) && IsEdge(b, child) && a.parent != b.parent
  }

  ghost predicate ParentsAgree(records: seq<Record>, t: Tables, child: string) {
    && (child in t.parents <==> exists a :: a in records && IsEdge(a, child))
    && (child in t.parents ==> exists a :: a in records && IsEdge(a, child) && a.parent == t.parents[child])
    && ((child, ParentChanged) in t.issues <==> Reparented(records, child))
  }

  lemma ParentStep(t: Tables, r: Record, child: string)
    ensures var u := Add(t, r);
            if !IsEdge(r, child) then
              && (child in u.parents <==> child in t.parents)
              && (child in t.parents ==> u.parents[child] == t.parents[child])
              && ((child, ParentChanged) in u.issues <==> (child, ParentChanged) in t.issues)
            else
              && child in u.parents
              && u.parents[child] == (if child in t.parents then t.parents[child] else r.parent)
              && ((child, ParentChanged) in u.issues <==>
                    (child, ParentChanged) in t.issues || (child in t.parents && t.parents[child] != r.parent))
  {
    if Named(r) {
      TransformKeepsParents(AddParent(t, r), r, child);
      hide AddTransform;
    }
  }

  lemma TransformKeepsParents(t: Tables, r: Record, child: string)
    ensures AddTransform(t, r).parents == t.parents
    ensures (child, ParentChanged) in AddTransform(t, r).issues <==> (child, ParentChanged) in t.issues
  {
  }

  /** An edge of the tables was recorded, and its child is flagged exactly when it had two parents. */
  lemma {:induction false} ParentsExactly(records: seq<Record>, child: string)
    ensures ParentsAgree(records, Load(records), child)
  {
    if records == [] {
    } else {
      var init, r := records[..|records| - 1], records[|records| - 1];
      ParentsExactly(init, child);
      ParentStep(Load(init), r, child);
      assert records == init + [r];
      ParentsGrow(init, r, Load(init), Load(records), child);
    }
  }

  lemma ParentsGrow(init: seq<Record>, r: Record, t: Tables, u: Tables, child: string)
    requires ParentsAgree(init, t, child)
    requires if !IsEdge(r, child) then
               && (child in u.parents <==> child in t.parents)
               && (child in t.parents ==> u.parents[child] == t.parents[child])
               && ((child, ParentChanged) in u.issues <==> (child, ParentChanged) in t.issues)
             else
               && child in u.parents
               && u.parents[child] == (if child in t.parents then t.parents[child] else r.parent)
               && ((child, ParentChanged) in u.issues <==>
                     (child, ParentChanged) in t.issues || (child in t.parents && t.parents[child] != r.parent))
    ensures ParentsAgree(init + [r], u, child)
  {
    hide IsEdge;
    var all := init + [r];
    assert r in all && forall a :: a in all <==> a in init || a == r;
  }

  ghost predicate HasStatic(records: seq<Record>, child: string) {
    exists a :: a in records && Usable(a) && a.isStatic && a.child == child
  }

  predicate Flagged(t: Tables, child: string) {
    exists p :: p in t.issues && p.0 == child
  }

  /** A child with an edge has a transform, unless something was wrong with it. */
  predicate Filled(t: Tables, child: string) {
    child in t.statics || child in t.dynamics || Flagged(t, child)
  }

  lemma AddTransformFills(t: Tables, r: Record, child: string)
    ensures r.child == child || Filled(t, child) ==> Filled(AddTransform(t, r), child)
    ensures child in AddTransform(t, r).statics <==>
              child in t.statics || (r.check.Sound? && r.isStatic && r.child == child)
    ensures child in AddTransform(t, r).dynamics ==>
              child in t.dynamics || (r.check.Sound? && !r.isStatic && r.stamp >= 0 && r.child == child)
  {
    var u := AddTransform(t, r);
    if r.child == child && child !in u.statics && child !in u.dynamics {
      var kind := if r.check.NotFinite? then BadNumbers else if r.check.NotNormalized? then BadNorm else NegativeStamp;
      assert (child, kind) in u.issues;
    }
    IssuesOnlyGrow(t, r);
  }

  lemma IssuesOnlyGrow(t: Tables, r: Record)
    ensures t.issues <= AddTransform(t, r).issues && t.issues <= AddParent(t, r).issues
  {
  }

  lemma AddFills(t: Tables, r: Record, child: string)
    ensures IsEdge(r, child) || Filled(t, child) ==> Filled(Add(t, r), child)
    ensures child in Add(t, r).statics <==> child in t.statics || (Usable(r) && r.isStatic && r.child == child)
    ensures child in Add(t, r).dynamics ==> child in t.dynamics || IsSample(r, child, r.stamp)
  {
    IssuesOnlyGrow(t, r);
    if Named(r) {
      AddTransformFills(AddParent(t, r), r, child);
      hide AddTransform;
    }
  }

  /** The static edges are those with a usable static record; a dynamic edge has a sample. */
  lemma {:induction false} EdgesExactly(records: seq<Record>, child: string)
    ensures (exists a :: a in records && IsEdge(a, child)) ==> Filled(Load(records), child)
    ensures child in Load(records).statics <==> HasStatic(records, child)
    ensures child in Load(records).dynamics ==> exists stamp :: Sampled(records, child, stamp)
  {
    if records == [] {
    } else {
      var init, r := records[..|records| - 1], records[|records| - 1];
      EdgesExactly(init, child);
      AddFills(Load(init), r, child);
      assert records == init + [r];
      hide Add, Filled, IsEdge, IsSample, Usable;
      assert r in records && forall a :: a in records <==> a in init || a == r;
      if exists stamp :: Sampled(init, child, stamp) {
        var stamp :| Sampled(init, child, stamp);
        assert Sampled(records, child, stamp);
      } else if IsSample(r, child, r.stamp) {
        assert Sampled(records, child, r.stamp);
      }
    }
  }

  // ---------------------------------------------------------------- static edges

  predicate IsStaticRecord(r: Record, child: string) {
    Usable(r) && r.isStatic && r.child == child
  }

  /** Two usable static records of one edge disagree. */
  ghost predicate StaticsDisagree(records: seq<Record>, child: string) {
    exists a, b ::
      a in records && b in records && IsStaticRecord(a, child) && IsStaticRecord(b, child)
      && a.transform != b.transform
  }

  /** The table holds one of the static records of each child, and flags exactly those that disagree. */
  ghost predicate StaticsAgree(records: seq<Record>, t: Tables, child: string) {
    && (child in t.statics <==> exists a :: a in records && IsStaticRecord(a, child))
    && (child in t.statics ==>
          exists a :: a in records && IsStaticRecord(a, child) && a.transform == t.statics[child])
    && ((child, StaticChanged) in t.issues <==> StaticsDisagree(records, child))
  }

  /** How one record moves what is known of a child's static transform. */
  predicate StaticMoves(t: Tables, u: Tables, r: Record, child: string) {
    if !IsStaticRecord(r, child) then
      && (child in u.statics <==> child in t.statics)
      && (child in t.statics ==> u.statics[child] == t.statics[child])
      && ((child, StaticChanged) in u.issues <==> (child, StaticChanged) in t.issues)
    else
      && child in u.statics && u.statics[child] == r.transform
      && ((child, StaticChanged) in u.issues <==>
            (child, StaticChanged) in t.issues || (child in t.statics && t.statics[child] != r.transform))
  }

  lemma StaticStep(t: Tables, r: Record, child: string)
    ensures StaticMoves(t, Add(t, r), r, child)
  {
    if Named(r) {
      StaticTransformStep(AddParent(t, r), r, child);
      hide AddTransform;
    }
  }

  lemma StaticTransformStep(t: Tables, r: Record, child: string)
    requires Named(r)
    ensures StaticMoves(t, AddTransform(t, r), r, child)
  {
  }

  lemma StaticsGrow(init: seq<Record>, r: Record, t: Tables, u: Tables, child: string)
    requires StaticsAgree(init, t, child) && StaticMoves(t, u, r, child)
    ensures StaticsAgree(init + [r], u, child)
  {
    hide IsStaticRecord;
    var all := init + [r];
    assert r in all && forall a :: a in all <==> a in init || a == r;
  }

  /** A child's static transform is flagged as changed exactly when two of its static records differ. */
  lemma {:induction false} StaticsExactly(records: seq<Record>, child: string)
    ensures StaticsAgree(records, Load(records), child)
  {
    if records == [] {
    } else {
      var init, r := records[..|records| - 1], records[|records| - 1];
      StaticsExactly(init, child);
      StaticStep(Load(init), r, child);
      assert records == init + [r];
      hide Add, StaticMoves;
      StaticsGrow(init, r, Load(init), Load(records), child);
    }
  }

  // ---------------------------------------------------------------- all issues

  /** Record `r` alone shows something wrong with its child. */
  predicate Shows(r: Record, issue: Issue) {
    match issue
    case BadFrames => r.child == "" || r.parent == "" || r.child == r.parent
    case BadNumbers => r.child != "" && r.parent != "" && r.child != r.parent && r.check == NotFinite
    case BadNorm => r.child != "" && r.parent != "" && r.child != r.parent && r.check == NotNormalized
    case NegativeStamp =>
      && r.child != "" && r.parent != "" && r.child != r.parent && r.check == Sound
      && !r.isStatic && r.stamp < 0
    case _ => false
  }

  ghost predicate Shown(records: seq<Record>, child: string, issue: Issue) {
    exists r :: r in records && r.child == child && Shows(r, issue)
  }

  /** Something is wrong with the child: one record shows it, or two contradict each other. */
  ghost predicate Wrong(records: seq<Record>, child: string, issue: Issue) {
    match issue
    case ParentChanged => Reparented(records, child)
    case StaticChanged => StaticsDisagree(records, child)
    case BothTopics => HasStatic(records, child) && exists stamp :: Sampled(records, child, stamp)
    case _ => Shown(records, child, issue)
  }

  lemma IssueStep(t: Tables, r: Record, child: string, issue: Issue)
    requires !issue.ParentChanged? && !issue.StaticChanged?
    ensures (child, issue) in Add(t, r).issues <==>
              (child, issue) in t.issues || (r.child == child && Shows(r, issue))
  {
    if Named(r) {
      ParentIssues(t, r, child, issue);
      TransformIssues(AddParent(t, r), r, child, issue);
      hide AddParent, AddTransform, Shows;
    }
  }

  lemma ParentIssues(t: Tables, r: Record, child: string, issue: Issue)
    requires !issue.ParentChanged?
    ensures (child, issue) in AddParent(t, r).issues <==> (child, issue) in t.issues
  {
  }

  lemma TransformIssues(t: Tables, r: Record, child: string, issue: Issue)
    requires Named(r) && !issue.ParentChanged? && !issue.StaticChanged?
    ensures (child, issue) in AddTransform(t, r).issues <==>
              (child, issue) in t.issues || (r.child == child && Shows(r, issue))
  {
  }

  lemma {:induction false} ShownExactly(records: seq<Record>, child: string, issue: Issue)
    requires !issue.ParentChanged? && !issue.StaticChanged?
    ensures (child, issue) in Load(records).issues <==> Shown(records, child, issue)
  {
    if records == [] {
    } else {
      var init, r := records[..|records| - 1], records[|records| - 1];
      ShownExactly(init, child, issue);
      IssueStep(Load(init), r, child, issue);
      assert records == init + [r];
      assert forall a :: a in records <==> a in init || a == r;
      hide Add, Shows;
    }
  }

  /** The issues reported are exactly those the bag shows, whatever its order. */
  lemma IssuesExactly(records: seq<Record>, child: string, issue: Issue)
    ensures (child, issue) in Finish(Load(records)).issues <==> Wrong(records, child, issue)
  {
    hide Load, Shows, Reparented, StaticsDisagree, HasStatic, Sampled, IsSample;
    ParentsExactly(records, child);
    StaticsExactly(records, child);
    if !issue.ParentChanged? && !issue.StaticChanged? {
      ShownExactly(records, child, issue);
      NeverBothShown(records, child);
    }
    if issue.BothTopics? {
      EdgesExactly(records, child);
      SampledExactly(records, child);
    }
    FinishAdds(Load(records), child, issue);
    hide Finish;
  }

  lemma NeverBothShown(records: seq<Record>, child: string)
    ensures !Shown(records, child, BothTopics)
  {
  }

  lemma SampledExactly(records: seq<Record>, child: string)
    ensures child in Load(records).dynamics <==> exists stamp :: Sampled(records, child, stamp)
  {
    EdgesExactly(records, child);
    hide Load, Sampled;
    if exists stamp :: Sampled(records, child, stamp) {
      var stamp :| Sampled(records, child, stamp);
      ConflictsExactly(records, child, stamp);
    }
  }

  lemma FinishAdds(t: Tables, child: string, issue: Issue)
    ensures (child, issue) in Finish(t).issues <==>
              (child, issue) in t.issues || (issue == BothTopics && child in t.statics && child in t.dynamics)
  {
  }
}
