/** The path between two frames of a parent table. */
module FramePath {
  import opened Common

  type Parents = map<string, string>

  /** `frames` walks up from its first frame without meeting a frame twice. */
  ghost predicate IsChain(parents: Parents, frames: seq<string>) {
    && frames != []
    && (forall i :: 0 <= i < |frames| - 1 ==> frames[i] in parents && frames[i + 1] == parents[frames[i]])
    && (forall i, j :: 0 <= i < j < |frames| ==> frames[i] != frames[j])
  }

  /** A chain that has reached a root. */
  ghost predicate IsAncestry(parents: Parents, frame: string, frames: seq<string>) {
    IsChain(parents, frames) && frames[0] == frame && frames[|frames| - 1] !in parents
  }

  /** Walking up from `frame` comes back to a frame already seen. */
  ghost predicate Cycles(parents: Parents, frame: string) {
    exists frames ::
      IsChain(parents, frames) && frames[0] == frame
      && frames[|frames| - 1] in parents && parents[frames[|frames| - 1]] in frames
  }

  lemma ChainGrows(parents: Parents, frames: seq<string>)
    requires IsChain(parents, frames) && frames[|frames| - 1] in parents
    requires parents[frames[|frames| - 1]] !in frames
    ensures IsChain(parents, frames + [parents[frames[|frames| - 1]]])
  {
  }

  /** A chain visits only known frames, apart from its end: it cannot outgrow the table. */
  lemma ChainIsShort(parents: Parents, frames: seq<string>)
    requires IsChain(parents, frames)
    ensures |frames| <= |parents| + 1
  {
    var inner := frames[..|frames| - 1];
    assert forall i :: 0 <= i < |inner| ==> inner[i] in parents.Keys;
    DistinctWithin(inner, parents.Keys);
  }

  lemma {:induction false} DistinctWithin(frames: seq<string>, all: set<string>)
    requires forall i :: 0 <= i < |frames| ==> frames[i] in all
    requires forall i, j :: 0 <= i < j < |frames| ==> frames[i] != frames[j]
    ensures |frames| <= |all|
  {
    if frames == [] {
    } else {
      DistinctWithin(frames[..|frames| - 1], all - {frames[|frames| - 1]});
    }
  }

  /** The inner function `ancestors`; None for a cycle. */
  method Ancestors(parents: Parents, start: string) returns (r: Option<seq<string>>)
    ensures r.Some? ==> IsAncestry(parents, start, r.value)
    ensures r.None? <==> Cycles(parents, start)
  {
    var frame := start;
    var frames := [frame];
    while frame in parents
      invariant IsChain(parents, frames) && frames[0] == start && frames[|frames| - 1] == frame
      decreases |parents| + 1 - |frames|
    {
      frame := parents[frame];
      if frame in frames {
        return None;
      }
      ghost var before := frames;
      frames := frames + [frame];
      ChainGrows(parents, before);
      ChainIsShort(parents, frames);
    }
    AncestryDoesNotCycle(parents, start, frames);
    return Some(frames);
  }

  /** The walk is determined by where it starts. */
  lemma {:induction false} ChainsAgree(parents: Parents, a: seq<string>, b: seq<string>, k: nat)
    requires IsChain(parents, a) && IsChain(parents, b) && a[0] == b[0]
    requires k < |a| && k < |b|
    ensures a[k] == b[k]
  {
    if k == 0 {
    } else {
      ChainsAgree(parents, a, b, k - 1);
    }
  }

  lemma AncestryDoesNotCycle(parents: Parents, frame: string, frames: seq<string>)
    requires IsAncestry(parents, frame, frames)
    ensures !Cycles(parents, frame)
  {
    forall other | IsChain(parents, other) && other[0] == frame && other[|other| - 1] in parents
      ensures parents[other[|other| - 1]] !in other
    {
      var last := |other| - 1;
      if last >= |frames| - 1 {
        ChainsAgree(parents, frames, other, |frames| - 1);
      } else {
        ChainsAgree(parents, frames, other, last);
        forall i | 0 <= i < |other| ensures other[i] != frames[last + 1] {
          ChainsAgree(parents, frames, other, i);
        }
      }
    }
  }

  lemma AncestryIsUnique(parents: Parents, frame: string, a: seq<string>, b: seq<string>)
    requires IsAncestry(parents, frame, a) && IsAncestry(parents, frame, b)
    ensures a == b
  {
    if |a| < |b| {
      ChainsAgree(parents, a, b, |a| - 1);
    } else if |b| < |a| {
      ChainsAgree(parents, a, b, |b| - 1);
    }
    forall k | 0 <= k < |a| && k < |b| ensures a[k] == b[k] {
      ChainsAgree(parents, a, b, k);
    }
  }

  /** Where two ancestries meet they continue alike. */
  lemma {:induction false} MeetOnce(parents: Parents, a: seq<string>, b: seq<string>, i: nat, j: nat, k: nat)
    requires IsChain(parents, a) && IsChain(parents, b)
    requires a[|a| - 1] !in parents && b[|b| - 1] !in parents
    requires i < |a| && j < |b| && a[i] == b[j] && i + k < |a|
    ensures j + k < |b| && a[i + k] == b[j + k]
  {
    if k == 0 {
    } else {
      MeetOnce(parents, a, b, i, j, k - 1);
    }
  }

  // ---------------------------------------------------------------- the path

  datatype PathResult =
    | Path(children: seq<string>, common: string)
    | NotConnected
    | HasCycle

  /** The two ancestries first meet at positions `i` and `j`, and go on alike from there. */
  ghost predicate Joins(target: seq<string>, source: seq<string>, i: nat, j: nat) {
    && i < |target| && j < |source| && target[i..] == source[j..]
    && (forall f :: f in target[..i] ==> f !in source)
    && (forall f :: f in source[..j] ==> f !in target)
  }

  ghost predicate IsPath(parents: Parents, target: string, source: string, children: seq<string>, common: string) {
    exists t, s, i: nat, j: nat ::
      && IsAncestry(parents, target, t) && IsAncestry(parents, source, s) && Joins(t, s, i, j)
      && children == t[..i] + s[..j] && common == t[i]
  }

  lemma JoinsAt(parents: Parents, target: seq<string>, source: seq<string>, i: nat, j: nat)
    requires IsChain(parents, target) && IsChain(parents, source)
    requires target[|target| - 1] !in parents && source[|source| - 1] !in parents
    requires i < |target| && j < |source| && target[i] == source[j]
    requires forall k :: 0 <= k < j ==> source[k] !in target
    ensures Joins(target, source, i, j)
  {
    var rest, shared := target[i..], source[j..];
    if |rest| < |shared| {
      MeetOnce(parents, source, target, j, i, |rest|);
    } else if |shared| < |rest| {
      MeetOnce(parents, target, source, i, j, |shared|);
    }
    forall k | 0 <= k < |rest| ensures rest[k] == shared[k] {
      MeetOnce(parents, target, source, i, j, k);
    }
    assert rest == shared;
    forall f | f in target[..i] ensures f !in source {
      var k :| 0 <= k < i && target[k] == f;
      BeforeMeeting(target, source, i, j, k);
    }
    forall f | f in source[..j] ensures f !in target {
      var k :| 0 <= k < j && source[k] == f;
    }
  }

  lemma BeforeMeeting(target: seq<string>, source: seq<string>, i: nat, j: nat, k: nat)
    requires k < i < |target| && j < |source| && target[i..] == source[j..]
    requires forall a, b :: 0 <= a < b < |target| ==> target[a] != target[b]
    requires forall m :: 0 <= m < j ==> source[m] !in target
    ensures target[k] !in source
  {
    forall m | 0 <= m < |source| ensures source[m] != target[k] {
      if m >= j {
        assert source[m] == source[j..][m - j] == target[i..][m - j] == target[i + m - j];
      }
    }
  }

  method PathChildren(parents: Parents, target: string, source: string) returns (r: PathResult)
    ensures r.HasCycle? <==> Cycles(parents, target) || Cycles(parents, source)
    ensures r.Path? ==> IsPath(parents, target, source, r.children, r.common)
    ensures r.NotConnected? ==> forall p, q :: IsAncestry(parents, target, p) && IsAncestry(parents, source, q) ==>
              forall f :: f in q ==> f !in p
  {
    hide IsAncestry, Cycles, Joins;
    var targetPath := Ancestors(parents, target);
    if targetPath.None? {
      return HasCycle;
    }
    var sourcePath := Ancestors(parents, source);
    if sourcePath.None? {
      return HasCycle;
    }
    var t, s := targetPath.value, sourcePath.value;
    var j := 0;
    while j < |s| && s[j] !in t
      invariant 0 <= j <= |s|
      invariant forall k :: 0 <= k < j ==> s[k] !in t
    {
      j := j + 1;
    }
    if j == |s| {
      forall p, q | IsAncestry(parents, target, p) && IsAncestry(parents, source, q)
        ensures forall f :: f in q ==> f !in p
      {
        AncestryIsUnique(parents, target, p, t);
        AncestryIsUnique(parents, source, q, s);
      }
      return NotConnected;
    }
    var i := 0;
    while t[i] != s[j]
      invariant 0 <= i < |t|
      invariant s[j] in t[i..]
      decreases |t| - i
    {
      i := i + 1;
    }
    PathFound(parents, target, source, t, s, i, j);
    return Path(t[..i] + s[..j], s[j]);
  }

  lemma PathFound(parents: Parents, target: string, source: string, t: seq<string>, s: seq<string>, i: nat, j: nat)
    requires IsAncestry(parents, target, t) && IsAncestry(parents, source, s)
    requires i < |t| && j < |s| && t[i] == s[j]
    requires forall k :: 0 <= k < j ==> s[k] !in t
    ensures IsPath(parents, target, source, t[..i] + s[..j], s[j])
  {
    JoinsAt(parents, t, s, i, j);
    hide IsAncestry, Joins, IsChain;
    assert IsAncestry(parents, target, t) && IsAncestry(parents, source, s) && Joins(t, s, i, j);
  }

  // ---------------------------------------------------------------- what a path is

  ghost predicate IsAncestor(parents: Parents, frame: string, f: string) {
    exists frames :: IsAncestry(parents, frame, frames) && f in frames
  }

  /** No child is listed twice; the children are the frames above exactly one of the ends; and every
      frame above both ends is the common frame or above it. */
  lemma PathIsShortest(parents: Parents, target: string, source: string, children: seq<string>, common: string)
    requires IsPath(parents, target, source, children, common)
    ensures forall i, j :: 0 <= i < j < |children| ==> children[i] != children[j]
    ensures forall f :: f in children <==> (IsAncestor(parents, target, f) <==> !IsAncestor(parents, source, f))
    ensures IsAncestor(parents, target, common) && IsAncestor(parents, source, common)
    ensures forall f :: IsAncestor(parents, target, f) && IsAncestor(parents, source, f) ==>
              IsAncestor(parents, common, f)
    ensures forall f :: f in children ==> f in parents
  {
    var t, s, i: nat, j: nat :|
      && IsAncestry(parents, target, t) && IsAncestry(parents, source, s) && Joins(t, s, i, j)
      && children == t[..i] + s[..j] && common == t[i];
    hide IsAncestry, Joins;
    JoinedSides(parents, target, source, t, s, i, j);
    forall f ensures IsAncestor(parents, target, f) <==> f in t {
      AncestorIsListed(parents, target, t, f);
    }
    forall f ensures IsAncestor(parents, source, f) <==> f in s {
      AncestorIsListed(parents, source, s, f);
    }
    SharedAreAbove(parents, target, t, i);
    hide IsAncestor;
  }

  /** No repeats, and who is on which side. */
  lemma JoinedSides(parents: Parents, target: string, source: string, t: seq<string>, s: seq<string>, i: nat, j: nat)
    requires IsAncestry(parents, target, t) && IsAncestry(parents, source, s) && Joins(t, s, i, j)
    ensures var children := t[..i] + s[..j];
            && (forall a, b :: 0 <= a < b < |children| ==> children[a] != children[b])
            && (forall f :: f in children <==> (f in t <==> f !in s))
            && (forall f :: f in children ==> f in parents)
    ensures forall f :: f in t && f in s <==> f in t[i..]
    ensures t[i] in t && t[i] in s
  {
    var p, q, rest := t[..i], s[..j], t[i..];
    assert t == p + rest && s == q + rest && rest[0] == t[i];
    SidesAndRest(p, q, rest);
    ChildrenHaveParents(parents, t, p, rest);
    ChildrenHaveParents(parents, s, q, rest);
    forall a, b | 0 <= a < b < |p + q| ensures (p + q)[a] != (p + q)[b] {
      DistinctChildren(t, s, p, q, rest, a, b);
    }
  }

  lemma SharedAreAbove(parents: Parents, target: string, t: seq<string>, i: nat)
    requires IsAncestry(parents, target, t) && i < |t|
    ensures forall f :: f in t[i..] ==> IsAncestor(parents, t[i], f)
  {
    assert t == t[..i] + t[i..];
    RestIsAncestry(parents, target, t[..i], t[i..]);
  }

  lemma SidesAndRest(p: seq<string>, q: seq<string>, rest: seq<string>)
    requires forall f :: f in p ==> f !in q + rest
    requires forall f :: f in q ==> f !in p + rest
    ensures forall f :: f in p + q <==> (f in p + rest <==> f !in q + rest)
    ensures forall f :: f in p + rest && f in q + rest <==> f in rest
  {
  }

  lemma DistinctChildren(t: seq<string>, s: seq<string>, p: seq<string>, q: seq<string>, rest: seq<string>, i: nat,
                         j: nat)
    requires t == p + rest && s == q + rest && i < j < |p + q|
    requires forall a, b :: 0 <= a < b < |t| ==> t[a] != t[b]
    requires forall a, b :: 0 <= a < b < |s| ==> s[a] != s[b]
    requires forall f :: f in p ==> f !in s
    ensures (p + q)[i] != (p + q)[j]
  {
    if j < |p| {
      assert t[i] == p[i] && t[j] == p[j];
    } else if i >= |p| {
      assert s[i - |p|] == q[i - |p|] && s[j - |p|] == q[j - |p|];
    } else {
      assert p[i] in p && s[j - |p|] == q[j - |p|];
    }
  }

  lemma AncestorIsListed(parents: Parents, frame: string, frames: seq<string>, f: string)
    requires IsAncestry(parents, frame, frames)
    ensures IsAncestor(parents, frame, f) <==> f in frames
  {
    forall other | IsAncestry(parents, frame, other) ensures other == frames {
      AncestryIsUnique(parents, frame, other, frames);
    }
  }

  lemma RestIsAncestry(parents: Parents, frame: string, p: seq<string>, rest: seq<string>)
    requires IsAncestry(parents, frame, p + rest) && rest != []
    ensures IsAncestry(parents, rest[0], rest)
  {
    var frames := p + rest;
    assert forall i :: 0 <= i < |rest| ==> rest[i] == frames[|p| + i];
  }

  lemma ChildrenHaveParents(parents: Parents, frames: seq<string>, p: seq<string>, rest: seq<string>)
    requires IsChain(parents, frames) && frames == p + rest && rest != []
    ensures forall f :: f in p ==> f in parents
  {
    forall f | f in p ensures f in parents {
      var i :| 0 <= i < |p| && p[i] == f;
      assert frames[i] == f;
    }
  }

  /** Swapping the ends keeps the set of children, their number, and the common frame. */
  lemma PathIsSymmetric(parents: Parents, a: string, b: string,
                        there: seq<string>, common: string, back: seq<string>, common': string)
    requires IsPath(parents, a, b, there, common) && IsPath(parents, b, a, back, common')
    ensures common == common' && |there| == |back|
    ensures forall f :: f in there <==> f in back
  {
    hide IsAncestor;
    PathIsShortest(parents, a, b, there, common);
    PathIsShortest(parents, b, a, back, common');
    SameChildren(there, back);
    CommonIsLowest(parents, common, common');
  }

  lemma SameChildren(there: seq<string>, back: seq<string>)
    requires forall i, j :: 0 <= i < j < |there| ==> there[i] != there[j]
    requires forall i, j :: 0 <= i < j < |back| ==> back[i] != back[j]
    requires forall f :: f in there <==> f in back
    ensures |there| == |back|
  {
    var all := set f | f in there;
    DistinctWithin(back, all);
    DistinctWithin(there, set f | f in back);
    DistinctFills(there);
    DistinctFills(back);
    assert all == set f | f in back;
  }

  lemma {:induction false} DistinctFills(frames: seq<string>)
    requires forall i, j :: 0 <= i < j < |frames| ==> frames[i] != frames[j]
    ensures |set f | f in frames| == |frames|
  {
    if frames == [] {
    } else {
      var init, last := frames[..|frames| - 1], frames[|frames| - 1];
      DistinctFills(init);
      assert frames == init + [last];
      assert (set f | f in frames) == (set f | f in init) + {last};
    }
  }

  lemma CommonIsLowest(parents: Parents, a: string, b: string)
    requires IsAncestor(parents, a, b) && IsAncestor(parents, b, a)
    ensures a == b
  {
    var x :| IsAncestry(parents, a, x) && b in x;
    var y :| IsAncestry(parents, b, y) && a in y;
    var i :| 0 <= i < |x| && x[i] == b;
    var j :| 0 <= j < |y| && y[j] == a;
    assert x[0] == a && y[0] == b;
    hide IsAncestry, IsAncestor, IsChain;
    assert x[..i] + x[i..] == x && y[..j] + y[j..] == y;
    RestIsAncestry(parents, a, x[..i], x[i..]);
    RestIsAncestry(parents, b, y[..j], y[j..]);
    AncestryIsUnique(parents, b, x[i..], y);
    AncestryIsUnique(parents, a, y[j..], x);
    assert |x[i..]| == |x| - i && |y[j..]| == |y| - j;
  }
}
