/** From descriptor matches to pairs of a query keypoint and a 3D point. */
module Correspondences {
  import opened Common
  import opened DescriptorCache

  const NO_POINT := -1

  /** Entry `q` of the matches names an entry of the table that is a real 3D point. */
  predicate Usable(matches: seq<int>, table: seq<int>, q: int) {
    && 0 <= q < |matches|
    && 0 <= matches[q] < |table|
    && table[matches[q]] != NO_POINT
  }

  predicate PairOf(matches: seq<int>, table: seq<int>, q: int, p: int) {
    Usable(matches, table, q) && table[matches[q]] == p
  }

  /** The reference images: their descriptors and the 3D point of each of their keypoints. */
  datatype Model<V> = Model(file: map<string, V>, tables: map<string, seq<int>>)

  predicate Present<V>(m: Model<V>, name: string) {
    name in m.tables && name in m.file
  }

  /** Some usable reference pairs query keypoint `q` with 3D point `p`. */
  ghost predicate IsCorrespondence<V>(m: Model<V>, matcher: V -> seq<int>, references: seq<string>, q: int, p: int) {
    exists name :: name in references && Present(m, name) && PairOf(matcher(m.file[name]), m.tables[name], q, p)
  }

  /** The pairs of one reference, in the order of the query's keypoints. */
  method MatchedPoints(matches: seq<int>, table: seq<int>) returns (queries: seq<int>, points: seq<int>)
    ensures |queries| == |points|
    ensures forall i :: 0 <= i < |queries| ==> PairOf(matches, table, queries[i], points[i])
    ensures forall q :: Usable(matches, table, q) ==> q in queries
    ensures forall i, j :: 0 <= i < j < |queries| ==> queries[i] < queries[j]
  {
    queries, points := [], [];
    var q := 0;
    while q < |matches|
      invariant 0 <= q <= |matches| && |queries| == |points|
      invariant forall i :: 0 <= i < |queries| ==> PairOf(matches, table, queries[i], points[i]) && queries[i] < q
      invariant forall k :: 0 <= k < q && Usable(matches, table, k) ==> k in queries
      invariant forall i, j :: 0 <= i < j < |queries| ==> queries[i] < queries[j]
    {
      if matches[q] >= 0 {
        if matches[q] < |table| {
          if table[matches[q]] != NO_POINT {
            queries := queries + [q];
            points := points + [table[matches[q]]];
          }
        }
      }
      q := q + 1;
    }
  }

  /** The query keypoints one reference matches. */
  ghost function UsableIn(matches: seq<int>, table: seq<int>): set<int> {
    set q | 0 <= q < |matches| && Usable(matches, table, q)
  }

  /** All matches, those of a reference that is listed again counted again. */
  ghost function MatchCount<V>(m: Model<V>, matcher: V -> seq<int>, references: seq<string>): nat {
    if references == [] then 0
    else
      var name := references[|references| - 1];
      MatchCount(m, matcher, references[..|references| - 1]) +
      if Present(m, name) then |UsableIn(matcher(m.file[name]), m.tables[name])| else 0
  }

  lemma {:induction false} IncreasingSize(queries: seq<int>, all: set<int>)
    requires forall i, j :: 0 <= i < j < |queries| ==> queries[i] < queries[j]
    requires forall q :: q in queries <==> q in all
    ensures |queries| == |all|
  {
    if queries == [] {
      HasMember(all);
      assert all == {};
    } else {
      var init, last := queries[..|queries| - 1], queries[|queries| - 1];
      assert queries == init + [last];
      IncreasingSize(init, all - {last});
    }
  }

  lemma MatchedSize(matches: seq<int>, table: seq<int>, queries: seq<int>, points: seq<int>)
    requires |queries| == |points|
    requires forall i :: 0 <= i < |queries| ==> PairOf(matches, table, queries[i], points[i])
    requires forall q :: Usable(matches, table, q) ==> q in queries
    requires forall i, j :: 0 <= i < j < |queries| ==> queries[i] < queries[j]
    ensures |queries| == |UsableIn(matches, table)|
  {
    forall q ensures q in queries <==> q in UsableIn(matches, table) {
      if q in queries {
        var i :| 0 <= i < |queries| && queries[i] == q;
        assert PairOf(matches, table, queries[i], points[i]);
      }
    }
    IncreasingSize(queries, UsableIn(matches, table));
  }

  lemma MatchCountOneMore<V>(m: Model<V>, matcher: V -> seq<int>, references: seq<string>, name: string)
    ensures MatchCount(m, matcher, references + [name]) == MatchCount(m, matcher, references) +
              if Present(m, name) then |UsableIn(matcher(m.file[name]), m.tables[name])| else 0
  {
    var all := references + [name];
    assert all[..|all| - 1] == references && all[|all| - 1] == name;
  }

  // ---------------------------------------------------------------- a dictionary of sets

  type Dictionary = map<int, set<int>>

  predicate Has(d: Dictionary, q: int, p: int) {
    q in d && p in d[q]
  }

  function AddPair(d: Dictionary, q: int, p: int): Dictionary {
    d[q := (if q in d then d[q] else {}) + {p}]
  }

  /** `pairs` is the dictionary as one set. */
  ghost predicate Flattens(d: Dictionary, pairs: set<(int, int)>) {
    forall q, p :: (q, p) in pairs <==> Has(d, q, p)
  }

  lemma AddFlattens(d: Dictionary, pairs: set<(int, int)>, q: int, p: int)
    requires Flattens(d, pairs)
    ensures Flattens(AddPair(d, q, p), pairs + {(q, p)})
    ensures |pairs + {(q, p)}| <= |pairs| + 1
  {
    if (q, p) in pairs {
      assert pairs + {(q, p)} == pairs;
    }
  }

  method AddAll(d: Dictionary, queries: seq<int>, points: seq<int>, ghost pairs: set<(int, int)>)
    returns (after: Dictionary, ghost more: set<(int, int)>)
    requires |queries| == |points| && Flattens(d, pairs)
    ensures Flattens(after, more) && |more| <= |pairs| + |queries|
    ensures forall q, p :: Has(after, q, p) <==>
              Has(d, q, p) || exists i :: 0 <= i < |queries| && queries[i] == q && points[i] == p
  {
    after, more := d, pairs;
    var i := 0;
    while i < |queries|
      invariant 0 <= i <= |queries|
      invariant Flattens(after, more) && |more| <= |pairs| + i
      invariant forall q, p :: Has(after, q, p) <==>
                  Has(d, q, p) || exists k :: 0 <= k < i && queries[k] == q && points[k] == p
    {
      ghost var before := after;
      AddFlattens(after, more, queries[i], points[i]);
      more := more + {(queries[i], points[i])};
      after := AddPair(after, queries[i], points[i]);
      AddsExactly(before, queries[i], points[i]);
      i := i + 1;
    }
  }

  lemma AddsExactly(d: Dictionary, x: int, y: int)
    ensures forall q, p :: Has(AddPair(d, x, y), q, p) <==> Has(d, q, p) || (q == x && p == y)
  {
  }

  // ---------------------------------------------------------------- the lists handed on

  ghost predicate ListsPairs(queries: seq<int>, points: seq<int>, pairs: set<(int, int)>) {
    && |queries| == |points| == |pairs|
    && forall q, p :: (q, p) in pairs <==> exists i :: 0 <= i < |queries| && queries[i] == q && points[i] == p
  }

  lemma ListOneMore(queries: seq<int>, points: seq<int>, pairs: set<(int, int)>, x: int, y: int)
    requires ListsPairs(queries, points, pairs) && (x, y) !in pairs
    ensures ListsPairs(queries + [x], points + [y], pairs + {(x, y)})
  {
    var qs, ps, more := queries + [x], points + [y], pairs + {(x, y)};
    assert qs[|queries|] == x && ps[|points|] == y;
    assert forall i :: 0 <= i < |queries| ==> qs[i] == queries[i] && ps[i] == points[i];
    forall q, p ensures (q, p) in more <==> exists i :: 0 <= i < |qs| && qs[i] == q && ps[i] == p {
      if (q, p) in pairs {
        var i :| 0 <= i < |queries| && queries[i] == q && points[i] == p;
        assert qs[i] == q && ps[i] == p;
      }
      if exists i :: 0 <= i < |qs| && qs[i] == q && ps[i] == p {
        var i :| 0 <= i < |qs| && qs[i] == q && ps[i] == p;
        assert i < |queries| ==> (q, p) in pairs;
      }
    }
  }

  method EmitPoints(q: int, ids: set<int>, queries: seq<int>, points: seq<int>, ghost pairs: set<(int, int)>)
    returns (qs: seq<int>, ps: seq<int>, ghost more: set<(int, int)>)
    requires ListsPairs(queries, points, pairs)
    requires forall p :: (q, p) !in pairs
    ensures ListsPairs(qs, ps, more)
    ensures forall x, y :: (x, y) in more <==> (x, y) in pairs || (x == q && y in ids)
  {
    hide ListsPairs;
    qs, ps, more := queries, points, pairs;
    var rest := ids;
    while rest != {}
      invariant rest <= ids && ListsPairs(qs, ps, more)
      invariant forall x, y :: (x, y) in more <==> (x, y) in pairs || (x == q && y in ids - rest)
      decreases |rest|
    {
      HasMember(rest);
      var p :| p in rest;
      ListOneMore(qs, ps, more, q, p);
      qs, ps := qs + [q], ps + [p];
      more := more + {(q, p)};
      rest := rest - {p};
    }
  }

  method Emit(d: Dictionary, ghost pairs: set<(int, int)>) returns (queries: seq<int>, points: seq<int>)
    requires Flattens(d, pairs)
    ensures ListsPairs(queries, points, pairs)
  {
    hide ListsPairs;
    queries, points := [], [];
    ghost var listed: set<(int, int)> := {};
    NothingListed();
    var rest := d.Keys;
    while rest != {}
      invariant rest <= d.Keys && ListsPairs(queries, points, listed)
      invariant forall q, p :: (q, p) in listed <==> q !in rest && Has(d, q, p)
      decreases |rest|
    {
      HasMember(rest);
      var q :| q in rest;
      queries, points, listed := EmitPoints(q, d[q], queries, points, listed);
      rest := rest - {q};
    }
    assert listed == pairs by {
      forall x | true ensures x in listed <==> x in pairs {
        assert x == (x.0, x.1);
        assert Has(d, x.0, x.1) <==> (x.0, x.1) in pairs;
      }
    }
  }

  lemma NothingListed()
    ensures ListsPairs([], [], {})
  {
  }

  // ---------------------------------------------------------------- the whole query

  predicate NoRepeats(queries: seq<int>, points: seq<int>)
    requires |queries| == |points|
  {
    forall i, j :: 0 <= i < j < |queries| ==> !(queries[i] == queries[j] && points[i] == points[j])
  }

  lemma PlaceOf(queries: seq<int>, points: seq<int>, pairs: set<(int, int)>, q: int, p: int) returns (k: int)
    requires ListsPairs(queries, points, pairs) && (q, p) in pairs
    ensures 0 <= k < |queries| && queries[k] == q && points[k] == p
  {
    assert exists i :: 0 <= i < |queries| && queries[i] == q && points[i] == p;
    k :| 0 <= k < |queries| && queries[k] == q && points[k] == p;
  }

  /** As many places as pairs: no pair is listed twice. */
  lemma {:induction false} ListedOnce(queries: seq<int>, points: seq<int>, pairs: set<(int, int)>)
    requires ListsPairs(queries, points, pairs)
    ensures NoRepeats(queries, points)
  {
    forall i, j | 0 <= i < j < |queries| ensures !(queries[i] == queries[j] && points[i] == points[j]) {
      if queries[i] == queries[j] && points[i] == points[j] {
        var all := set k | 0 <= k < |queries| && k != j :: (queries[k], points[k]);
        forall x | x in pairs ensures x in all {
          assert x == (x.0, x.1);
          var k := PlaceOf(queries, points, pairs, x.0, x.1);
          assert x == (queries[if k == j then i else k], points[if k == j then i else k]);
        }
        FewerPairs(queries, points, j);
        SubsetSize(pairs, all);
      }
    }
  }

  lemma SubsetSize(a: set<(int, int)>, b: set<(int, int)>)
    requires a <= b
    ensures |a| <= |b|
  {
    assert b == a + (b - a);
  }

  lemma FewerPairs(queries: seq<int>, points: seq<int>, j: nat)
    requires |queries| == |points| && j < |queries|
    ensures |set k | 0 <= k < |queries| && k != j :: (queries[k], points[k])| < |queries|
  {
    PairsBelow(queries, points, j, |queries|);
  }

  lemma {:induction false} PairsBelow(queries: seq<int>, points: seq<int>, j: nat, n: nat)
    requires |queries| == |points| && n <= |queries|
    ensures |set k | 0 <= k < n && k != j :: (queries[k], points[k])| <= if j < n then n - 1 else n
  {
    if n == 0 {
    } else {
      PairsBelow(queries, points, j, n - 1);
      var fewer := set k | 0 <= k < n - 1 && k != j :: (queries[k], points[k]);
      var all := set k | 0 <= k < n && k != j :: (queries[k], points[k]);
      if n - 1 == j {
        assert all == fewer;
      } else {
        assert all == fewer + {(queries[n - 1], points[n - 1])};
      }
    }
  }

  /** Lists, without repeats, exactly the correspondences, whatever the cache holds. It fails only if a
      descriptor has to be cached and the cache size is negative. */
  method BuildCorrespondences<V>(cache: DescriptorCache<V>, m: Model<V>, matcher: V -> seq<int>,
                                 references: seq<string>)
    returns (ok: bool, queries: seq<int>, points: seq<int>, total: nat)
    requires cache.Valid() && cache.file == m.file
    modifies cache
    ensures cache.Valid()
    ensures ok <==> cache.cacheSize >= 0 || forall name :: name in references ==> !Present(m, name)
    ensures |queries| == |points| && NoRepeats(queries, points)
    ensures ok ==> forall q, p :: IsCorrespondence(m, matcher, references, q, p) <==>
              exists i :: 0 <= i < |queries| && queries[i] == q && points[i] == p
    ensures |queries| <= total
    ensures total == if ok then MatchCount(m, matcher, references) else 0
  {
    hide ListsPairs, Flattens, NoRepeats, Touch, UsableIn;
    var d: Dictionary := map[];
    ghost var pairs: set<(int, int)> := {};
    NothingFlattens();
    total := 0;
    var k := 0;
    while k < |references|
      invariant 0 <= k <= |references| && cache.Valid()
      invariant Flattens(d, pairs) && |pairs| <= total
      invariant total == MatchCount(m, matcher, references[..k])
      invariant cache.cacheSize >= 0 || forall j :: 0 <= j < k ==> !Present(m, references[j])
      invariant forall q, p :: Has(d, q, p) <==> IsCorrespondence(m, matcher, references[..k], q, p)
      decreases |references| - k
    {
      var name := references[k];
      ghost var before := d;
      CorrespondencesOneMore(m, matcher, references[..k], name);
      MatchCountOneMore(m, matcher, references[..k], name);
      assert references[..k + 1] == references[..k] + [name];
      k := k + 1;
      if name !in m.tables || name !in m.file {
        continue;
      }
      var descriptors := cache.GetReferenceDescriptors(name);
      if descriptors.None? {
        assert name in references && Present(m, name);
        NothingRepeats();
        return false, [], [], 0;
      }
      var qs, ps := MatchedPoints(matcher(descriptors.value), m.tables[name]);
      MatchedSize(matcher(descriptors.value), m.tables[name], qs, ps);
      if |qs| == 0 {
        continue;
      }
      total := total + |ps|;
      d, pairs := AddAll(d, qs, ps, pairs);
      PairsAreListed(matcher(m.file[name]), m.tables[name], qs, ps);
    }
    assert references[..k] == references;
    ok := true;
    queries, points := Emit(d, pairs);
    ListedOnce(queries, points, pairs);
    ListedExactly(queries, points, d, pairs);
  }

  lemma NothingRepeats()
    ensures NoRepeats([], [])
  {
  }

  lemma NothingFlattens()
    ensures Flattens(map[], {})
  {
  }

  lemma ListedExactly(queries: seq<int>, points: seq<int>, d: Dictionary, pairs: set<(int, int)>)
    requires ListsPairs(queries, points, pairs) && Flattens(d, pairs)
    ensures |queries| == |points| == |pairs|
    ensures forall q, p :: Has(d, q, p) <==> exists i :: 0 <= i < |queries| && queries[i] == q && points[i] == p
  {
    forall q, p ensures Has(d, q, p) <==> exists i :: 0 <= i < |queries| && queries[i] == q && points[i] == p {
      assert (q, p) in pairs <==> Has(d, q, p);
    }
  }

  lemma PairsAreListed(matches: seq<int>, table: seq<int>, queries: seq<int>, points: seq<int>)
    requires |queries| == |points|
    requires forall i :: 0 <= i < |queries| ==> PairOf(matches, table, queries[i], points[i])
    requires forall q :: Usable(matches, table, q) ==> q in queries
    ensures forall q, p :: PairOf(matches, table, q, p) <==>
              exists i :: 0 <= i < |queries| && queries[i] == q && points[i] == p
  {
    forall q, p | PairOf(matches, table, q, p)
      ensures exists i :: 0 <= i < |queries| && queries[i] == q && points[i] == p
    {
      assert Usable(matches, table, q);
      var i :| 0 <= i < |queries| && queries[i] == q;
      assert PairOf(matches, table, queries[i], points[i]);
    }
  }

  lemma CorrespondencesOneMore<V>(m: Model<V>, matcher: V -> seq<int>, references: seq<string>, name: string)
    ensures forall q, p :: IsCorrespondence(m, matcher, references + [name], q, p) <==>
              || IsCorrespondence(m, matcher, references, q, p)
              || (Present(m, name) && PairOf(matcher(m.file[name]), m.tables[name], q, p))
  {
    hide PairOf;
    var all := references + [name];
    assert name in all && forall n :: n in all <==> n in references || n == name;
  }

  /** The correspondences do not depend on the order of the references, nor on repeats. */
  lemma CorrespondencesIgnoreOrder<V>(m: Model<V>, matcher: V -> seq<int>, references: seq<string>, other: seq<string>)
    requires forall n :: n in references <==> n in other
    ensures forall q, p :: IsCorrespondence(m, matcher, references, q, p) <==>
                             IsCorrespondence(m, matcher, other, q, p)
  {
    hide PairOf;
  }
}
