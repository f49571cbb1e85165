/** The reference descriptor cache: an ordered dictionary trimmed from its old end. */
module DescriptorCache {
  import opened Common

  predicate Distinct(s: seq<string>) {
    forall i, j :: 0 <= i < j < |s| ==> s[i] != s[j]
  }

  /** `s` without `x`, in order. */
  function Without(s: seq<string>, x: string): seq<string> {
    if s == [] then []
    else Without(s[..|s| - 1], x) + if s[|s| - 1] == x then [] else [s[|s| - 1]]
  }

  /** The last `k` of `s`. */
  function Newest(k: nat, s: seq<string>): seq<string> {
    if |s| <= k then s else s[|s| - k..]
  }

  /** How one lookup reorders the cached names. */
  function Touch(k: nat, order: seq<string>, name: string): seq<string> {
    if name in order then Without(order, name) + [name] else Newest(k, order + [name])
  }

  class DescriptorCache<V> {
    const file: map<string, V>
    const cacheSize: int
    var order: seq<string>
    var values: map<string, V>

    ghost predicate Coherent()
      reads this
    {
      && Distinct(order)
      && values.Keys == (set n | n in order)
      && forall n :: n in values ==> n in file && values[n] == file[n]
    }

    ghost predicate Valid()
      reads this
    {
      Coherent() && |order| <= Capacity()
    }

    function Capacity(): nat {
      if cacheSize < 0 then 0 else cacheSize
    }

    constructor (file: map<string, V>, cacheSize: int)
      ensures Valid() && order == [] && this.file == file && this.cacheSize == cacheSize
    {
      this.file, this.cacheSize := file, cacheSize;
      order, values := [], map[];
    }

    method MoveToEnd(name: string) returns (value: V)
      requires Valid() && name in values
      modifies this
      ensures Valid() && value == file[name]
      ensures order == Touch(Capacity(), old(order), name)
    {
      TouchKeepsDistinct(Capacity(), order, name);
      value := values[name];
      values := values - {name};
      order := Without(order, name);
      values := values[name := value];
      order := order + [name];
    }

    /** Evicting from an empty dictionary is a KeyError. */
    method Trim() returns (ok: bool)
      requires Coherent()
      modifies this
      ensures Valid() && order == Newest(Capacity(), old(order))
      ensures ok <==> cacheSize >= 0
    {
      while |order| > cacheSize
        invariant Coherent() && Newest(Capacity(), order) == Newest(Capacity(), old(order))
        decreases |order|
      {
        if order == [] {
          return false;
        }
        DropOldest(order);
        values := values - {order[0]};
        order := order[1..];
      }
      return true;
    }

    /** None for a KeyError: when the file has no such entry, and the cache is left alone, or when the
        cache size is negative. */
    method GetReferenceDescriptors(name: string) returns (r: Option<V>)
      requires Valid()
      modifies this
      ensures Valid()
      ensures r == if name in file && cacheSize >= 0 then Some(file[name]) else None
      ensures order == if name in file then Touch(Capacity(), old(order), name) else old(order)
    {
      if name in values {
        var value := MoveToEnd(name);
        return Some(value);
      }
      if name !in file {
        return None;
      }
      var descriptors := file[name];
      values := values[name := descriptors];
      order := order + [name];
      var ok := Trim();
      return if ok then Some(descriptors) else None;
    }
  }

  lemma DropOldest(s: seq<string>)
    requires Distinct(s) && s != []
    ensures (set n | n in s[1..]) == (set n | n in s) - {s[0]}
  {
    assert s == [s[0]] + s[1..];
  }

  lemma {:induction false} WithoutMembers(s: seq<string>, x: string)
    ensures forall n :: n in Without(s, x) <==> n in s && n != x
  {
    if s == [] {
    } else {
      var init, last := s[..|s| - 1], s[|s| - 1];
      assert s == init + [last];
      WithoutMembers(init, x);
    }
  }

  lemma {:induction false} WithoutSplits(s: seq<string>, t: seq<string>, x: string)
    ensures Without(s + t, x) == Without(s, x) + Without(t, x)
  {
    if t == [] {
      assert s + t == s;
    } else {
      WithoutSplits(s, t[..|t| - 1], x);
      assert (s + t)[..|s + t| - 1] == s + t[..|t| - 1];
    }
  }

  lemma {:induction false} WithoutAbsent(s: seq<string>, x: string)
    requires x !in s
    ensures Without(s, x) == s
  {
    if s == [] {
    } else {
      var init, last := s[..|s| - 1], s[|s| - 1];
      assert s == init + [last];
      WithoutAbsent(init, x);
    }
  }

  /** Where `x` stands in a list without repeats, and the list without it. */
  lemma WithoutCuts(s: seq<string>, x: string) returns (i: nat)
    requires Distinct(s) && x in s
    ensures i < |s| && s[i] == x
    ensures Without(s, x) == s[..i] + s[i + 1..]
  {
    i :| 0 <= i < |s| && s[i] == x;
    var a, b := s[..i], s[i + 1..];
    assert s == (a + [x]) + b;
    WithoutSplits(a + [x], b, x);
    WithoutSplits(a, [x], x);
    WithoutAbsent(a, x);
    WithoutAbsent(b, x);
    assert Without([x], x) == [] by {
      assert [x][..0] == [];
    }
    assert a + [] == a;
  }

  lemma TouchKeepsDistinct(k: nat, order: seq<string>, name: string)
    requires Distinct(order) && name in order
    ensures Distinct(Touch(k, order, name)) && |Touch(k, order, name)| == |order|
    ensures forall n :: n in Touch(k, order, name) <==> n in order
  {
    var i := WithoutCuts(order, name);
    WithoutMembers(order, name);
  }

  // ---------------------------------------------------------------- the whole run

  /** The names a run of lookups leaves cached, starting empty. */
  function Cached(k: nat, names: seq<string>): seq<string> {
    if names == [] then [] else Touch(k, Cached(k, names[..|names| - 1]), names[|names| - 1])
  }

  /** Every name looked up, once, least recent first. */
  function Recency(names: seq<string>): seq<string> {
    if names == [] then []
    else Without(Recency(names[..|names| - 1]), names[|names| - 1]) + [names[|names| - 1]]
  }

  function LastIndex(names: seq<string>, n: string): int {
    if names == [] then -1
    else if names[|names| - 1] == n then |names| - 1
    else LastIndex(names[..|names| - 1], n)
  }

  predicate OrderedBy(names: seq<string>, s: seq<string>) {
    forall i, j :: 0 <= i < j < |s| ==> LastIndex(names, s[i]) < LastIndex(names, s[j])
  }

  /** Recency lists exactly the names looked up, by their last lookup, and so none twice. */
  lemma {:induction false} RecencyOrders(names: seq<string>)
    ensures OrderedBy(names, Recency(names))
    ensures forall n :: n in Recency(names) <==> n in names
  {
    if names != [] {
      var init, last := names[..|names| - 1], names[|names| - 1];
      assert names == init + [last];
      RecencyOrders(init);
      hide OrderedBy;
      OrderedIsDistinct(init, Recency(init));
      WithoutMembers(Recency(init), last);
      WithoutKeepsOrder(init, Recency(init), last);
      NewestLookupIsLast(init, last, Without(Recency(init), last));
    } else {
      NothingOrdered();
    }
  }

  lemma NothingOrdered()
    ensures OrderedBy([], [])
  {
  }

  lemma OrderedIsDistinct(names: seq<string>, s: seq<string>)
    requires OrderedBy(names, s)
    ensures Distinct(s)
  {
    hide LastIndex;
  }

  lemma NewestLookupIsLast(init: seq<string>, last: string, s: seq<string>)
    requires OrderedBy(init, s) && last !in s
    ensures OrderedBy(init + [last], s + [last])
  {
    var names := init + [last];
    assert names[..|names| - 1] == init;
    forall n | n in s ensures LastIndex(names, n) == LastIndex(init, n) < |init| {
      LastIndexBounded(init, n);
    }
    hide LastIndex;
  }

  lemma {:induction false} LastIndexBounded(names: seq<string>, n: string)
    ensures -1 <= LastIndex(names, n) < |names|
  {
    if names == [] {
    } else {
      LastIndexBounded(names[..|names| - 1], n);
    }
  }

  lemma WithoutKeepsOrder(names: seq<string>, s: seq<string>, x: string)
    requires OrderedBy(names, s)
    ensures OrderedBy(names, Without(s, x))
  {
    hide LastIndex;
    if x in s {
      OrderedIsDistinct(names, s);
      var i := WithoutCuts(s, x);
    } else {
      WithoutAbsent(s, x);
    }
  }

  /** Older names in front do not show once there are `k` newer ones. */
  lemma NewestForgets(k: nat, older: seq<string>, newer: seq<string>)
    requires |newer| >= k || older == []
    ensures Newest(k, older + newer) == Newest(k, newer)
  {
    if older == [] {
      assert older + newer == newer;
    }
  }

  /** A cached name moves to the newest end, in the cache as in the whole history. */
  lemma HitIsNewest(k: nat, older: seq<string>, newest: seq<string>, name: string)
    requires Distinct(older + newest) && name in newest
    requires |newest| == k || (older == [] && |newest| <= k)
    ensures Touch(k, newest, name) == Newest(k, Without(older + newest, name) + [name])
  {
    PartsAreDistinct(older, newest);
    hide Distinct, Without;
    WithoutSplits(older, newest, name);
    WithoutAbsent(older, name);
    TouchKeepsDistinct(k, newest, name);
    var moved := Without(newest, name) + [name];
    assert Without(older + newest, name) + [name] == older + moved;
    NewestForgets(k, older, moved);
  }

  lemma PartsAreDistinct(s: seq<string>, t: seq<string>)
    requires Distinct(s + t)
    ensures Distinct(t) && forall n :: n in t ==> n !in s
  {
    assert forall i :: 0 <= i < |s| ==> s[i] == (s + t)[i];
    assert forall i :: 0 <= i < |t| ==> t[i] == (s + t)[|s| + i];
  }

  lemma MissIsNewest(k: nat, older: seq<string>, newest: seq<string>, name: string)
    requires name !in newest && (|newest| == k || older == [])
    ensures Touch(k, newest, name) == Newest(k, Without(older + newest, name) + [name])
  {
    WithoutSplits(older, newest, name);
    WithoutAbsent(newest, name);
    assert Without(older + newest, name) + [name] == Without(older, name) + (newest + [name]);
    NewestForgets(k, Without(older, name), newest + [name]);
  }

  lemma TouchIsNewest(k: nat, recency: seq<string>, name: string)
    requires Distinct(recency)
    ensures Touch(k, Newest(k, recency), name) == Newest(k, Without(recency, name) + [name])
  {
    hide Touch, Without;
    var newest := Newest(k, recency);
    var older := recency[..|recency| - |newest|];
    assert recency == older + newest;
    if name in newest {
      HitIsNewest(k, older, newest, name);
    } else {
      MissIsNewest(k, older, newest, name);
    }
  }

  /** After any lookups the cache holds exactly the most recent distinct names, oldest first. */
  lemma {:induction false} CachesMostRecent(k: nat, names: seq<string>)
    ensures Cached(k, names) == Newest(k, Recency(names))
  {
    if names == [] {
    } else {
      CachesMostRecent(k, names[..|names| - 1]);
      RecencyOrders(names[..|names| - 1]);
      OrderedIsDistinct(names[..|names| - 1], Recency(names[..|names| - 1]));
      TouchIsNewest(k, Recency(names[..|names| - 1]), names[|names| - 1]);
    }
  }

  /** A larger cache always contains a smaller one. */
  lemma LargerCacheContains(small: nat, large: nat, names: seq<string>)
    requires small <= large
    ensures forall n :: n in Cached(small, names) ==> n in Cached(large, names)
    ensures exists older :: Cached(large, names) == older + Cached(small, names)
  {
    CachesMostRecent(small, names);
    CachesMostRecent(large, names);
    hide Cached, Recency;
    NewestNests(small, large, Recency(names));
  }

  lemma NewestNests(small: nat, large: nat, s: seq<string>)
    requires small <= large
    ensures forall n :: n in Newest(small, s) ==> n in Newest(large, s)
    ensures exists older :: Newest(large, s) == older + Newest(small, s)
  {
    var few, many := Newest(small, s), Newest(large, s);
    var older := many[..|many| - |few|];
    assert many == older + few;
    hide Newest;
  }

  /** A run of lookups through the cache, as the localizer makes them. */
  method LookUpAll<V>(cache: DescriptorCache<V>, names: seq<string>) returns (found: seq<Option<V>>)
    requires cache.Valid() && cache.order == []
    modifies cache
    ensures cache.Valid()
    ensures |found| == |names|
    ensures forall i :: 0 <= i < |names| ==>
              found[i] == if names[i] in cache.file && cache.cacheSize >= 0 then Some(cache.file[names[i]]) else None
    ensures cache.order == Newest(cache.Capacity(), Recency(Known(cache.file.Keys, names)))
  {
    hide Recency, Touch, Known, Cached, Newest, Distinct;
    NothingCached(cache.file.Keys, cache.Capacity());
    found := [];
    var i := 0;
    while i < |names|
      invariant 0 <= i == |found| <= |names|
      invariant cache.Valid()
      invariant forall j :: 0 <= j < i ==>
                  found[j] ==
                  if names[j] in cache.file && cache.cacheSize >= 0 then Some(cache.file[names[j]]) else None
      invariant cache.order == Cached(cache.Capacity(), Known(cache.file.Keys, names[..i]))
    {
      var r := cache.GetReferenceDescriptors(names[i]);
      found := found + [r];
      KnownOneMore(cache.file.Keys, names[..i], names[i], cache.Capacity());
      assert names[..i + 1] == names[..i] + [names[i]];
      i := i + 1;
    }
    assert names[..i] == names;
    CachesMostRecent(cache.Capacity(), Known(cache.file.Keys, names));
  }

  /** The lookups that find their entry. */
  function Known(keys: set<string>, names: seq<string>): seq<string> {
    if names == [] then []
    else Known(keys, names[..|names| - 1]) + if names[|names| - 1] in keys then [names[|names| - 1]] else []
  }

  lemma NothingCached(keys: set<string>, k: nat)
    ensures Cached(k, Known(keys, [])) == []
  {
  }

  lemma KnownOneMore(keys: set<string>, names: seq<string>, name: string, k: nat)
    ensures Cached(k, Known(keys, names + [name])) ==
              if name in keys then Touch(k, Cached(k, Known(keys, names)), name) else Cached(k, Known(keys, names))
  {
    hide Touch;
    assert (names + [name])[..|names|] == names;
    var known := Known(keys, names);
    if name in keys {
      assert (known + [name])[..|known|] == known;
    } else {
      assert known + [] == known;
    }
  }
}
