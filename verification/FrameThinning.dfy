/** Thinning by acquisition stamp keeps as many frames as the minimum spacing allows. */
module FrameThinning {
  import opened Common
  import opened CameraContract
  import opened Dataset

  /** The chooser after a whole stream: what it selected, and whether it refused a stamp. */
  datatype Feed = Feed(selector: Selector, selected: seq<int>, refused: bool)

  function FeedAll(interval: int, stamps: seq<int>): Feed {
    if stamps == [] then Feed(UNSEEN, [], false)
    else
      var before := FeedAll(interval, stamps[..|stamps| - 1]);
      if before.refused then before
      else
        var stamp := stamps[|stamps| - 1];
        var (after, v) := Eligible(interval, before.selector, stamp);
        Feed(after, if v.Selected? then before.selected + [stamp] else before.selected, v.Refused?)
  }

  predicate PositiveAndNondecreasing(stamps: seq<int>) {
    && (forall i :: 0 <= i < |stamps| ==> stamps[i] > 0)
    && (forall i, j :: 0 <= i < j < |stamps| ==> stamps[i] <= stamps[j])
  }

  predicate Spaced(interval: int, stamps: seq<int>) {
    forall i, j :: 0 <= i < j < |stamps| ==> stamps[j] - stamps[i] >= interval
  }

  predicate SubsequenceOf(part: seq<int>, whole: seq<int>) {
    if part == [] then true
    else if whole == [] then false
    else
      var most := whole[..|whole| - 1];
      || SubsequenceOf(part, most)
      || (part[|part| - 1] == whole[|whole| - 1] && SubsequenceOf(part[..|part| - 1], most))
  }

  /** How many stamps equal the one before. */
  function Repeats(stamps: seq<int>): nat {
    var n := |stamps|;
    if n < 2 then 0 else Repeats(stamps[..n - 1]) + if stamps[n - 1] == stamps[n - 2] then 1 else 0
  }

  /** What the chooser remembers of a stream it has accepted so far. */
  ghost predicate Tracks(interval: int, stamps: seq<int>, f: Feed) {
    && f.selector.received == |stamps|
    && f.selector.received == |f.selected| + f.selector.thinned + f.selector.duplicates
    && f.selector.duplicates == Repeats(stamps)
    && (if stamps == [] then f.selector.lastSeen.None? && f.selector.lastSelected.None? && f.selected == []
        else
          && f.selected != []
          && f.selector.lastSeen == Some(stamps[|stamps| - 1])
          && f.selector.lastSelected == Some(f.selected[|f.selected| - 1])
          && 0 <= f.selector.lastSeen.value - f.selector.lastSelected.value < interval)
  }

  lemma {:induction false} FeedTracks(interval: int, stamps: seq<int>)
    requires interval >= 1 && !FeedAll(interval, stamps).refused
    ensures Tracks(interval, stamps, FeedAll(interval, stamps))
  {
    if stamps == [] {
    } else {
      FeedTracks(interval, stamps[..|stamps| - 1]);
    }
  }

  lemma NondecreasingGrows(stamps: seq<int>, stamp: int)
    ensures PositiveAndNondecreasing(stamps + [stamp]) <==>
              && PositiveAndNondecreasing(stamps)
              && stamp > 0
              && (stamps != [] ==> stamps[|stamps| - 1] <= stamp)
  {
    var all := stamps + [stamp];
    assert all[|stamps|] == stamp;
    assert forall i :: 0 <= i < |stamps| ==> all[i] == stamps[i];
  }

  lemma SpacedGrows(interval: int, stamps: seq<int>, stamp: int)
    requires interval >= 1 && Spaced(interval, stamps)
    requires stamps != [] ==> stamp - stamps[|stamps| - 1] >= interval
    ensures Spaced(interval, stamps + [stamp])
  {
    assert forall i :: 0 <= i < |stamps| ==> stamps[i] <= stamps[|stamps| - 1];
  }

  /** A stream is refused exactly when some stamp is not positive or runs backwards. */
  lemma {:induction false} RefusesExactly(interval: int, stamps: seq<int>)
    requires interval >= 1
    ensures !FeedAll(interval, stamps).refused <==> PositiveAndNondecreasing(stamps)
  {
    hide PositiveAndNondecreasing;
    if stamps == [] {
      NothingIsNondecreasing();
    } else {
      var init, last := stamps[..|stamps| - 1], stamps[|stamps| - 1];
      RefusesExactly(interval, init);
      NondecreasingGrows(init, last);
      assert stamps == init + [last];
      if !FeedAll(interval, init).refused {
        FeedTracks(interval, init);
      }
    }
  }

  lemma NothingIsNondecreasing()
    ensures PositiveAndNondecreasing([])
  {
  }

  /** A frame is selected exactly when it is the first or far enough from the last selected one. */
  lemma SelectsExactly(interval: int, init: seq<int>, stamp: int)
    requires interval >= 1 && !FeedAll(interval, init + [stamp]).refused
    ensures !FeedAll(interval, init).refused
    ensures var chosen := FeedAll(interval, init).selected;
            if chosen == [] || stamp - chosen[|chosen| - 1] >= interval
            then FeedAll(interval, init + [stamp]).selected == chosen + [stamp]
            else FeedAll(interval, init + [stamp]).selected == chosen && stamp >= chosen[|chosen| - 1]
  {
    var all := init + [stamp];
    assert all[..|all| - 1] == init && all[|all| - 1] == stamp;
    FeedTracks(interval, init);
  }

  lemma CountersAddUp(interval: int, stamps: seq<int>)
    requires interval >= 1 && !FeedAll(interval, stamps).refused
    ensures var f := FeedAll(interval, stamps);
            && f.selector.duplicates == Repeats(stamps)
            && f.selector.received == |stamps| == |f.selected| + f.selector.thinned + f.selector.duplicates
  {
    FeedTracks(interval, stamps);
  }

  /** The selection is part of the stream and obeys the spacing. */
  lemma {:induction false} SelectionIsSpaced(interval: int, stamps: seq<int>)
    requires interval >= 1 && !FeedAll(interval, stamps).refused
    ensures SubsequenceOf(FeedAll(interval, stamps).selected, stamps)
    ensures Spaced(interval, FeedAll(interval, stamps).selected)
  {
    hide Eligible;
    if stamps == [] {
    } else {
      var init, last := stamps[..|stamps| - 1], stamps[|stamps| - 1];
      assert stamps == init + [last];
      SelectsExactly(interval, init, last);
      SelectionIsSpaced(interval, init);
      var before, after := FeedAll(interval, init).selected, FeedAll(interval, stamps).selected;
      if after != before {
        assert after[..|after| - 1] == before;
        SpacedGrows(interval, before, last);
      }
    }
  }

  /** No other choice with that spacing is longer, and none as long ends earlier. */
  lemma {:induction false} SelectionIsLongest(interval: int, stamps: seq<int>, other: seq<int>)
    requires interval >= 1 && !FeedAll(interval, stamps).refused
    requires SubsequenceOf(other, stamps) && Spaced(interval, other)
    ensures |other| <= |FeedAll(interval, stamps).selected|
    ensures |other| == |FeedAll(interval, stamps).selected| && other != [] ==>
              FeedAll(interval, stamps).selected[|other| - 1] <= other[|other| - 1]
  {
    hide Eligible;
    if stamps == [] {
    } else {
      var init, last := stamps[..|stamps| - 1], stamps[|stamps| - 1];
      assert stamps == init + [last];
      SelectsExactly(interval, init, last);
      if SubsequenceOf(other, init) {
        SelectionIsLongest(interval, init, other);
      } else {
        var shorter := other[..|other| - 1];
        SelectionIsLongest(interval, init, shorter);
        if shorter != [] {
          assert other[|other| - 1] - other[|other| - 2] >= interval;
        }
      }
    }
  }
}
