/** Scroll-spy navigation: which section the navigation bar marks as active,
    as set by explicit jumps and by the viewport observer's callbacks. */
module Navigation {

  /** The ids of the navigation items; these are the sections the observer
      watches and the targets the navigation buttons jump to. */
  const Sections: seq<string> := ["home", "experience", "work", "contact"]

  /** The tab marked active when the page loads. */
  const Home := "home"

  /** One record of an observer batch: the id of the watched section and
      whether it is now past the visibility threshold. */
  datatype Entry = Entry(target: string, isIntersecting: bool)

  /** The active tab after the observer callback has walked `entries`,
      starting from `current`: every intersecting entry overrides the tab,
      the others are skipped. */
  function Settle(current: string, entries: seq<Entry>): (r: string)
    ensures r == current
         || exists i :: 0 <= i < |entries| && entries[i].isIntersecting && entries[i].target == r
  {
    if entries == [] then current
    else
      var last := entries[|entries| - 1];
      if last.isIntersecting then last.target
      else
        var r := Settle(current, entries[..|entries| - 1]);
        assert r != current ==> exists i :: 0 <= i < |entries| - 1 && entries[i].isIntersecting && entries[i].target == r by {
          if r != current {
            var i :| 0 <= i < |entries| - 1 && entries[..|entries| - 1][i].isIntersecting
                                            && entries[..|entries| - 1][i].target == r;
            assert entries[i] == entries[..|entries| - 1][i];
          }
        }
        r
  }

  /** A batch with no intersecting entry leaves the tab where it was. */
  lemma SettleWithoutIntersecting(current: string, entries: seq<Entry>)
    requires forall i :: 0 <= i < |entries| ==> !entries[i].isIntersecting
    ensures Settle(current, entries) == current
  {
  }

  /** The last intersecting entry of a batch wins, whatever came before it. */
  lemma {:induction false} SettleLastIntersectingWins(current: string, entries: seq<Entry>, i: nat)
    requires i < |entries| && entries[i].isIntersecting
    requires forall j :: i < j < |entries| ==> !entries[j].isIntersecting
    ensures Settle(current, entries) == entries[i].target
  {
    if i < |entries| - 1 {
      var init := entries[..|entries| - 1];
      assert forall j :: 0 <= j < |init| ==> init[j] == entries[j];
      SettleLastIntersectingWins(current, init, i);
    }
  }

  /** Two batches delivered one after the other act like their concatenation. */
  lemma {:induction false} SettleConcat(current: string, a: seq<Entry>, b: seq<Entry>)
    ensures Settle(current, a + b) == Settle(Settle(current, a), b)
    decreases |b|
  {
    if b == [] {
      assert a + b == a;
    } else {
      var n := |b|;
      assert (a + b)[..|a + b| - 1] == a + b[..n - 1];
      assert (a + b)[|a + b| - 1] == b[n - 1];
      SettleConcat(current, a, b[..n - 1]);
    }
  }

  /** The observer only reports sections it watches, so starting from a
      navigation section the tab stays on one. */
  lemma SettleStaysOnSections(current: string, entries: seq<Entry>)
    requires current in Sections
    requires forall i :: 0 <= i < |entries| ==> entries[i].target in Sections
    ensures Settle(current, entries) in Sections
  {
  }

  /** A section crossing the threshold becomes the active tab whatever the
      tab was before. */
  lemma SectionCrossingThreshold(current: string, id: string)
    ensures Settle(current, [Entry(id, true)]) == id
  {
  }
}
