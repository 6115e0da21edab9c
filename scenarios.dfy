/**
  Clients of the session that are proved from its contracts alone: the
  factories memoise, a registered tree's changes drain de-duplicated, and the
  search grid's paging commands undo each other.
 */
module Scenarios {
  import opened Wrappers
  import opened Dedup
  import opened Registry
  import opened Manager
  import opened Grids

  /**
    Asking twice for the same plugin: after a successful first call the second
    returns the same control whatever the factory would now make; after a
    failed first call the second tries the factory again.
   */
  method PluginTwice(s: Session, w: World, name: string, context: string, made1: Option<ControlId>, made2: Option<ControlId>)
    returns (r1: Option<ControlId>, r2: Option<ControlId>)
    requires s.Valid() && WellFormed(w)
    requires made1.Some? ==> made1.value < |w.controls|
    requires made2.Some? ==> made2.value < |w.controls|
    modifies s
    ensures r1.Some? ==> r2 == r1
    ensures old(PluginSlot(s.pluginCache, name, context)).None? && r1.None? ==> r2 == made2
  {
    r1 := s.Plugin(w, name, context, made1);
    r2 := s.Plugin(w, name, context, made2);
  }

  /** Two contexts of one plugin name fill two independent slots. */
  method PluginTwoContexts(s: Session, w: World, name: string, c1: string, c2: string, a: ControlId, b: ControlId)
    returns (r1: Option<ControlId>, r2: Option<ControlId>, again: Option<ControlId>)
    requires s.Valid() && WellFormed(w) && a < |w.controls| && b < |w.controls|
    requires c1 != c2
    requires PluginSlot(s.pluginCache, name, c1).None? && PluginSlot(s.pluginCache, name, c2).None?
    modifies s
    ensures r1 == Some(a) && r2 == Some(b) && again == Some(a)
  {
    r1 := s.Plugin(w, name, c1, Some(a));
    r2 := s.Plugin(w, name, c2, Some(b));
    again := s.Plugin(w, name, c1, None);
  }

  /** The sample arena: two leaves under one root. */
  function SampleWorld(): World {
    var leaf := ControlRec([], [], map["Value" := Scalar]);
    World([leaf, leaf, ControlRec([], [0, 1], map[])], 0)
  }

  lemma SampleWorldReach()
    ensures WellFormed(SampleWorld())
    ensures Reach(SampleWorld(), 2) == {0, 1, 2}
  {
    var w := SampleWorld();
    assert WellFormed(w);
    assert [0, 1][..1] == [0];
    assert ReachEach(w, [0]) == {0};
  }

  /**
    A root R (handle 2) with children A (0) and B (1): registering R caches all
    three, and registering it again changes nothing. The refreshed session is live.
   */
  method RegisterSampleTree() returns (cached: set<ControlId>, again: set<ControlId>, live: bool)
    ensures cached == {0, 1, 2} && again == cached
    ensures live
  {
    var w := SampleWorld();
    SampleWorldReach();
    var s := new Session("token");
    s.UpdateExpire(0, 30);
    live := !s.Expired(0);
    s.AddControlToCache(w, Some(2));
    RegisterEffect(w, 2, Empty);
    cached := s.controlCache;
    RegisterIdempotent(w, 2, Empty);
    s.AddControlToCache(w, Some(2));
    again := s.controlCache;
  }

  lemma DrainTwiceQueued(a: ControlId)
    ensures Distinct([] + [a] + [a]) == [a]
  {
    assert [] + [a] + [a] == [a, a];
    assert [a, a][..1] == [a];
    DistinctSnoc([a], a);
  }

  /**
    Two changes of one control before a drain: the drain returns that control
    once, and a second drain returns nothing.
   */
  method TwoChangesDrainOnce(s: Session, w: World, a: ControlId, name: string)
    returns (first: seq<ControlId>, second: seq<ControlId>)
    requires s.Valid() && WellFormed(w) && a < |w.controls|
    requires s.controlQueue == []
    modifies s
    ensures first == [a] && second == []
  {
    DrainTwiceQueued(a);
    s.ControlPropertyChanged(w, a, name);
    s.ControlPropertyChanged(w, a, name);
    first := s.GetControlsFromQueue();
    second := s.GetControlsFromQueue();
  }

  /**
    Paging on and back over a store whose page count does not change: the grid
    returns to the page it started on, next-page is executable again, and
    previous-page was executable on the page in between.
   */
  method NextThenPrevious(g: Search, result: StorePage) returns (between: bool)
    requires g.Valid() && g.bound
    requires CanMoveNext(g.page, g.noPages) && result.noPages == g.noPages
    modifies g
    ensures g.Valid()
    ensures between
    ensures g.page == old(g.page) && g.noPages == old(g.noPages)
    ensures g.nextPageCanExecute && g.Displayed() == result.items
  {
    g.NextPageRun(result);
    between := g.previousPageCanExecute;
    g.PreviousPageRun(result);
  }

  /**
    A new grid has neither a binding nor a filter dialog, so the filters and
    clear commands both fail; they stay executable.
   */
  method NewGridFiltersFail(result: StorePage) returns (filtersOk: bool, clearOk: bool, executable: bool)
    ensures !filtersOk && !clearOk && executable
  {
    var g := new Search();
    filtersOk := g.FiltersRun();
    clearOk := g.ClearRun(result);
    executable := g.filtersCanExecute && g.clearCanExecute;
  }
}
