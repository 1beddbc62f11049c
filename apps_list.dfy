/**
 * The alphabetically sorted list of applications behind the all-apps
 * drawer. From either the current search results, or the work-profile
 * cards, the drawer folders and the sorted apps, it builds the flat adapter
 * list, its fast-scroll sections, its accessibility count and its row
 * layout.
 */
module AppsList {
  import opened Wrappers
  import opened AdapterItems
  import opened FastScroll
  import opened RowLayout
  import opened AppFilter
  import opened SortedWalk

  /** What the work-profile manager contributes to one rebuild: the items its
      addWorkItems appends, the count it returns, and whether it says to show
      the work apps. */
  datatype WorkProfileAnswer = WorkProfileAnswer(items: seq<AdapterItem>, added: int, showWorkApps: bool)

  /** The collaborators one rebuild consults: the work-profile manager (when
      the list has one) and the drawer folders. */
  datatype Collaborators = Collaborators(work: Option<WorkProfileAnswer>, folders: seq<DrawerFolderInfo>)

  function WorkItems(env: Collaborators): seq<AdapterItem>
  {
    if env.work.Some? then env.work.value.items else []
  }

  function WorkOffset(env: Collaborators): int
  {
    if env.work.Some? then env.work.value.added else 0
  }

  predicate HidesWorkApps(env: Collaborators)
  {
    env.work.Some? && !env.work.value.showWorkApps
  }

  /** A null result list stands for no results. */
  function ResultsOrEmpty(results: Option<seq<AdapterItem>>): seq<AdapterItem>
  {
    if results.Some? then results.value else []
  }

  /** Which apps a refresh keeps: those the item filter accepts, unless
      there is no filter or search results are showing. */
  function KeptApps(searching: bool, filter: Option<AppInfo -> bool>): AppInfo -> bool
  {
    if !searching && filter.Some? then filter.value else (_ => true)
  }

  /** The index IME launch focus goes to: the first item counted for
      accessibility, or -1 when there is none. */
  function FocusIndex(items: seq<AdapterItem>): (i: int)
    ensures -1 <= i < |items|
    ensures i == -1 <==> NoneCounted(items)
    ensures 0 <= i ==> items[i].countedForAccessibility && NoneCounted(items[..i])
  {
    if items == [] then -1
    else if items[0].countedForAccessibility then 0
    else
      var rest := FocusIndex(items[1..]);
      if rest == -1 then -1 else rest + 1
  }

  /** The focus index is the one counted item with no counted item before
      it. */
  lemma FocusIndexIsFirst(items: seq<AdapterItem>, k: nat)
    requires k < |items| && items[k].countedForAccessibility && NoneCounted(items[..k])
    ensures FocusIndex(items) == k
  {
  }

  /** The first index at which `x` occurs in `items` (by identity, as an
      item that does not override equality is compared), or -1. */
  method IndexOf(items: seq<AdapterItem>, x: AdapterItem) returns (index: int)
    ensures -1 <= index < |items|
    ensures index == -1 <==> x !in items
    ensures 0 <= index ==> items[index] == x && x !in items[..index]
  {
    for k := 0 to |items|
      invariant x !in items[..k]
    {
      if items[k] == x {
        return k;
      }
    }
    assert items[..|items|] == items;
    return -1;
  }

  /** The stream filter of an apps update: the apps `keep` accepts, in
      order. */
  method FilterApps(sortedApps: seq<AppInfo>, keep: AppInfo -> bool) returns (kept: seq<AppInfo>)
    ensures kept == Filter(sortedApps, keep)
  {
    kept := [];
    for i := 0 to |sortedApps|
      invariant kept == Filter(sortedApps[..i], keep)
    {
      FilterStep(sortedApps, keep, i);
      if keep(sortedApps[i]) {
        kept := kept + [sortedApps[i]];
      }
    }
    assert sortedApps[..|sortedApps|] == sortedApps;
  }

  /** A complete A-Z list counts every work item counted for accessibility
      and every folder and app icon. */
  lemma ListedCount(items: seq<AdapterItem>, sections: seq<FastScrollSectionInfo>,
                    prefix: seq<AdapterItem>, offset: int,
                    folders: seq<DrawerFolderInfo>, apps: seq<AppInfo>)
    requires Listed(items, sections, prefix, offset, folders, apps)
    ensures CountCounted(items) == CountCounted(prefix) + |folders| + |apps|
  {
    var p := |prefix|;
    assert items == prefix + items[p..];
    CountCountedAppend(prefix, items[p..]);
    CountCountedAll(items[p..]);
  }

  class AlphabeticalAppsList {
    const hasAppsStore: bool
    const numAppsPerRowAllApps: int
    var apps: seq<AppInfo>
    var accessibilityResultsCount: int
    var adapterItems: seq<AdapterItem>
    var fastScrollerSections: seq<FastScrollSectionInfo>
    var searchResults: seq<AdapterItem>
    var numAppRowsInAdapter: int
    var itemFilter: Option<AppInfo -> bool>

    /** While there are search results, they are the whole adapter list, with
        no fast-scroll sections, and the count is theirs. */
    ghost predicate Valid()
      reads this`searchResults, this`adapterItems, this`fastScrollerSections, this`accessibilityResultsCount
    {
      |searchResults| > 0 ==>
        && adapterItems == searchResults
        && fastScrollerSections == []
        && accessibilityResultsCount == CountCounted(adapterItems)
    }

    constructor (hasAppsStore: bool, numAppsPerRowAllApps: int)
      ensures this.hasAppsStore == hasAppsStore && this.numAppsPerRowAllApps == numAppsPerRowAllApps
      ensures apps == [] && adapterItems == [] && fastScrollerSections == [] && searchResults == []
      ensures accessibilityResultsCount == 0 && numAppRowsInAdapter == 0 && itemFilter == None
      ensures Valid()
    {
      this.hasAppsStore := hasAppsStore;
      this.numAppsPerRowAllApps := numAppsPerRowAllApps;
      apps := [];
      accessibilityResultsCount := 0;
      adapterItems := [];
      fastScrollerSections := [];
      searchResults := [];
      numAppRowsInAdapter := 0;
      itemFilter := None;
    }

    /** The folders a rebuild walks: none when the list has no apps store. */
    function ShownFolders(env: Collaborators): seq<DrawerFolderInfo>
    {
      if hasAppsStore then env.folders else []
    }

    /** The adapter list, sections and count are those a rebuild from the
        current search results and apps produces. */
    ghost predicate ListBuilt(env: Collaborators)
      reads this`searchResults, this`adapterItems, this`fastScrollerSections, this`accessibilityResultsCount
      reads this`apps
    {
      if |searchResults| > 0 then
        && adapterItems == searchResults
        && fastScrollerSections == []
        && accessibilityResultsCount == CountCounted(adapterItems)
      else if HidesWorkApps(env) then
        && adapterItems == WorkItems(env)
        && fastScrollerSections == []
        && accessibilityResultsCount == 0
      else
        && Listed(adapterItems, fastScrollerSections, WorkItems(env), WorkOffset(env), ShownFolders(env), apps)
        && accessibilityResultsCount == CountCounted(adapterItems)
    }

    /** The row fields of the adapter items and the row count follow the
        layout of the list's view types. */
    ghost predicate RowsLaidOut()
      reads this`adapterItems, this`numAppRowsInAdapter, adapterItems
    {
      numAppsPerRowAllApps != 0 ==>
        && RowsMatchLayout(adapterItems, numAppsPerRowAllApps)
        && numAppRowsInAdapter == NumRows(Kinds(adapterItems), numAppsPerRowAllApps)
    }

    /**
     * Rebuilds the adapter list: the search results verbatim, or else the
     * work-profile items, then one icon per folder and one per app, with a
     * fast-scroll entry wherever the section name changes. Then counts the
     * accessible items and lays the icons out in rows.
     */
    method UpdateAdapterItems(env: Collaborators)
      modifies this, searchResults, if searchResults == [] then WorkItems(env) else []
      ensures ListBuilt(env) && Valid()
      ensures searchResults == old(searchResults) && apps == old(apps) && itemFilter == old(itemFilter)
      ensures |searchResults| == 0 && !HidesWorkApps(env) ==>
        forall k :: |WorkItems(env)| <= k < |adapterItems| ==> fresh(adapterItems[k])
      ensures |searchResults| == 0 && HidesWorkApps(env) ==>
        numAppRowsInAdapter == old(numAppRowsInAdapter) && unchanged(WorkItems(env))
      ensures !(|searchResults| == 0 && HidesWorkApps(env)) ==> RowsLaidOut()
      ensures numAppsPerRowAllApps == 0 ==>
        numAppRowsInAdapter == old(numAppRowsInAdapter) && unchanged(searchResults) && unchanged(WorkItems(env))
    {
      var complete := CollectItems(env);
      if !complete {
        return;
      }
      if numAppsPerRowAllApps != 0 {
        ghost var items := adapterItems;
        assert forall o :: o in items ==> o in old(searchResults) + WorkItems(env) || fresh(o);
        numAppRowsInAdapter := AssignRows(adapterItems, numAppsPerRowAllApps);
      }
    }

    /**
     * The first part of a rebuild: fills the adapter list and the sections
     * and counts the accessible items. Returns false when it stops early
     * because work apps are hidden, in which case the rows are not laid out.
     */
    method CollectItems(env: Collaborators) returns (complete: bool)
      modifies this
      ensures ListBuilt(env) && Valid()
      ensures complete <==> !(|searchResults| == 0 && HidesWorkApps(env))
      ensures searchResults == old(searchResults) && apps == old(apps) && itemFilter == old(itemFilter)
      ensures numAppRowsInAdapter == old(numAppRowsInAdapter)
      ensures |searchResults| == 0 && !HidesWorkApps(env) ==>
        forall k :: |WorkItems(env)| <= k < |adapterItems| ==> fresh(adapterItems[k])
      ensures |searchResults| > 0 ==> adapterItems == searchResults
      ensures |searchResults| == 0 ==> adapterItems[..|WorkItems(env)|] == WorkItems(env)
    {
      fastScrollerSections := [];
      adapterItems := [];
      accessibilityResultsCount := 0;
      complete := true;
      if |searchResults| > 0 {
        adapterItems := adapterItems + searchResults;
        assert adapterItems == searchResults;
      } else {
        var position := 0;
        if env.work.Some? {
          adapterItems := adapterItems + env.work.value.items;
          position := position + env.work.value.added;
          if !env.work.value.showWorkApps {
            complete := false;
            return;
          }
        }
        assert adapterItems == WorkItems(env) && position == WorkOffset(env);
        adapterItems, fastScrollerSections :=
          AppendSorted(adapterItems, position, hasAppsStore, env.folders, apps);
      }
      accessibilityResultsCount := CountCounted(adapterItems);
    }

    /** Whether there are search results, which hide the A-Z list. */
    function HasSearchResults(): (r: bool)
      reads this
      ensures r <==> searchResults != []
      ensures Valid() && r ==> adapterItems == searchResults && fastScrollerSections == []
    {
      |searchResults| > 0
    }

    /** Whether a search is showing and none of its results is counted for
        accessibility. */
    function HasNoFilteredResults(): (r: bool)
      reads this
      ensures Valid() ==> (r <==> searchResults != [] && NoneCounted(adapterItems))
    {
      CountCountedZero(adapterItems);
      HasSearchResults() && accessibilityResultsCount == 0
    }

    /** The index of the child with IME launch focus: the first item counted
        for accessibility, found again with an identity search. */
    method GetFocusedChildIndex() returns (index: int)
      ensures index == FocusIndex(adapterItems)
    {
      for k := 0 to |adapterItems|
        invariant NoneCounted(adapterItems[..k])
      {
        var item := adapterItems[k];
        if item.countedForAccessibility {
          index := IndexOf(adapterItems, item);
          assert adapterItems[k] in adapterItems[..k + 1];
          FocusIndexIsFirst(adapterItems, k);
          return;
        }
      }
      assert adapterItems[..|adapterItems|] == adapterItems;
      index := -1;
    }

    /** The child with IME launch focus, or none when the list is empty or
        nothing in it is counted for accessibility. */
    method GetFocusedChild() returns (child: Option<AdapterItem>)
      ensures child.None? <==> FocusIndex(adapterItems) == -1
      ensures child.Some? ==> child.value == adapterItems[FocusIndex(adapterItems)]
    {
      if |adapterItems| == 0 {
        return None;
      }
      var index := GetFocusedChildIndex();
      if index == -1 {
        return None;
      }
      index := GetFocusedChildIndex();
      return Some(adapterItems[index]);
    }

    /**
     * Replaces the search results, unless they equal the current ones (a
     * missing list stands for none), and rebuilds the adapter list.
     * Reports whether anything changed.
     */
    method SetSearchResults(results: Option<seq<AdapterItem>>, env: Collaborators) returns (changed: bool)
      requires Valid()
      modifies this, ResultsOrEmpty(results), if ResultsOrEmpty(results) == [] then WorkItems(env) else []
      ensures changed <==> results != Some(old(searchResults))
      ensures !changed ==> unchanged(this) && unchanged(ResultsOrEmpty(results)) && unchanged(WorkItems(env))
      ensures changed ==> searchResults == ResultsOrEmpty(results) && ListBuilt(env)
      ensures changed && !(searchResults == [] && HidesWorkApps(env)) ==> RowsLaidOut()
      ensures changed && searchResults == [] && !HidesWorkApps(env) ==>
        forall k :: |WorkItems(env)| <= k < |adapterItems| ==> fresh(adapterItems[k])
      ensures changed && searchResults == [] && HidesWorkApps(env) ==> unchanged(WorkItems(env))
      ensures changed && ((searchResults == [] && HidesWorkApps(env)) || numAppsPerRowAllApps == 0) ==>
        numAppRowsInAdapter == old(numAppRowsInAdapter)
      ensures changed && numAppsPerRowAllApps == 0 ==>
        unchanged(ResultsOrEmpty(results)) && unchanged(WorkItems(env))
      ensures apps == old(apps) && itemFilter == old(itemFilter)
      ensures Valid()
    {
      if results == Some(searchResults) {
        return false;
      }
      searchResults := [];
      if results.Some? {
        searchResults := searchResults + results.value;
      }
      UpdateAdapterItems(env);
      return true;
    }

    /**
     * Refreshes the apps from the apps store's already sorted list, keeping
     * those the item filter accepts (all of them while search results show),
     * in order; then rebuilds the adapter list unless search results show.
     * Without an apps store nothing happens.
     */
    method OnAppsUpdated(sortedApps: seq<AppInfo>, env: Collaborators)
      requires Valid()
      modifies this, searchResults, WorkItems(env)
      ensures !hasAppsStore ==> unchanged(this) && unchanged(searchResults) && unchanged(WorkItems(env))
      ensures hasAppsStore ==> apps == Filter(sortedApps, KeptApps(searchResults != [], itemFilter))
      ensures hasAppsStore && (searchResults != [] || itemFilter.None?) ==> apps == sortedApps
      ensures hasAppsStore ==> ListBuilt(env)
      ensures hasAppsStore && searchResults == [] && !HidesWorkApps(env) ==> RowsLaidOut()
      ensures hasAppsStore && searchResults == [] && !HidesWorkApps(env) ==>
        forall k :: |WorkItems(env)| <= k < |adapterItems| ==> fresh(adapterItems[k])
      ensures searchResults != [] ==> adapterItems == old(adapterItems) && fastScrollerSections == old(fastScrollerSections)
      ensures searchResults != [] ==>
        && accessibilityResultsCount == old(accessibilityResultsCount)
        && numAppRowsInAdapter == old(numAppRowsInAdapter)
        && unchanged(searchResults) && unchanged(WorkItems(env))
      ensures hasAppsStore && searchResults == [] && HidesWorkApps(env) ==>
        numAppRowsInAdapter == old(numAppRowsInAdapter) && unchanged(WorkItems(env))
      ensures numAppsPerRowAllApps == 0 ==>
        numAppRowsInAdapter == old(numAppRowsInAdapter) && unchanged(searchResults) && unchanged(WorkItems(env))
      ensures searchResults == old(searchResults) && itemFilter == old(itemFilter)
      ensures Valid()
    {
      if !hasAppsStore {
        return;
      }
      var keep := KeptApps(searchResults != [], itemFilter);
      apps := FilterApps(sortedApps, keep);
      if searchResults != [] || itemFilter.None? {
        FilterKeepsAll(sortedApps, keep);
      }
      if searchResults == [] {
        UpdateAdapterItems(env);
      }
    }

    /** Installs a new item filter and refreshes the apps with it. */
    method UpdateItemFilter(filter: Option<AppInfo -> bool>, sortedApps: seq<AppInfo>, env: Collaborators)
      requires Valid()
      modifies this, searchResults, WorkItems(env)
      ensures itemFilter == filter && searchResults == old(searchResults)
      ensures hasAppsStore ==> apps == Filter(sortedApps, KeptApps(searchResults != [], filter))
      ensures hasAppsStore ==> ListBuilt(env)
      ensures hasAppsStore && searchResults == [] && !HidesWorkApps(env) ==> RowsLaidOut()
      ensures hasAppsStore && searchResults == [] && !HidesWorkApps(env) ==>
        forall k :: |WorkItems(env)| <= k < |adapterItems| ==> fresh(adapterItems[k])
      ensures !hasAppsStore || searchResults != [] ==>
        && adapterItems == old(adapterItems) && fastScrollerSections == old(fastScrollerSections)
        && accessibilityResultsCount == old(accessibilityResultsCount)
        && numAppRowsInAdapter == old(numAppRowsInAdapter)
        && unchanged(searchResults) && unchanged(WorkItems(env))
      ensures !hasAppsStore ==> apps == old(apps)
      ensures (hasAppsStore && searchResults == [] && HidesWorkApps(env)) || numAppsPerRowAllApps == 0 ==>
        numAppRowsInAdapter == old(numAppRowsInAdapter)
      ensures (hasAppsStore && searchResults == [] && HidesWorkApps(env)) || numAppsPerRowAllApps == 0 ==>
        unchanged(searchResults) && unchanged(WorkItems(env))
      ensures Valid()
    {
      itemFilter := filter;
      OnAppsUpdated(sortedApps, env);
    }

    /** In a list rebuilt along the A-Z path, the accessibility count is that
        of the work items plus one per folder and app. */
    lemma AccessibilityCountOfAToZ(env: Collaborators)
      requires ListBuilt(env) && searchResults == [] && !HidesWorkApps(env)
      ensures accessibilityResultsCount == CountCounted(WorkItems(env)) + |ShownFolders(env)| + |apps|
    {
      ListedCount(adapterItems, fastScrollerSections, WorkItems(env), WorkOffset(env), ShownFolders(env), apps);
    }
  }
}
