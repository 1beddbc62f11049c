/**
 * The walk that builds the A-Z part of the drawer list: what the list holds
 * after each folder and app has been walked, and what it holds at the end.
 */
module SortedWalk {
  import opened Wrappers
  import opened AdapterItems
  import opened FastScroll

  /** The fast-scroll section an item of the A-Z list sorts under. Only
      folder and app cells are walked there; an item without info has no
      section, and the empty name stands for that. */
  function ItemSectionName(info: ItemInfo): string
  {
    match info
    case AppItem(app) => app.sectionName
    case FolderItem(_) => FolderSectionName
    case NoInfo => ""
  }

  /** What the A-Z part of the list shows at index `k`: the folders first,
      then the apps. */
  function ListedInfo(folders: seq<DrawerFolderInfo>, apps: seq<AppInfo>, k: int): ItemInfo
    requires 0 <= k < |folders| + |apps|
  {
    if k < |folders| then FolderItem(folders[k]) else AppItem(apps[k - |folders|])
  }

  /** From index `p` on, the list holds a distinct icon, counted for
      accessibility, for each folder and then each app, in order. */
  ghost predicate IconsListed(items: seq<AdapterItem>, p: nat, folders: seq<DrawerFolderInfo>, apps: seq<AppInfo>)
  {
    && p <= |items| <= p + |folders| + |apps|
    && (forall k :: p <= k < |items| ==>
          && items[k].info == ListedInfo(folders, apps, k - p)
          && items[k].viewType == Icon && items[k].countedForAccessibility)
    && (forall a, b :: p <= a < b < |items| ==> items[a] != items[b])
  }

  /** The section bookkeeping after the first `walked` names: the entries
      they record, the position of the next entry, and the last name. */
  ghost predicate SectionsWalked(sections: seq<FastScrollSectionInfo>, position: int, last: Option<string>,
                                 offset: int, names: seq<string>, walked: nat)
  {
    && walked <= |names|
    && position == offset + walked
    && sections == Sections(names[..walked], offset)
    && last == (if walked == 0 then None else Some(names[walked - 1]))
  }

  /** The state of the builder's walk after the first `walked` folders and
      apps: the list holds the prefix and one new icon per entry walked, the
      sections are those of the names walked, `position` counts on from the
      offset, and `last` is the last name walked. */
  ghost predicate Walked(items: seq<AdapterItem>, sections: seq<FastScrollSectionInfo>, position: int,
                         last: Option<string>, prefix: seq<AdapterItem>, offset: int,
                         folders: seq<DrawerFolderInfo>, apps: seq<AppInfo>, walked: nat)
  {
    var p, names := |prefix|, SectionNames(folders, apps);
    && walked <= |folders| + |apps|
    && |items| == p + walked
    && items[..p] == prefix
    && IconsListed(items, p, folders, apps)
    && SectionsWalked(sections, position, last, offset, names, walked)
  }

  /** Walking one more entry appends its icon, records a section entry when
      its name differs from the last one, and moves the position on. */
  lemma WalkStep(items: seq<AdapterItem>, sections: seq<FastScrollSectionInfo>, position: int,
                 last: Option<string>, prefix: seq<AdapterItem>, offset: int,
                 folders: seq<DrawerFolderInfo>, apps: seq<AppInfo>, walked: nat, item: AdapterItem)
    requires Walked(items, sections, position, last, prefix, offset, folders, apps, walked)
    requires walked < |folders| + |apps|
    requires item.info == ListedInfo(folders, apps, walked)
    requires item.viewType == Icon && item.countedForAccessibility
    requires forall k :: |prefix| <= k < |items| ==> items[k] != item
    ensures var name := SectionNames(folders, apps)[walked];
      Walked(items + [item],
             sections + (if last != Some(name) then [FastScrollSectionInfo(name, position)] else []),
             position + 1, Some(name), prefix, offset, folders, apps, walked + 1)
  {
    var p, names := |prefix|, SectionNames(folders, apps);
    IconsStep(items, p, folders, apps, item);
    SectionsWalkStep(sections, position, last, offset, names, walked);
    assert (items + [item])[..p] == items[..p];
  }

  /** Appending the icon of the next entry keeps the icons listed. */
  lemma IconsStep(items: seq<AdapterItem>, p: nat, folders: seq<DrawerFolderInfo>, apps: seq<AppInfo>,
                  item: AdapterItem)
    requires IconsListed(items, p, folders, apps) && |items| < p + |folders| + |apps|
    requires item.info == ListedInfo(folders, apps, |items| - p)
    requires item.viewType == Icon && item.countedForAccessibility
    requires forall k :: p <= k < |items| ==> items[k] != item
    ensures IconsListed(items + [item], p, folders, apps)
  {
  }

  /** Walking one more name records an entry exactly when the name differs
      from the last one. */
  lemma SectionsWalkStep(sections: seq<FastScrollSectionInfo>, position: int, last: Option<string>,
                         offset: int, names: seq<string>, walked: nat)
    requires SectionsWalked(sections, position, last, offset, names, walked) && walked < |names|
    ensures SectionsWalked(
      sections + (if last != Some(names[walked]) then [FastScrollSectionInfo(names[walked], position)] else []),
      position + 1, Some(names[walked]), offset, names, walked + 1)
  {
    SectionsStep(names, offset, walked);
  }

  /** The A-Z part of a rebuilt list: after the prefix, one distinct icon
      per folder and then one per app, in order; and one fast-scroll entry
      per run of equal section names, positions counted on from `offset`. */
  ghost predicate Listed(items: seq<AdapterItem>, sections: seq<FastScrollSectionInfo>,
                         prefix: seq<AdapterItem>, offset: int,
                         folders: seq<DrawerFolderInfo>, apps: seq<AppInfo>)
  {
    var p := |prefix|;
    && |items| == p + |folders| + |apps|
    && items[..p] == prefix
    && IconsListed(items, p, folders, apps)
    && sections == Sections(SectionNames(folders, apps), offset)
  }

  /** Once every folder and app is walked, the list is complete. */
  lemma WalkedComplete(items: seq<AdapterItem>, sections: seq<FastScrollSectionInfo>, position: int,
                       last: Option<string>, prefix: seq<AdapterItem>, offset: int,
                       folders: seq<DrawerFolderInfo>, apps: seq<AppInfo>)
    requires Walked(items, sections, position, last, prefix, offset, folders, apps, |folders| + |apps|)
    ensures Listed(items, sections, prefix, offset, folders, apps)
  {
    var names := SectionNames(folders, apps);
    assert names[..|folders| + |apps|] == names;
  }

  /** The walk's entry after the folders and `j` apps is app `j`. */
  lemma AppEntry(folders: seq<DrawerFolderInfo>, apps: seq<AppInfo>, j: nat)
    requires j < |apps|
    ensures SectionNames(folders, apps)[|folders| + j] == apps[j].sectionName
    ensures ListedInfo(folders, apps, |folders| + j) == AppItem(apps[j])
  {
  }

  /** The section name of the item walked at `k` is the `k`-th name walked. */
  lemma ListedSectionName(folders: seq<DrawerFolderInfo>, apps: seq<AppInfo>, k: nat)
    requires k < |folders| + |apps|
    ensures ItemSectionName(ListedInfo(folders, apps, k)) == SectionNames(folders, apps)[k]
  {
  }

  /**
   * The fast-scroll entries of a complete A-Z list, read against its items:
   * the item after the prefix at index `i` opens an entry, named after its
   * section and placed at `offset + i`, exactly when it is the first item
   * or its section name differs from the item before it; every entry is
   * such an item's; and the entries' positions strictly increase.
   */
  lemma ListedSections(items: seq<AdapterItem>, sections: seq<FastScrollSectionInfo>,
                       prefix: seq<AdapterItem>, offset: int,
                       folders: seq<DrawerFolderInfo>, apps: seq<AppInfo>)
    requires Listed(items, sections, prefix, offset, folders, apps)
    ensures forall i :: |prefix| <= i < |items| ==>
      (FastScrollSectionInfo(ItemSectionName(items[i].info), offset + i - |prefix|) in sections <==>
        i == |prefix| || ItemSectionName(items[i].info) != ItemSectionName(items[i - 1].info))
    ensures forall e :: e in sections ==>
      && |prefix| <= |prefix| + e.position - offset < |items|
      && e.sectionName == ItemSectionName(items[|prefix| + e.position - offset].info)
    ensures forall a, b :: 0 <= a < b < |sections| ==> sections[a].position < sections[b].position
  {
    var p, names := |prefix|, SectionNames(folders, apps);
    SectionsCharacterised(names, offset);
    forall i | p <= i < |items|
      ensures ItemSectionName(items[i].info) == names[i - p]
    {
      ListedSectionName(folders, apps, i - p);
    }
  }

  /**
   * The A-Z part of a rebuild: appends to `items` an icon per folder (only
   * when `withFolders`, that is when the list has an apps store) and then
   * an icon per app, recording a fast-scroll entry wherever the section name
   * changes; positions count on from `position`.
   */
  method AppendSorted(items: seq<AdapterItem>, position: int, withFolders: bool,
                      folders: seq<DrawerFolderInfo>, apps: seq<AppInfo>)
    returns (items': seq<AdapterItem>, sections': seq<FastScrollSectionInfo>)
    ensures Listed(items', sections', items, position, if withFolders then folders else [], apps)
    ensures forall k :: |items| <= k < |items'| ==> fresh(items'[k])
  {
    var shown := if withFolders then folders else [];
    var lastSectionName: Option<string> := None;
    var pos := position;
    items', sections' := items, [];
    assert items[..|items|] == items;
    if withFolders {
      items', sections', pos, lastSectionName :=
        AppendFolders(items', sections', pos, lastSectionName, items, position, folders, apps);
    }
    ghost var walkedFolders := items';
    items', sections', pos, lastSectionName :=
      AppendApps(items', sections', pos, lastSectionName, items, position, shown, apps);
    assert forall k :: |items| <= k < |walkedFolders| ==> items'[k] == walkedFolders[k];
    WalkedComplete(items', sections', pos, lastSectionName, items, position, shown, apps);
  }

  /** One step of either walk: appends a new icon for the entry, and records
      a fast-scroll entry at the current position when the section name
      differs from the last one recorded. */
  method AddListed(items: seq<AdapterItem>, sections: seq<FastScrollSectionInfo>, position: int,
                   last: Option<string>, entry: ItemInfo, sectionName: string,
                   ghost prefix: seq<AdapterItem>, ghost offset: int,
                   ghost folders: seq<DrawerFolderInfo>, ghost apps: seq<AppInfo>, ghost walked: nat)
    returns (items': seq<AdapterItem>, sections': seq<FastScrollSectionInfo>, position': int, last': Option<string>)
    requires Walked(items, sections, position, last, prefix, offset, folders, apps, walked)
    requires walked < |folders| + |apps| && sectionName == SectionNames(folders, apps)[walked]
    requires entry == ListedInfo(folders, apps, walked)
    ensures Walked(items', sections', position', last', prefix, offset, folders, apps, walked + 1)
    ensures |items'| == |items| + 1 && items'[..|items|] == items && fresh(items'[|items|])
  {
    var item: AdapterItem;
    if entry.FolderItem? {
      item := new AdapterItem.AsFolder(entry.folder);
    } else {
      item := new AdapterItem.AsApp(entry.app);
    }
    WalkStep(items, sections, position, last, prefix, offset, folders, apps, walked, item);
    items', sections', last' := items + [item], sections, last;
    assert items'[..|items|] == items;
    if last' != Some(sectionName) {
      last' := Some(sectionName);
      sections' := sections' + [FastScrollSectionInfo(sectionName, position)];
    }
    position' := position + 1;
  }

  /** The folder walk of a rebuild: one folder icon per folder, all in the
      single section "#". */
  method AppendFolders(items: seq<AdapterItem>, sections: seq<FastScrollSectionInfo>, position: int,
                       last: Option<string>, ghost prefix: seq<AdapterItem>, ghost offset: int,
                       folders: seq<DrawerFolderInfo>, ghost apps: seq<AppInfo>)
    returns (items': seq<AdapterItem>, sections': seq<FastScrollSectionInfo>, position': int, last': Option<string>)
    requires Walked(items, sections, position, last, prefix, offset, folders, apps, 0)
    ensures Walked(items', sections', position', last', prefix, offset, folders, apps, |folders|)
    ensures |items| <= |items'| && items'[..|items|] == items
    ensures forall k :: |items| <= k < |items'| ==> fresh(items'[k])
  {
    items', sections', position', last' := items, sections, position, last;
    for i := 0 to |folders|
      invariant Walked(items', sections', position', last', prefix, offset, folders, apps, i)
      invariant |items| <= |items'| && items'[..|items|] == items
      invariant forall k :: |items| <= k < |items'| ==> fresh(items'[k])
    {
      SectionNameAt(folders, apps, i);
      items', sections', position', last' :=
        AddListed(items', sections', position', last', FolderItem(folders[i]), FolderSectionName,
                  prefix, offset, folders, apps, i);
    }
  }

  /** The app walk of a rebuild: one app icon per app, with a section entry
      wherever the section name changes. */
  method AppendApps(items: seq<AdapterItem>, sections: seq<FastScrollSectionInfo>, position: int,
                    last: Option<string>, ghost prefix: seq<AdapterItem>, ghost offset: int,
                    folders: seq<DrawerFolderInfo>, apps: seq<AppInfo>)
    returns (items': seq<AdapterItem>, sections': seq<FastScrollSectionInfo>, position': int, last': Option<string>)
    requires Walked(items, sections, position, last, prefix, offset, folders, apps, |folders|)
    ensures Walked(items', sections', position', last', prefix, offset, folders, apps, |folders| + |apps|)
    ensures |items| <= |items'| && items'[..|items|] == items
    ensures forall k :: |items| <= k < |items'| ==> fresh(items'[k])
  {
    items', sections', position', last' := items, sections, position, last;
    for walked := |folders| to |folders| + |apps|
      invariant Walked(items', sections', position', last', prefix, offset, folders, apps, walked)
      invariant |items| <= |items'| && items'[..|items|] == items
      invariant forall k :: |items| <= k < |items'| ==> fresh(items'[k])
    {
      var info := apps[walked - |folders|];
      AppEntry(folders, apps, walked - |folders|);
      items', sections', position', last' :=
        AddListed(items', sections', position', last', AppItem(info), info.sectionName,
                  prefix, offset, folders, apps, walked);
    }
  }
}
