/**
 * The entries of the all-apps drawer's flat adapter list, and the count of
 * those that accessibility services announce.
 */
module AdapterItems {

  /**
   * How the list-building code classifies an item's view type: an icon cell
   * (laid out in rows), a divider (restarts the row count), or anything else
   * (headers, cards, search rows).
   */
  datatype ViewType = Icon | Divider | Other

  /** An installed application as the drawer sees it: a label and the
      fast-scroll section it sorts under. */
  datatype AppInfo = AppInfo(title: string, sectionName: string)

  /** A user-defined drawer folder. */
  datatype DrawerFolderInfo = DrawerFolderInfo(title: string)

  /** What an adapter item shows. */
  datatype ItemInfo = AppItem(app: AppInfo) | FolderItem(folder: DrawerFolderInfo) | NoInfo

  /**
   * One entry of the adapter list. Its kind is fixed at creation; the row it
   * sits in and its place inside that row are written by the list builder.
   */
  class AdapterItem {
    const viewType: ViewType
    const countedForAccessibility: bool
    const info: ItemInfo
    var rowIndex: int
    var rowAppIndex: int

    constructor (viewType: ViewType, countedForAccessibility: bool, info: ItemInfo)
      ensures this.viewType == viewType && this.countedForAccessibility == countedForAccessibility
      ensures this.info == info
      ensures rowIndex == 0 && rowAppIndex == 0
    {
      this.viewType := viewType;
      this.countedForAccessibility := countedForAccessibility;
      this.info := info;
      rowIndex := 0;
      rowAppIndex := 0;
    }

    /** The icon cell of an application. */
    constructor AsApp(app: AppInfo)
      ensures viewType == Icon && countedForAccessibility && info == AppItem(app)
      ensures rowIndex == 0 && rowAppIndex == 0
    {
      viewType := Icon;
      countedForAccessibility := true;
      info := AppItem(app);
      rowIndex := 0;
      rowAppIndex := 0;
    }

    /** The icon cell of a drawer folder. */
    constructor AsFolder(folder: DrawerFolderInfo)
      ensures viewType == Icon && countedForAccessibility && info == FolderItem(folder)
      ensures rowIndex == 0 && rowAppIndex == 0
    {
      viewType := Icon;
      countedForAccessibility := true;
      info := FolderItem(folder);
      rowIndex := 0;
      rowAppIndex := 0;
    }
  }

  /** The view types of a list of items, in order. */
  function Kinds(items: seq<AdapterItem>): (ts: seq<ViewType>)
    ensures |ts| == |items|
    ensures forall k :: 0 <= k < |items| ==> ts[k] == items[k].viewType
  {
    seq(|items|, k requires 0 <= k < |items| => items[k].viewType)
  }

  /** No item of the list is counted for accessibility. */
  predicate NoneCounted(items: seq<AdapterItem>)
  {
    forall k :: 0 <= k < |items| ==> !items[k].countedForAccessibility
  }

  /** The number of items counted for accessibility. */
  function CountCounted(items: seq<AdapterItem>): (c: nat)
    ensures c <= |items|
  {
    if items == [] then 0
    else
      var last := items[|items| - 1];
      CountCounted(items[..|items| - 1]) + (if last.countedForAccessibility then 1 else 0)
  }

  /** The count is zero exactly when no item is counted. */
  lemma {:induction false} CountCountedZero(items: seq<AdapterItem>)
    ensures CountCounted(items) == 0 <==> NoneCounted(items)
  {
    if items != [] {
      var init := items[..|items| - 1];
      CountCountedZero(init);
      assert forall k :: 0 <= k < |init| ==> init[k] == items[k];
    }
  }

  /** The count is the number of items when every item is counted. */
  lemma {:induction false} CountCountedAll(items: seq<AdapterItem>)
    requires forall k :: 0 <= k < |items| ==> items[k].countedForAccessibility
    ensures CountCounted(items) == |items|
  {
    if items != [] {
      var init := items[..|items| - 1];
      assert forall k :: 0 <= k < |init| ==> init[k] == items[k];
      CountCountedAll(init);
    }
  }

  /** Counting a concatenation adds the counts of its parts. */
  lemma {:induction false} CountCountedAppend(a: seq<AdapterItem>, b: seq<AdapterItem>)
    ensures CountCounted(a + b) == CountCounted(a) + CountCounted(b)
  {
    if b != [] {
      var b' := b[..|b| - 1];
      assert (a + b)[..|a + b| - 1] == a + b';
      CountCountedAppend(a, b');
    } else {
      assert a + b == a;
    }
  }
}
