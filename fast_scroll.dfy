/**
 * The fast-scroller sections of the drawer: while the list builder walks
 * the folders and the apps it records an entry each time the section name
 * changes, at the position of the item that opened the section.
 */
module FastScroll {
  import opened AdapterItems

  datatype FastScrollSectionInfo = FastScrollSectionInfo(sectionName: string, position: int)

  /** The section every drawer folder sorts under. */
  const FolderSectionName: string := "#"

  /** The section names the builder walks: one per folder, then one per app. */
  function SectionNames(folders: seq<DrawerFolderInfo>, apps: seq<AppInfo>): (names: seq<string>)
    ensures |names| == |folders| + |apps|
    decreases |apps|, |folders|
  {
    if apps != [] then
      SectionNames(folders, apps[..|apps| - 1]) + [apps[|apps| - 1].sectionName]
    else if folders != [] then
      SectionNames(folders[..|folders| - 1], []) + [FolderSectionName]
    else
      []
  }

  /** The `k`-th name walked: "#" for a folder, the app's section name for
      an app. */
  lemma {:induction false} SectionNameAt(folders: seq<DrawerFolderInfo>, apps: seq<AppInfo>, k: nat)
    requires k < |folders| + |apps|
    ensures SectionNames(folders, apps)[k]
      == if k < |folders| then FolderSectionName else apps[k - |folders|].sectionName
    decreases |apps|, |folders|
  {
    if apps != [] {
      var init := apps[..|apps| - 1];
      if k < |folders| + |init| {
        SectionNameAt(folders, init, k);
      }
    } else if folders != [] {
      var init := folders[..|folders| - 1];
      if k < |init| {
        SectionNameAt(init, [], k);
      }
    }
  }

  /** Entry `k` opens a section: it is the first entry, or its section name
      differs from the one before it. */
  predicate OpensSection(names: seq<string>, k: int)
  {
    0 <= k < |names| && (k == 0 || names[k] != names[k - 1])
  }

  /** The fast-scroll entries recorded while walking `names`, where entry `k`
      sits at list position `offset + k`. */
  function Sections(names: seq<string>, offset: int): seq<FastScrollSectionInfo>
  {
    if names == [] then []
    else
      var k := |names| - 1;
      Sections(names[..k], offset)
        + (if OpensSection(names, k) then [FastScrollSectionInfo(names[k], offset + k)] else [])
  }

  /** Walking one more name appends at most the entry that name opens. */
  lemma SectionsStep(names: seq<string>, offset: int, i: nat)
    requires i < |names|
    ensures Sections(names[..i + 1], offset) == Sections(names[..i], offset)
      + (if OpensSection(names, i) then [FastScrollSectionInfo(names[i], offset + i)] else [])
  {
    assert names[..i + 1][..i] == names[..i];
  }

  /**
   * An entry is recorded exactly for each name that differs from the one
   * before it, with that name and at that name's position; and the recorded
   * positions strictly increase.
   */
  lemma {:induction false} SectionsCharacterised(names: seq<string>, offset: int)
    ensures forall e :: e in Sections(names, offset) <==>
      OpensSection(names, e.position - offset) && e.sectionName == names[e.position - offset]
    ensures forall e :: e in Sections(names, offset) ==> offset <= e.position < offset + |names|
    ensures forall i, j :: 0 <= i < j < |Sections(names, offset)| ==>
      Sections(names, offset)[i].position < Sections(names, offset)[j].position
  {
    if names != [] {
      var k := |names| - 1;
      var init := names[..k];
      SectionsCharacterised(init, offset);
      assert forall m :: 0 <= m < k ==> init[m] == names[m];
      assert forall m :: OpensSection(init, m) <==> OpensSection(names, m) && m < k;
    }
  }

  /** The folders, which all sort under "#", open a single section at the
      offset; the next entry, if any, belongs to an app. */
  lemma FoldersShareOneSection(folders: seq<DrawerFolderInfo>, apps: seq<AppInfo>, offset: int)
    requires |folders| > 0
    ensures var s := Sections(SectionNames(folders, apps), offset);
      && |s| > 0
      && s[0] == FastScrollSectionInfo(FolderSectionName, offset)
      && forall j :: 1 <= j < |s| ==> s[j].position >= offset + |folders|
  {
    var names := SectionNames(folders, apps);
    forall k | 0 <= k < |folders|
      ensures names[k] == FolderSectionName
    {
      SectionNameAt(folders, apps, k);
    }
    FirstSection(names, offset);
    NoEntryInsideRun(names, offset, |folders|);
  }

  /** The first name always opens the first entry, at the offset. */
  lemma FirstSection(names: seq<string>, offset: int)
    requires |names| > 0
    ensures var s := Sections(names, offset);
      |s| > 0 && s[0] == FastScrollSectionInfo(names[0], offset)
  {
  }

  /** While the first `r` names are all equal, no entry after the first
      falls among them. */
  lemma NoEntryInsideRun(names: seq<string>, offset: int, r: nat)
    requires 0 < r <= |names| && forall k :: 0 <= k < r ==> names[k] == names[0]
    ensures var s := Sections(names, offset);
      forall j :: 1 <= j < |s| ==> s[j].position >= offset + r
  {
    var s := Sections(names, offset);
    SectionsCharacterised(names, offset);
    forall j | 1 <= j < |s| ensures s[j].position >= offset + r {
      assert s[j] in s;
      assert s[0] in s;
      assert s[0].position < s[j].position;
      var p := s[j].position - offset;
      assert OpensSection(names, p);
      assert p >= r;
    }
  }
}
