/**
 * The Docusaurus sidebar configuration as the script sees it, and what the
 * walk over it records: `/` + id for every `doc` item (the sidebar list) and
 * `/` + dirName for every `autogenerated` item with a non-empty dirName (the
 * autogenerated list) reached from a sidebar given as an item list, depth
 * first, in the order of the items. Shorthand sidebars and untyped category
 * objects record nothing.
 */
module Sidebar {
  import opened JsStrings

  /**
   * One entry of a sidebar. A category whose `items` field is missing is
   * its own variant; an empty `items` array is a `Category` with no items.
   */
  datatype SidebarItem =
    | Label(text: string)                      // a bare string entry
    | Category(items: seq<SidebarItem>)
    | CategoryWithoutItems
    | Doc(id: string)
    | Autogenerated(dirName: Option<string>)
    | Link(href: string)
    | Unknown(kind: string)                    // any other `type`

  /**
   * One value of the sidebars object: an item list, the categories
   * shorthand (an object, which has no length), or a missing value.
   */
  datatype SidebarConfig =
    | ItemList(items: seq<SidebarItem>)
    | Shorthand
    | Missing

  /** What one item adds to the sidebar list. */
  function ItemDocs(item: SidebarItem): seq<string>
    decreases item, 1
  {
    match item
    case Category(items) => ItemsDocs(items)
    case Doc(id) => ["/" + id]
    case _ => []
  }

  /** What a list of items adds to the sidebar list, item after item. */
  function ItemsDocs(items: seq<SidebarItem>): seq<string>
    decreases items, 0
  {
    if items == [] then [] else ItemDocs(items[0]) + ItemsDocs(items[1..])
  }

  /** What one item adds to the autogenerated list; an empty dirName is falsy and adds nothing. */
  function ItemDirs(item: SidebarItem): seq<string>
    decreases item, 1
  {
    match item
    case Category(items) => ItemsDirs(items)
    case Autogenerated(Some(dir)) => if dir == "" then [] else ["/" + dir]
    case _ => []
  }

  function ItemsDirs(items: seq<SidebarItem>): seq<string>
    decreases items, 0
  {
    if items == [] then [] else ItemDirs(items[0]) + ItemsDirs(items[1..])
  }

  /** The item list of a sidebar value, empty for one the walk skips. */
  function ConfigItems(config: SidebarConfig): seq<SidebarItem>
  {
    if config.ItemList? then config.items else []
  }

  /** What all sidebars add to the sidebar list, sidebar after sidebar. */
  function SidebarsDocs(sidebars: seq<SidebarConfig>): seq<string>
  {
    if sidebars == [] then []
    else SidebarsDocs(sidebars[..|sidebars| - 1]) + ItemsDocs(ConfigItems(sidebars[|sidebars| - 1]))
  }

  /** What all sidebars add to the autogenerated list, sidebar after sidebar. */
  function SidebarsDirs(sidebars: seq<SidebarConfig>): seq<string>
  {
    if sidebars == [] then []
    else SidebarsDirs(sidebars[..|sidebars| - 1]) + ItemsDirs(ConfigItems(sidebars[|sidebars| - 1]))
  }

  /**
   * The items the walk stops at, in the order it meets them: a category is
   * replaced by its items, everything else is kept.
   */
  function Leaves(items: seq<SidebarItem>): (r: seq<SidebarItem>)
    ensures forall k :: 0 <= k < |r| ==> !r[k].Category?
    decreases items
  {
    if items == [] then []
    else
      var first := if items[0].Category? then Leaves(items[0].items) else [items[0]];
      first + Leaves(items[1..])
  }

  /** What a leaf item records in the sidebar list, read off the item alone. */
  function DocOfLeaf(leaf: SidebarItem): seq<string>
  {
    if leaf.Doc? then ["/" + leaf.id] else []
  }

  /** What a leaf item records in the autogenerated list, read off the item alone. */
  function DirOfLeaf(leaf: SidebarItem): seq<string>
  {
    if leaf.Autogenerated? && leaf.dirName.Some? && leaf.dirName.value != "" then ["/" + leaf.dirName.value] else []
  }

  function DocsOfLeaves(leaves: seq<SidebarItem>): seq<string>
  {
    if leaves == [] then [] else DocOfLeaf(leaves[0]) + DocsOfLeaves(leaves[1..])
  }

  function DirsOfLeaves(leaves: seq<SidebarItem>): seq<string>
  {
    if leaves == [] then [] else DirOfLeaf(leaves[0]) + DirsOfLeaves(leaves[1..])
  }

  lemma {:induction false} DocsOfLeavesAppend(a: seq<SidebarItem>, b: seq<SidebarItem>)
    ensures DocsOfLeaves(a + b) == DocsOfLeaves(a) + DocsOfLeaves(b)
    decreases |a|
  {
    if a != [] {
      assert (a + b)[0] == a[0];
      assert (a + b)[1..] == a[1..] + b;
      DocsOfLeavesAppend(a[1..], b);
    } else {
      assert a + b == b;
    }
  }

  lemma {:induction false} DirsOfLeavesAppend(a: seq<SidebarItem>, b: seq<SidebarItem>)
    ensures DirsOfLeaves(a + b) == DirsOfLeaves(a) + DirsOfLeaves(b)
    decreases |a|
  {
    if a != [] {
      assert (a + b)[0] == a[0];
      assert (a + b)[1..] == a[1..] + b;
      DirsOfLeavesAppend(a[1..], b);
    } else {
      assert a + b == b;
    }
  }

  /**
   * The recursive walk records exactly what the flattened sidebar holds:
   * the `doc` leaves and the named `autogenerated` leaves, in walk order.
   */
  lemma {:induction false} WalkRecordsLeaves(items: seq<SidebarItem>)
    ensures ItemsDocs(items) == DocsOfLeaves(Leaves(items))
    ensures ItemsDirs(items) == DirsOfLeaves(Leaves(items))
    decreases items
  {
    if items != [] {
      var first := if items[0].Category? then Leaves(items[0].items) else [items[0]];
      if items[0].Category? {
        WalkRecordsLeaves(items[0].items);
      } else {
        assert DocsOfLeaves(first) == DocOfLeaf(items[0]);
        assert DirsOfLeaves(first) == DirOfLeaf(items[0]);
      }
      WalkRecordsLeaves(items[1..]);
      DocsOfLeavesAppend(first, Leaves(items[1..]));
      DirsOfLeavesAppend(first, Leaves(items[1..]));
    }
  }

  /** `forEach` over two runs of items records the first run's entries, then the second's. */
  lemma {:induction false} ItemsAppend(a: seq<SidebarItem>, b: seq<SidebarItem>)
    ensures ItemsDocs(a + b) == ItemsDocs(a) + ItemsDocs(b)
    ensures ItemsDirs(a + b) == ItemsDirs(a) + ItemsDirs(b)
    decreases |a|
  {
    if a != [] {
      assert (a + b)[0] == a[0];
      assert (a + b)[1..] == a[1..] + b;
      ItemsAppend(a[1..], b);
    } else {
      assert a + b == b;
    }
  }

  /** Walking one more item appends what that item records. */
  lemma ItemsSnoc(items: seq<SidebarItem>, i: nat)
    requires i < |items|
    ensures ItemsDocs(items[..i + 1]) == ItemsDocs(items[..i]) + ItemDocs(items[i])
    ensures ItemsDirs(items[..i + 1]) == ItemsDirs(items[..i]) + ItemDirs(items[i])
  {
    assert items[..i + 1] == items[..i] + [items[i]];
    assert [items[i]][1..] == [];
    ItemsAppend(items[..i], [items[i]]);
  }

  /** A category records exactly what its items record, in their order. */
  lemma CategoryContributesItems(items: seq<SidebarItem>)
    ensures ItemDocs(Category(items)) == ItemsDocs(items)
    ensures ItemDirs(Category(items)) == ItemsDirs(items)
  {
  }

  /** Items the walk warns about or ignores record nothing and leave the rest of the walk alone. */
  lemma SilentItemsRecordNothing(item: SidebarItem, before: seq<SidebarItem>, after: seq<SidebarItem>)
    requires item.Label? || item.CategoryWithoutItems? || item.Link? || item.Unknown?
      || (item.Autogenerated? && (item.dirName.None? || item.dirName.value == ""))
    ensures ItemsDocs(before + [item] + after) == ItemsDocs(before + after)
    ensures ItemsDirs(before + [item] + after) == ItemsDirs(before + after)
  {
    SingleItem(item);
    ItemsAppend(before, [item]);
    ItemsAppend(before + [item], after);
    ItemsAppend(before, after);
  }

  /** A run of one item records what that item records. */
  lemma SingleItem(item: SidebarItem)
    ensures ItemsDocs([item]) == ItemDocs(item)
    ensures ItemsDirs([item]) == ItemDirs(item)
  {
    assert [item][1..] == [];
  }

  /** A `doc` item with id `intro` adds `/intro` to the sidebar list and nothing to the other. */
  lemma DocItemExample(items: seq<SidebarItem>)
    requires items == [Doc("intro")]
    ensures ItemsDocs(items) == ["/intro"]
    ensures ItemsDirs(items) == []
  {
    assert "/" + "intro" == "/intro";
    assert items[1..] == [];
    assert ItemsDocs(items) == ItemDocs(items[0]) + ItemsDocs(items[1..]);
    assert ItemsDirs(items) == ItemDirs(items[0]) + ItemsDirs(items[1..]);
  }

  /** An `autogenerated` item with dirName `guides` adds `/guides` to the autogenerated list. */
  lemma AutogeneratedItemExample(items: seq<SidebarItem>)
    requires items == [Autogenerated(Some("guides"))]
    ensures ItemsDirs(items) == ["/guides"]
    ensures ItemsDocs(items) == []
  {
    assert "/" + "guides" == "/guides";
    assert items[1..] == [];
    assert ItemsDocs(items) == ItemDocs(items[0]) + ItemsDocs(items[1..]);
    assert ItemsDirs(items) == ItemDirs(items[0]) + ItemsDirs(items[1..]);
  }

  /** Every entry either walk records starts with `/`; a directory entry also names something. */
  lemma {:induction false} EntriesRooted(items: seq<SidebarItem>)
    ensures forall x :: x in ItemsDocs(items) ==> |x| > 0 && x[0] == '/'
    ensures forall x :: x in ItemsDirs(items) ==> |x| > 1 && x[0] == '/'
    decreases items
  {
    if items != [] {
      if items[0].Category? {
        EntriesRooted(items[0].items);
      }
      EntriesRooted(items[1..]);
    }
  }

  /** Skipped sidebar values (missing, shorthand, empty) record nothing. */
  lemma {:induction false} SkippedSidebarsRecordNothing(sidebars: seq<SidebarConfig>)
    requires forall k :: 0 <= k < |sidebars| ==> !sidebars[k].ItemList? || sidebars[k].items == []
    ensures SidebarsDocs(sidebars) == [] && SidebarsDirs(sidebars) == []
    decreases |sidebars|
  {
    if sidebars != [] {
      SkippedSidebarsRecordNothing(sidebars[..|sidebars| - 1]);
    }
  }
}
