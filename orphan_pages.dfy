/**
 * The script as a whole: the five module-level arrays it fills, the
 * collectors that push into them, and the final orphan pass with its exit
 * status. The directory walk, file reading, link extraction and import
 * matching are replaced by a list of documents given in walk order.
 */
module OrphanPages {
  import opened JsStrings
  import opened PathResolution
  import opened LinkClassification
  import opened UniqueLists
  import opened Sidebar
  import opened OrphanDetection

  /**
   * One file met by the directory walk: its path as the walk builds it
   * (under `../arbitrum-docs`), the raw links the link extractor returns for
   * it, and the paths its `import … from '….md(x)';` lines capture.
   */
  datatype DocFile = DocFile(path: string, links: seq<string>, importPaths: seq<string>)

  predicate AllRooted(xs: seq<string>)
  {
    forall x :: x in xs ==> IsRooted(x)
  }

  /** What one raw link of a file resolves to: nothing if discarded, else its resource path. */
  function ResolvedLink(href: string, origin: string): (r: seq<string>)
    ensures |r| <= 1
    ensures AllRooted(r)
  {
    match ClassifyLink(href)
    case None => []
    case Some(link) =>
      FullPathIsRooted(link, origin);
      [FullPathToResource(link, origin)]
  }

  /** The resource paths the kept links of one file resolve to, in link order. */
  function ResolvedLinks(links: seq<string>, origin: string): (r: seq<string>)
    ensures AllRooted(r)
  {
    if links == [] then []
    else ResolvedLinks(links[..|links| - 1], origin) + ResolvedLink(links[|links| - 1], origin)
  }

  /** The resource paths the import paths of one file resolve to, one for one, in order. */
  function ResolvedImports(paths: seq<string>, origin: string): seq<string>
  {
    seq(|paths|, j requires 0 <= j < |paths| => FullPathToResource(paths[j], origin))
  }

  /** The resolved links of one file. */
  function FileLinks(file: DocFile): (r: seq<string>)
    ensures AllRooted(r)
  {
    ResolvedLinks(file.links, RelativeToRoot(file.path))
  }

  /** One part per file, concatenated in walk order. */
  function Gather(files: seq<DocFile>, part: DocFile -> seq<string>): seq<string>
  {
    if files == [] then [] else Gather(files[..|files| - 1], part) + part(files[|files| - 1])
  }

  /** Every file's part is included in the concatenation. */
  lemma {:induction false} GatherIncludes(files: seq<DocFile>, part: DocFile -> seq<string>, k: nat, x: string)
    requires k < |files| && x in part(files[k])
    ensures x in Gather(files, part)
    decreases |files|
  {
    var n := |files| - 1;
    if k < n {
      assert files[..n][k] == files[k];
      GatherIncludes(files[..n], part, k, x);
    }
  }

  /** The resolved links of every file, file after file. */
  function AllResolvedLinks(files: seq<DocFile>): seq<string>
  {
    Gather(files, FileLinks)
  }

  /** The resolved import paths of one file. */
  function FileImports(file: DocFile): seq<string>
  {
    ResolvedImports(file.importPaths, RelativeToRoot(file.path))
  }

  /** The resolved import paths of every file, file after file. */
  function AllResolvedImports(files: seq<DocFile>): seq<string>
  {
    Gather(files, FileImports)
  }

  /** The resource names of the files, in walk order. */
  function ResourceNames(files: seq<DocFile>): (r: seq<string>)
    ensures |r| == |files|
  {
    if files == [] then []
    else ResourceNames(files[..|files| - 1]) + [ResourceName(files[|files| - 1].path)]
  }

  /** The four lists as they stand once every file and every sidebar has been visited. */
  function FinalCoverage(files: seq<DocFile>, sidebars: seq<SidebarConfig>): Coverage
  {
    Coverage(
      SidebarsDirs(sidebars),
      SidebarsDocs(sidebars),
      DedupAppendAll([], AllResolvedImports(files)),
      DedupAppendAll([], AllResolvedLinks(files)))
  }

  /** The module-level arrays of the script and the functions that fill and read them. */
  class Collector {
    var resources: seq<string>
    var dirsAutogeneratedInSidebar: seq<string>
    var resourcesLinkedInSidebar: seq<string>
    var resourcesLinkedInDocs: seq<string>
    var resourcesImportedInDocs: seq<string>

    /**
     * The doc-linked and doc-imported lists hold no duplicates, and every
     * path in the four link lists starts with `/`.
     */
    ghost predicate Valid()
      reads this
    {
      && NoDuplicates(resourcesLinkedInDocs)
      && NoDuplicates(resourcesImportedInDocs)
      && AllRooted(resourcesLinkedInDocs)
      && AllRooted(resourcesImportedInDocs)
      && AllRooted(resourcesLinkedInSidebar)
      && AllRooted(dirsAutogeneratedInSidebar)
    }

    /** The four lists the orphan test consults, as they stand. */
    function Snapshot(): Coverage
      reads this
    {
      Coverage(dirsAutogeneratedInSidebar, resourcesLinkedInSidebar, resourcesImportedInDocs, resourcesLinkedInDocs)
    }

    constructor()
      ensures Valid()
      ensures resources == [] && dirsAutogeneratedInSidebar == [] && resourcesLinkedInSidebar == []
      ensures resourcesLinkedInDocs == [] && resourcesImportedInDocs == []
    {
      resources := [];
      dirsAutogeneratedInSidebar := [];
      resourcesLinkedInSidebar := [];
      resourcesLinkedInDocs := [];
      resourcesImportedInDocs := [];
    }

    /**
     * `getResourcePathsAndLinks`: every file met by the walk is recorded as a
     * resource, then its links and imports are collected, file after file.
     */
    method GetResourcePathsAndLinks(files: seq<DocFile>)
      requires Valid()
      modifies this
      ensures Valid()
      ensures resources == old(resources) + ResourceNames(files)
      ensures resourcesLinkedInDocs == DedupAppendAll(old(resourcesLinkedInDocs), AllResolvedLinks(files))
      ensures resourcesImportedInDocs == DedupAppendAll(old(resourcesImportedInDocs), AllResolvedImports(files))
      ensures dirsAutogeneratedInSidebar == old(dirsAutogeneratedInSidebar)
      ensures resourcesLinkedInSidebar == old(resourcesLinkedInSidebar)
    {
      for i := 0 to |files|
        invariant Valid()
        invariant resources == old(resources) + ResourceNames(files[..i])
        invariant resourcesLinkedInDocs == DedupAppendAll(old(resourcesLinkedInDocs), AllResolvedLinks(files[..i]))
        invariant resourcesImportedInDocs == DedupAppendAll(old(resourcesImportedInDocs), AllResolvedImports(files[..i]))
        invariant dirsAutogeneratedInSidebar == old(dirsAutogeneratedInSidebar)
        invariant resourcesLinkedInSidebar == old(resourcesLinkedInSidebar)
      {
        VisitFile(files[i]);
        assert files[..i + 1][..i] == files[..i];
        FilesStep(old(resourcesLinkedInDocs), old(resourcesImportedInDocs), files, i);
      }
      assert files[..|files|] == files;
    }

    /** The walk's branch for a file: record its resource name, then collect its links and imports. */
    method VisitFile(file: DocFile)
      requires Valid()
      modifies this
      ensures Valid()
      ensures resources == old(resources) + [ResourceName(file.path)]
      ensures resourcesLinkedInDocs == DedupAppendAll(old(resourcesLinkedInDocs), FileLinks(file))
      ensures resourcesImportedInDocs == DedupAppendAll(old(resourcesImportedInDocs), FileImports(file))
      ensures dirsAutogeneratedInSidebar == old(dirsAutogeneratedInSidebar)
      ensures resourcesLinkedInSidebar == old(resourcesLinkedInSidebar)
    {
      AddResource(file.path);
      ExtractLinksFromMdFile(file.path, file.links, file.importPaths);
    }

    /** The directory walk records a file under its normalised resource name. */
    method AddResource(elementPath: string)
      requires Valid()
      modifies this
      ensures Valid()
      ensures resources == old(resources) + [ResourceName(elementPath)]
      ensures dirsAutogeneratedInSidebar == old(dirsAutogeneratedInSidebar)
      ensures resourcesLinkedInSidebar == old(resourcesLinkedInSidebar)
      ensures resourcesLinkedInDocs == old(resourcesLinkedInDocs)
      ensures resourcesImportedInDocs == old(resourcesImportedInDocs)
    {
      var name := ReplaceFirst(ReplaceFirst(ReplaceFirst(elementPath, DocsRoot, ""), ".mdx", ""), ".md", "");
      resources := resources + [name];
    }

    /**
     * `extractLinksFromMdFile`: every kept link, then every import path, is
     * resolved against the file's path below the root and dedup-appended to
     * its list.
     */
    method ExtractLinksFromMdFile(filePath: string, links: seq<string>, importPaths: seq<string>)
      requires Valid()
      modifies this
      ensures Valid()
      ensures resourcesLinkedInDocs == DedupAppendAll(old(resourcesLinkedInDocs), ResolvedLinks(links, RelativeToRoot(filePath)))
      ensures resourcesImportedInDocs == DedupAppendAll(old(resourcesImportedInDocs), ResolvedImports(importPaths, RelativeToRoot(filePath)))
      ensures resources == old(resources)
      ensures dirsAutogeneratedInSidebar == old(dirsAutogeneratedInSidebar)
      ensures resourcesLinkedInSidebar == old(resourcesLinkedInSidebar)
    {
      var origin := ReplaceFirst(filePath, DocsRoot, "");
      AddLinkedResources(links, origin);
      AddImportedResources(importPaths, origin);
    }

    /** The `links.forEach` pass: classify each link, resolve what is kept, dedup-append it. */
    method AddLinkedResources(links: seq<string>, origin: string)
      requires Valid()
      modifies this
      ensures Valid()
      ensures resourcesLinkedInDocs == DedupAppendAll(old(resourcesLinkedInDocs), ResolvedLinks(links, origin))
      ensures resourcesImportedInDocs == old(resourcesImportedInDocs)
      ensures resources == old(resources)
      ensures dirsAutogeneratedInSidebar == old(dirsAutogeneratedInSidebar)
      ensures resourcesLinkedInSidebar == old(resourcesLinkedInSidebar)
    {
      for i := 0 to |links|
        invariant Valid()
        invariant resourcesLinkedInDocs == DedupAppendAll(old(resourcesLinkedInDocs), ResolvedLinks(links[..i], origin))
        invariant resourcesImportedInDocs == old(resourcesImportedInDocs)
        invariant resources == old(resources)
        invariant dirsAutogeneratedInSidebar == old(dirsAutogeneratedInSidebar)
        invariant resourcesLinkedInSidebar == old(resourcesLinkedInSidebar)
      {
        ProcessLink(links[i], origin);
        LinksStep(old(resourcesLinkedInDocs), links, i, origin);
      }
      assert links[..|links|] == links;
    }

    /** The `forEach` callback: classify one link and dedup-append the path it resolves to, if any. */
    method ProcessLink(link: string, origin: string)
      requires Valid()
      modifies this
      ensures Valid()
      ensures resourcesLinkedInDocs == DedupAppendAll(old(resourcesLinkedInDocs), ResolvedLink(link, origin))
      ensures resourcesImportedInDocs == old(resourcesImportedInDocs)
      ensures resources == old(resources)
      ensures dirsAutogeneratedInSidebar == old(dirsAutogeneratedInSidebar)
      ensures resourcesLinkedInSidebar == old(resourcesLinkedInSidebar)
    {
      var kept := ClassifyLink(link);
      if kept.Some? {
        var resourceFullPath := GetFullPathToResource(kept.value, origin);
        FullPathIsRooted(kept.value, origin);
        if resourceFullPath !in resourcesLinkedInDocs {
          resourcesLinkedInDocs := resourcesLinkedInDocs + [resourceFullPath];
        }
        assert ResolvedLink(link, origin) == [resourceFullPath];
      }
    }

    /** The import-matching loop: resolve each captured import path and dedup-append it. */
    method AddImportedResources(importPaths: seq<string>, origin: string)
      requires Valid()
      modifies this
      ensures Valid()
      ensures resourcesImportedInDocs == DedupAppendAll(old(resourcesImportedInDocs), ResolvedImports(importPaths, origin))
      ensures resourcesLinkedInDocs == old(resourcesLinkedInDocs)
      ensures resources == old(resources)
      ensures dirsAutogeneratedInSidebar == old(dirsAutogeneratedInSidebar)
      ensures resourcesLinkedInSidebar == old(resourcesLinkedInSidebar)
    {
      for i := 0 to |importPaths|
        invariant Valid()
        invariant resourcesImportedInDocs == DedupAppendAll(old(resourcesImportedInDocs), ResolvedImports(importPaths[..i], origin))
        invariant resourcesLinkedInDocs == old(resourcesLinkedInDocs)
        invariant resources == old(resources)
        invariant dirsAutogeneratedInSidebar == old(dirsAutogeneratedInSidebar)
        invariant resourcesLinkedInSidebar == old(resourcesLinkedInSidebar)
      {
        ProcessImport(importPaths[i], origin);
        ImportsStep(old(resourcesImportedInDocs), importPaths, i, origin);
      }
      assert importPaths[..|importPaths|] == importPaths;
    }

    /** The body of the import-matching loop: resolve one captured path and dedup-append it. */
    method ProcessImport(resourcePath: string, origin: string)
      requires Valid()
      modifies this
      ensures Valid()
      ensures resourcesImportedInDocs == DedupAppendAll(old(resourcesImportedInDocs), [FullPathToResource(resourcePath, origin)])
      ensures resourcesLinkedInDocs == old(resourcesLinkedInDocs)
      ensures resources == old(resources)
      ensures dirsAutogeneratedInSidebar == old(dirsAutogeneratedInSidebar)
      ensures resourcesLinkedInSidebar == old(resourcesLinkedInSidebar)
    {
      var resourceFullPath := GetFullPathToResource(resourcePath, origin);
      FullPathIsRooted(resourcePath, origin);
      if resourceFullPath !in resourcesImportedInDocs {
        resourcesImportedInDocs := resourcesImportedInDocs + [resourceFullPath];
      }
    }

    /** `getResourcesFromSidebarItem`: records what one sidebar item names, recursing into categories. */
    method GetResourcesFromSidebarItem(sidebarItem: SidebarItem)
      requires Valid()
      modifies this
      ensures Valid()
      ensures resourcesLinkedInSidebar == old(resourcesLinkedInSidebar) + ItemDocs(sidebarItem)
      ensures dirsAutogeneratedInSidebar == old(dirsAutogeneratedInSidebar) + ItemDirs(sidebarItem)
      ensures resources == old(resources)
      ensures resourcesLinkedInDocs == old(resourcesLinkedInDocs)
      ensures resourcesImportedInDocs == old(resourcesImportedInDocs)
      decreases sidebarItem, 1
    {
      match sidebarItem {
        case Label(_) =>
        case Category(items) =>
          GetResourcesFromSidebarObj(items);
        case CategoryWithoutItems =>
        case Doc(id) =>
          var resourcePath := "/" + id;
          resourcesLinkedInSidebar := resourcesLinkedInSidebar + [resourcePath];
        case Autogenerated(dirName) =>
          if dirName.Some? && dirName.value != "" {
            dirsAutogeneratedInSidebar := dirsAutogeneratedInSidebar + ["/" + dirName.value];
          }
        case Link(_) =>
        case Unknown(_) =>
      }
    }

    /** `getResourcesFromSidebarObj`: walks the items of a sidebar in order. */
    method GetResourcesFromSidebarObj(sidebar: seq<SidebarItem>)
      requires Valid()
      modifies this
      ensures Valid()
      ensures resourcesLinkedInSidebar == old(resourcesLinkedInSidebar) + ItemsDocs(sidebar)
      ensures dirsAutogeneratedInSidebar == old(dirsAutogeneratedInSidebar) + ItemsDirs(sidebar)
      ensures resources == old(resources)
      ensures resourcesLinkedInDocs == old(resourcesLinkedInDocs)
      ensures resourcesImportedInDocs == old(resourcesImportedInDocs)
      decreases sidebar, 0
    {
      for i := 0 to |sidebar|
        invariant Valid()
        invariant resourcesLinkedInSidebar == old(resourcesLinkedInSidebar) + ItemsDocs(sidebar[..i])
        invariant dirsAutogeneratedInSidebar == old(dirsAutogeneratedInSidebar) + ItemsDirs(sidebar[..i])
        invariant resources == old(resources)
        invariant resourcesLinkedInDocs == old(resourcesLinkedInDocs)
        invariant resourcesImportedInDocs == old(resourcesImportedInDocs)
      {
        GetResourcesFromSidebarItem(sidebar[i]);
        ItemsSnoc(sidebar, i);
      }
      assert sidebar[..|sidebar|] == sidebar;
    }

    /**
     * `extractResourcesLinkedInSidebar`: walks every sidebar value that is a
     * non-empty item list, in order; nothing at all when there are none.
     */
    method ExtractResourcesLinkedInSidebar(sidebars: seq<SidebarConfig>)
      requires Valid()
      modifies this
      ensures Valid()
      ensures resourcesLinkedInSidebar == old(resourcesLinkedInSidebar) + SidebarsDocs(sidebars)
      ensures dirsAutogeneratedInSidebar == old(dirsAutogeneratedInSidebar) + SidebarsDirs(sidebars)
      ensures resources == old(resources)
      ensures resourcesLinkedInDocs == old(resourcesLinkedInDocs)
      ensures resourcesImportedInDocs == old(resourcesImportedInDocs)
    {
      if |sidebars| == 0 {
        return;
      }
      for i := 0 to |sidebars|
        invariant Valid()
        invariant resourcesLinkedInSidebar == old(resourcesLinkedInSidebar) + SidebarsDocs(sidebars[..i])
        invariant dirsAutogeneratedInSidebar == old(dirsAutogeneratedInSidebar) + SidebarsDirs(sidebars[..i])
        invariant resources == old(resources)
        invariant resourcesLinkedInDocs == old(resourcesLinkedInDocs)
        invariant resourcesImportedInDocs == old(resourcesImportedInDocs)
      {
        var sidebar := sidebars[i];
        if sidebar.ItemList? && |sidebar.items| > 0 {
          GetResourcesFromSidebarObj(sidebar.items);
        }
        assert sidebars[..i + 1][..i] == sidebars[..i];
      }
      assert sidebars[..|sidebars|] == sidebars;
    }

    /** The orphan pass: the resources that fail all four tests, in order, and the exit status. */
    method DetectOrphans() returns (orphanResources: seq<string>, exitCode: int)
      ensures orphanResources == Orphans(resources, Snapshot())
      ensures exitCode == ExitCode(orphanResources)
    {
      orphanResources := [];
      for i := 0 to |resources|
        invariant orphanResources == Orphans(resources[..i], Snapshot())
      {
        var resourcePath := resources[i];
        if && !UnderAutogeneratedDir(resourcePath, dirsAutogeneratedInSidebar)
           && resourcePath !in resourcesLinkedInSidebar
           && resourcePath !in resourcesImportedInDocs
           && (!EndsWith(resourcePath, ".png") || resourcePath !in resourcesLinkedInDocs)
        {
          orphanResources := orphanResources + [resourcePath];
        }
        OrphansSnoc(resources, i, Snapshot());
      }
      assert resources[..|resources|] == resources;
      if |orphanResources| > 0 {
        exitCode := 1;
      } else {
        exitCode := 0;
      }
    }
  }

  /** Dedup-appending one more link's path extends the dedup-append of the links before it. */
  lemma LinksStep(list: seq<string>, links: seq<string>, i: nat, origin: string)
    requires i < |links|
    ensures DedupAppendAll(DedupAppendAll(list, ResolvedLinks(links[..i], origin)), ResolvedLink(links[i], origin))
      == DedupAppendAll(list, ResolvedLinks(links[..i + 1], origin))
  {
    assert links[..i + 1][..i] == links[..i];
    DedupAppendAllConcat(list, ResolvedLinks(links[..i], origin), ResolvedLink(links[i], origin));
  }

  /** Dedup-appending one more import's path extends the dedup-append of the imports before it. */
  lemma ImportsStep(list: seq<string>, paths: seq<string>, i: nat, origin: string)
    requires i < |paths|
    ensures DedupAppendAll(DedupAppendAll(list, ResolvedImports(paths[..i], origin)), [FullPathToResource(paths[i], origin)])
      == DedupAppendAll(list, ResolvedImports(paths[..i + 1], origin))
  {
    assert ResolvedImports(paths[..i + 1], origin) == ResolvedImports(paths[..i], origin) + [FullPathToResource(paths[i], origin)];
    DedupAppendAllConcat(list, ResolvedImports(paths[..i], origin), [FullPathToResource(paths[i], origin)]);
  }

  /** Visiting one more file extends both doc lists by that file's links and imports. */
  lemma FilesStep(linked: seq<string>, imported: seq<string>, files: seq<DocFile>, i: nat)
    requires i < |files|
    ensures DedupAppendAll(DedupAppendAll(linked, AllResolvedLinks(files[..i])), FileLinks(files[i]))
      == DedupAppendAll(linked, AllResolvedLinks(files[..i + 1]))
    ensures DedupAppendAll(DedupAppendAll(imported, AllResolvedImports(files[..i])), FileImports(files[i]))
      == DedupAppendAll(imported, AllResolvedImports(files[..i + 1]))
  {
    assert files[..i + 1][..i] == files[..i];
    DedupAppendAllConcat(linked, AllResolvedLinks(files[..i]), FileLinks(files[i]));
    DedupAppendAllConcat(imported, AllResolvedImports(files[..i]), FileImports(files[i]));
  }

  /** Filtering one more resource appends it exactly when it is an orphan. */
  lemma OrphansSnoc(resources: seq<string>, i: nat, c: Coverage)
    requires i < |resources|
    ensures Orphans(resources[..i + 1], c) == Orphans(resources[..i], c) + (if IsOrphan(resources[i], c) then [resources[i]] else [])
  {
    assert resources[..i + 1] == resources[..i] + [resources[i]];
    assert [resources[i]][1..] == [];
    OrphansAppend(resources[..i], [resources[i]], c);
  }

  /**
   * The whole script: walk the files (recording each one, then its links and
   * imports), walk the sidebars, then list the orphans and choose the exit
   * status.
   */
  method FindOrphanPages(files: seq<DocFile>, sidebars: seq<SidebarConfig>) returns (orphans: seq<string>, exitCode: int)
    ensures orphans == Orphans(ResourceNames(files), FinalCoverage(files, sidebars))
    ensures exitCode == ExitCode(orphans)
  {
    var collector := new Collector();
    collector.GetResourcePathsAndLinks(files);
    assert collector.resources == ResourceNames(files);
    collector.ExtractResourcesLinkedInSidebar(sidebars);
    assert collector.Snapshot() == FinalCoverage(files, sidebars);
    orphans, exitCode := collector.DetectOrphans();
  }

  /** A page that another page imports is never reported, whatever else the run sees. */
  lemma ImportedPageIsNotOrphan(files: seq<DocFile>, sidebars: seq<SidebarConfig>, k: nat, j: nat)
    requires k < |files| && j < |files[k].importPaths|
    ensures !IsOrphan(FullPathToResource(files[k].importPaths[j], RelativeToRoot(files[k].path)), FinalCoverage(files, sidebars))
  {
    GatherIncludes(files, FileImports, k, FileImports(files[k])[j]);
  }

  /** Every `doc` leaf of a list of items is recorded by the walk. */
  lemma {:induction false} DocLeafRecorded(leaves: seq<SidebarItem>, id: string)
    requires Doc(id) in leaves
    ensures "/" + id in DocsOfLeaves(leaves)
    decreases |leaves|
  {
    if leaves[0] != Doc(id) {
      DocLeafRecorded(leaves[1..], id);
    }
  }

  /** What one sidebar records is part of what all of them record. */
  lemma {:induction false} SidebarDocsInclude(sidebars: seq<SidebarConfig>, i: nat, x: string)
    requires i < |sidebars|
    requires x in ItemsDocs(ConfigItems(sidebars[i]))
    ensures x in SidebarsDocs(sidebars)
    decreases |sidebars|
  {
    if i < |sidebars| - 1 {
      assert sidebars[..|sidebars| - 1][i] == sidebars[i];
      SidebarDocsInclude(sidebars[..|sidebars| - 1], i, x);
    }
  }

  /** A page that a sidebar names with a `doc` item, however deep in categories, is never reported. */
  lemma SidebarDocIsNotOrphan(files: seq<DocFile>, sidebars: seq<SidebarConfig>, i: nat, id: string)
    requires i < |sidebars| && sidebars[i].ItemList?
    requires Doc(id) in Leaves(sidebars[i].items)
    ensures !IsOrphan("/" + id, FinalCoverage(files, sidebars))
  {
    WalkRecordsLeaves(sidebars[i].items);
    DocLeafRecorded(Leaves(sidebars[i].items), id);
    SidebarDocsInclude(sidebars, i, "/" + id);
  }

  /** A `.png` that some page links to is never reported, whatever else the run sees. */
  lemma LinkedPngIsNotOrphan(files: seq<DocFile>, sidebars: seq<SidebarConfig>, k: nat, x: string)
    requires k < |files| && x in FileLinks(files[k]) && EndsWith(x, ".png")
    ensures !IsOrphan(x, FinalCoverage(files, sidebars))
  {
    GatherIncludes(files, FileLinks, k, x);
  }

  /** Every named `autogenerated` leaf of a list of items is recorded by the walk. */
  lemma {:induction false} DirLeafRecorded(leaves: seq<SidebarItem>, d: string)
    requires d != "" && Autogenerated(Some(d)) in leaves
    ensures "/" + d in DirsOfLeaves(leaves)
    decreases |leaves|
  {
    if leaves[0] != Autogenerated(Some(d)) {
      DirLeafRecorded(leaves[1..], d);
    }
  }

  /** What one sidebar adds to the autogenerated list is part of what all of them add. */
  lemma {:induction false} SidebarDirsInclude(sidebars: seq<SidebarConfig>, i: nat, x: string)
    requires i < |sidebars|
    requires x in ItemsDirs(ConfigItems(sidebars[i]))
    ensures x in SidebarsDirs(sidebars)
    decreases |sidebars|
  {
    if i < |sidebars| - 1 {
      assert sidebars[..|sidebars| - 1][i] == sidebars[i];
      SidebarDirsInclude(sidebars[..|sidebars| - 1], i, x);
    }
  }

  /**
   * A named `autogenerated` item, however deep in categories, covers every
   * resource that starts with `/` + its dirName: none of them is reported.
   */
  lemma AutogeneratedDirCovers(files: seq<DocFile>, sidebars: seq<SidebarConfig>, i: nat, d: string, r: string)
    requires i < |sidebars| && sidebars[i].ItemList?
    requires d != "" && Autogenerated(Some(d)) in Leaves(sidebars[i].items)
    requires StartsWith(r, "/" + d)
    ensures !IsOrphan(r, FinalCoverage(files, sidebars))
  {
    WalkRecordsLeaves(sidebars[i].items);
    DirLeafRecorded(Leaves(sidebars[i].items), d);
    SidebarDirsInclude(sidebars, i, "/" + d);
  }

  /**
   * The run reports a resource exactly when it is one of the files' resource
   * names and fails all four tests, and exits with 1 exactly when it reports
   * something.
   */
  lemma FindOrphanPagesMeaning(files: seq<DocFile>, sidebars: seq<SidebarConfig>, x: string)
    ensures x in Orphans(ResourceNames(files), FinalCoverage(files, sidebars)) <==>
      x in ResourceNames(files) && IsOrphan(x, FinalCoverage(files, sidebars))
    ensures ExitCode(Orphans(ResourceNames(files), FinalCoverage(files, sidebars))) == 1 <==>
      exists r :: r in ResourceNames(files) && IsOrphan(r, FinalCoverage(files, sidebars))
  {
    OrphansMembership(ResourceNames(files), FinalCoverage(files, sidebars), x);
    ExitCodeMeaning(ResourceNames(files), FinalCoverage(files, sidebars));
  }
}
