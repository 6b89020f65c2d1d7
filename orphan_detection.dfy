/**
 * The orphan test applied to every resource, and the exit status derived
 * from the orphans found.
 */
module OrphanDetection {
  import opened JsStrings

  /** The four lists the orphan test consults. */
  datatype Coverage = Coverage(
    autogeneratedDirs: seq<string>,
    linkedInSidebar: seq<string>,
    importedInDocs: seq<string>,
    linkedInDocs: seq<string>)

  /**
   * Some autogenerated directory is a raw string prefix of the resource, so
   * `/guides` also covers `/guidesX`.
   */
  predicate UnderAutogeneratedDir(resource: string, dirs: seq<string>)
  {
    exists d :: d in dirs && StartsWith(resource, d)
  }

  /**
   * A resource is an orphan when no autogenerated directory prefixes it, no
   * sidebar doc names it, no page imports it, and it is not a `.png`
   * linked from a page (links reach only images).
   */
  predicate IsOrphan(resource: string, c: Coverage)
  {
    && !UnderAutogeneratedDir(resource, c.autogeneratedDirs)
    && resource !in c.linkedInSidebar
    && resource !in c.importedInDocs
    && (!EndsWith(resource, ".png") || resource !in c.linkedInDocs)
  }

  /** The orphans among `resources`, in their order, repeats included. */
  function Orphans(resources: seq<string>, c: Coverage): (r: seq<string>)
    ensures |r| <= |resources|
  {
    if resources == [] then []
    else (if IsOrphan(resources[0], c) then [resources[0]] else []) + Orphans(resources[1..], c)
  }

  /** The exit status: 1 when orphans were found, 0 otherwise. */
  function ExitCode(orphans: seq<string>): (status: int)
    ensures status == 0 <==> orphans == []
    ensures status == 0 || status == 1
  {
    if |orphans| > 0 then 1 else 0
  }

  /** A resource is listed as an orphan exactly when it is a resource and fails every test. */
  lemma {:induction false} OrphansMembership(resources: seq<string>, c: Coverage, x: string)
    ensures x in Orphans(resources, c) <==> x in resources && IsOrphan(x, c)
    decreases |resources|
  {
    if resources != [] {
      OrphansMembership(resources[1..], c, x);
      assert resources == [resources[0]] + resources[1..];
    }
  }

  /** The filter keeps the order: orphans of a concatenation are the orphans of each part, in turn. */
  lemma {:induction false} OrphansAppend(a: seq<string>, b: seq<string>, c: Coverage)
    ensures Orphans(a + b, c) == Orphans(a, c) + Orphans(b, c)
    decreases |a|
  {
    if a == [] {
      assert a + b == b;
    } else {
      assert (a + b)[0] == a[0];
      assert (a + b)[1..] == a[1..] + b;
      OrphansAppend(a[1..], b, c);
    }
  }

  /** Filtering the orphans again changes nothing. */
  lemma {:induction false} OrphansIdempotent(resources: seq<string>, c: Coverage)
    ensures Orphans(Orphans(resources, c), c) == Orphans(resources, c)
    decreases |resources|
  {
    if resources != [] {
      var head := if IsOrphan(resources[0], c) then [resources[0]] else [];
      OrphansIdempotent(resources[1..], c);
      OrphansAppend(head, Orphans(resources[1..], c), c);
      if IsOrphan(resources[0], c) {
        assert head[1..] == [];
      }
    }
  }

  /** The exit status is 0 exactly when no resource is an orphan, and 1 otherwise. */
  lemma ExitCodeMeaning(resources: seq<string>, c: Coverage)
    ensures ExitCode(Orphans(resources, c)) == 0 <==> forall x :: x in resources ==> !IsOrphan(x, c)
    ensures ExitCode(Orphans(resources, c)) == 1 <==> exists x :: x in resources && IsOrphan(x, c)
  {
    var orphans := Orphans(resources, c);
    forall x
      ensures x in orphans <==> x in resources && IsOrphan(x, c)
    {
      OrphansMembership(resources, c, x);
    }
    if |orphans| > 0 {
      assert orphans[0] in orphans;
    }
  }

  /** A `.png` that a page links is covered; any other resource is judged without the doc links. */
  lemma PngCarveOut(resource: string, c: Coverage)
    ensures EndsWith(resource, ".png") && resource in c.linkedInDocs ==> !IsOrphan(resource, c)
    ensures !EndsWith(resource, ".png") ==> IsOrphan(resource, c) == IsOrphan(resource, c.(linkedInDocs := []))
  {
  }

  /** The autogenerated test is a raw prefix test: `/guides` covers `/guidesX` as well as `/guides/x`. */
  lemma RawPrefixCovers(dirs: seq<string>, c: Coverage)
    requires dirs == ["/guides"] && c.autogeneratedDirs == dirs
    ensures !IsOrphan("/guidesX", c) && !IsOrphan("/guides/x", c)
  {
    assert StartsWith("/guidesX", dirs[0]);
    assert StartsWith("/guides/x", dirs[0]);
  }

  /** Resources `[/a, /b, /c]` with sidebar `[/a]`, imports `[/b]` and no directories leave `[/c]`. */
  lemma ThreeResourcesExample(resources: seq<string>, c: Coverage)
    requires resources == ["/a", "/b", "/c"]
    requires c == Coverage([], ["/a"], ["/b"], [])
    ensures Orphans(resources, c) == ["/c"]
    ensures ExitCode(Orphans(resources, c)) == 1
  {
    var r1 := resources[1..];
    var r2 := r1[1..];
    assert r2 == ["/c"] && r2[1..] == [];
    assert !UnderAutogeneratedDir("/c", []);
    assert "/c" != "/a" && "/c" != "/b";
    assert IsOrphan(r2[0], c);
    assert Orphans(r2, c) == ["/c"];
    assert !IsOrphan(r1[0], c);
    assert Orphans(r1, c) == Orphans(r2, c);
    assert !IsOrphan(resources[0], c);
    assert Orphans(resources, c) == Orphans(r1, c);
  }
}
