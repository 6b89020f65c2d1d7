/**
 * `getFullPathToResource`: turns a link (or an import path) found in a
 * document into a resource path relative to the documentation root, with a
 * leading `/` and without its `.mdx`/`.md` extension, and the matching
 * normalisation of the file paths found by the directory walk.
 *
 * The resolution is string surgery, not the dot-segment removal of
 * section 5.2.4 of RFC 3986: a leading `./` is replaced by the folder of the
 * origin file; for a leading `../` EVERY `../` in the link is counted, one
 * folder is dropped per count, and the first `3 * count` characters of the
 * link are cut off; once the folders run out the prefix is `/`.
 */
module PathResolution {
  import opened JsStrings

  /** The documentation root the directory walk starts from. */
  const DocsRoot: string := "../arbitrum-docs"

  /** A normalised resource path starts with `/`. */
  predicate IsRooted(s: string)
  {
    |s| > 0 && s[0] == '/'
  }

  /** `"../"` repeated `n` times. */
  function Repeat(s: string, n: nat): (r: string)
    ensures |r| == n * |s|
  {
    if n == 0 then "" else s + Repeat(s, n - 1)
  }

  /** `n` successive `Array.prototype.pop` calls; popping an empty array does nothing. */
  function PopN(elems: seq<string>, n: nat): seq<string>
  {
    elems[..if n <= |elems| then |elems| - n else 0]
  }

  /** The folder prefix built from the remaining path elements. */
  function DirPrefix(elems: seq<string>): string
  {
    if |elems| > 1 then Join(elems, "/") + "/" else "/"
  }

  /** `link.split('../').length - 1`: every `../` in the link, leading or not. */
  function BackMoves(link: string): nat
  {
    |SplitOn(link, "../")| - 1
  }

  function ResolveSameFolder(link: string, origin: string): string
  {
    if StartsWith(link, "./") then DirPrefix(PopN(SplitOn(origin, "/"), 1)) + link[2..]
    else link
  }

  function ResolveAncestor(link: string, origin: string): string
  {
    if StartsWith(link, "../") then
      DirPrefix(PopN(SplitOn(origin, "/"), 1 + BackMoves(link))) + Substring(link, 3 * BackMoves(link))
    else link
  }

  function Rooted(link: string): string
  {
    if StartsWith(link, "/") then link else "/" + link
  }

  /** `.replace('.mdx', '').replace('.md', '')`: first occurrences only. */
  function StripExtension(link: string): string
  {
    ReplaceFirst(ReplaceFirst(link, ".mdx", ""), ".md", "")
  }

  /** What `getFullPathToResource(link, originFilePath)` returns. */
  function FullPathToResource(link: string, origin: string): string
  {
    StripExtension(Rooted(ResolveAncestor(ResolveSameFolder(link, origin), origin)))
  }

  /** `filePath.replace('../arbitrum-docs', '')`: the path of a file below the root. */
  function RelativeToRoot(filePath: string): string
  {
    ReplaceFirst(filePath, DocsRoot, "")
  }

  /** The resource name the directory walk records for a file. */
  function ResourceName(elementPath: string): string
  {
    StripExtension(RelativeToRoot(elementPath))
  }

  /** The resolver as the script runs it: `link` reassigned step by step, the folder list popped in a loop. */
  method GetFullPathToResource(link: string, originFilePath: string) returns (fullPath: string)
    ensures fullPath == FullPathToResource(link, originFilePath)
  {
    fullPath := link;
    if StartsWith(fullPath, "./") {
      var rootPathElements := SplitOn(originFilePath, "/");
      rootPathElements := rootPathElements[..|rootPathElements| - 1];
      fullPath := (if |rootPathElements| > 1 then Join(rootPathElements, "/") + "/" else "/") + fullPath[2..];
    }
    assert fullPath == ResolveSameFolder(link, originFilePath);
    ghost var sameFolder := fullPath;
    if StartsWith(fullPath, "../") {
      var rootPathElements := SplitOn(originFilePath, "/");
      var backMoves := |SplitOn(fullPath, "../")| - 1;
      assert backMoves == BackMoves(sameFolder);
      rootPathElements := rootPathElements[..|rootPathElements| - 1];
      for i := 0 to backMoves
        invariant rootPathElements == PopN(SplitOn(originFilePath, "/"), 1 + i)
      {
        if |rootPathElements| > 0 {
          rootPathElements := rootPathElements[..|rootPathElements| - 1];
        }
      }
      var prefix := if |rootPathElements| > 1 then Join(rootPathElements, "/") + "/" else "/";
      assert prefix == DirPrefix(PopN(SplitOn(originFilePath, "/"), 1 + BackMoves(sameFolder)));
      fullPath := prefix + Substring(fullPath, 3 * backMoves);
    }
    assert fullPath == ResolveAncestor(sameFolder, originFilePath);
    if !StartsWith(fullPath, "/") {
      fullPath := "/" + fullPath;
    }
    assert fullPath == Rooted(ResolveAncestor(sameFolder, originFilePath));
    fullPath := ReplaceFirst(ReplaceFirst(fullPath, ".mdx", ""), ".md", "");
  }

  /** Removing a pattern that starts with `.` cannot remove the leading `/`. */
  lemma StripKeepsRoot(s: string, p: string)
    requires IsRooted(s)
    requires |p| > 0 && p[0] == '.'
    ensures IsRooted(ReplaceFirst(s, p, ""))
  {
    ReplaceFirstByIndex(s, p, "");
    match IndexOf(s, p)
    case None =>
    case Some(i) =>
      assert s[i..i + |p|][0] == s[i];
      assert i != 0;
  }

  /** Every resolved link or import path starts with `/`. */
  lemma FullPathIsRooted(link: string, origin: string)
    ensures IsRooted(FullPathToResource(link, origin))
  {
    var r := Rooted(ResolveAncestor(ResolveSameFolder(link, origin), origin));
    assert IsRooted(r);
    StripKeepsRoot(r, ".mdx");
    StripKeepsRoot(ReplaceFirst(r, ".mdx", ""), ".md");
  }

  /** The folder elements of `dir + "/" + file` are those of `dir` followed by `file`. */
  lemma {:induction false} ElementsOfPath(dir: string, ys: seq<string>)
    requires |ys| >= 1
    requires forall k :: 0 <= k < |ys| ==> '/' !in ys[k]
    ensures SplitOn(dir + "/" + Join(ys, "/"), "/") == SplitOn(dir, "/") + ys
    decreases |ys|
  {
    if |ys| == 1 {
      SplitAppendChar(dir, '/', ys[0]);
    } else {
      var last := ys[|ys| - 1];
      var init := ys[..|ys| - 1];
      assert ys == init + [last];
      JoinSnoc(init, last, "/");
      assert dir + "/" + Join(ys, "/") == (dir + "/" + Join(init, "/")) + "/" + last;
      SplitAppendChar(dir + "/" + Join(init, "/"), '/', last);
      ElementsOfPath(dir, init);
    }
  }

  lemma {:induction false} JoinSnoc(xs: seq<string>, y: string, sep: string)
    requires |xs| >= 1
    ensures Join(xs + [y], sep) == Join(xs, sep) + sep + y
    decreases |xs|
  {
    if |xs| > 1 {
      assert (xs + [y])[1..] == xs[1..] + [y];
      JoinSnoc(xs[1..], y, sep);
    }
  }

  /** The prefix left by a rooted folder is that folder followed by `/`. */
  lemma DirPrefixOfFolder(dir: string)
    requires dir == "" || dir[0] == '/'
    ensures DirPrefix(SplitOn(dir, "/")) == dir + "/"
  {
    SplitOnJoin(dir, "/");
    SplitCharCount(dir, '/');
    if dir == "" {
      ContainsChar(dir, '/');
      SplitWithout(dir, "/");
    } else {
      assert dir[0] in dir;
    }
  }

  /** A rooted path is left alone by the `../` branch and by the leading-slash step. */
  lemma RootedUntouched(s: string, origin: string)
    requires IsRooted(s)
    ensures Rooted(ResolveAncestor(s, origin)) == s
  {
    assert !StartsWith(s, "../") by {
      if |s| >= 3 {
        assert s[..3][0] == '/';
      }
    }
  }

  /**
   * `./name` from a file in folder `dir` (the root itself when `dir` is
   * empty) resolves to `dir/name`: `./b` from `/a/a.md` is `/a/b` and `./b`
   * from `/x.md` is `/b`.
   */
  lemma SameFolderLink(dir: string, file: string, name: string)
    requires '/' !in file
    requires dir == "" || dir[0] == '/'
    ensures FullPathToResource("./" + name, dir + "/" + file) == StripExtension(dir + "/" + name)
  {
    var link := "./" + name;
    var origin := dir + "/" + file;
    assert Join([file], "/") == file;
    ElementsOfPath(dir, [file]);
    assert PopN(SplitOn(origin, "/"), 1) == SplitOn(dir, "/");
    DirPrefixOfFolder(dir);
    assert link[2..] == name;
    assert ResolveSameFolder(link, origin) == dir + "/" + name;
    RootedUntouched(dir + "/" + name, origin);
  }

  /** `Repeat("../", n) + rest` counts `n` back moves when `rest` holds no `../`. */
  lemma {:induction false} LeadingBackMoves(n: nat, rest: string)
    requires !Contains(rest, "../")
    ensures BackMoves(Repeat("../", n) + rest) == n
    decreases n
  {
    if n == 0 {
      assert Repeat("../", 0) + rest == rest;
      SplitWithout(rest, "../");
    } else {
      var t := Repeat("../", n - 1) + rest;
      var s := "../" + t;
      assert Repeat("../", n) + rest == s;
      assert OccursAt(s, "../", 0);
      IndexOfFirst(s, "../", 0);
      assert s[3..] == t;
      LeadingBackMoves(n - 1, rest);
    }
  }

  /** The back-move branch when every `../` of the link is leading. */
  lemma {:induction false} AncestorResolution(n: nat, rest: string, origin: string)
    requires n >= 1
    requires !Contains(rest, "../")
    ensures ResolveSameFolder(Repeat("../", n) + rest, origin) == Repeat("../", n) + rest
    ensures ResolveAncestor(Repeat("../", n) + rest, origin)
         == DirPrefix(PopN(SplitOn(origin, "/"), 1 + n)) + rest
  {
    var link := Repeat("../", n) + rest;
    assert link[..3] == "../";
    assert !StartsWith(link, "./") by {
      assert link[1] == '.';
    }
    LeadingBackMoves(n, rest);
    SubstringAfterPrefix(Repeat("../", n), rest);
  }

  /**
   * Each `../` drops one more folder: from a file `dir/d1/.../dn/file`,
   * `n` leading `../` followed by `rest` reach `dir/rest`. `../b` from
   * `/a/x/a.md` is `/a/b`.
   */
  lemma AncestorLink(dir: string, drop: seq<string>, file: string, rest: string)
    requires dir == "" || dir[0] == '/'
    requires |drop| >= 1
    requires forall k :: 0 <= k < |drop| ==> '/' !in drop[k]
    requires '/' !in file
    requires !Contains(rest, "../")
    ensures FullPathToResource(Repeat("../", |drop|) + rest, dir + "/" + Join(drop + [file], "/"))
         == StripExtension(dir + "/" + rest)
  {
    var origin := dir + "/" + Join(drop + [file], "/");
    var link := Repeat("../", |drop|) + rest;
    AncestorFolder(dir, drop, file);
    AncestorResolution(|drop|, rest, origin);
    assert ResolveAncestor(ResolveSameFolder(link, origin), origin) == dir + "/" + rest;
    ResolvedToRooted(link, origin, dir + "/" + rest);
  }

  /** Once both branches give a path starting with `/`, only the extension step remains. */
  lemma ResolvedToRooted(link: string, origin: string, s: string)
    requires ResolveAncestor(ResolveSameFolder(link, origin), origin) == s
    requires IsRooted(s)
    ensures FullPathToResource(link, origin) == StripExtension(s)
  {
    assert s[..1] == "/";
  }

  /** Popping the file and `|drop|` folders off `dir/d1/.../dn/file` leaves the prefix `dir/`. */
  lemma AncestorFolder(dir: string, drop: seq<string>, file: string)
    requires dir == "" || dir[0] == '/'
    requires forall k :: 0 <= k < |drop| ==> '/' !in drop[k]
    requires '/' !in file
    ensures DirPrefix(PopN(SplitOn(dir + "/" + Join(drop + [file], "/"), "/"), 1 + |drop|)) == dir + "/"
  {
    var ys := drop + [file];
    assert forall k :: 0 <= k < |ys| ==> '/' !in ys[k];
    ElementsOfPath(dir, ys);
    var elems := SplitOn(dir, "/") + ys;
    assert PopN(elems, 1 + |drop|) == SplitOn(dir, "/");
    DirPrefixOfFolder(dir);
  }

  /** When the back moves outnumber the folders, the prefix falls back to `/`. */
  lemma AncestorBeyondRoot(n: nat, rest: string, origin: string)
    requires n >= 1
    requires !Contains(rest, "../")
    requires |SplitOn(origin, "/")| <= n + 2
    ensures FullPathToResource(Repeat("../", n) + rest, origin) == StripExtension("/" + rest)
  {
    AncestorResolution(n, rest, origin);
    RootedUntouched("/" + rest, origin);
  }

  /** `../x/../y` holds two `../`, one of them not leading. */
  lemma BackMovesOfInnerDotDot(link: string)
    requires link == "../x/../y"
    ensures BackMoves(link) == 2
  {
    assert OccursAt(link, "../", 0);
    IndexOfFirst(link, "../", 0);
    var t := link[3..];
    assert t == "x/../y";
    assert OccursAt(t, "../", 2);
    IndexOfByChar(t, "../", 2, 0);
    var u := t[5..];
    assert u == "y";
    SplitWithout(u, "../");
    assert SplitOn(t, "../") == [t[..2]] + SplitOn(u, "../");
    assert SplitOn(link, "../") == [link[..0]] + SplitOn(t, "../");
  }

  lemma ElementsOfExampleOrigin(origin: string)
    requires origin == "/a/b/c/d.md"
    ensures SplitOn(origin, "/") == ["", "a", "b", "c", "d.md"]
  {
    var elems := ["", "a", "b", "c", "d.md"];
    assert Join(elems, "/") == origin;
    SplitJoinChar(elems, '/');
  }

  lemma AncestorOfInnerDotDot(link: string, origin: string)
    requires link == "../x/../y" && origin == "/a/b/c/d.md"
    ensures ResolveAncestor(link, origin) == "/a/./y"
  {
    BackMovesOfInnerDotDot(link);
    ElementsOfExampleOrigin(origin);
    var kept := PopN(SplitOn(origin, "/"), 3);
    assert kept == ["", "a"];
    assert Join(kept, "/") == "/a";
    var prefix := DirPrefix(kept);
    assert prefix == "/a/";
    assert link[..3] == "../";
    var cut := Substring(link, 6);
    assert cut == "./y";
    assert prefix + cut == "/a/./y";
  }

  /**
   * A `../` in the middle of the link is counted too, and the cut
   * `substring(3 * count)` then lands inside the link: `../x/../y` from
   * `/a/b/c/d.md` pops three elements and keeps `./y`.
   */
  lemma NonLeadingBackMovesCounted(link: string, origin: string)
    requires link == "../x/../y" && origin == "/a/b/c/d.md"
    ensures FullPathToResource(link, origin) == "/a/./y"
  {
    assert !StartsWith(link, "./") by {
      assert link[..2][1] == '.';
      assert "./"[1] == '/';
    }
    AncestorOfInnerDotDot(link, origin);
    var r := "/a/./y";
    assert r[..1] == "/";
    NotContainsByChar(r, ".md", 1);
    StripExtensionOf(r);
  }

  /**
   * Extension stripping: a path without `.md` in it loses a trailing
   * `.mdx` or `.md` and is otherwise unchanged (so `/img.png` stays as it is).
   */
  lemma StripExtensionOf(s: string)
    requires !Contains(s, ".md")
    ensures StripExtension(s + ".mdx") == s
    ensures StripExtension(s + ".md") == s
    ensures StripExtension(s) == s
  {
    NoMdx(s);
    StripMdxSuffix(s);
    StripMdSuffix(s);
    ReplaceFirstByIndex(s, ".mdx", "");
    ReplaceFirstByIndex(s, ".md", "");
  }

  /** A text without `.md` has no `.mdx` either. */
  lemma NoMdx(s: string)
    requires !Contains(s, ".md")
    ensures !Contains(s, ".mdx")
  {
    if Contains(s, ".mdx") {
      ContainsPrefixPattern(s, ".mdx", ".md");
    }
  }

  /** In `s + ".mdx"` the first `.mdx` is the appended one, and nothing is left for `.md`. */
  lemma StripMdxSuffix(s: string)
    requires !Contains(s, ".md") && !Contains(s, ".mdx")
    ensures ReplaceFirst(s + ".mdx", ".mdx", "") == s
  {
    var t := s + ".mdx";
    NoOccurrenceBeforeSeam(s, ".mdx", ".mdx");
    assert t[|s|..|s| + 4] == ".mdx";
    IndexOfFirst(t, ".mdx", |s|);
    assert t[..|s|] == s && t[|s| + 4..] == "";
    ReplaceFirstByIndex(t, ".mdx", "");
  }

  /** In `s + ".md"` there is no `.mdx`, and the first `.md` is the appended one. */
  lemma StripMdSuffix(s: string)
    requires !Contains(s, ".md")
    ensures ReplaceFirst(s + ".md", ".mdx", "") == s + ".md"
    ensures ReplaceFirst(s + ".md", ".md", "") == s
  {
    var u := s + ".md";
    NoMdx(s);
    NoOccurrenceBeforeSeam(s, ".md", ".mdx");
    assert !Contains(u, ".mdx") by {
      forall j: nat
        ensures !OccursAt(u, ".mdx", j)
      {
      }
    }
    NoOccurrenceBeforeSeam(s, ".md", ".md");
    assert u[|s|..|s| + 3] == ".md";
    IndexOfFirst(u, ".md", |s|);
    assert u[..|s|] == s && u[|s| + 3..] == "";
    ReplaceFirstByIndex(u, ".mdx", "");
    ReplaceFirstByIndex(u, ".md", "");
  }

  /** Removing the documentation root from a path below it leaves the rest. */
  lemma RelativeToRootOf(rel: string)
    ensures RelativeToRoot(DocsRoot + rel) == rel
  {
    assert OccursAt(DocsRoot + rel, DocsRoot, 0);
    IndexOfFirst(DocsRoot + rel, DocsRoot, 0);
    ReplaceFirstByIndex(DocsRoot + rel, DocsRoot, "");
  }

  /**
   * A root-relative link names the same resource as the file it points
   * at: the walk and the resolver normalise alike.
   */
  lemma RootedLinkMatchesResource(rel: string, origin: string)
    ensures FullPathToResource("/" + rel, origin) == ResourceName(DocsRoot + "/" + rel)
  {
    assert DocsRoot + "/" + rel == DocsRoot + ("/" + rel);
    RelativeToRootOf("/" + rel);
    assert !StartsWith("/" + rel, "./") by {
      if |"/" + rel| >= 2 {
        assert ("/" + rel)[..2][0] == '/';
      }
    }
    RootedUntouched("/" + rel, origin);
  }

  /**
   * A `./name` link in file `dir/file` names the same resource as the walk
   * records for the file `dir/name`.
   */
  lemma SiblingLinkMatchesResource(dir: string, file: string, name: string)
    requires '/' !in file
    requires dir == "" || dir[0] == '/'
    ensures FullPathToResource("./" + name, RelativeToRoot(DocsRoot + dir + "/" + file))
         == ResourceName(DocsRoot + dir + "/" + name)
  {
    assert DocsRoot + dir + "/" + file == DocsRoot + (dir + "/" + file);
    assert DocsRoot + dir + "/" + name == DocsRoot + (dir + "/" + name);
    RelativeToRootOf(dir + "/" + file);
    RelativeToRootOf(dir + "/" + name);
    SameFolderLink(dir, file, name);
  }

  /**
   * A link that starts with neither `./` nor `../` ignores its origin: it is
   * only rooted and stripped of its extension, whatever `../` it holds later.
   */
  lemma PlainLinkIgnoresOrigin(link: string, origin: string)
    requires !StartsWith(link, "./") && !StartsWith(link, "../")
    ensures FullPathToResource(link, origin) == StripExtension(Rooted(link))
  {
  }

  /** `a/../b` does not start with `../`, so from `/x/y/z.md` it moves up no folder: it becomes `/a/../b`. */
  lemma InnerDotDotNotLeading(link: string, origin: string)
    requires link == "a/../b" && origin == "/x/y/z.md"
    ensures FullPathToResource(link, origin) == "/a/../b"
  {
    assert link[0] == 'a';
    PlainLinkIgnoresOrigin(link, origin);
    assert Rooted(link) == "/a/../b";
    assert 'm' !in "/a/../b";
    NotContainsByChar("/a/../b", ".md", 1);
    StripExtensionOf("/a/../b");
  }
}
