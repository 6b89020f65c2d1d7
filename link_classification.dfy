/**
 * The per-link step of `extractLinksFromMdFile`: strip an anchor, strip the
 * domain of the three documentation hosts, and discard external links,
 * pointers with a colon, `@` variables and pure anchors. What is kept is
 * the path handed to the resolver.
 */
module LinkClassification {
  import opened JsStrings

  const OldDocsDomain: string := "offchainlabs.com"
  const DocsDomain: string := "arbitrum.io"
  const DeveloperPrefix: string := "https://developer."
  const DocsPrefix: string := "https://docs."

  /** The old documentation host; its links keep what follows `offchainlabs.com`. */
  const OldDocsHost: string := DeveloperPrefix + OldDocsDomain
  /** The two current documentation hosts; their links keep what follows `arbitrum.io`. */
  const DeveloperHost: string := DeveloperPrefix + DocsDomain
  const DocsHost: string := DocsPrefix + DocsDomain

  /** A host ends with its domain. */
  lemma DomainEndsHost(prefix: string, domain: string)
    ensures OccursAt(prefix + domain, domain, |prefix|)
  {
    assert (prefix + domain)[|prefix|..|prefix| + |domain|] == domain;
  }

  /**
   * `link.split('#')[0]` unless the link starts with `#`: the result is a
   * prefix of the link, free of `#`, and stops right before the first `#`.
   */
  function StripAnchor(link: string): (r: string)
    ensures StartsWith(link, r)
    ensures StartsWith(link, "#") ==> r == link
    ensures !StartsWith(link, "#") ==> '#' !in r
    ensures |r| < |link| ==> link[|r|] == '#'
  {
    ContainsChar(link, '#');
    if Contains(link, "#") && !StartsWith(link, "#") then
      var pieces := SplitOn(link, "#");
      SplitOnJoin(link, "#");
      SplitWith(link, "#");
      ContainsChar(pieces[0], '#');
      assert link == pieces[0] + "#" + Join(pieces[1..], "#");
      pieces[0]
    else
      link
  }

  /** A link starting with a host that contains `key` contains `key` where the host has it. */
  lemma KeyInLink(link: string, host: string, key: string, k: nat)
    requires StartsWith(link, host)
    requires OccursAt(host, key, k)
    requires |key| > 0
    ensures |SplitOn(link, key)| >= 2
  {
    assert link[k..k + |key|] == host[k..k + |key|];
    OccursAtContains(link, key, k);
    SplitWith(link, key);
  }

  lemma CurrentHostHasDomain(link: string)
    requires StartsWith(link, DeveloperHost) || StartsWith(link, DocsHost)
    ensures |SplitOn(link, DocsDomain)| >= 2
  {
    if StartsWith(link, DeveloperHost) {
      DomainEndsHost(DeveloperPrefix, DocsDomain);
      KeyInLink(link, DeveloperHost, DocsDomain, |DeveloperPrefix|);
    } else {
      DomainEndsHost(DocsPrefix, DocsDomain);
      KeyInLink(link, DocsHost, DocsDomain, |DocsPrefix|);
    }
  }

  /**
   * What becomes of one raw link: None when the script discards it, or the
   * path it then resolves.
   */
  function ClassifyLink(href: string): (r: Option<string>)
  {
    var link := StripAnchor(href);
    if StartsWith(link, OldDocsHost) then
      DomainEndsHost(DeveloperPrefix, OldDocsDomain);
      KeyInLink(link, OldDocsHost, OldDocsDomain, |DeveloperPrefix|);
      Some(SplitOn(link, OldDocsDomain)[1])
    else if StartsWith(link, DeveloperHost) || StartsWith(link, DocsHost) then
      CurrentHostHasDomain(link);
      Some(SplitOn(link, DocsDomain)[1])
    else if StartsWith(link, "http://") || StartsWith(link, "https://") then None
    else if Contains(link, ":") then None
    else if StartsWith(link, "@") then None
    else if !StartsWith(link, "#") then Some(link)
    else None
  }

  /** A prefix free of `#` survives anchor stripping, and an absent prefix stays absent. */
  lemma StripAnchorPrefix(href: string, p: string)
    requires '#' !in p
    ensures StartsWith(StripAnchor(href), p) <==> StartsWith(href, p)
  {
    var r := StripAnchor(href);
    if StartsWith(r, p) {
      assert href[..|p|] == r[..|p|];
    }
  }

  /** A text whose first character differs from the pattern's does not start with it. */
  lemma FirstCharMismatch(s: string, p: string)
    requires |s| > 0 && |p| > 0 && s[0] != p[0]
    ensures !StartsWith(s, p)
  {
  }

  /** The domain piece kept from a known-host link is a piece of that link. */
  lemma DomainPieceChars(link: string, key: string)
    requires |key| > 0
    requires |SplitOn(link, key)| >= 2
    ensures forall c :: c in SplitOn(link, key)[1] ==> c in link
  {
    var pieces := SplitOn(link, key);
    forall c | c in pieces[1]
      ensures c in link
    {
      JoinKeepsChars(pieces, key, 1, c);
    }
  }

  /** Every path the classifier keeps is free of `#`; a pure anchor is discarded. */
  lemma {:induction false} ClassifiedHasNoAnchor(href: string)
    ensures StartsWith(href, "#") ==> ClassifyLink(href).None?
    ensures ClassifyLink(href).Some? ==> '#' !in ClassifyLink(href).value
  {
    var link := StripAnchor(href);
    if StartsWith(href, "#") {
      assert link == href && href[0] == '#';
      FirstCharMismatch(link, OldDocsHost);
      FirstCharMismatch(link, DeveloperHost);
      FirstCharMismatch(link, DocsHost);
      FirstCharMismatch(link, "http://");
      FirstCharMismatch(link, "https://");
      FirstCharMismatch(link, "@");
    } else {
      assert '#' !in link;
      if StartsWith(link, OldDocsHost) {
        DomainEndsHost(DeveloperPrefix, OldDocsDomain);
        KeyInLink(link, OldDocsHost, OldDocsDomain, |DeveloperPrefix|);
        DomainPieceChars(link, OldDocsDomain);
      } else if StartsWith(link, DeveloperHost) || StartsWith(link, DocsHost) {
        CurrentHostHasDomain(link);
        DomainPieceChars(link, DocsDomain);
      }
    }
  }

  /**
   * Any other `http://` or `https://` link is external and discarded; a
   * trailing anchor does not change that.
   */
  lemma ExternalLinkDiscarded(href: string)
    requires StartsWith(href, "http://") || StartsWith(href, "https://")
    requires !StartsWith(href, OldDocsHost) && !StartsWith(href, DeveloperHost) && !StartsWith(href, DocsHost)
    ensures ClassifyLink(href) == None
  {
    StripAnchorPrefix(href, OldDocsHost);
    StripAnchorPrefix(href, DeveloperHost);
    StripAnchorPrefix(href, DocsHost);
    StripAnchorPrefix(href, "http://");
    StripAnchorPrefix(href, "https://");
  }

  /**
   * A link that is not an absolute `http(s)` URL is kept, anchor removed,
   * exactly when it is not a pure anchor, has no `:` and does not start
   * with `@`.
   */
  lemma RelativeLinkKept(href: string)
    requires !StartsWith(href, "http://") && !StartsWith(href, "https://")
    ensures ClassifyLink(href).Some? <==>
      !StartsWith(href, "#") && !Contains(StripAnchor(href), ":") && !StartsWith(StripAnchor(href), "@")
    ensures ClassifyLink(href).Some? ==> ClassifyLink(href).value == StripAnchor(href)
  {
    NotHttp(href);
    AnchorStartKept(href);
  }

  /** Anchor stripping keeps whether a link starts with `#`. */
  lemma AnchorStartKept(href: string)
    ensures StartsWith(StripAnchor(href), "#") <==> StartsWith(href, "#")
  {
    var link := StripAnchor(href);
    assert StartsWith(link, "#") ==> link[..1][0] == link[0] && link[0] in link;
  }

  /** A link that is not `http(s)` stays so after anchor stripping and lies on no documentation host. */
  lemma NotHttp(href: string)
    requires !StartsWith(href, "http://") && !StartsWith(href, "https://")
    ensures !StartsWith(StripAnchor(href), "http://") && !StartsWith(StripAnchor(href), "https://")
    ensures !StartsWith(StripAnchor(href), OldDocsHost)
    ensures !StartsWith(StripAnchor(href), DeveloperHost)
    ensures !StartsWith(StripAnchor(href), DocsHost)
  {
    var link := StripAnchor(href);
    StripAnchorPrefix(href, "http://");
    StripAnchorPrefix(href, "https://");
    HostIsHttps(link, OldDocsHost);
    HostIsHttps(link, DeveloperHost);
    HostIsHttps(link, DocsHost);
  }

  /** Every documentation host is an `https://` URL. */
  lemma HostIsHttps(link: string, host: string)
    requires host == OldDocsHost || host == DeveloperHost || host == DocsHost
    ensures StartsWith(link, host) ==> StartsWith(link, "https://")
  {
    assert host[..8] == "https://";
    if StartsWith(link, host) {
      assert link[..8] == host[..8];
    }
  }

  /** Domain stripping: on a known host the link keeps what follows the first `domain`, up to any second one. */
  lemma {:induction false} HostStripped(host: string, domain: string, k: nat, path: string)
    requires OccursAt(host, domain, k) && k + |domain| == |host|
    requires IndexOf(host, domain) == Some(k)
    requires |domain| > 0
    requires !Contains(path, domain)
    ensures |SplitOn(host + path, domain)| >= 2 && SplitOn(host + path, domain)[1] == path
  {
    IndexOfPrefix(host, path, domain);
    assert (host + path)[k + |domain|..] == path;
    SplitWithout(path, domain);
  }

  /** The domain a documentation host's links are split on. */
  function DomainOf(host: string): string
  {
    if host == OldDocsHost then OldDocsDomain else DocsDomain
  }

  /** Where each documentation host holds its domain: it ends the host, and it is the first occurrence. */
  lemma HostDomainIndex(host: string) returns (k: nat)
    requires host == OldDocsHost || host == DeveloperHost || host == DocsHost
    ensures OccursAt(host, DomainOf(host), k) && k + |DomainOf(host)| == |host|
    ensures IndexOf(host, DomainOf(host)) == Some(k)
  {
    if host == OldDocsHost {
      k := |DeveloperPrefix|;
      assert 'c' !in DeveloperPrefix + OldDocsDomain[..3];
      FirstDomain(DeveloperPrefix, OldDocsDomain, 3);
    } else if host == DeveloperHost {
      k := |DeveloperPrefix|;
      assert 'a' !in DeveloperPrefix;
      FirstDomain(DeveloperPrefix, DocsDomain, 0);
    } else {
      k := |DocsPrefix|;
      assert 'a' !in DocsPrefix;
      FirstDomain(DocsPrefix, DocsDomain, 0);
    }
  }

  /**
   * The domain ending a host is its first occurrence when some character of
   * the domain appears nowhere before its own place.
   */
  lemma FirstDomain(prefix: string, domain: string, m: nat)
    requires m < |domain|
    requires domain[m] !in prefix + domain[..m]
    ensures IndexOf(prefix + domain, domain) == Some(|prefix|)
  {
    var s := prefix + domain;
    DomainEndsHost(prefix, domain);
    assert s[..|prefix| + m] == prefix + domain[..m];
    IndexOfByChar(s, domain, |prefix|, m);
  }

  /** No documentation host holds a `#`, and each starts with `h`. */
  lemma HostHasNoAnchor(host: string)
    requires host == OldDocsHost || host == DeveloperHost || host == DocsHost
    ensures '#' !in host && host[0] == 'h'
  {
    if host == OldDocsHost {
      assert '#' !in OldDocsHost;
    } else if host == DeveloperHost {
      assert '#' !in DeveloperHost;
    } else {
      assert '#' !in DocsHost;
    }
  }

  /** Which host test of the classifier a link on a documentation host meets first. */
  lemma HostBranch(link: string, host: string)
    requires host == OldDocsHost || host == DeveloperHost || host == DocsHost
    requires StartsWith(link, host)
    ensures StartsWith(link, OldDocsHost) <==> host == OldDocsHost
  {
    if host != OldDocsHost {
      var i := if host == DeveloperHost then 18 else 9;
      assert link[i] == host[i] && host[i] != OldDocsHost[i];
    }
  }

  /** Anchor stripping cuts a `#`-free text followed by `#` right at that `#`. */
  lemma StripAtFirstAnchor(plain: string, anchor: string)
    requires |plain| > 0 && plain[0] != '#'
    requires '#' !in plain
    ensures StripAnchor(plain) == plain
    ensures StripAnchor(plain + "#" + anchor) == plain
  {
    ContainsChar(plain, '#');
    var anchored := plain + "#" + anchor;
    var r := StripAnchor(anchored);
    FirstCharMismatch(anchored, "#");
    assert anchored[..|plain|] == plain;
    assert anchored[|plain|] == '#';
  }

  /**
   * A link on one of the three documentation hosts becomes its path, with
   * or without an anchor: `https://docs.arbitrum.io/intro#setup` becomes
   * `/intro`.
   */
  lemma KnownHostLink(host: string, path: string, anchor: string)
    requires host == OldDocsHost || host == DeveloperHost || host == DocsHost
    requires '#' !in path
    requires !Contains(path, DomainOf(host))
    ensures ClassifyLink(host + path) == Some(path)
    ensures ClassifyLink(host + path + "#" + anchor) == Some(path)
  {
    var k := HostDomainIndex(host);
    HostStripped(host, DomainOf(host), k, path);
    HostHasNoAnchor(host);
    var plain := host + path;
    StripAtFirstAnchor(plain, anchor);
    assert StartsWith(plain, host);
    HostBranch(plain, host);
  }

  /** The example link: `https://docs.arbitrum.io/intro#setup` becomes `/intro`. */
  lemma DocsLinkExample(href: string)
    requires href == "https://docs.arbitrum.io/intro#setup"
    ensures ClassifyLink(href) == Some("/intro")
  {
    var path := "/intro";
    assert 'a' !in path;
    NotContainsByChar(path, DocsDomain, 0);
    assert DocsHost == "https://docs.arbitrum.io";
    assert href == DocsHost + path + "#" + "setup";
    KnownHostLink(DocsHost, path, "setup");
  }

  /** The last character of each documentation domain occurs nowhere earlier in it. */
  lemma DomainLastCharUnique(host: string)
    requires host == OldDocsHost || host == DeveloperHost || host == DocsHost
    ensures |DomainOf(host)| > 0
    ensures DomainOf(host)[|DomainOf(host)| - 1] !in DomainOf(host)[..|DomainOf(host)| - 1]
  {
    if host == OldDocsHost {
      assert OldDocsDomain[..|OldDocsDomain| - 1] == "offchainlabs.co";
    } else {
      assert DocsDomain[..|DocsDomain| - 1] == "arbitrum.i";
    }
  }

  /** The anchor cut of a link whose first part is free of `#` keeps that part whole. */
  lemma AnchorCutKeeps(pre: string, rest: string) returns (tail: string)
    requires |pre| > 0 && pre[0] != '#' && '#' !in pre
    ensures StripAnchor(pre + rest) == pre + tail
  {
    var link := pre + rest;
    var r := StripAnchor(link);
    FirstCharMismatch(link, "#");
    if |r| < |pre| {
      assert false;
    }
    assert link[..|pre|] == pre;
    assert r[..|pre|] == link[..|pre|];
    tail := r[|pre|..];
    assert r == r[..|pre|] + tail;
  }

  /** A documentation host, a `#`-free path and the host's domain hold no `#` together. */
  lemma HostPathDomainHasNoAnchor(host: string, path: string)
    requires host == OldDocsHost || host == DeveloperHost || host == DocsHost
    requires '#' !in path
    ensures '#' !in host + path + DomainOf(host)
  {
    HostHasNoAnchor(host);
    if host == OldDocsHost {
      assert '#' !in OldDocsDomain;
    } else {
      assert '#' !in DocsDomain;
    }
  }

  /** On a host ending with its first `domain`, the piece after it runs up to the next `domain`. */
  lemma {:induction false} SplitAfterHost(host: string, domain: string, k: nat, path: string, tail: string)
    requires OccursAt(host, domain, k) && k + |domain| == |host|
    requires IndexOf(host, domain) == Some(k)
    requires |domain| > 0
    requires domain[|domain| - 1] !in domain[..|domain| - 1]
    requires !Contains(path, domain)
    ensures |SplitOn(host + (path + domain + tail), domain)| >= 2
    ensures SplitOn(host + (path + domain + tail), domain)[1] == path
  {
    var link := host + (path + domain + tail);
    IndexOfPrefix(host, path + domain + tail, domain);
    assert link[k + |domain|..] == path + domain + tail;
    IndexOfAfterPiece(path, domain, tail);
  }

  /** A link whose anchor-cut form lies on a documentation host keeps the piece after the host's domain. */
  lemma HostLinkClassified(href: string, host: string)
    requires host == OldDocsHost || host == DeveloperHost || host == DocsHost
    requires StartsWith(StripAnchor(href), host)
    ensures |SplitOn(StripAnchor(href), DomainOf(host))| >= 2
    ensures ClassifyLink(href) == Some(SplitOn(StripAnchor(href), DomainOf(host))[1])
  {
    var link := StripAnchor(href);
    HostBranch(link, host);
    var k := HostDomainIndex(host);
    KeyInLink(link, host, DomainOf(host), k);
  }

  /**
   * `split(domain)[1]` keeps only the piece up to a second occurrence of the
   * domain: `host + path + domain + rest` yields `path`, whatever `rest` holds.
   */
  lemma RepeatedDomainCut(host: string, path: string, rest: string)
    requires host == OldDocsHost || host == DeveloperHost || host == DocsHost
    requires '#' !in path
    requires !Contains(path, DomainOf(host))
    ensures ClassifyLink(host + path + DomainOf(host) + rest) == Some(path)
  {
    HostPathDomainHasNoAnchor(host, path);
    HostHasNoAnchor(host);
    var tail := HostCutShape(host, path, DomainOf(host), rest);
    var link := host + (path + DomainOf(host) + tail);
    assert link[..|host|] == host;
    HostLinkClassified(host + path + DomainOf(host) + rest, host);
    HostSplitAfterPath(host, path, tail);
  }

  /** The anchor cut of a `#`-free host, path and domain followed by anything keeps all three. */
  lemma HostCutShape(host: string, path: string, domain: string, rest: string) returns (tail: string)
    requires |host| > 0 && host[0] != '#'
    requires '#' !in host + path + domain
    ensures StripAnchor(host + path + domain + rest) == host + (path + domain + tail)
  {
    tail := AnchorCutKeeps(host + path + domain, rest);
    assert host + path + domain + tail == host + (path + domain + tail);
  }

  /** On a documentation host, the piece after the host's domain runs up to its next occurrence. */
  lemma HostSplitAfterPath(host: string, path: string, tail: string)
    requires host == OldDocsHost || host == DeveloperHost || host == DocsHost
    requires !Contains(path, DomainOf(host))
    ensures |SplitOn(host + (path + DomainOf(host) + tail), DomainOf(host))| >= 2
    ensures SplitOn(host + (path + DomainOf(host) + tail), DomainOf(host))[1] == path
  {
    var k := HostDomainIndex(host);
    DomainLastCharUnique(host);
    SplitAfterHost(host, DomainOf(host), k, path, tail);
  }

  /** The example link with a repeated domain: `https://docs.arbitrum.io/a/arbitrum.io/b` becomes `/a/`. */
  lemma RepeatedDomainExample(href: string)
    requires href == "https://docs.arbitrum.io/a/arbitrum.io/b"
    ensures ClassifyLink(href) == Some("/a/")
  {
    var path := "/a/";
    assert 'r' !in path;
    NotContainsByChar(path, DocsDomain, 1);
    assert DocsHost == "https://docs.arbitrum.io";
    assert href == DocsHost + path + DocsDomain + "/b";
    RepeatedDomainCut(DocsHost, path, "/b");
  }
}
