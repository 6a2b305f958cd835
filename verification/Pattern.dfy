/** Grant patterns: validation, matching and the covering relation. */
module Pattern {
  import opened Prelude

  datatype Family = Path | Domain | Name | Program

  // ---- Validation ----

  predicate ValidPath(p: string) {
    || p == "*"
    || p == "**"
    || (&& ("/" <= p || "~/" <= p)
        && var segments := Split(p, '/');
           forall i :: 0 <= i < |segments| ==>
             && segments[i] != ".."
             && (Contains(segments[i], "**") ==> segments[i] == "**" && i == |segments| - 1))
  }

  predicate PathLike(p: string) {
    "/" <= p || "~/" <= p || p == "*" || p == "**"
  }

  predicate ValidProgram(p: string) {
    if PathLike(p) then ValidPath(p) else AllAlphanumericOr(p, "._-+")
  }

  /** A trailing `:port` made of digits is split off; anything else is all host. */
  function SplitHostPort(p: string): (string, Option<string>) {
    match RSplitOnce(p, ':')
    case Some((host, port)) =>
      if port != [] && AllDigits(port)
      then (host, Some(port)) else (p, None)
    case None => (p, None)
  }

  function StripWildcard(host: string): string {
    if "*." <= host then host[2..] else host
  }

  predicate ValidDomain(p: string) {
    if p == "*" then true
    else if "driver:" <= p then
      var driver := p[|"driver:"|..];
      driver != [] && AllAlphanumericOr(driver, "-_")
    else
      var (host, port) := SplitHostPort(p);
      var bare := StripWildcard(host);
      && (port.Some? ==> AllDigits(port.value) && DecimalValue(port.value) <= 65535)
      && bare != []
      && bare[0] != '.'
      && bare[|bare| - 1] != '.'
      && !Contains(bare, "..")
      && AllAlphanumericOr(bare, ".-")
      && '.' in bare
  }

  function StripDotStar(p: string): string {
    if EndsWith(p, ".*") then DropEnd(p, 2) else p
  }

  predicate ValidName(p: string) {
    || p == "*"
    || (StripDotStar(p) != [] && AllAlphanumericOr(StripDotStar(p), "._-:"))
  }

  predicate Valid(family: Family, p: string) {
    && p != []
    && match family
       case Path => ValidPath(p)
       case Domain => ValidDomain(p)
       case Name => ValidName(p)
       case Program => ValidProgram(p)
  }

  // ---- Covering ----

  predicate PathCovers(parent: string, child: string) {
    || parent == "**"
    || parent == "*"
    || (&& EndsWith(parent, "/**")
        && var prefix := DropEnd(parent, 3);
           child == prefix || prefix + "/" <= child)
  }

  predicate DomainCovers(parent: string, child: string) {
    if parent == "*" then true
    else if "driver:" <= parent || "driver:" <= child then false
    else
      var (parentHost, parentPort) := SplitHostPort(parent);
      var (childHost, childPort) := SplitHostPort(child);
      && (parentPort.Some? ==> childPort == parentPort)
      && if "*." <= parentHost then
           var suffix := parentHost[2..];
           var bare := StripWildcard(childHost);
           bare == suffix || EndsWith(bare, "." + suffix)
         else parentHost == childHost
  }

  predicate NameCovers(parent: string, child: string) {
    || parent == "*"
    || (&& EndsWith(parent, ".*")
        && var base := DropEnd(parent, 2);
           StripDotStar(child) == base || base + "." <= StripDotStar(child))
  }

  /** The parent is held to accept every target the child accepts. */
  predicate Covers(family: Family, parent: string, child: string) {
    || parent == child
    || match family
       case Path => PathCovers(parent, child)
       case Domain => DomainCovers(parent, child)
       case Name => NameCovers(parent, child)
       case Program => ("/" <= parent || parent == "*" || parent == "**") && PathCovers(parent, child)
  }

  // ---- Matching a concrete target ----

  function ExpandHome(p: string, home: string): string {
    if "~/" <= p then TrimEnd(home, '/') + "/" + p[2..] else p
  }

  predicate PathMatches(p: string, target: string, home: string) {
    p == "*" || p == "**" || ExpandedMatches(ExpandHome(p, home), target)
  }

  predicate ExpandedMatches(e: string, target: string) {
    if e == target then true
    else if EndsWith(e, "/**") then
      var prefix := DropEnd(e, 3);
      target == prefix || prefix + "/" <= target
    else if EndsWith(e, "/*") then
      var prefix := DropEnd(e, 2) + "/";
      prefix <= target && '/' !in target[|prefix|..]
    else false
  }

  predicate DomainMatches(p: string, target: string) {
    if p == "*" then true
    else
      var (host, port) := SplitHostPort(p);
      var (targetHost, targetPort) := SplitHostPort(target);
      && (port.Some? ==> port == targetPort)
      && if "*." <= host
         then targetHost == host[2..] || EndsWith(targetHost, "." + host[2..])
         else host == targetHost
  }

  predicate ProgramMatches(p: string, target: string, home: string) {
    if PathLike(p) then PathMatches(p, target, home) else p == target
  }

  predicate Matches(family: Family, p: string, target: string, home: string) {
    match family
    case Path => PathMatches(p, target, home)
    case Domain => DomainMatches(p, target)
    case Name => NameCovers(p, target) || p == target
    case Program => ProgramMatches(p, target, home)
  }

  // ---- Is covering sound? ----

  /** Every target the child accepts is accepted by the parent, under every home. */
  ghost predicate Includes(family: Family, parent: string, child: string) {
    forall target, home ::
      Matches(family, child, target, home) ==> Matches(family, parent, target, home)
  }

  // The one shape where covering promises too much: a child ending in slash-star whose parent
  // is the same text followed by slash-star-star. The prefix test reads the child's star as a
  // plain character, although matching treats it as a glob.
  predicate GlobTrap(family: Family, parent: string, child: string) {
    && (family.Path? || family.Program?)
    && parent == child + "/**"
    && EndsWith(child, "/*")
  }

  lemma EndsStar(s: string)
    ensures EndsWith(s, "/*") <==> |s| >= 2 && s[|s| - 2] == '/' && s[|s| - 1] == '*'
  {
    if |s| >= 2 { assert s[|s| - 2..] == [s[|s| - 2], s[|s| - 1]]; }
  }

  lemma EndsDoubleStar(s: string)
    ensures EndsWith(s, "/**") <==>
            |s| >= 3 && s[|s| - 3] == '/' && s[|s| - 2] == '*' && s[|s| - 1] == '*'
  {
    if |s| >= 3 { assert s[|s| - 3..] == [s[|s| - 3], s[|s| - 2], s[|s| - 1]]; }
  }

  lemma DoubleStarOnlyLast(g: string)
    ensures !ValidPath(g + "/**" + "/**")
  {
    var p := g + "/**" + "/**";
    var tail := "**" + ['/'] + "**";
    assert p == g + ['/'] + tail;
    SplitAppend(g, tail, '/');
    SplitAppend("**", "**", '/');
    SplitOfDoubleStar();
    var k := |Split(g, '/')|;
    assert Split(p, '/')[k] == "**" && k + 1 < |Split(p, '/')|;
    assert Contains("**", "**") by { assert "**" <= "**"[0..]; }
    assert |p| >= 6;
  }

  lemma SplitOfDoubleStar()
    ensures Split("**", '/') == ["**"]
  {
    assert "*"[1..] == "";
    assert Split("", '/') == [""];
    assert Split("*", '/') == ["*"] by { assert ['*'] + "" == "*"; }
    assert "**"[1..] == "*";
    assert ['*'] + "*" == "**";
  }

  // ---- Expansion of the home prefix ----

  /** A directory text `f` with its home prefix resolved. */
  function Root(f: string, home: string): string {
    if f == "~" || "~/" <= f then TrimEnd(home, '/') + f[1..] else f
  }

  lemma ExpandDirect(p: string, home: string)
    requires p != "~"
    ensures ExpandHome(p, home) == Root(p, home)
  {
    if "~/" <= p { assert p[1..] == "/" + p[2..]; }
  }

  lemma ExpandBelow(f: string, r: string, home: string)
    ensures ExpandHome(f + "/" + r, home) == Root(f, home) + "/" + r
  {
    hide TrimEnd;
    var p := f + "/" + r;
    if "~/" <= f {
      assert p[0] == f[0] && p[1] == f[1];
      assert p[2..] == f[2..] + "/" + r;
      assert f[1..] == "/" + f[2..];
      assert Root(f, home) + "/" + r == TrimEnd(home, '/') + "/" + (f[2..] + "/" + r);
    } else if f == "~" {
      assert p[0] == '~' && p[1] == '/' && p[2..] == r;
      assert f[1..] == "";
      assert Root(f, home) + "/" + r == TrimEnd(home, '/') + "/" + r;
    } else {
      NotHome(f, r);
    }
  }

  lemma NotHome(f: string, r: string)
    requires !("~/" <= f) && f != "~"
    ensures !("~/" <= f + "/" + r)
  {
    var p := f + "/" + r;
    if |f| >= 2 {
      assert p[0] == f[0] && p[1] == f[1];
    } else if |f| == 1 {
      assert p[0] == f[0];
    } else {
      assert p[0] == '/';
    }
  }

  lemma RootKeepsSuffix(p: string, home: string)
    requires p != "~"
    ensures EndsWith(Root(p, home), "/*") <==> EndsWith(p, "/*")
    ensures EndsWith(Root(p, home), "/**") <==> EndsWith(p, "/**")
  {
    if "~/" <= p {
      assert p[0] == '~' && p[1] == '/';
      SameEnds(TrimEnd(home, '/'), p);
    }
  }

  lemma SameEnds(t: string, p: string)
    requires |p| >= 2 && p[0] == '~' && p[1] == '/'
    ensures EndsWith(t + p[1..], "/*") <==> EndsWith(p, "/*")
    ensures EndsWith(t + p[1..], "/**") <==> EndsWith(p, "/**")
  {
    var e := t + p[1..];
    EndsStar(p);
    EndsStar(e);
    EndsDoubleStar(p);
    EndsDoubleStar(e);
    hide EndsWith;
    assert e[|e| - 1] == p[1..][|p| - 2];
    if |p| >= 3 { assert e[|e| - 2] == p[1..][|p| - 3]; }
    if |p| >= 4 { assert e[|e| - 3] == p[1..][|p| - 4]; }
  }

  lemma CutBelow(b: string, r: string, n: nat)
    requires n <= |r| + 1
    ensures var q := DropEnd(b + "/" + r, n); if n == |r| + 1 then q == b else b + "/" <= q
  {
    var e := b + "/" + r;
    var q := DropEnd(e, n);
    if n <= |r| { assert q[..|b| + 1] == b + "/"; } else { assert q == b; }
  }

  lemma BelowMatches(b: string, r: string, target: string)
    requires ExpandedMatches(b + "/" + r, target)
    ensures target == b || b + "/" <= target
  {
    var e := b + "/" + r;
    var t := b + "/";
    assert e[|b|] == '/' && t <= e;
    if e != target {
      EndsStar(e);
      EndsDoubleStar(e);
      var n := if EndsWith(e, "/**") then 3 else 2;
      assert n <= |r| + 1;
      CutBelow(b, r, n);
      var q := DropEnd(e, n);
      assert target == q || q + "/" <= target;
      PrefixTransitive(t, q, target);
    }
  }

  lemma PrefixTransitive(a: string, b: string, c: string)
    ensures a <= b && b <= c ==> a <= c
    ensures b + "/" <= c ==> b <= c
  {
    if a <= b && b <= c { assert a == b[..|a|] == c[..|a|]; }
    if b + "/" <= c { assert b == (b + "/")[..|b|]; }
  }

  // ---- Soundness, family by family ----

  lemma TreeMatches(f: string, target: string, home: string)
    ensures PathMatches(f + "/**", target, home) <==>
            || f + "/**" == "*"
            || target == Root(f, home) + "/**"
            || target == Root(f, home)
            || Root(f, home) + "/" <= target
  {
    hide Root; hide ExpandHome;
    ExpandBelow(f, "**", home);
    assert f + "/" + "**" == f + "/**";
    var e := Root(f, home) + "/**";
    EndsDoubleStar(e);
    assert DropEnd(e, 3) == Root(f, home);
    assert |f + "/**"| >= 3;
  }

  lemma TreeCovers(f: string, child: string, target: string, home: string)
    requires child == f || f + "/" <= child
    requires child != "*" && child != "**" && child != "~"
    requires child == f ==> !EndsWith(child, "/*") && !EndsWith(child, "/**")
    requires PathMatches(child, target, home)
    ensures PathMatches(f + "/**", target, home)
  {
    hide Root; hide ExpandHome;
    TreeMatches(f, target, home);
    if child == f {
      ExpandDirect(child, home);
      RootKeepsSuffix(child, home);
    } else {
      var r := child[|f| + 1..];
      assert child == f + "/" + r;
      ExpandBelow(f, r, home);
      BelowMatches(Root(f, home), r, target);
    }
  }

  lemma PathCoversSound(parent: string, child: string, target: string, home: string)
    requires ValidPath(parent) && ValidPath(child) && child != []
    requires PathCovers(parent, child)
    requires parent == child + "/**" ==> !EndsWith(child, "/*")
    requires PathMatches(child, target, home)
    ensures PathMatches(parent, target, home)
  {
    if parent != "*" && parent != "**" {
      var f := DropEnd(parent, 3);
      assert parent == f + "/**";
      if child == f {
        assert child[0] == parent[0];
        if EndsWith(f, "/**") {
          assert f == DropEnd(f, 3) + "/**";
          DoubleStarOnlyLast(DropEnd(f, 3));
        }
      } else {
        assert child[|f|] == '/';
      }
      TreeCovers(f, child, target, home);
    }
  }

  /** One level below `b` is reached by its star, and is not below the star itself. */
  lemma StarReaches(b: string, name: string)
    requires name != "" && name[0] != '*' && '/' !in name
    ensures ExpandedMatches(b + "/" + "*", b + "/" + name)
    ensures b + "/" + name != b + "/" + "*" && !(b + "/" + "*" + "/" <= b + "/" + name)
    ensures b + "/" + name != b + "/" + "*" + "/**"
  {
    var e, target := b + "/" + "*", b + "/" + name;
    EndsStar(e);
    EndsDoubleStar(e);
    assert DropEnd(e, 2) == b;
    assert target[|b| + 1..] == name;
    assert target[|b| + 1] == name[0] && e[|b| + 1] == '*';
  }

  /** A name below `q` is reached by the star of `q` and not by the tree below that star. */
  lemma TrapMisses(q: string, name: string, home: string)
    requires name != "" && name[0] != '*' && '/' !in name
    ensures PathMatches(q + "/*", Root(q, home) + "/" + name, home)
    ensures !PathMatches(q + "/*" + "/**", Root(q, home) + "/" + name, home)
  {
    hide EndsWith; hide ExpandedMatches; hide Root; hide ExpandHome;
    var child := q + "/" + "*";
    assert q + "/*" == child;
    StarReaches(Root(q, home), name);
    ExpandBelow(q, "*", home);
    TreeMatches(child, Root(q, home) + "/" + name, home);
    assert child != "~" by { assert |child| >= 2; }
    ExpandDirect(child, home);
    assert |child + "/**"| >= 3;
  }

  lemma TrapBreaksInclusion(parent: string, child: string, home: string) returns (target: string)
    requires parent == child + "/**" && EndsWith(child, "/*")
    ensures PathMatches(child, target, home) && !PathMatches(parent, target, home)
    ensures target == Root(DropEnd(child, 2), home) + "/a"
  {
    var q := DropEnd(child, 2);
    assert child == q + "/*";
    TrapMisses(q, "a", home);
    target := Root(q, home) + "/a";
    assert target == Root(q, home) + "/" + "a";
  }

  lemma NameCoversSound(parent: string, child: string, target: string)
    requires ValidName(parent) && ValidName(child)
    requires NameCovers(parent, child)
    requires NameCovers(child, target) || child == target
    ensures NameCovers(parent, target) || parent == target
  {
    if parent != "*" && child != target {
      var base := DropEnd(parent, 2);
      assert base == StripDotStar(parent);
      assert base != [] && base[0] != '*';
      assert StripDotStar(child)[0] == base[0] by {
        if StripDotStar(child) != base { assert (base + ".")[0] == base[0]; }
      }
      assert child != "*";
      var mid := StripDotStar(child);
      assert mid == DropEnd(child, 2);
      if mid != base && StripDotStar(target) != mid {
        assert base + "." <= mid + ".";
      }
    }
  }

  lemma StarHasNoPort()
    ensures SplitHostPort("*") == ("*", None)
  {
    assert "*"[..0] == "";
    assert RSplitOnce("", ':') == None;
    assert RSplitOnce("*", ':') == None;
  }

  lemma DomainCoversSound(parent: string, child: string, target: string)
    requires ValidDomain(parent) && ValidDomain(child)
    requires DomainCovers(parent, child)
    requires DomainMatches(child, target)
    ensures DomainMatches(parent, target)
  {
    if parent != "*" {
      var parentHost := SplitHostPort(parent).0;
      var childHost := SplitHostPort(child).0;
      var targetHost := SplitHostPort(target).0;
      var bare := StripWildcard(parentHost);
      assert forall i :: 0 <= i < |bare| ==> bare[i] != '*';
      StarHasNoPort();
      assert childHost != "*" by {
        if "*." <= parentHost {
          assert EndsWith(StripWildcard(childHost), "." + bare) ==> |StripWildcard(childHost)| >= 2;
          assert StripWildcard("*") == "*";
        }
      }
      if "*." <= parentHost && "*." <= childHost {
        SuffixTransitive(targetHost, childHost[2..], bare);
      }
    }
  }

  lemma SuffixTransitive(a: string, b: string, c: string)
    requires a == b || EndsWith(a, "." + b)
    requires b == c || EndsWith(b, "." + c)
    ensures a == c || EndsWith(a, "." + c)
  {
    if a != b && b != c {
      var k := |c| + 1;
      assert a[|a| - |b| - 1..] == "." + b;
      assert a[|a| - k..] == ("." + b)[|b| + 1 - k..] == b[|b| - k..];
    }
  }

  lemma CoversSound(family: Family, parent: string, child: string, target: string, home: string)
    requires Valid(family, parent) && Valid(family, child)
    requires Covers(family, parent, child)
    requires !GlobTrap(family, parent, child)
    requires Matches(family, child, target, home)
    ensures Matches(family, parent, target, home)
  {
    if parent != child {
      match family
      case Path => PathCoversSound(parent, child, target, home);
      case Domain => DomainCoversSound(parent, child, target);
      case Name => NameCoversSound(parent, child, target);
      case Program =>
        if parent != "*" && parent != "**" {
          AbsoluteChild(parent, child);
          PathCoversSound(parent, child, target, home);
        }
    }
  }

  lemma AbsoluteChild(parent: string, child: string)
    requires "/" <= parent && PathCovers(parent, child) && child != []
    ensures "/" <= child
  {
    assert parent[0] == '/';
    var f := DropEnd(parent, 3);
    assert parent == f + "/**";
    if child != f {
      assert (f + "/")[0] == '/' by { if f != [] { assert f[0] == parent[0]; } }
    } else {
      assert f[0] == parent[0];
    }
  }

  /** Covering keeps its promise for valid patterns, except for exactly one shape. */
  lemma CoversIsInclusion(family: Family, parent: string, child: string)
    requires Valid(family, parent) && Valid(family, child)
    requires Covers(family, parent, child)
    ensures Includes(family, parent, child) <==> !GlobTrap(family, parent, child)
  {
    if GlobTrap(family, parent, child) {
      assert |parent| != |child|;
      if family.Program? { AbsoluteChild(parent, child); }
      var target := TrapBreaksInclusion(parent, child, "");
      assert Matches(family, child, target, "") && !Matches(family, parent, target, "");
    } else {
      forall target, home | Matches(family, child, target, home)
        ensures Matches(family, parent, target, home)
      {
        CoversSound(family, parent, child, target, home);
      }
    }
  }

  lemma SimpleSegments(segment: string)
    requires segment == "" || segment == "a" || segment == "*"
    ensures Split(segment, '/') == [segment] && !Contains(segment, "**")
  {
    SplitWithout(segment, '/');
  }

  /** The shape exists among valid patterns. */
  lemma TrapsExist()
    ensures ValidPath("/a/*") && ValidPath("/a/*/**")
    ensures GlobTrap(Path, "/a/*/**", "/a/*")
  {
    TrapSegments();
    hide Contains;
    SimpleSegments("");
    SimpleSegments("a");
    SimpleSegments("*");
    assert "/a/*"[2..] == "/*";
    assert "/a/*" + "/**" == "/a/*/**";
  }

  lemma TrapSegments()
    ensures Split("/a/*", '/') == ["", "a", "*"]
    ensures Split("/a/*/**", '/') == ["", "a", "*", "**"]
  {
    hide Contains;
    SplitWithout("", '/');
    SplitWithout("a", '/');
    SplitWithout("*", '/');
    SplitWithout("**", '/');
    SplitAppend("", "a", '/');
    assert "" + ['/'] + "a" == "/a";
    SplitAppend("/a", "*", '/');
    assert "/a" + ['/'] + "*" == "/a/*";
    SplitAppend("/a/*", "**", '/');
    assert "/a/*" + ['/'] + "**" == "/a/*/**";
  }

  // ---- A target no other pattern reaches ----

  /** What directories of path patterns look like. */
  predicate Anchored(f: string) { f == "" || f == "~" || "/" <= f || "~/" <= f }

  lemma RootHead(f: string)
    requires Anchored(f)
    ensures
      var a := Root(f, "h") + "/";
      if f == "~" || "~/" <= f then a == "h" + (f[1..] + "/") && a[0] == 'h' && a[1..] == f[1..] + "/"
      else a == f + "/" && a[0] == '/'
  {
    assert TrimEnd("h", '/') == "h";
    if f == "~" || "~/" <= f {
      assert Root(f, "h") + "/" == "h" + (f[1..] + "/");
    } else if f != "" {
      assert (f + "/")[0] == f[0];
    }
  }

  /** Under a relative home, directories are one below the other only if their texts are. */
  lemma RootReflects(f: string, q: string)
    requires Anchored(f) && Anchored(q) && Root(f, "h") + "/" <= Root(q, "h") + "/"
    ensures f + "/" <= q + "/"
  {
    hide Root;
    RootHead(f);
    RootHead(q);
    var a, b := Root(f, "h") + "/", Root(q, "h") + "/";
    assert a[0] == b[0];
    if a[0] == 'h' {
      assert a[1..] <= b[1..];
      TildesFollow(f, q);
    }
  }

  lemma TildesFollow(f: string, q: string)
    requires f != "" && q != "" && f[0] == q[0] && f[1..] + "/" <= q[1..] + "/"
    ensures f + "/" <= q + "/"
  {
    assert f + "/" == [f[0]] + (f[1..] + "/");
    assert q + "/" == [q[0]] + (q[1..] + "/");
  }

  /** A long name below `q` is reached only by patterns that cover the star of `q`. */
  lemma ReachedOnlyByCovering(p: string, q: string, name: string)
    requires ValidPath(p) && Anchored(q)
    requires '/' !in name && |name| > |p|
    ensures PathMatches(p, Root(q, "h") + "/" + name, "h") ==> p == q + "/*" || PathCovers(p, q + "/*")
  {
    if p != "*" && p != "**" && PathMatches(p, Root(q, "h") + "/" + name, "h") {
      AnchoredReach(p, q, name);
    }
  }

  lemma ShortExpansion(p: string)
    ensures |ExpandHome(p, "h")| <= |p|
  {
    assert TrimEnd("h", '/') == "h";
  }

  lemma LongTreeMatch(d: string, target: string)
    requires ExpandedMatches(d + "/" + "**", target) && |target| > |d| + 3
    ensures d + "/" <= target
  {
    var e := d + "/" + "**";
    EndsDoubleStar(e);
    assert DropEnd(e, 3) == d;
  }

  lemma LongStarMatch(d: string, target: string)
    requires ExpandedMatches(d + "/" + "*", target) && |target| > |d| + 2
    ensures d + "/" <= target && '/' !in target[|d| + 1..]
  {
    var e := d + "/" + "*";
    EndsStar(e);
    EndsDoubleStar(e);
    assert DropEnd(e, 2) == d;
  }

  /** A valid pattern that matches a text longer than itself ends in a star. */
  lemma LongMatchIsStarred(p: string, target: string)
    requires p != "*" && p != "**" && p != "~"
    requires PathMatches(p, target, "h") && |target| > |p|
    ensures EndsWith(p, "/**") || EndsWith(p, "/*")
  {
    hide TrimEnd; hide Root; hide ExpandHome;
    ShortExpansion(p);
    ExpandDirect(p, "h");
    RootKeepsSuffix(p, "h");
  }

  lemma AnchoredReach(p: string, q: string, name: string)
    requires ("/" <= p || "~/" <= p) && Anchored(q)
    requires '/' !in name && |name| > |p|
    requires PathMatches(p, Root(q, "h") + "/" + name, "h")
    ensures p == q + "/*" || PathCovers(p, q + "/*")
  {
    hide TrimEnd; hide Root; hide ExpandHome; hide ExpandedMatches;
    assert p[0] == '/' || (p[0] == '~' && |p| >= 2);
    ShortExpansion(p);
    LongMatchIsStarred(p, Root(q, "h") + "/" + name);
    if EndsWith(p, "/**") {
      var f := DropEnd(p, 3);
      assert p == f + "/" + "**";
      TreePatternReach(f, q, name);
    } else {
      var f := DropEnd(p, 2);
      assert p == f + "/" + "*";
      StarPatternReach(f, q, name);
    }
  }

  lemma TreePatternReach(f: string, q: string, name: string)
    requires "/" <= f + "/" + "**" || "~/" <= f + "/" + "**"
    requires Anchored(q) && '/' !in name && |name| > |f| + 3
    requires ExpandedMatches(ExpandHome(f + "/" + "**", "h"), Root(q, "h") + "/" + name)
    ensures f + "/" <= q + "/*"
  {
    hide TrimEnd; hide Root; hide ExpandHome; hide ExpandedMatches;
    ExpandBelow(f, "**", "h");
    AnchoredStart(f, "**");
    RootLength(f);
    LongTreeMatch(Root(f, "h"), Root(q, "h") + "/" + name);
    TreeReach(f, q, name);
  }

  lemma StarPatternReach(f: string, q: string, name: string)
    requires "/" <= f + "/" + "*" || "~/" <= f + "/" + "*"
    requires Anchored(q) && '/' !in name && |name| > |f| + 2
    requires ExpandedMatches(ExpandHome(f + "/" + "*", "h"), Root(q, "h") + "/" + name)
    ensures f == q
  {
    hide TrimEnd; hide Root; hide ExpandHome; hide ExpandedMatches;
    ExpandBelow(f, "*", "h");
    AnchoredStart(f, "*");
    RootLength(f);
    LongStarMatch(Root(f, "h"), Root(q, "h") + "/" + name);
    StarReach(f, q, name);
  }

  lemma RootLength(f: string)
    ensures |Root(f, "h")| <= |f|
  {
    assert TrimEnd("h", '/') == "h";
  }

  lemma TreeReach(f: string, q: string, name: string)
    requires Anchored(f) && Anchored(q) && '/' !in name
    requires Root(f, "h") + "/" <= Root(q, "h") + "/" + name
    ensures f + "/" <= q + "/*"
  {
    hide Root;
    SlashBefore(Root(f, "h"), Root(q, "h"), name);
    RootReflects(f, q);
    assert (q + "/*")[..|q| + 1] == q + "/";
    PrefixTransitive(f + "/", q + "/", q + "/*");
  }

  lemma StarReach(f: string, q: string, name: string)
    requires Anchored(f) && Anchored(q) && '/' !in name
    requires Root(f, "h") + "/" <= Root(q, "h") + "/" + name
    requires '/' !in (Root(q, "h") + "/" + name)[|Root(f, "h")| + 1..]
    ensures f == q
  {
    hide Root;
    var d, b := Root(f, "h"), Root(q, "h");
    var target := b + "/" + name;
    SlashBefore(d, b, name);
    assert target[|b|] == '/';
    forall k | |d| < k < |target| ensures target[k] != '/' {
      assert target[k] == target[|d| + 1..][k - |d| - 1];
    }
    assert d == target[..|d|] && b == target[..|b|] by {
      assert (d + "/")[..|d|] == d;
    }
    RootReflects(f, q);
    RootReflects(q, f);
    assert (f + "/")[..|f|] == f && (q + "/")[..|q|] == q;
  }

  lemma AnchoredStart(f: string, r: string)
    requires "/" <= f + "/" + r || "~/" <= f + "/" + r
    ensures Anchored(f)
  {
    var p := f + "/" + r;
    if |f| >= 1 { assert p[0] == f[0]; }
    if |f| >= 2 { assert p[1] == f[1]; }
  }

  /** A directory of a target with one name below `b` is `b` or above it. */
  lemma SlashBefore(d: string, b: string, name: string)
    requires '/' !in name && d + "/" <= b + "/" + name
    ensures |d| <= |b| && d + "/" <= b + "/"
  {
    var target := b + "/" + name;
    assert target[|d|] == (d + "/")[|d|] == '/';
    forall k | |b| < k < |target| ensures target[k] != '/' {
      assert target[k] == name[k - |b| - 1];
    }
    assert target[..|b| + 1] == b + "/";
  }

  /** In either family of paths, a long name below `q` is reached only by what covers the star of `q`,
      and not by the trapped shape. */
  lemma LongNameReach(family: Family, p: string, child: string, name: string)
    requires (family.Path? || family.Program?) && Valid(family, p) && Valid(family, child)
    requires EndsWith(child, "/*") && PathLike(child) && (family.Program? ==> "/" <= child)
    requires name != "" && name[0] != '*' && '/' !in name && |name| > |p|
    ensures
      var target := Root(DropEnd(child, 2), "h") + "/" + name;
      && Matches(family, child, target, "h")
      && (Matches(family, p, target, "h") ==> Covers(family, p, child) && !GlobTrap(family, p, child))
  {
    var target := Root(DropEnd(child, 2), "h") + "/" + name;
    StarReachesName(family, child, name, "h");
    hide Root; hide PathMatches; hide PathCovers; hide ValidPath; hide EndsWith; hide AllAlphanumericOr;
    if PathLike(p) {
      PathNameReach(p, child, name);
      if family.Program? { TildeCoversTilde(p, child); }
    }
  }

  lemma PathNameReach(p: string, child: string, name: string)
    requires ValidPath(p) && PathLike(child) && EndsWith(child, "/*")
    requires name != "" && name[0] != '*' && '/' !in name && |name| > |p|
    ensures
      PathMatches(p, Root(DropEnd(child, 2), "h") + "/" + name, "h") ==>
        (p == child || PathCovers(p, child)) && p != child + "/**"
  {
    var q := DropEnd(child, 2);
    assert child == q + "/" + "*" && child == q + "/*";
    assert child != "*" && child != "**" by { assert child[|child| - 2] == '/'; }
    AnchoredStart(q, "*");
    hide Root; hide PathMatches; hide PathCovers; hide ValidPath; hide EndsWith;
    TrapMisses(q, name, "h");
    ReachedOnlyByCovering(p, q, name);
  }

  lemma StarReachesName(family: Family, child: string, name: string, home: string)
    requires family.Path? || family.Program?
    requires EndsWith(child, "/*") && PathLike(child)
    requires name != "" && name[0] != '*' && '/' !in name
    ensures Matches(family, child, Root(DropEnd(child, 2), home) + "/" + name, home)
  {
    var q := DropEnd(child, 2);
    assert child == q + "/*";
    TrapMisses(q, name, home);
  }

  /** What the trapped shape catches is a path, absolute for a program. */
  lemma TrappedIsPath(family: Family, parent: string, child: string)
    requires Valid(family, parent) && Valid(family, child)
    requires Covers(family, parent, child) && GlobTrap(family, parent, child)
    ensures (family.Path? || family.Program?) && EndsWith(child, "/*") && PathLike(child)
    ensures family.Program? ==> "/" <= child
  {
    assert |parent| != |child|;
    assert child[|child| - 2..] == "/*" && child[|child| - 2] == '/';
    if family.Program? {
      assert parent != "*" && parent != "**" by { assert |parent| >= 5; }
      AbsoluteChild(parent, child);
    } else {
      assert child != "*" && child != "**" by { assert child[|child| - 2] == '/'; }
    }
  }

  lemma TildeCoversTilde(p: string, child: string)
    requires PathLike(p) && "/" <= child
    ensures PathCovers(p, child) || p == child ==> "/" <= p || p == "*" || p == "**"
  {
    assert child[0] == '/';
    if "~/" <= p && EndsWith(p, "/**") {
      var f := DropEnd(p, 3);
      assert p[0] == '~' && p == f + "/**";
      assert f != "" && f[0] == '~';
    }
  }
}
