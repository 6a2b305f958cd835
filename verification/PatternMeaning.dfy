/** What patterns are and reach, in terms of the texts they are made of. */
module PatternMeaning {
  import opened Prelude
  import opened Pattern

  // ---- Paths ----

  /** Some text stands below this directory. */
  ghost predicate Below(text: string, dir: string) {
    exists rest :: text == dir + "/" + rest
  }

  lemma BelowIff(text: string, dir: string)
    ensures Below(text, dir) <==> dir + "/" <= text
  {
    if dir + "/" <= text { assert text == dir + "/" + text[|dir| + 1..]; }
  }

  /** The stars alone reach everything. */
  lemma StarsReachAll(target: string, home: string)
    ensures PathMatches("*", target, home) && PathMatches("**", target, home)
    ensures DomainMatches("*", target) && Matches(Name, "*", target, home) && ProgramMatches("*", target, home)
  {
    StarHasNoPort();
  }

  /** A tree reaches its directory and all that is below it, at any depth. */
  lemma TreeReaches(f: string, target: string, home: string)
    ensures PathMatches(f + "/**", target, home) <==>
              target == Root(f, home) || Below(target, Root(f, home))
  {
    TreeMatches(f, target, home);
    BelowIff(target, Root(f, home));
    assert |f + "/**"| > 1;
    if target == Root(f, home) + "/**" { assert target == Root(f, home) + "/" + "**"; }
  }

  lemma StarIs(b: string, target: string)
    ensures ExpandedMatches(b + "/" + "*", target) <==> exists name :: '/' !in name && target == b + "/" + name
  {
    var e := b + "/" + "*";
    EndsStar(e);
    EndsDoubleStar(e);
    hide EndsWith;
    assert DropEnd(e, 2) == b;
    assert e[|e| - 2] == '/';
    if b + "/" <= target { assert target == b + "/" + target[|b + "/"|..]; }
    if name :| '/' !in name && target == b + "/" + name { assert target[|b + "/"|..] == name; }
    assert '/' !in "*";
  }

  /** A star at the end reaches what is one level below, names as they are. */
  lemma StarReachesOneLevel(f: string, target: string, home: string)
    ensures PathMatches(f + "/*", target, home) <==>
              exists name :: '/' !in name && target == Root(f, home) + "/" + name
  {
    hide Root; hide ExpandHome; hide ExpandedMatches;
    ExpandBelow(f, "*", home);
    assert f + "/" + "*" == f + "/*";
    assert f + "/*" != "*" && f + "/*" != "**" by { assert (f + "/*")[|f|] == '/'; }
    StarIs(Root(f, home), target);
  }

  /** Any other path reaches itself alone, its home resolved. */
  lemma PlainReachesItself(p: string, target: string, home: string)
    requires p != "*" && p != "**" && !EndsWith(p, "/*") && !EndsWith(p, "/**")
    ensures PathMatches(p, target, home) <==> target == ExpandHome(p, home)
  {
    if p == "~" {
      assert ExpandHome(p, home) == p;
    } else {
      ExpandDirect(p, home);
      RootKeepsSuffix(p, home);
    }
  }

  /** The home prefix stands for the home without slashes at its end, and only where a slash follows it. */
  lemma HomeIs(p: string, home: string)
    ensures ExpandHome("~/" + p, home) == TrimEnd(home, '/') + "/" + p
    ensures !("~/" <= p) ==> ExpandHome(p, home) == p
  {
    assert ("~/" + p)[2..] == p;
  }

  /** A program is a path when it looks like one, and otherwise a name for itself alone. */
  lemma ProgramReaches(p: string, target: string, home: string)
    ensures ProgramMatches(p, target, home) <==>
              if p == "*" || p == "**" || (p != "" && p[0] == '/') || (|p| >= 2 && p[0] == '~' && p[1] == '/')
              then PathMatches(p, target, home)
              else target == p
  {
    hide PathMatches;
    assert |p| >= 2 ==> p[..2] == [p[0], p[1]];
  }

  /** What is covered: everything by a star, and by a tree its directory and whatever text is below it. */
  lemma PathCoversIff(parent: string, child: string)
    ensures PathCovers(parent, child) <==>
              || parent == "*" || parent == "**"
              || exists f :: parent == f + "/**" && (child == f || Below(child, f))
  {
    if EndsWith(parent, "/**") {
      var f := DropEnd(parent, 3);
      assert parent == f + "/**";
      BelowIff(child, f);
    }
    if f :| parent == f + "/**" && (child == f || Below(child, f)) {
      EndsDoubleStar(parent);
      assert DropEnd(parent, 3) == f;
      BelowIff(child, f);
    }
  }

  /** Programs are covered as paths are, from the root only; every pattern covers itself. */
  lemma CoversIff(family: Family, parent: string, child: string)
    ensures Covers(family, parent, child) <==>
              || parent == child
              || match family
                 case Path => PathCovers(parent, child)
                 case Domain => DomainCovers(parent, child)
                 case Name => NameCovers(parent, child)
                 case Program =>
                   PathCovers(parent, child) && (parent == "*" || parent == "**" || (parent != "" && parent[0] == '/'))
  {
    hide PathCovers; hide DomainCovers; hide NameCovers;
  }

  // ---- Names ----

  /** A name followed by dot star reaches the name and every longer one after a dot. */
  lemma NameReaches(base: string, target: string)
    requires !EndsWith(target, ".*")
    ensures NameCovers(base + ".*", target) <==> target == base || exists rest :: target == base + "." + rest
    ensures target != "*" && !EndsWith(base, ".*") && base != "*" ==> (NameCovers(base, target) <==> false)
  {
    assert EndsWith(base + ".*", ".*") && DropEnd(base + ".*", 2) == base;
    assert |base + ".*"| > 1;
    if base + "." <= target { assert target == base + "." + target[|base| + 1..]; }
  }

  /** Between patterns: a subtree of names covers itself, its base, and the subtrees below it. */
  lemma NameCoversSubtree(base: string, child: string)
    requires !EndsWith(child, ".*")
    ensures NameCovers(base + ".*", child + ".*") <==> child == base || exists rest :: child == base + "." + rest
  {
    assert EndsWith(child + ".*", ".*") && DropEnd(child + ".*", 2) == child;
    assert EndsWith(base + ".*", ".*") && DropEnd(base + ".*", 2) == base;
    assert |base + ".*"| > 1;
    if base + "." <= child { assert child == base + "." + child[|base| + 1..]; }
  }

  // ---- Hosts ----

  /** A colon and digits at the end are a port; nothing else is. */
  lemma PortIs(host: string, port: string)
    requires ':' !in port
    ensures SplitHostPort(host + ":" + port) ==
            if port != "" && AllDigits(port) then (host, Some(port)) else (host + ":" + port, None)
    ensures SplitHostPort(port) == (port, None)
  {
    RSplitOnceAppend(host, port, ':');
    assert host + [':'] + port == host + ":" + port;
    RSplitOnceMeaning(port, ':');
  }

  /** A host pattern reaches the hosts it says, on its port if it gives one and on any otherwise: itself,
      or with a star in front its own name and every name that ends in it after a dot. */
  lemma HostReaches(p: string, target: string)
    requires p != "*"
    ensures
      var (host, port) := SplitHostPort(p);
      var (targetHost, targetPort) := SplitHostPort(target);
      DomainMatches(p, target) <==>
        && (port.None? || targetPort == port)
        && if host != "" && host[0] == '*' && |host| > 1 && host[1] == '.'
           then targetHost == host[2..] || exists front :: targetHost == front + "." + host[2..]
           else targetHost == host
  {
    var host, targetHost := SplitHostPort(p).0, SplitHostPort(target).0;
    assert "*." <= host <==> |host| > 1 && host[0] == '*' && host[1] == '.' by {
      if |host| > 1 { assert host[..2] == [host[0], host[1]]; }
    }
    if "*." <= host { SuffixIff(targetHost, host[2..]); }
  }

  lemma SuffixIff(s: string, suffix: string)
    ensures EndsWith(s, "." + suffix) <==> exists front :: s == front + "." + suffix
  {
    if EndsWith(s, "." + suffix) {
      var front := s[..|s| - |suffix| - 1];
      assert s == front + ("." + suffix);
      assert front + ("." + suffix) == front + "." + suffix;
    }
    if front :| s == front + "." + suffix {
      assert s[|front|..] == "." + suffix;
    }
  }

  /** Between patterns: the same host, or under a star the hosts and stars that end in its name; the port
      kept where the parent gives one. Drivers are covered by the star alone and cover nothing. */
  lemma HostCovers(parent: string, child: string)
    requires parent != "*"
    ensures
      var (parentHost, parentPort) := SplitHostPort(parent);
      var (childHost, childPort) := SplitHostPort(child);
      DomainCovers(parent, child) <==>
        && !("driver:" <= parent) && !("driver:" <= child)
        && (parentPort.None? || childPort == parentPort)
        && if "*." <= parentHost
           then
             var bare := if "*." <= childHost then childHost[2..] else childHost;
             bare == parentHost[2..] || exists front :: bare == front + "." + parentHost[2..]
           else childHost == parentHost
    ensures DomainCovers("*", child)
  {
    var parentHost, childHost := SplitHostPort(parent).0, SplitHostPort(child).0;
    if "*." <= parentHost { SuffixIff(StripWildcard(childHost), parentHost[2..]); }
  }

  // ---- What is valid ----

  /** A path is absolute or in the home, never climbs, and has a double star at most as its last segment. */
  lemma ValidPathIff(p: string)
    requires p != "*" && p != "**"
    ensures
      var segments := Split(p, '/');
      ValidPath(p) <==>
        && ((p != "" && p[0] == '/') || (|p| > 1 && p[0] == '~' && p[1] == '/'))
        && ".." !in segments
        && (forall i :: 0 <= i < |segments| - 1 ==> !Contains(segments[i], "**"))
        && (segments[|segments| - 1] == "**" || !Contains(segments[|segments| - 1], "**"))
  {
    hide Contains; hide Split;
    assert "/" <= p <==> p != "" && p[0] == '/';
    assert "~/" <= p <==> |p| > 1 && p[0] == '~' && p[1] == '/' by {
      if |p| > 1 { assert p[..2] == [p[0], p[1]]; }
    }
    var segments := Split(p, '/');
    assert ".." in segments <==> exists i :: 0 <= i < |segments| && segments[i] == "..";
  }

  /** The stars alone are valid where paths are meant, and the single one everywhere. */
  lemma StarsAreValid(family: Family)
    ensures Valid(family, "*")
    ensures family.Path? || family.Program? ==> Valid(family, "**")
  {
  }

  predicate Letter(c: char) { '0' <= c <= '9' || 'a' <= c <= 'z' || 'A' <= c <= 'Z' }

  /** A program that is no path is a bare name. */
  lemma ValidProgramIff(p: string)
    requires !PathLike(p)
    ensures Valid(Program, p) <==>
              p != "" && forall c <- p :: Letter(c) || c == '.' || c == '_' || c == '-' || c == '+'
  {
    CharactersIff(p, "._-+");
  }

  lemma ValidProgramPath(p: string)
    requires PathLike(p)
    ensures Valid(Program, p) <==> Valid(Path, p)
  {
  }

  lemma CharactersIff(s: string, extra: string)
    ensures AllAlphanumericOr(s, extra) <==> forall c <- s :: Letter(c) || c in extra
  {
  }

  /** A name is made of letters, digits and a few signs, and may end in dot star, which is no part of them. */
  lemma ValidNameIff(base: string)
    requires !EndsWith(base, ".*") && base != "*"
    ensures
      var good := base != "" && forall c <- base :: Letter(c) || c == '.' || c == '_' || c == '-' || c == ':';
      && (Valid(Name, base) <==> good)
      && (Valid(Name, base + ".*") <==> good)
    ensures Valid(Name, "*")
  {
    CharactersIff(base, "._-:");
    assert EndsWith(base + ".*", ".*") && DropEnd(base + ".*", 2) == base;
  }

  /** The pieces between dots are all there. */
  predicate NoEmpty(parts: seq<string>) { forall i :: 0 <= i < |parts| ==> parts[i] != "" }

  lemma ContainsMore(x: char, t: string)
    ensures Contains([x] + t, "..") <==> (x == '.' && t != "" && t[0] == '.') || Contains(t, "..")
  {
    var s := [x] + t;
    if Contains(s, "..") {
      var i: nat :| i + 2 <= |s| && ".." <= s[i..];
      assert s[i] == '.' && s[i + 1] == '.';
      if i > 0 { assert s[i..] == t[i - 1..]; }
    }
    if Contains(t, "..") {
      var i: nat :| i + 2 <= |t| && ".." <= t[i..];
      assert s[i + 1..] == t[i..];
    }
    if x == '.' && t != "" && t[0] == '.' { assert s[0..][..2] == ".."; }
  }

  lemma {:induction false} NoEmptyIff(s: string)
    ensures NoEmpty(Split(s, '.')) <==>
              s != "" && s[0] != '.' && s[|s| - 1] != '.' && !Contains(s, "..")
    ensures NoEmpty(Split(s, '.')[1..]) <==> s == "" || (s[|s| - 1] != '.' && !Contains(s, ".."))
  {
    if s != "" {
      var x, t := s[0], s[1..];
      assert s == [x] + t;
      NoEmptyIff(t);
      ContainsMore(x, t);
      hide Contains;
      var rest := Split(t, '.');
      if x == '.' {
        assert Split(s, '.') == [[]] + rest;
        assert Split(s, '.')[1..] == rest && Split(s, '.')[0] == "";
      } else {
        assert Split(s, '.') == [[x] + rest[0]] + rest[1..];
        assert Split(s, '.')[1..] == rest[1..];
        assert forall i :: 0 <= i < |rest[1..]| ==> Split(s, '.')[i + 1] == rest[1..][i];
      }
    }
  }

  lemma {:induction false} DotMeansTwo(s: string)
    ensures '.' in s <==> |Split(s, '.')| >= 2
  {
    if s != "" {
      DotMeansTwo(s[1..]);
      assert s == [s[0]] + s[1..];
    }
  }

  /** A host has two names or more between its dots, none empty, of letters, digits and dashes; a star and
      a dot may come before it and a sixteen-bit port after it. */
  lemma ValidHostIff(p: string)
    requires p != "*" && !("driver:" <= p)
    ensures
      var (host, port) := SplitHostPort(p);
      var bare := if "*." <= host then host[2..] else host;
      Valid(Domain, p) <==>
        && (port.Some? ==> AllDigits(port.value) && DecimalValue(port.value) < 65536)
        && |Split(bare, '.')| >= 2 && NoEmpty(Split(bare, '.'))
        && forall c <- bare :: Letter(c) || c == '.' || c == '-'
  {
    var (host, port) := SplitHostPort(p);
    var bare := StripWildcard(host);
    NoEmptyIff(bare);
    DotMeansTwo(bare);
    CharactersIff(bare, ".-");
    if p == "" { assert SplitHostPort(p) == ("", None); }
  }

  /** A driver is named by letters, digits, dashes and underscores. */
  lemma ValidDriverIff(name: string)
    ensures Valid(Domain, "driver:" + name) <==>
              name != "" && forall c <- name :: Letter(c) || c == '-' || c == '_'
    ensures Valid(Domain, "*")
  {
    assert ("driver:" + name)[7..] == name;
    assert ("driver:" + name)[0] == 'd';
    CharactersIff(name, "-_");
  }

  // ---- Numbers as text ----

  function Digit(n: nat): char
    requires n < 10
  {
    ('0' as int + n) as char
  }

  function Decimal(n: nat): string {
    if n < 10 then [Digit(n)] else Decimal(n / 10) + [Digit(n % 10)]
  }

  /** Reading a number written in decimal gives it back. */
  lemma {:induction false} DecimalReads(n: nat)
    ensures AllDigits(Decimal(n)) && DecimalValue(Decimal(n)) == n
  {
    var last := n % 10;
    if n < 10 {
      assert [Digit(n)][..0] == "";
    } else {
      DecimalReads(n / 10);
      var s := Decimal(n);
      assert s[..|s| - 1] == Decimal(n / 10) && s[|s| - 1] == Digit(n % 10);
      forall i | 0 <= i < |s| ensures IsDigit(s[i]) {
        if i < |s| - 1 { assert s[i] == Decimal(n / 10)[i]; }
      }
    }
  }
}
