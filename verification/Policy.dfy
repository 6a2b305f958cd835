/** Policies and action classes: what is forbidden, permitted, and left to a human. */
module Policy {
  import opened Prelude
  import opened Cap
  import Pattern

  datatype Facts = Facts(
    target: string,
    sensitive: bool,
    irreversible: bool,
    external: bool,
    confinedUtility: bool)

  datatype ActionClass =
    | LocalRead
    | LocalWriteReversible
    | LocalWriteSensitive
    | NetworkRead
    | IrreversibleExternal
    | CodeExecution
    | Elevation
  {
    predicate RequiresApproval() {
      LocalWriteSensitive? || IrreversibleExternal? || Elevation?
    }
  }

  /** Everything an engine is given about one request. */
  datatype Query = Query(task: string, res: Res, act: Act, facts: Facts, level: nat)

  /** A policy engine; `None` is a technical failure, not a refusal. */
  type Engine = Query -> Option<bool>

  const SENSITIVE_PATHS: seq<string> := [
    "~/.ssh", "~/.gnupg", "~/.aws", "~/.config/gh", "~/.netrc", "~/.git-credentials",
    "~/.prophet/vault", "/etc/shadow", "/etc/sudoers", "/etc/prophet/policies",
    "/var/lib/prophet/capd", "/var/lib/prophet/vault", "/var/lib/prophet/providers"
  ]

  const SAFE_UTILITIES: set<string> := {
    "cat", "ls", "wc", "head", "tail", "sort", "uniq", "grep", "cut", "tr", "diff", "file"
  }

  predicate IsSafeUtility(program: string) {
    '/' !in program && program in SAFE_UTILITIES
  }

  predicate IsSensitivePath(path: string, home: string) {
    exists p <- SENSITIVE_PATHS ::
      var expanded := Pattern.ExpandHome(p, home);
      path == expanded || expanded + "/" <= path
  }

  /** What the service establishes itself about a target, whatever the caller declares. */
  function FactsOf(res: Res, act: Act, target: string, irreversible: bool, external: bool, home: string): Facts {
    Facts(
      target,
      (res == Fs || res == Proc) && IsSensitivePath(target, home),
      irreversible,
      external,
      res == Proc && act == Exec && IsSafeUtility(target))
  }

  function Classify(res: Res, act: Act, facts: Facts): ActionClass {
    if facts.sensitive && act == Write then LocalWriteSensitive
    else if res == Proc && act == Exec then CodeExecution
    else if (res == Cap && act == Delegate) || (res == Ledger && act == ReadAll) then Elevation
    else if facts.irreversible || facts.external then IrreversibleExternal
    else if (res == Fs || res == Memory) && act == Write then LocalWriteReversible
    else if res == Net && act == Egress then NetworkRead
    else LocalRead
  }

  /** The pairs some default policy permits. */
  predicate DefaultPermits(res: Res, act: Act) {
    match res
    case Fs => act in {Read, List, Write}
    case Ui => act in {Read, Act.Act}
    case Ledger => act == Read
    case Memory => act in {Read, Write}
    case Model => act == Use
    case Net => act == Egress
    case Tool => act == Call
    case Proc => act == Exec
    case Task => act == Spawn
    case Cap => act == Delegate
  }

  predicate DefaultForbids(q: Query) {
    || q.facts.sensitive
    || (q.res == Proc && q.act == Exec && q.level < 2 && !q.facts.confinedUtility)
  }

  /** The default policies: a prohibition always wins over a permission. */
  function DefaultEngine(q: Query): Option<bool> {
    Some(DefaultPermits(q.res, q.act) && !DefaultForbids(q))
  }

  /** What the default policies permit, pair by pair; a sensitive target never, and the execution of
      what is not a confined utility only at level 2. */
  lemma PermittedIff(q: Query)
    ensures DefaultEngine(q) == Some(true) <==>
              && !q.facts.sensitive
              && match q.res
                 case Fs => q.act == Read || q.act == List || q.act == Write
                 case Ui => q.act == Read || q.act == Act.Act
                 case Ledger => q.act == Read
                 case Memory => q.act == Read || q.act == Write
                 case Model => q.act == Use
                 case Net => q.act == Egress
                 case Tool => q.act == Call
                 case Proc => q.act == Exec && (q.level >= 2 || q.facts.confinedUtility)
                 case Task => q.act == Spawn
                 case Cap => q.act == Delegate
    ensures DefaultEngine(q).Some?
  {
  }

  /** What is left to a human whatever the policies: writing what is sensitive, delegating, reading the
      whole journal, and what is irreversible or external other than an execution. */
  lemma AskedOfAHumanIff(res: Res, act: Act, facts: Facts)
    ensures Classify(res, act, facts).RequiresApproval() <==>
              || (facts.sensitive && act == Write)
              || (res == Cap && act == Delegate) || (res == Ledger && act == ReadAll)
              || ((facts.irreversible || facts.external) && !(res == Proc && act == Exec))
  {
  }

  /** What the default policies let through without a human: confined or level-2 execution, whatever
      it declares, and otherwise what is reversible, local, not sensitive and not a delegation. */
  lemma AutomaticIff(q: Query)
    ensures
      DefaultEngine(q) == Some(true) && !Classify(q.res, q.act, q.facts).RequiresApproval() <==>
        && !q.facts.sensitive && DefaultPermits(q.res, q.act)
        && if q.res == Proc then q.level >= 2 || q.facts.confinedUtility
           else q.res != Cap && !q.facts.irreversible && !q.facts.external
  {
    assert DefaultPermits(q.res, q.act) && q.res == Proc ==> q.act == Exec;
  }

  /** The confined utilities, by name: executing one of them, and nothing else, counts as such. */
  lemma ConfinedIff(res: Res, act: Act, target: string, irreversible: bool, external: bool, home: string)
    ensures FactsOf(res, act, target, irreversible, external, home).confinedUtility <==>
              && res == Proc && act == Exec
              && (|| target == "cat" || target == "ls" || target == "wc" || target == "head" || target == "tail"
                  || target == "sort" || target == "uniq" || target == "grep" || target == "cut" || target == "tr"
                  || target == "diff" || target == "file")
  {
    hide IsSensitivePath;
  }

  // ---- What is protected ----

  /** The path is the directory or something below it. */
  ghost predicate Within(path: string, dir: string) {
    path == dir || exists rest :: path == dir + "/" + rest
  }

  /** `home` without slashes at its end. */
  function Home(home: string): string { TrimEnd(home, '/') }

  lemma WithinIff(path: string, dir: string)
    ensures Within(path, dir) <==> path == dir || dir + "/" <= path
  {
    if dir + "/" <= path { assert path == dir + "/" + path[|dir| + 1..]; }
  }

  lemma BelowHome(p: string, home: string)
    requires p != "" && p[0] == '/'
    ensures Pattern.ExpandHome("~" + p, home) == Home(home) + p
  {
    assert "~/" <= "~" + p;
    assert p == "/" + ("~" + p)[2..];
  }

  /** The protected places, one by one. */
  ghost predicate Protected(target: string, home: string) {
    || Within(target, Home(home) + "/.ssh") || Within(target, Home(home) + "/.gnupg")
    || Within(target, Home(home) + "/.aws") || Within(target, Home(home) + "/.config/gh")
    || Within(target, Home(home) + "/.netrc") || Within(target, Home(home) + "/.git-credentials")
    || Within(target, Home(home) + "/.prophet/vault")
    || Within(target, "/etc/shadow") || Within(target, "/etc/sudoers")
    || Within(target, "/etc/prophet/policies") || Within(target, "/var/lib/prophet/capd")
    || Within(target, "/var/lib/prophet/vault") || Within(target, "/var/lib/prophet/providers")
  }

  /** For a file or a program, what is in one of them is sensitive under every home, and nothing else is. */
  lemma SensitiveIff(res: Res, act: Act, target: string, irreversible: bool, external: bool, home: string)
    ensures FactsOf(res, act, target, irreversible, external, home).sensitive <==>
              && (res == Fs || res == Proc)
              && Protected(target, home)
  {
    hide InPlace; hide Within; hide IsSensitivePath; hide Home;
    SensitiveAt(target, home);
    Thirteen(target, home);
    HomePlaces(target, home);
    MoreHomePlaces(target, home);
    RootPlaces(target, home);
  }

  lemma HomePlaces(target: string, home: string)
    ensures InPlace(target, 0, home) <==> Within(target, Home(home) + "/.ssh")
    ensures InPlace(target, 1, home) <==> Within(target, Home(home) + "/.gnupg")
    ensures InPlace(target, 2, home) <==> Within(target, Home(home) + "/.aws")
  {
    hide InPlace; hide Within; hide Home;
    PlaceHome(target, "/.ssh", 0, home);
    PlaceHome(target, "/.gnupg", 1, home);
    PlaceHome(target, "/.aws", 2, home);
  }

  lemma MoreHomePlaces(target: string, home: string)
    ensures InPlace(target, 3, home) <==> Within(target, Home(home) + "/.config/gh")
    ensures InPlace(target, 4, home) <==> Within(target, Home(home) + "/.netrc")
    ensures InPlace(target, 5, home) <==> Within(target, Home(home) + "/.git-credentials")
    ensures InPlace(target, 6, home) <==> Within(target, Home(home) + "/.prophet/vault")
  {
    hide InPlace; hide Within; hide Home;
    PlaceHome(target, "/.config/gh", 3, home);
    PlaceHome(target, "/.netrc", 4, home);
    PlaceHome(target, "/.git-credentials", 5, home);
    PlaceHome(target, "/.prophet/vault", 6, home);
  }

  lemma RootPlaces(target: string, home: string)
    ensures InPlace(target, 7, home) <==> Within(target, "/etc/shadow")
    ensures InPlace(target, 8, home) <==> Within(target, "/etc/sudoers")
    ensures InPlace(target, 9, home) <==> Within(target, "/etc/prophet/policies")
    ensures InPlace(target, 10, home) <==> Within(target, "/var/lib/prophet/capd")
    ensures InPlace(target, 11, home) <==> Within(target, "/var/lib/prophet/vault")
    ensures InPlace(target, 12, home) <==> Within(target, "/var/lib/prophet/providers")
  {
    hide InPlace; hide Within;
    PlaceRoot(target, "/etc/shadow", 7, home);
    PlaceRoot(target, "/etc/sudoers", 8, home);
    PlaceRoot(target, "/etc/prophet/policies", 9, home);
    PlaceRoot(target, "/var/lib/prophet/capd", 10, home);
    PlaceRoot(target, "/var/lib/prophet/vault", 11, home);
    PlaceRoot(target, "/var/lib/prophet/providers", 12, home);
  }

  lemma Thirteen(target: string, home: string)
    ensures |SENSITIVE_PATHS| == 13
    ensures (exists k: nat :: k < 13 && InPlace(target, k, home)) <==>
              || InPlace(target, 0, home) || InPlace(target, 1, home) || InPlace(target, 2, home)
              || InPlace(target, 3, home) || InPlace(target, 4, home) || InPlace(target, 5, home)
              || InPlace(target, 6, home) || InPlace(target, 7, home) || InPlace(target, 8, home)
              || InPlace(target, 9, home) || InPlace(target, 10, home) || InPlace(target, 11, home)
              || InPlace(target, 12, home)
  {
    hide InPlace;
  }

  /** The target is in the `k`-th place of the list. */
  predicate InPlace(target: string, k: nat, home: string)
    requires k < |SENSITIVE_PATHS|
  {
    var expanded := Pattern.ExpandHome(SENSITIVE_PATHS[k], home);
    target == expanded || expanded + "/" <= target
  }

  lemma SensitiveAt(target: string, home: string)
    ensures IsSensitivePath(target, home) <==> exists k: nat :: k < |SENSITIVE_PATHS| && InPlace(target, k, home)
  {
    hide Pattern.ExpandHome;
    if k: nat :| k < |SENSITIVE_PATHS| && InPlace(target, k, home) {
      assert SENSITIVE_PATHS[k] in SENSITIVE_PATHS;
    }
    if IsSensitivePath(target, home) {
      var p :| p in SENSITIVE_PATHS && var e := Pattern.ExpandHome(p, home); target == e || e + "/" <= target;
      var k: nat :| k < |SENSITIVE_PATHS| && SENSITIVE_PATHS[k] == p;
      assert InPlace(target, k, home);
    }
  }

  lemma PlaceHome(target: string, p: string, k: nat, home: string)
    requires k < |SENSITIVE_PATHS| && SENSITIVE_PATHS[k] == "~" + p && p != "" && p[0] == '/'
    ensures InPlace(target, k, home) <==> Within(target, Home(home) + p)
  {
    BelowHome(p, home);
    WithinIff(target, Home(home) + p);
  }

  lemma PlaceRoot(target: string, p: string, k: nat, home: string)
    requires k < |SENSITIVE_PATHS| && SENSITIVE_PATHS[k] == p && p != "" && p[0] == '/'
    ensures InPlace(target, k, home) <==> Within(target, p)
  {
    WithinIff(target, p);
  }

  /** The approval asked for sensitive writes never reaches a human: they are forbidden first. */
  lemma SensitiveWritesNeverReachAHuman(q: Query)
    ensures Classify(q.res, q.act, q.facts).LocalWriteSensitive? ==> DefaultEngine(q) == Some(false)
  {
  }

  lemma ExpandedEnd(p: string, home: string)
    requires |p| > 2
    ensures var e := Pattern.ExpandHome(p, home); e != "" && e[|e| - 1] == p[|p| - 1]
  {
  }

  lemma ExpandedLength(p: string, home: string)
    requires |p| > 4
    ensures |Pattern.ExpandHome(p, home)| > 3
  {
  }

  /** A bare name of at most three letters is never a sensitive path. */
  lemma ShortNamesAreNotSensitive(name: string, home: string)
    requires |name| <= 3
    ensures !IsSensitivePath(name, home)
  {
    forall p | p in SENSITIVE_PATHS
      ensures var e := Pattern.ExpandHome(p, home); name != e && !(e + "/" <= name)
    {
      assert |p| > 4;
      ExpandedLength(p, home);
    }
  }

  lemma UnderDirectory(e: string, path: string)
    requires e != ""
    ensures e + "/" <= path ==> |e| < |path| && path[|e|] == '/' && path[|e| - 1] == e[|e| - 1]
  {
    if e + "/" <= path {
      assert path[|e|] == (e + "/")[|e|];
      assert path[|e| - 1] == (e + "/")[|e| - 1];
    }
  }

  /** No sensitive path ends in an `a`, so this one is under none of them, whatever the home. */
  lemma PlainTarget(home: string)
    ensures !IsSensitivePath("/a/a", home)
  {
    forall p | p in SENSITIVE_PATHS
      ensures var e := Pattern.ExpandHome(p, home); "/a/a" != e && !(e + "/" <= "/a/a")
    {
      assert |p| > 2 && p[|p| - 1] != 'a';
      ExpandedEnd(p, home);
      var e := Pattern.ExpandHome(p, home);
      UnderDirectory(e, "/a/a");
    }
  }

  // ---- Names of actions ----

  function ResName(res: Res): string {
    match res
    case Fs => "fs" case Net => "net" case Tool => "tool" case Proc => "proc" case Ui => "ui"
    case Ledger => "ledger" case Memory => "memory" case Model => "model" case Task => "task"
    case Cap => "cap"
  }

  function ActName(act: Act): string {
    match act
    case Read => "read" case Write => "write" case List => "list" case Egress => "egress"
    case Call => "call" case Exec => "exec" case Act => "act" case Vision => "vision"
    case ReadAll => "read_all" case Use => "use" case Spawn => "spawn" case Delegate => "delegate"
  }

  function ActionName(res: Res, act: Act): string {
    ResName(res) + "." + ActName(act)
  }

  function ParseRes(s: string): Option<Res> {
    if s == "fs" then Some(Fs) else if s == "net" then Some(Net)
    else if s == "tool" then Some(Tool) else if s == "proc" then Some(Proc)
    else if s == "ui" then Some(Ui) else if s == "ledger" then Some(Ledger)
    else if s == "memory" then Some(Memory) else if s == "model" then Some(Model)
    else if s == "task" then Some(Task) else if s == "cap" then Some(Cap)
    else None
  }

  function ParseAct(s: string): Option<Act> {
    if s == "read" then Some(Read) else if s == "write" then Some(Write)
    else if s == "list" then Some(List) else if s == "egress" then Some(Egress)
    else if s == "call" then Some(Call) else if s == "exec" then Some(Exec)
    else if s == "act" then Some(Act.Act) else if s == "vision" then Some(Vision)
    else if s == "read_all" then Some(ReadAll) else if s == "use" then Some(Use)
    else if s == "spawn" then Some(Spawn) else if s == "delegate" then Some(Delegate)
    else None
  }

  /** The pair a capability key names. */
  function ParseKey(key: string): Option<(Res, Act)> {
    match SplitOnce(key, '.')
    case None => None
    case Some((r, a)) =>
      match (ParseRes(r), ParseAct(a))
      case (Some(res), Some(act)) => Some((res, act))
      case _ => None
  }

  lemma ResNameHasNoDot(res: Res)
    ensures '.' !in ResName(res) && ParseRes(ResName(res)) == Some(res)
  {
  }

  lemma ActNameParses(act: Act)
    ensures ParseAct(ActName(act)) == Some(act)
  {
  }

  /** Action names and capability keys are two readings of the same text: a key parses to a pair
      exactly when it is that pair's name. In particular, no two pairs share a name. */
  lemma ActionNameRoundTrip(key: string, res: Res, act: Act)
    ensures ParseKey(key) == Some((res, act)) <==> key == ActionName(res, act)
  {
    if key == ActionName(res, act) {
      ResNameHasNoDot(res);
      ActNameParses(act);
      SplitOnceAppend(ResName(res), ActName(act), '.');
    } else if ParseKey(key) == Some((res, act)) {
      var (r, a) := SplitOnce(key, '.').value;
      ParsedResIsNamed(r);
      ParsedActIsNamed(a);
    }
  }

  lemma ParsedResIsNamed(s: string)
    ensures ParseRes(s).Some? ==> ResName(ParseRes(s).value) == s
  {
  }

  lemma ParsedActIsNamed(s: string)
    ensures ParseAct(s).Some? ==> ActName(ParseAct(s).value) == s
  {
  }
}
