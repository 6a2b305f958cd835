/** Memoised policy decisions, keyed by some of what an engine may read. */
module PolicyCache {
  import opened Prelude
  import opened Cap
  import opened Policy

  datatype Key = Key(action: string, sensitive: bool, irreversible: bool, external: bool, level: nat)

  function KeyOf(q: Query): Key {
    Key(ActionName(q.res, q.act), q.facts.sensitive, q.facts.irreversible, q.facts.external, q.level)
  }

  datatype Memo = Memo(engine: Engine, cache: map<Key, bool>)

  function Answer(m: Memo, q: Query): Option<bool> {
    if KeyOf(q) in m.cache then Some(m.cache[KeyOf(q)]) else m.engine(q)
  }

  /** The memo after a question: an answer is kept, a failure is not. */
  function After(m: Memo, q: Query): Memo {
    if Answer(m, q).Some? then m.(cache := m.cache[KeyOf(q) := Answer(m, q).value]) else m
  }

  datatype Event = Asked(q: Query) | Replaced(engine: Engine)

  /** Replacing the engine forgets every kept answer. */
  function Step(m: Memo, e: Event): Memo {
    match e
    case Asked(q) => After(m, q)
    case Replaced(engine) => Memo(engine, map[])
  }

  function Run(m: Memo, events: seq<Event>): Memo
    decreases |events|
  {
    if events == [] then m else Step(Run(m, events[..|events| - 1]), events[|events| - 1])
  }

  /** A question the service can ask: its facts are those of its target. */
  predicate Real(home: string, q: Query) {
    q.facts == FactsOf(q.res, q.act, q.facts.target, q.facts.irreversible, q.facts.external, home)
  }

  predicate RealEvent(home: string, e: Event) { e.Asked? ==> Real(home, e.q) }

  /** Every kept answer is the engine's own answer to some question with that key. */
  ghost predicate Genuine(home: string, m: Memo) {
    forall k <- m.cache :: Sourced(home, m, k)
  }

  ghost predicate Sourced(home: string, m: Memo, k: Key)
    requires k in m.cache
  {
    exists q: Query :: Real(home, q) && KeyOf(q) == k && m.engine(q) == Some(m.cache[k])
  }

  /** No question the service can ask with the same key gets another answer from the engine. */
  ghost predicate DeterminedByKey(engine: Engine, home: string, q: Query) {
    forall other: Query :: Real(home, other) && KeyOf(other) == KeyOf(q) && engine(other).Some? ==>
      engine(other) == engine(q)
  }

  lemma StepKeepsGenuine(home: string, m: Memo, e: Event)
    requires Genuine(home, m) && RealEvent(home, e)
    ensures Genuine(home, Step(m, e))
  {
    var m' := Step(m, e);
    forall k <- m'.cache ensures Sourced(home, m', k) {
      if e.Asked? && k == KeyOf(e.q) && k !in m.cache {
        assert Real(home, e.q) && m'.engine(e.q) == Some(m'.cache[k]);
      } else {
        assert Sourced(home, m, k);
      }
    }
  }

  lemma {:induction false} RunKeepsGenuine(home: string, m: Memo, events: seq<Event>)
    requires Genuine(home, m) && forall e <- events :: RealEvent(home, e)
    ensures Genuine(home, Run(m, events))
    decreases |events|
  {
    if events != [] {
      RunKeepsGenuine(home, m, events[..|events| - 1]);
      assert RealEvent(home, events[|events| - 1]);
      StepKeepsGenuine(home, Run(m, events[..|events| - 1]), events[|events| - 1]);
    }
  }

  /** After any questions and replacements, the memo answers `q` as the current engine would
      whenever that engine's answer to `q` is determined by the key. */
  lemma MemoAgrees(home: string, m: Memo, events: seq<Event>, q: Query)
    requires Genuine(home, m) && forall e <- events :: RealEvent(home, e)
    requires DeterminedByKey(Run(m, events).engine, home, q)
    ensures Answer(Run(m, events), q) == Run(m, events).engine(q)
  {
    RunKeepsGenuine(home, m, events);
    var m' := Run(m, events);
    if KeyOf(q) in m'.cache { assert Sourced(home, m', KeyOf(q)); }
  }

  function NewMemo(engine: Engine): Memo { Memo(engine, map[]) }

  /** In every run of questions the service can ask that ends with this engine, the memo answers `q`
      as the engine does. */
  ghost predicate Transparent(engine: Engine, home: string, q: Query) {
    forall events: seq<Event> | forall e <- events :: RealEvent(home, e) ::
      Run(NewMemo(engine), events).engine == engine ==> Answer(Run(NewMemo(engine), events), q) == engine(q)
  }

  lemma AskedOnce(engine: Engine, other: Query)
    ensures Run(NewMemo(engine), [Asked(other)]) == After(NewMemo(engine), other)
  {
    var events := [Asked(other)];
    assert events[..0] == [];
    assert Run(NewMemo(engine), events[..0]) == NewMemo(engine);
  }

  /** Memoisation is invisible for `q` in every run exactly when the key determines the answer. */
  lemma MemoTransparentIff(engine: Engine, home: string, q: Query)
    ensures Transparent(engine, home, q) <==> DeterminedByKey(engine, home, q)
  {
    if DeterminedByKey(engine, home, q) {
      forall events: seq<Event> |
        (forall e <- events :: RealEvent(home, e)) && Run(NewMemo(engine), events).engine == engine
        ensures Answer(Run(NewMemo(engine), events), q) == engine(q)
      {
        MemoAgrees(home, NewMemo(engine), events, q);
      }
    } else {
      var other: Query :|
        Real(home, other) && KeyOf(other) == KeyOf(q) && engine(other).Some? && engine(other) != engine(q);
      var events := [Asked(other)];
      AskedOnce(engine, other);
      assert RealEvent(home, events[0]);
      assert Run(NewMemo(engine), events).engine == engine;
      assert Answer(Run(NewMemo(engine), events), q) == engine(other);
    }
  }

  /** The same question about another program. */
  function About(q: Query, program: string, home: string): Query {
    q.(facts := FactsOf(q.res, q.act, program, q.facts.irreversible, q.facts.external, home))
  }

  lemma UtilitiesAndShells(home: string)
    ensures IsSafeUtility("wc") && !IsSafeUtility("sh")
    ensures !IsSensitivePath("wc", home) && !IsSensitivePath("sh", home)
  {
    ShortNamesAreNotSensitive("wc", home);
    ShortNamesAreNotSensitive("sh", home);
    assert "wc" in SAFE_UTILITIES;
    assert "sh"[0] == 's' && "sort"[0] == 's' && |"sh"| != |"sort"|;
  }

  /** With the default policies, the key misses one fact: whether the program is a confined
      utility. It matters exactly for executions below level 2 on a target that is not sensitive. */
  lemma DefaultEngineDeterminedIff(home: string, q: Query)
    requires Real(home, q)
    ensures DeterminedByKey(DefaultEngine, home, q)
            <==> !(q.res == Proc && q.act == Exec && q.level < 2 && !q.facts.sensitive)
  {
    if q.res == Proc && q.act == Exec && q.level < 2 && !q.facts.sensitive {
      UtilitiesAndShells(home);
      var other := About(q, if q.facts.confinedUtility then "sh" else "wc", home);
      assert Real(home, other) && KeyOf(other) == KeyOf(q) && DefaultEngine(other) != DefaultEngine(q);
    } else {
      forall other: Query | KeyOf(other) == KeyOf(q)
        ensures DefaultEngine(other) == DefaultEngine(q)
      {
        ActionNameRoundTrip(ActionName(q.res, q.act), q.res, q.act);
        ActionNameRoundTrip(ActionName(q.res, q.act), other.res, other.act);
      }
    }
  }
}
