/** The shared reachability cache: its two critical sections, and every interleaving of concurrent
    calls, each of which looks up, probes without the lock, and inserts. */
module PortCache {
  import opened Prelude
  import opened Targets

  /** 30 seconds, in nanoseconds. */
  const CACHE_TTL: nat := 30_000_000_000

  const MAX_CACHE_ENTRIES: nat := 4096

  datatype Entry = Entry(open: bool, checkedAt: nat)

  type Entries = map<Endpoint, Entry>

  // ---------- the critical sections, on values ----------

  /** The state a lookup returns: that of an entry younger than the time to live. */
  function Cached(entries: Entries, key: Endpoint, now: nat): Option<bool> {
    if key in entries && now - entries[key].checkedAt < CACHE_TTL then Some(entries[key].open) else None
  }

  predicate MustEvict(entries: Entries, key: Endpoint) { |entries| >= MAX_CACHE_ENTRIES && key !in entries }

  predicate IsOldest(entries: Entries, v: Endpoint) {
    v in entries && forall k | k in entries :: entries[v].checkedAt <= entries[k].checkedAt
  }

  /** Among equally old entries any may go. */
  predicate VictimOk(entries: Entries, key: Endpoint, victim: Option<Endpoint>) {
    if MustEvict(entries, key) then victim.Some? && IsOldest(entries, victim.value) else victim.None?
  }

  function Without(entries: Entries, victim: Option<Endpoint>): Entries {
    match victim
    case Some(v) => entries - {v}
    case None => entries
  }

  function Stored(entries: Entries, key: Endpoint, open: bool, now: nat, victim: Option<Endpoint>): Entries {
    Without(entries, victim)[key := Entry(open, now)]
  }

  // ---------- the cache object ----------

  class Cache {
    var entries: Entries

    constructor ()
      ensures entries == map[]
    {
      entries := map[];
    }

    method Lookup(key: Endpoint, now: nat) returns (hit: Option<bool>)
      ensures hit.Some? <==> key in entries && now < entries[key].checkedAt + CACHE_TTL
      ensures hit.Some? ==> hit.value == entries[key].open
    {
      if key in entries {
        var entry := entries[key];
        if now - entry.checkedAt < CACHE_TTL {
          return Some(entry.open);
        }
      }
      return None;
    }

    /** The linear scan for the oldest entry. */
    method OldestKey() returns (oldest: Option<Endpoint>)
      ensures oldest.None? <==> entries == map[]
      ensures oldest.Some? ==> IsOldest(entries, oldest.value)
    {
      oldest := None;
      var left := entries.Keys;
      while left != {}
        invariant left <= entries.Keys
        invariant oldest.None? <==> left == entries.Keys
        invariant oldest.Some? ==>
                    && oldest.value in entries
                    && forall k | k in entries && k !in left :: entries[oldest.value].checkedAt <= entries[k].checkedAt
        decreases |left|
      {
        var k :| k in left;
        if oldest.None? || entries[k].checkedAt < entries[oldest.value].checkedAt {
          oldest := Some(k);
        }
        left := left - {k};
      }
    }

    method Store(key: Endpoint, open: bool, now: nat) returns (ghost victim: Option<Endpoint>)
      modifies this
      ensures VictimOk(old(entries), key, victim)
      ensures entries == Stored(old(entries), key, open, now, victim)
    {
      victim := None;
      if |entries| >= MAX_CACHE_ENTRIES && key !in entries {
        var oldest := OldestKey();
        if oldest.Some? {
          victim := oldest;
          entries := entries - {oldest.value};
        }
      }
      entries := entries[key := Entry(open, now)];
    }

    /** One call alone: `before` and `after` are the clock at its two critical sections, and `answer`
        what probing the endpoint gives. */
    method GetState(r: Resolver, host: Str, port: u16, before: nat, after: nat, answer: bool) returns (open: bool)
      requires before <= after
      modifies this
      ensures var key := (NormalizeHost(r, host), port);
              if key in old(entries) && before < old(entries)[key].checkedAt + CACHE_TTL then
                open == old(entries)[key].open && entries == old(entries)
              else
                open == answer && exists victim ::
                  VictimOk(old(entries), key, victim) && entries == Stored(old(entries), key, answer, after, victim)
    {
      var key := (NormalizeHost(r, host), port);
      var hit := Lookup(key, before);
      if hit.Some? {
        return hit.value;
      }
      ghost var victim := Store(key, answer, after);
      return answer;
    }
  }

  // ---------- concurrent calls ----------

  /** Where one call stands. */
  datatype Task =
    | Idle
    | Probing(key: Endpoint)
    | Storing(key: Endpoint, open: bool, stamp: nat)              // with its place among all answers
    | Served(key: Endpoint, open: bool, at: nat, checkedAt: nat)  // from the cache
    | Probed(key: Endpoint, open: bool)                           // by its own probe

  /** One insertion, with the key it displaced and the place of its answer among all answers. */
  datatype Insertion = Insertion(key: Endpoint, open: bool, at: nat, evicted: Option<Endpoint>, stamp: nat)

  /** What one probe found, and when. */
  datatype Found = Found(key: Endpoint, open: bool, at: nat)

  datatype System = System(
    entries: Entries,
    now: nat,
    tasks: map<nat, Task>,
    log: seq<Insertion>,
    answers: seq<Found>)  // the probes' results in the order they came in

  /** One atomic step of one task, or the passing of time. */
  datatype Action =
    | Tick(elapsed: nat)
    | Look(task: nat, key: Endpoint)
    | Answer(task: nat, open: bool)
    | Insert(task: nat, victim: Option<Endpoint>)

  function TaskOf(s: System, i: nat): Task { if i in s.tasks then s.tasks[i] else Idle }

  predicate Enabled(s: System, a: Action) {
    match a
    case Tick(_) => true
    case Look(i, _) => !TaskOf(s, i).Probing? && !TaskOf(s, i).Storing?
    case Answer(i, _) => TaskOf(s, i).Probing?
    case Insert(i, victim) => TaskOf(s, i).Storing? && VictimOk(s.entries, TaskOf(s, i).key, victim)
  }

  function Apply(s: System, a: Action): System
    requires Enabled(s, a)
  {
    match a
    case Tick(d) => s.(now := s.now + d)
    case Look(i, key) =>
      var next :=
        match Cached(s.entries, key, s.now)
        case Some(open) => Served(key, open, s.now, s.entries[key].checkedAt)
        case None => Probing(key);
      s.(tasks := s.tasks[i := next])
    case Answer(i, open) =>
      var key := TaskOf(s, i).key;
      s.(tasks := s.tasks[i := Storing(key, open, |s.answers|)], answers := s.answers + [Found(key, open, s.now)])
    case Insert(i, victim) =>
      var t := TaskOf(s, i);
      s.(entries := Stored(s.entries, t.key, t.open, s.now, victim),
         tasks := s.tasks[i := Probed(t.key, t.open)],
         log := s.log + [Insertion(t.key, t.open, s.now, victim, t.stamp)])
  }

  const INITIAL: System := System(map[], 0, map[], [], [])

  predicate Possible(s: System, actions: seq<Action>)
    decreases |actions|
  {
    actions == [] || (Enabled(s, actions[0]) && Possible(Apply(s, actions[0]), actions[1..]))
  }

  function After(s: System, actions: seq<Action>): System
    requires Possible(s, actions)
    decreases |actions|
  {
    if actions == [] then s else After(Apply(s, actions[0]), actions[1..])
  }

  // ---------- what every interleaving keeps ----------

  /** The last insertion under a key. */
  function Last(log: seq<Insertion>, key: Endpoint): Option<Insertion> {
    if log == [] then None
    else if log[|log| - 1].key == key then Some(log[|log| - 1])
    else Last(log[..|log| - 1], key)
  }

  /** Inserted once, and displaced since. */
  predicate Displaced(s: System, key: Endpoint) { Last(s.log, key).Some? && key !in s.entries }

  /** The set of keys ever inserted. */
  function Inserted(log: seq<Insertion>): set<Endpoint> { set e | e in log :: e.key }

  predicate Bounded(s: System) { |s.entries| <= MAX_CACHE_ENTRIES }

  /** Each entry is that key's last insertion, none of them in the future. */
  predicate Faithful(s: System) {
    forall k | k in s.entries ::
      && Last(s.log, k).Some?
      && s.entries[k] == Entry(Last(s.log, k).value.open, Last(s.log, k).value.at)
      && s.entries[k].checkedAt <= s.now
  }

  /** Eviction is by age: what is present was checked no earlier than what was displaced. */
  ghost predicate OldestFirst(s: System) {
    forall gone, kept | Displaced(s, gone) && kept in s.entries ::
      Last(s.log, gone).value.at <= s.entries[kept].checkedAt
  }

  /** A call served from the cache got the result of an insertion younger than the time to live. */
  predicate ServedOk(s: System) {
    forall i | i in s.tasks && s.tasks[i].Served? ::
      var t := s.tasks[i];
      t.at - t.checkedAt < CACHE_TTL && exists e | e in s.log ::
          e.key == t.key && e.open == t.open && e.at == t.checkedAt
  }

  /** A call that returns by its own probe has recorded that result. */
  predicate ProbedOk(s: System) {
    forall i | i in s.tasks && s.tasks[i].Probed? ::
      exists e | e in s.log :: e.key == s.tasks[i].key && e.open == s.tasks[i].open
  }

  ghost predicate Invariant(s: System) {
    Bounded(s) && Faithful(s) && OldestFirst(s) && ServedOk(s) && ProbedOk(s)
  }

  lemma LastSnoc(log: seq<Insertion>, e: Insertion, key: Endpoint)
    ensures Last(log + [e], key) == if e.key == key then Some(e) else Last(log, key)
  {
    assert (log + [e])[..|log|] == log;
  }

  lemma {:induction false} LastInLog(log: seq<Insertion>, key: Endpoint)
    ensures Last(log, key).Some? ==> Last(log, key).value in log && Last(log, key).value.key == key
    ensures Last(log, key).Some? <==> key in Inserted(log)
  {
    if log != [] {
      var init, last := log[..|log| - 1], log[|log| - 1];
      LastInLog(init, key);
      assert log == init + [last];
      assert forall e :: e in log <==> e in init || e == last;
    }
  }

  lemma InsertBounded(s: System, a: Action)
    requires a.Insert? && Enabled(s, a) && Bounded(s)
    ensures Bounded(Apply(s, a))
  {
    var t := TaskOf(s, a.task);
    var rest := Without(s.entries, a.victim);
    assert |Apply(s, a).entries.Keys| == |rest.Keys + {t.key}|;
    if a.victim.Some? {
      assert rest.Keys == s.entries.Keys - {a.victim.value};
    } else if t.key in s.entries {
      assert rest.Keys + {t.key} == s.entries.Keys;
    }
    assert |Apply(s, a).entries| == |Apply(s, a).entries.Keys| && |s.entries| == |s.entries.Keys|;
  }

  lemma InsertFaithful(s: System, a: Action)
    requires a.Insert? && Enabled(s, a) && Faithful(s)
    ensures Faithful(Apply(s, a))
  {
    hide Last;
    var t := TaskOf(s, a.task);
    var e := Insertion(t.key, t.open, s.now, a.victim, t.stamp);
    forall k ensures Last(s.log + [e], k) == if e.key == k then Some(e) else Last(s.log, k) {
      LastSnoc(s.log, e, k);
    }
  }

  lemma InsertOldestFirst(s: System, a: Action)
    requires a.Insert? && Enabled(s, a) && Faithful(s) && OldestFirst(s) && TimesPast(s)
    ensures OldestFirst(Apply(s, a))
  {
    hide Last;
    var t := TaskOf(s, a.task);
    var e := Insertion(t.key, t.open, s.now, a.victim, t.stamp);
    var s' := Apply(s, a);
    forall k ensures Last(s'.log, k) == if e.key == k then Some(e) else Last(s.log, k) {
      LastSnoc(s.log, e, k);
    }
    forall gone, kept | Displaced(s', gone) && kept in s'.entries
      ensures Last(s'.log, gone).value.at <= s'.entries[kept].checkedAt
    {
      assert gone != t.key && Last(s'.log, gone) == Last(s.log, gone);
      if kept != t.key {
        assert s'.entries[kept] == s.entries[kept];
        if gone in s.entries {
          assert a.victim == Some(gone);
        } else {
          assert Displaced(s, gone);
        }
      } else {
        LastInLog(s.log, gone);
      }
    }
  }

  /** Insertions are in the past. */
  predicate TimesPast(s: System) { forall e | e in s.log :: e.at <= s.now }

  lemma InsertServed(s: System, a: Action)
    requires a.Insert? && Enabled(s, a) && ServedOk(s) && ProbedOk(s)
    ensures ServedOk(Apply(s, a)) && ProbedOk(Apply(s, a))
  {
    var s' := Apply(s, a);
    var e := s'.log[|s.log|];
    assert e in s'.log;
    forall d | d in s.log ensures d in s'.log {
    }
    forall i | i in s'.tasks && s'.tasks[i].Served?
      ensures exists d | d in s'.log ::
          d.key == s'.tasks[i].key && d.open == s'.tasks[i].open && d.at == s'.tasks[i].checkedAt
    {
      assert s'.tasks[i] == s.tasks[i];
      var d :| d in s.log && d.key == s.tasks[i].key && d.open == s.tasks[i].open && d.at == s.tasks[i].checkedAt;
      assert d in s'.log;
    }
    forall i | i in s'.tasks && s'.tasks[i].Probed?
      ensures exists d | d in s'.log :: d.key == s'.tasks[i].key && d.open == s'.tasks[i].open
    {
      if i != a.task {
        assert s'.tasks[i] == s.tasks[i];
        var d :| d in s.log && d.key == s.tasks[i].key && d.open == s.tasks[i].open;
        assert d in s'.log;
      }
    }
  }

  lemma LookServed(s: System, a: Action)
    requires a.Look? && Enabled(s, a) && Faithful(s) && ServedOk(s) && ProbedOk(s)
    ensures ServedOk(Apply(s, a)) && ProbedOk(Apply(s, a))
  {
    hide Last;
    LastInLog(s.log, a.key);
  }

  lemma StepKeeps(s: System, a: Action)
    requires Enabled(s, a) && Invariant(s) && TimesPast(s)
    ensures Invariant(Apply(s, a)) && TimesPast(Apply(s, a))
  {
    hide Bounded, Faithful, OldestFirst, ServedOk, ProbedOk;
    match a
    case Insert(_, _) =>
      InsertBounded(s, a);
      InsertFaithful(s, a);
      InsertOldestFirst(s, a);
      InsertServed(s, a);
    case Look(_, _) =>
      LookServed(s, a);
      SameEntries(s, Apply(s, a));
    case Answer(_, _) =>
      AnswerServed(s, a);
      SameEntries(s, Apply(s, a));
    case Tick(_) =>
      SameEntries(s, Apply(s, a));
      SameTasks(s, Apply(s, a));
  }

  lemma SameEntries(s: System, s': System)
    requires s'.entries == s.entries && s'.log == s.log && s'.now >= s.now
    ensures Bounded(s) ==> Bounded(s')
    ensures Faithful(s) ==> Faithful(s')
    ensures OldestFirst(s) ==> OldestFirst(s')
  {
  }

  lemma SameTasks(s: System, s': System)
    requires s'.tasks == s.tasks && s'.log == s.log && ServedOk(s) && ProbedOk(s)
    ensures ServedOk(s') && ProbedOk(s')
  {
  }

  lemma AnswerServed(s: System, a: Action)
    requires a.Answer? && Enabled(s, a) && ServedOk(s) && ProbedOk(s)
    ensures ServedOk(Apply(s, a)) && ProbedOk(Apply(s, a))
  {
  }

  lemma {:induction false} RunKeeps(s: System, actions: seq<Action>)
    requires Possible(s, actions) && Invariant(s) && TimesPast(s)
    ensures Invariant(After(s, actions)) && TimesPast(After(s, actions))
    decreases |actions|
  {
    hide Apply, Enabled, Invariant, TimesPast;
    if actions != [] {
      StepKeeps(s, actions[0]);
      RunKeeps(Apply(s, actions[0]), actions[1..]);
    }
  }

  /** However the steps of concurrent calls interleave: at most 4096 entries, each the last insertion
      under its key, every one at least as recent as the last check of every displaced key; and every
      answer given was inserted by some call, within the time to live when it came from the cache. */
  lemma EveryInterleaving(actions: seq<Action>)
    requires Possible(INITIAL, actions)
    ensures Invariant(After(INITIAL, actions))
  {
    hide Apply, Enabled;
    RunKeeps(INITIAL, actions);
  }

  // ---------- no displacement below the cap ----------

  /** Nothing but a displacement removes an entry, and displacements happen only at the cap. */
  ghost predicate KeepsAll(s: System) {
    && s.entries.Keys <= Inserted(s.log)
    && (|Inserted(s.log)| <= MAX_CACHE_ENTRIES ==> s.entries.Keys == Inserted(s.log))
  }

  lemma InsertedSnoc(log: seq<Insertion>, e: Insertion)
    ensures Inserted(log + [e]) == Inserted(log) + {e.key}
  {
    assert forall d :: d in log + [e] <==> d in log || d == e;
  }

  lemma SubsetSize<T>(a: set<T>, b: set<T>)
    requires a <= b
    ensures |a| <= |b| && (|a| == |b| ==> a == b)
  {
    assert |b| == |a| + |b - a| by {
      assert b == a + (b - a);
    }
    if |a| == |b| {
      assert b - a == {};
      assert b == a + (b - a) == a;
    }
  }

  lemma StepKeepsAll(s: System, a: Action)
    requires Enabled(s, a) && KeepsAll(s)
    ensures KeepsAll(Apply(s, a))
  {
    if a.Insert? {
      var t := TaskOf(s, a.task);
      InsertedSnoc(s.log, Insertion(t.key, t.open, s.now, a.victim, t.stamp));
      assert |s.entries| == |s.entries.Keys|;
      SubsetSize(Inserted(s.log), Inserted(s.log) + {t.key});
      assert MustEvict(s.entries, t.key) ==> |s.entries.Keys + {t.key}| == |s.entries| + 1;
      SubsetSize(s.entries.Keys + {t.key}, Inserted(s.log) + {t.key});
    }
  }

  lemma {:induction false} RunKeepsAll(s: System, actions: seq<Action>)
    requires Possible(s, actions) && KeepsAll(s)
    ensures KeepsAll(After(s, actions))
    decreases |actions|
  {
    hide Apply, Enabled, KeepsAll;
    if actions != [] {
      StepKeepsAll(s, actions[0]);
      RunKeepsAll(Apply(s, actions[0]), actions[1..]);
    }
  }

  /** While at most 4096 distinct endpoints have been probed, none is ever forgotten. */
  lemma NothingForgotten(actions: seq<Action>)
    requires Possible(INITIAL, actions)
    ensures var s := After(INITIAL, actions);
            |Inserted(s.log)| <= MAX_CACHE_ENTRIES ==> s.entries.Keys == Inserted(s.log)
  {
    hide Apply, Enabled;
    RunKeepsAll(INITIAL, actions);
  }

  // ---------- does the newest probe win? ----------

  function LastAnswer(answers: seq<Found>, key: Endpoint): Option<bool> {
    if answers == [] then None
    else if answers[|answers| - 1].key == key then Some(answers[|answers| - 1].open)
    else LastAnswer(answers[..|answers| - 1], key)
  }

  lemma {:induction false} LastAnswerAt(answers: seq<Found>, key: Endpoint, k: nat)
    requires k < |answers| && answers[k].key == key && forall j | k < j < |answers| :: answers[j].key != key
    ensures LastAnswer(answers, key) == Some(answers[k].open)
  {
    if k + 1 < |answers| {
      LastAnswerAt(answers[..|answers| - 1], key, k);
    }
  }

  predicate InFlight(t: Task, key: Endpoint) { (t.Probing? || t.Storing?) && t.key == key }

  predicate Waiting(t: Task, key: Endpoint) { t.Storing? && t.key == key }

  /** A call for `key` begins only when no other one is between its lookup and its insertion. */
  predicate Alone(s: System, a: Action, key: Endpoint) {
    a.Look? && a.key == key ==> forall i | i in s.tasks :: !InFlight(s.tasks[i], key)
  }

  predicate OneAtATime(s: System, actions: seq<Action>, key: Endpoint)
    requires Possible(s, actions)
    decreases |actions|
  {
    actions == [] || (Alone(s, actions[0], key) && OneAtATime(Apply(s, actions[0]), actions[1..], key))
  }

  predicate AtMostOne(s: System, key: Endpoint) {
    forall i, j | i in s.tasks && j in s.tasks && InFlight(s.tasks[i], key) && InFlight(s.tasks[j], key) :: i == j
  }

  /** No result stored under the key was answered later. */
  predicate NoneLater(log: seq<Insertion>, key: Endpoint, stamp: nat) {
    forall e | e in log && e.key == key :: e.stamp <= stamp
  }

  /** The entry under the key is, of all results stored there, the one answered last. */
  predicate HoldsNewest(s: System, key: Endpoint) {
    key in s.entries && Last(s.log, key).Some? ==> NoneLater(s.log, key, Last(s.log, key).value.stamp)
  }

  /** Neither the entry nor a result still waiting to be stored has been overtaken. */
  predicate NotOvertaken(s: System, key: Endpoint) {
    && HoldsNewest(s, key)
    && forall i | i in s.tasks && Waiting(s.tasks[i], key) :: NoneLater(s.log, key, s.tasks[i].stamp)
  }

  // ---------- every answer is stored once, or waits ----------

  predicate IsAnswer(s: System, key: Endpoint, open: bool, stamp: nat) {
    stamp < |s.answers| && s.answers[stamp].key == key && s.answers[stamp].open == open
  }

  predicate AnswerKept(s: System, k: nat) {
    || (exists e | e in s.log :: e.stamp == k)
    || (exists i | i in s.tasks :: s.tasks[i].Storing? && s.tasks[i].stamp == k)
  }

  ghost predicate Stamped(s: System) {
    && (forall e | e in s.log :: IsAnswer(s, e.key, e.open, e.stamp))
    && (forall i | i in s.tasks && s.tasks[i].Storing? ::
          IsAnswer(s, s.tasks[i].key, s.tasks[i].open, s.tasks[i].stamp))
    && (forall i, j | i in s.tasks && j in s.tasks && s.tasks[i].Storing? && s.tasks[j].Storing? && i != j ::
          s.tasks[i].stamp != s.tasks[j].stamp)
    && (forall k: nat | k < |s.answers| :: AnswerKept(s, k))
  }

  lemma AnswerStamped(s: System, i: nat, open: bool)
    requires Enabled(s, Answer(i, open)) && Stamped(s)
    ensures Stamped(Apply(s, Answer(i, open)))
  {
    var s' := Apply(s, Answer(i, open));
    assert s'.tasks[i].Storing? && s'.tasks[i].stamp == |s.answers|;
    forall k: nat | k < |s'.answers| ensures AnswerKept(s', k) {
      if k < |s.answers| {
        assert AnswerKept(s, k);
        if j :| j in s.tasks && s.tasks[j].Storing? && s.tasks[j].stamp == k {
          assert s'.tasks[j] == s.tasks[j];
        }
      }
    }
  }

  lemma InsertStamped(s: System, i: nat, victim: Option<Endpoint>)
    requires Enabled(s, Insert(i, victim)) && Stamped(s)
    ensures Stamped(Apply(s, Insert(i, victim)))
  {
    var s' := Apply(s, Insert(i, victim));
    var e := s'.log[|s.log|];
    assert e in s'.log && forall d :: d in s'.log <==> d in s.log || d == e;
    forall k: nat | k < |s'.answers| ensures AnswerKept(s', k) {
      assert AnswerKept(s, k);
      if j :| j in s.tasks && s.tasks[j].Storing? && s.tasks[j].stamp == k {
        assert j != i ==> s'.tasks[j] == s.tasks[j];
      }
    }
  }

  lemma StepStamped(s: System, a: Action)
    requires Enabled(s, a) && Stamped(s)
    ensures Stamped(Apply(s, a))
  {
    match a
    case Tick(_) => assert forall k: nat | k < |s.answers| :: AnswerKept(s, k) ==> AnswerKept(Apply(s, a), k);
    case Look(i, _) =>
      var s' := Apply(s, a);
      forall k: nat | k < |s.answers| ensures AnswerKept(s', k) {
        assert AnswerKept(s, k);
        if j :| j in s.tasks && s.tasks[j].Storing? && s.tasks[j].stamp == k {
          assert s'.tasks[j] == s.tasks[j];
        }
      }
    case Answer(i, open) => AnswerStamped(s, i, open);
    case Insert(i, victim) => InsertStamped(s, i, victim);
  }

  lemma {:induction false} RunStamped(s: System, actions: seq<Action>)
    requires Possible(s, actions) && Stamped(s)
    ensures Stamped(After(s, actions))
    decreases |actions|
  {
    hide Apply, Enabled, Stamped;
    if actions != [] {
      StepStamped(s, actions[0]);
      RunStamped(Apply(s, actions[0]), actions[1..]);
    }
  }

  /** Once no result for the key waits to be stored, the entry says what the newest probe found. */
  predicate Truthful(s: System, key: Endpoint) {
    key in s.entries && (forall i | i in s.tasks :: !Waiting(s.tasks[i], key)) ==>
      LastAnswer(s.answers, key) == Some(s.entries[key].open)
  }

  /** The newest stored result is then the newest answer, and the entry says it. */
  lemma NewestIsLastAnswer(s: System, key: Endpoint)
    requires Stamped(s) && Faithful(s) && HoldsNewest(s, key)
    ensures Truthful(s, key)
  {
    hide Last, LastAnswer;
    if key in s.entries && forall i | i in s.tasks :: !Waiting(s.tasks[i], key) {
      LastInLog(s.log, key);
      var last := Last(s.log, key).value;
      forall j | last.stamp < j < |s.answers| ensures s.answers[j].key != key {
        assert AnswerKept(s, j);
      }
      LastAnswerAt(s.answers, key, last.stamp);
    }
  }

  // ---------- calls that do not overlap ----------

  lemma StepNotOvertaken(s: System, a: Action, key: Endpoint)
    requires Enabled(s, a) && Alone(s, a, key) && Stamped(s) && AtMostOne(s, key) && NotOvertaken(s, key)
    ensures AtMostOne(Apply(s, a), key) && NotOvertaken(Apply(s, a), key)
  {
    hide Last, Cached, VictimOk;
    if a.Insert? {
      InsertNotOvertaken(s, a.task, a.victim, key);
    }
  }

  lemma InsertNotOvertaken(s: System, i: nat, victim: Option<Endpoint>, key: Endpoint)
    requires Enabled(s, Insert(i, victim)) && AtMostOne(s, key) && NotOvertaken(s, key)
    ensures AtMostOne(Apply(s, Insert(i, victim)), key) && NotOvertaken(Apply(s, Insert(i, victim)), key)
  {
    hide Last, VictimOk;
    var t, s' := TaskOf(s, i), Apply(s, Insert(i, victim));
    var e := Insertion(t.key, t.open, s.now, victim, t.stamp);
    assert forall d :: d in s'.log <==> d in s.log || d == e;
    LastSnoc(s.log, e, key);
    if t.key == key {
      assert Waiting(s.tasks[i], key) && InFlight(s.tasks[i], key);
      forall j | j in s'.tasks ensures !InFlight(s'.tasks[j], key) {
        assert j != i ==> s'.tasks[j] == s.tasks[j];
      }
    } else {
      assert forall j | j in s'.tasks && InFlight(s'.tasks[j], key) :: j in s.tasks && s'.tasks[j] == s.tasks[j];
    }
  }

  lemma {:induction false} RunNotOvertaken(s: System, actions: seq<Action>, key: Endpoint)
    requires Possible(s, actions) && OneAtATime(s, actions, key)
    requires Stamped(s) && AtMostOne(s, key) && NotOvertaken(s, key)
    ensures AtMostOne(After(s, actions), key) && NotOvertaken(After(s, actions), key)
    decreases |actions|
  {
    hide Apply, Enabled, Alone, Stamped, AtMostOne, NotOvertaken;
    if actions != [] {
      StepNotOvertaken(s, actions[0], key);
      StepStamped(s, actions[0]);
      RunNotOvertaken(Apply(s, actions[0]), actions[1..], key);
    }
  }

  /** Calls for one key that never overlap leave the newest probe's result in the cache. */
  lemma NewestWinsAlone(actions: seq<Action>, key: Endpoint)
    requires Possible(INITIAL, actions) && OneAtATime(INITIAL, actions, key)
    ensures var s := After(INITIAL, actions);
            AtMostOne(s, key) && NotOvertaken(s, key) && Truthful(s, key)
  {
    hide Apply, Enabled, Alone, Truthful;
    RunNotOvertaken(INITIAL, actions, key);
    RunStamped(INITIAL, actions);
    EveryInterleaving(actions);
    NewestIsLastAnswer(After(INITIAL, actions), key);
  }

  // ---------- how often an endpoint is probed ----------

  /** A lookup that finds a young entry is served from it, open or closed. */
  lemma FreshIsServed(s: System, i: nat, key: Endpoint)
    requires Enabled(s, Look(i, key)) && key in s.entries && s.now < s.entries[key].checkedAt + 30_000_000_000
    ensures Apply(s, Look(i, key))
         == s.(tasks := s.tasks[i := Served(key, s.entries[key].open, s.now, s.entries[key].checkedAt)])
  {
  }

  /** No insertion displaced the key. */
  predicate NeverDisplaced(log: seq<Insertion>, key: Endpoint) {
    forall e | e in log :: e.evicted != Some(key)
  }

  predicate SpacedAnswers(answers: seq<Found>, key: Endpoint) {
    forall j, k | 0 <= j < k < |answers| && answers[j].key == key && answers[k].key == key ::
      answers[j].at + CACHE_TTL <= answers[k].at
  }

  /** All answers for the key came in by `time`. */
  predicate AnsweredBy(answers: seq<Found>, key: Endpoint, time: int) {
    forall j | 0 <= j < |answers| && answers[j].key == key :: answers[j].at <= time
  }

  /** Answers are spaced; while nothing is in flight the entry is as recent as the last of them, and a probe
      under way began when that one had expired. */
  predicate Spaced(s: System, key: Endpoint) {
    && SpacedAnswers(s.answers, key)
    && AnsweredBy(s.answers, key, s.now)
    && ((forall i | i in s.tasks :: !InFlight(s.tasks[i], key)) ==>
          if key in s.entries then AnsweredBy(s.answers, key, s.entries[key].checkedAt)
          else forall j | 0 <= j < |s.answers| :: s.answers[j].key != key)
    && ((exists i | i in s.tasks :: s.tasks[i].Probing? && s.tasks[i].key == key) ==>
          AnsweredBy(s.answers, key, s.now - CACHE_TTL))
  }

  lemma LookSpaced(s: System, i: nat, looked: Endpoint, key: Endpoint)
    requires Enabled(s, Look(i, looked)) && Alone(s, Look(i, looked), key) && Spaced(s, key)
    ensures Spaced(Apply(s, Look(i, looked)), key)
  {
    var s' := Apply(s, Look(i, looked));
    assert forall j | j in s.tasks && j != i :: s'.tasks[j] == s.tasks[j];
    assert i in s.tasks ==> !InFlight(s.tasks[i], key);
    if forall j | j in s'.tasks :: !InFlight(s'.tasks[j], key) {
      assert forall j | j in s.tasks :: !InFlight(s.tasks[j], key);
    }
  }

  lemma AnswerSpaced(s: System, i: nat, open: bool, key: Endpoint)
    requires Enabled(s, Answer(i, open)) && AtMostOne(s, key) && Spaced(s, key)
    ensures Spaced(Apply(s, Answer(i, open)), key)
  {
    var s' := Apply(s, Answer(i, open));
    assert forall j | j in s.tasks && j != i :: s'.tasks[j] == s.tasks[j];
    if s.tasks[i].key == key {
      assert InFlight(s.tasks[i], key) && InFlight(s'.tasks[i], key);
      forall j | j in s'.tasks ensures !(s'.tasks[j].Probing? && s'.tasks[j].key == key) {
        assert j != i ==> !InFlight(s.tasks[j], key);
      }
    } else if forall j | j in s'.tasks :: !InFlight(s'.tasks[j], key) {
      assert forall j | j in s.tasks :: !InFlight(s.tasks[j], key);
    }
  }

  lemma InsertSpaced(s: System, i: nat, victim: Option<Endpoint>, key: Endpoint)
    requires Enabled(s, Insert(i, victim)) && AtMostOne(s, key) && Spaced(s, key) && victim != Some(key)
    ensures Spaced(Apply(s, Insert(i, victim)), key)
  {
    hide VictimOk;
    var s' := Apply(s, Insert(i, victim));
    assert forall j | j in s.tasks && j != i :: s'.tasks[j] == s.tasks[j];
    if s.tasks[i].key == key {
      assert InFlight(s.tasks[i], key);
      forall j | j in s'.tasks ensures !InFlight(s'.tasks[j], key) {
        assert j != i ==> !InFlight(s.tasks[j], key);
      }
    } else if forall j | j in s'.tasks :: !InFlight(s'.tasks[j], key) {
      assert forall j | j in s.tasks :: !InFlight(s.tasks[j], key);
    }
  }

  lemma StepSpaced(s: System, a: Action, key: Endpoint)
    requires Enabled(s, a) && Alone(s, a, key) && AtMostOne(s, key)
    requires NeverDisplaced(Apply(s, a).log, key) && Spaced(s, key)
    ensures NeverDisplaced(s.log, key) && Spaced(Apply(s, a), key)
  {
    match a
    case Tick(_) =>
    case Look(i, looked) => LookSpaced(s, i, looked, key);
    case Answer(i, open) => AnswerSpaced(s, i, open, key);
    case Insert(i, victim) =>
      assert Apply(s, a).log[|s.log|] in Apply(s, a).log;
      InsertSpaced(s, i, victim, key);
  }

  lemma LogOnlyGrows(s: System, a: Action, key: Endpoint)
    requires Enabled(s, a) && NeverDisplaced(Apply(s, a).log, key)
    ensures NeverDisplaced(s.log, key)
  {
  }

  lemma {:induction false} LogGrows(s: System, actions: seq<Action>, key: Endpoint)
    requires Possible(s, actions) && NeverDisplaced(After(s, actions).log, key)
    ensures NeverDisplaced(s.log, key)
    decreases |actions|
  {
    hide Apply, Enabled, NeverDisplaced;
    if actions != [] {
      LogGrows(Apply(s, actions[0]), actions[1..], key);
      LogOnlyGrows(s, actions[0], key);
    }
  }

  lemma {:induction false} RunSpaced(s: System, actions: seq<Action>, key: Endpoint)
    requires Possible(s, actions) && OneAtATime(s, actions, key) && NeverDisplaced(After(s, actions).log, key)
    requires Stamped(s) && AtMostOne(s, key) && NotOvertaken(s, key) && Spaced(s, key)
    ensures Spaced(After(s, actions), key)
    decreases |actions|
  {
    hide Apply, Enabled, Alone, Stamped, AtMostOne, NotOvertaken, Spaced, NeverDisplaced;
    if actions != [] {
      StepNotOvertaken(s, actions[0], key);
      StepStamped(s, actions[0]);
      LogGrows(Apply(s, actions[0]), actions[1..], key);
      StepSpaced(s, actions[0], key);
      RunSpaced(Apply(s, actions[0]), actions[1..], key);
    }
  }

  /** What the cache is for: while calls for an endpoint do not overlap and it is not displaced, it is never
      probed twice within 30 seconds, whether it was found open or closed. */
  lemma ProbesAreSpaced(actions: seq<Action>, key: Endpoint, j: nat, k: nat)
    requires Possible(INITIAL, actions) && OneAtATime(INITIAL, actions, key)
    requires NeverDisplaced(After(INITIAL, actions).log, key)
    requires var found := After(INITIAL, actions).answers;
             j < k < |found| && found[j].key == key && found[k].key == key
    ensures var found := After(INITIAL, actions).answers;
            found[k].at >= found[j].at + 30_000_000_000
  {
    hide Apply, Enabled, Alone, NeverDisplaced;
    RunSpaced(INITIAL, actions, key) by { InitiallyStamped(); }
  }

  // ---------- calls that overlap ----------

  lemma {:induction false} SomeOldest(entries: Entries, keys: set<Endpoint>) returns (v: Endpoint)
    requires keys <= entries.Keys && keys != {}
    ensures v in keys && forall k | k in keys :: entries[v].checkedAt <= entries[k].checkedAt
    decreases |keys|
  {
    var first :| first in keys;
    var rest := keys - {first};
    v := first;
    if rest != {} {
      var w := SomeOldest(entries, rest);
      v := if entries[w].checkedAt < entries[first].checkedAt then w else first;
    }
    forall k | k in keys ensures entries[v].checkedAt <= entries[k].checkedAt {
      assert k == first || k in rest;
    }
  }

  /** A waiting result can always be stored. */
  lemma SomeVictim(entries: Entries, key: Endpoint) returns (victim: Option<Endpoint>)
    ensures VictimOk(entries, key, victim)
  {
    victim := None;
    if MustEvict(entries, key) {
      assert |entries.Keys| == |entries|;
      var v := SomeOldest(entries, entries.Keys);
      victim := Some(v);
    }
  }

  /** Storing a result that was overtaken leaves the older one in the cache. */
  lemma StoreOvertaken(s: System, i: nat, key: Endpoint) returns (more: seq<Action>)
    requires i in s.tasks && Waiting(s.tasks[i], key) && !NoneLater(s.log, key, s.tasks[i].stamp)
    ensures Possible(s, more) && OneAtATime(s, more, key) && !HoldsNewest(After(s, more), key)
  {
    hide Last, VictimOk;
    var victim := SomeVictim(s.entries, key);
    var a := Insert(i, victim);
    var t, s' := s.tasks[i], Apply(s, a);
    var later :| later in s.log && later.key == key && later.stamp > t.stamp;
    LastSnoc(s.log, Insertion(key, t.open, s.now, victim, t.stamp), key);
    assert later in s'.log;
    more := [a];
    ConsRun(s, a, [], key);
  }

  /** Two calls for one key in flight can always finish in the wrong order: let both be answered, store the
      later answer, then the earlier one. */
  lemma {:induction false} OverlapCanFail(s: System, i: nat, j: nat, key: Endpoint) returns (more: seq<Action>)
    requires Stamped(s) && i != j && i in s.tasks && j in s.tasks
    requires InFlight(s.tasks[i], key) && InFlight(s.tasks[j], key)
    ensures Possible(s, more) && OneAtATime(s, more, key) && !HoldsNewest(After(s, more), key)
    decreases (if s.tasks[i].Probing? then 1 else 0) + if s.tasks[j].Probing? then 1 else 0
  {
    hide Stamped, HoldsNewest, VictimOk, NoneLater;
    if s.tasks[i].Probing? || s.tasks[j].Probing? {
      var a := Answer(if s.tasks[i].Probing? then i else j, true);
      StepStamped(s, a);
      more := OverlapCanFail(Apply(s, a), i, j, key);
      ConsRun(s, a, more, key);
      more := [a] + more;
    } else {
      more := TwoWaiting(s, i, j, key);
    }
  }

  lemma TwoWaiting(s: System, i: nat, j: nat, key: Endpoint) returns (more: seq<Action>)
    requires Stamped(s) && i != j && i in s.tasks && j in s.tasks
    requires Waiting(s.tasks[i], key) && Waiting(s.tasks[j], key)
    ensures Possible(s, more) && OneAtATime(s, more, key) && !HoldsNewest(After(s, more), key)
  {
    hide HoldsNewest, VictimOk;
    var (first, second) := if s.tasks[i].stamp < s.tasks[j].stamp then (j, i) else (i, j);
    var victim := SomeVictim(s.entries, key);
    var a := Insert(first, victim);
    var s' := Apply(s, a);
    assert s'.log[|s.log|] in s'.log && s'.log[|s.log|].stamp > s'.tasks[second].stamp;
    more := StoreOvertaken(s', second, key);
    ConsRun(s, a, more, key);
    more := [a] + more;
  }

  /** Every continuation in which no further call overlaps leaves the newest stored result in the cache. */
  ghost predicate NewestIsSafe(s: System, key: Endpoint) {
    forall more | Possible(s, more) && OneAtATime(s, more, key) :: HoldsNewest(After(s, more), key)
  }

  /** In any reachable state, whatever led to it: every continuation leaves the newest stored result for the
      key in the cache if and only if at most one call for it is in flight and neither its result nor the
      entry has already been overtaken. */
  lemma NewestIsSafeIff(before: seq<Action>, key: Endpoint)
    requires Possible(INITIAL, before)
    ensures var s := After(INITIAL, before);
            NewestIsSafe(s, key) <==> AtMostOne(s, key) && NotOvertaken(s, key)
  {
    hide Apply, Enabled, Alone, Stamped, Last, NoneLater;
    RunStamped(INITIAL, before) by { InitiallyStamped(); }
    var s := After(INITIAL, before);
    if AtMostOne(s, key) && NotOvertaken(s, key) {
      forall more | Possible(s, more) && OneAtATime(s, more, key) ensures HoldsNewest(After(s, more), key) {
        RunNotOvertaken(s, more, key);
      }
    } else {
      var more := [];
      if i, j :| i in s.tasks && j in s.tasks && InFlight(s.tasks[i], key) && InFlight(s.tasks[j], key) && i != j {
        more := OverlapCanFail(s, i, j, key);
      } else if i :| i in s.tasks && Waiting(s.tasks[i], key) && !NoneLater(s.log, key, s.tasks[i].stamp) {
        more := StoreOvertaken(s, i, key);
      }
      assert Possible(s, more) && OneAtATime(s, more, key) && !HoldsNewest(After(s, more), key);
    }
  }

  lemma {:induction false} FreshTask(taken: set<nat>) returns (i: nat)
    ensures forall j | j in taken :: j < i
    decreases |taken|
  {
    i := 0;
    if taken != {} {
      var k :| k in taken;
      var rest := FreshTask(taken - {k});
      i := if rest > k then rest else k + 1;
      forall j | j in taken ensures j < i {
        assert j == k || j in taken - {k};
      }
    }
  }

  lemma LookMisses(s: System, i: nat, key: Endpoint)
    requires Stamped(s) && i !in s.tasks && Cached(s.entries, key, s.now).None?
    ensures Enabled(s, Look(i, key)) && Stamped(Apply(s, Look(i, key)))
    ensures Apply(s, Look(i, key)) == s.(tasks := s.tasks[i := Probing(key)])
  {
    hide Stamped;
    StepStamped(s, Look(i, key));
  }

  /** Why the continuations are restricted: from any state, further calls that do overlap can lose the newest
      result - wait until the entry has expired, then let two calls miss. */
  lemma NeverSafeWithOverlap(s: System, key: Endpoint) returns (more: seq<Action>)
    requires Stamped(s)
    ensures Possible(s, more) && !HoldsNewest(After(s, more), key)
  {
    hide Stamped, HoldsNewest;
    var i := FreshTask(s.tasks.Keys);
    var tick := Tick(CACHE_TTL + if key in s.entries then s.entries[key].checkedAt else 0);
    StepStamped(s, tick);
    var s1 := Apply(s, tick);
    LookMisses(s1, i, key);
    var s2 := Apply(s1, Look(i, key));
    LookMisses(s2, i + 1, key);
    var s3 := Apply(s2, Look(i + 1, key));
    more := OverlapCanFail(s3, i, i + 1, key);
    ConsRun(s2, Look(i + 1, key), more, key);
    ConsRun(s1, Look(i, key), [Look(i + 1, key)] + more, key);
    ConsRun(s, tick, [Look(i, key)] + ([Look(i + 1, key)] + more), key);
    more := [tick] + ([Look(i, key)] + ([Look(i + 1, key)] + more));
  }

  lemma InitiallyStamped()
    ensures Stamped(INITIAL)
  {
  }

  // ---------- when a call may begin ----------

  /** Every continuation in which no further call overlaps keeps the entry truthful. */
  ghost predicate StaysTruthful(s: System, key: Endpoint) {
    forall more | Possible(s, more) && OneAtATime(s, more, key) :: Truthful(After(s, more), key)
  }

  lemma SafeStaysTruthful(s: System, key: Endpoint)
    requires Stamped(s) && Invariant(s) && TimesPast(s) && AtMostOne(s, key) && NotOvertaken(s, key)
    ensures StaysTruthful(s, key)
  {
    hide Apply, Enabled, Alone, Truthful, Stamped, Faithful, AtMostOne;
    forall more | Possible(s, more) && OneAtATime(s, more, key) ensures Truthful(After(s, more), key) {
      RunNotOvertaken(s, more, key);
      RunStamped(s, more);
      RunKeeps(s, more);
      NewestIsLastAnswer(After(s, more), key);
    }
  }

  /** The newer of two calls is answered otherwise than the older one, and stored first: in the end no call
      is in flight and the cache contradicts the newest answer. */
  lemma {:induction false} OverlapCanLie(s: System, i: nat, j: nat, key: Endpoint) returns (more: seq<Action>)
    requires i != j && i in s.tasks && j in s.tasks
    requires s.tasks[i].Probing? && s.tasks[i].key == key && InFlight(s.tasks[j], key)
    requires forall k | k in s.tasks && InFlight(s.tasks[k], key) :: k == i || k == j
    ensures Possible(s, more) && OneAtATime(s, more, key) && !Truthful(After(s, more), key)
    decreases s.tasks[j].Probing?
  {
    hide VictimOk, Truthful;
    if s.tasks[j].Probing? {
      var a := Answer(j, true);
      var s' := Apply(s, a);
      assert forall k | k in s'.tasks && InFlight(s'.tasks[k], key) :: InFlight(s.tasks[k], key);
      more := OverlapCanLie(s', i, j, key);
      ConsRun(s, a, more, key);
      more := [a] + more;
    } else {
      var a := Answer(i, !s.tasks[j].open);
      var s' := Apply(s, a);
      LastAnswerAt(s'.answers, key, |s.answers|);
      assert forall k | k in s'.tasks && InFlight(s'.tasks[k], key) :: InFlight(s.tasks[k], key);
      more := StoreInWrongOrder(s', i, j, key);
      ConsRun(s, a, more, key);
      more := [a] + more;
    }
  }

  lemma InsertEffect(s: System, i: nat, victim: Option<Endpoint>)
    requires Enabled(s, Insert(i, victim))
    ensures var t, s' := TaskOf(s, i), Apply(s, Insert(i, victim));
            && s'.answers == s.answers && s'.tasks == s.tasks[i := Probed(t.key, t.open)]
            && t.key in s'.entries && s'.entries[t.key].open == t.open
  {
    hide VictimOk;
  }

  lemma StoreInWrongOrder(s: System, i: nat, j: nat, key: Endpoint) returns (more: seq<Action>)
    requires i != j && i in s.tasks && j in s.tasks && Waiting(s.tasks[i], key) && Waiting(s.tasks[j], key)
    requires forall k | k in s.tasks && InFlight(s.tasks[k], key) :: k == i || k == j
    requires LastAnswer(s.answers, key) == Some(s.tasks[i].open) && s.tasks[j].open != s.tasks[i].open
    ensures Possible(s, more) && OneAtATime(s, more, key) && !Truthful(After(s, more), key)
  {
    hide VictimOk, LastAnswer, Apply;
    var v1 := SomeVictim(s.entries, key);
    var a1 := Insert(i, v1);
    InsertEffect(s, i, v1);
    var s1 := Apply(s, a1);
    var v2 := SomeVictim(s1.entries, key);
    var a2 := Insert(j, v2);
    InsertEffect(s1, j, v2);
    var s2 := Apply(s1, a2);
    assert forall k | k in s2.tasks && k != i && k != j :: s2.tasks[k] == s.tasks[k];
    ConsRun(s1, a2, [], key);
    ConsRun(s, a1, [a2], key);
    more := [a1] + [a2];
  }

  /** Exactly when a call may begin, as its caller can check: after calls for the key that did not overlap, a
      lookup that misses leaves a cache that stays truthful in every continuation if and only if no other
      call for the key is in flight. */
  lemma BeginningIsSafeIff(before: seq<Action>, i: nat, key: Endpoint)
    requires Possible(INITIAL, before) && OneAtATime(INITIAL, before, key)
    requires Enabled(After(INITIAL, before), Look(i, key))
    requires var s := After(INITIAL, before); key in s.entries ==> s.now >= s.entries[key].checkedAt + CACHE_TTL
    ensures var s := After(INITIAL, before);
            StaysTruthful(Apply(s, Look(i, key)), key) <==> forall j | j in s.tasks :: !InFlight(s.tasks[j], key)
  {
    hide Last, LastAnswer, NoneLater, Stamped, Truthful, Invariant;
    var s, a := After(INITIAL, before), Look(i, key);
    NewestWinsAlone(before, key);
    SnocRun(INITIAL, before, a);
    RunStamped(INITIAL, before + [a]) by { InitiallyStamped(); }
    RunKeeps(INITIAL, before + [a]) by { InitiallyInvariant(); }
    var s' := Apply(s, a);
    assert forall j | j in s.tasks && j != i :: s'.tasks[j] == s.tasks[j];
    assert forall j | j in s'.tasks && j != i :: j in s.tasks;
    if j :| j in s.tasks && InFlight(s.tasks[j], key) {
      var more := OverlapCanLie(s', i, j, key);
    } else {
      SafeStaysTruthful(s', key);
    }
  }

  lemma InitiallyInvariant()
    ensures Invariant(INITIAL) && TimesPast(INITIAL)
  {
  }

  lemma {:induction false} SnocRun(s: System, actions: seq<Action>, a: Action)
    requires Possible(s, actions) && Enabled(After(s, actions), a)
    ensures Possible(s, actions + [a]) && After(s, actions + [a]) == Apply(After(s, actions), a)
    decreases |actions|
  {
    hide Apply, Enabled;
    if actions == [] {
      assert [a][1..] == [];
      assert [] + [a] == [a];
    } else {
      assert (actions + [a])[1..] == actions[1..] + [a];
      SnocRun(Apply(s, actions[0]), actions[1..], a);
    }
  }

  /** The failure seen from outside: two calls miss, the first to be answered inserts last, and with no call
      left in flight the cache says the opposite of the newest answer. */
  lemma OlderProbeCanWin(key: Endpoint) returns (actions: seq<Action>)
    ensures Possible(INITIAL, actions) && !OneAtATime(INITIAL, actions, key)
    ensures var s := After(INITIAL, actions);
            && key in s.entries && LastAnswer(s.answers, key) == Some(false) && s.entries[key].open
            && forall i | i in s.tasks :: !InFlight(s.tasks[i], key)
  {
    hide LastAnswer;
    var a0, a1, a2, a3 := Look(0, key), Look(1, key), Answer(0, true), Answer(1, false);
    var s1 := Apply(INITIAL, a0);
    var s2 := Apply(s1, a1);
    var s3 := Apply(s2, a2);
    var s4 := Apply(s3, a3);
    var rest := OlderStoredLast(s4, key);
    actions := [a0] + ([a1] + ([a2] + ([a3] + rest)));
    ConsRun(s3, a3, rest, key);
    ConsRun(s2, a2, [a3] + rest, key);
    ConsRun(s1, a1, [a2] + ([a3] + rest), key);
    ConsRun(INITIAL, a0, [a1] + ([a2] + ([a3] + rest)), key);
  }

  lemma OlderStoredLast(s: System, key: Endpoint) returns (actions: seq<Action>)
    requires s.entries == map[] && s.tasks == map[0 := Storing(key, true, 0), 1 := Storing(key, false, 1)]
    requires s.answers == [Found(key, true, 0), Found(key, false, 0)]
    ensures Possible(s, actions)
    ensures var s' := After(s, actions);
            && key in s'.entries && LastAnswer(s'.answers, key) == Some(false) && s'.entries[key].open
            && forall i | i in s'.tasks :: !InFlight(s'.tasks[i], key)
  {
    hide LastAnswer;
    LastAnswerAt(s.answers, key, 1);
    var a1, a2 := Insert(1, None), Insert(0, None);
    var s1 := Apply(s, a1);
    ConsRun(s1, a2, [], key);
    ConsRun(s, a1, [a2], key);
    actions := [a1] + [a2];
  }

  lemma ConsRun(s: System, a: Action, rest: seq<Action>, key: Endpoint)
    requires Enabled(s, a) && Possible(Apply(s, a), rest)
    ensures Possible(s, [a] + rest) && After(s, [a] + rest) == After(Apply(s, a), rest)
    ensures OneAtATime(s, [a] + rest, key) <==> Alone(s, a, key) && OneAtATime(Apply(s, a), rest, key)
  {
    assert ([a] + rest)[1..] == rest;
  }
}
