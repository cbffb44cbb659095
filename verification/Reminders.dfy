/** Review reminders: the keys of the attempts of one reminder, picked from a query that may be stale by the time the
    attempt is staged. */
module Reminders {
  import opened Outbox

  function Decimal(n: nat): (s: string)
    ensures |s| > 0
  {
    if n < 10 then ['0' + n as char] else Decimal(n / 10) + ['0' + (n % 10) as char]
  }

  lemma {:induction false} DecimalsDiffer(a: nat, b: nat)
    requires Decimal(a) == Decimal(b)
    ensures a == b
  {
    var x, y := Decimal(a), Decimal(b);
    assert x[|x| - 1] == y[|y| - 1];
    if a >= 10 && b >= 10 {
      assert Decimal(a / 10) == x[..|x| - 1] == y[..|y| - 1] == Decimal(b / 10);
      DecimalsDiffer(a / 10, b / 10);
    }
  }

  const RETRY := ":retry-"

  /** The key of the attempt after `k` earlier ones. */
  function AttemptKey(base: string, k: nat): string
  {
    if k == 0 then base else base + RETRY + Decimal(k)
  }

  lemma AttemptKeysDiffer(base: string, a: nat, b: nat)
    requires AttemptKey(base, a) == AttemptKey(base, b)
    ensures a == b
  {
    var p := base + RETRY;
    assert a > 0 ==> Decimal(a) == AttemptKey(base, a)[|p|..] && |AttemptKey(base, a)| > |base|;
    assert b > 0 ==> Decimal(b) == AttemptKey(base, b)[|p|..] && |AttemptKey(base, b)| > |base|;
    if a > 0 && b > 0 {
      DecimalsDiffer(a, b);
    }
  }

  predicate IsTerminal(state: State)
  {
    state == Failed || state == DeadLetter
  }

  function CountTerminal(states: seq<State>): (n: nat)
    ensures n <= |states|
    ensures (forall i :: 0 <= i < |states| ==> IsTerminal(states[i])) ==> n == |states|
  {
    if states == [] then 0
    else CountTerminal(states[..|states| - 1]) + if IsTerminal(states[|states| - 1]) then 1 else 0
  }

  /** The key of the next attempt: a numbered retry once every attempt ended without delivery, else the first key. */
  function NextKey(base: string, states: seq<State>): string
  {
    var terminal := CountTerminal(states);
    if terminal > 0 && forall i :: 0 <= i < |states| ==> IsTerminal(states[i])
    then AttemptKey(base, terminal) else base
  }

  datatype Reader = Reader(key: string)

  /** The rows the query of one reminder can find, and the requests between their query and their insert. */
  datatype Run = Run(jobs: map<string, State>, readers: map<nat, Reader>)

  /** `keys` is the order in which the query returned the rows. */
  datatype Action =
    | Query(reader: nat, keys: seq<string>)
    | Stage(reader: nat)
    | Move(key: string, state: State)
    | Abandon(reader: nat)

  predicate Returns(jobs: map<string, State>, keys: seq<string>)
  {
    && (forall i :: 0 <= i < |keys| ==> keys[i] in jobs)
    && (forall key :: key in jobs ==> key in keys)
    && (forall i, j :: 0 <= i < j < |keys| ==> keys[i] != keys[j])
  }

  function Act(base: string, s: Run, a: Action): Run
  {
    match a
    case Query(reader, keys) =>
      if !Returns(s.jobs, keys) then s
      else
        var states := seq(|keys|, i requires 0 <= i < |keys| && keys[i] in s.jobs => s.jobs[keys[i]]);
        s.(readers := s.readers[reader := Reader(NextKey(base, states))])
    case Stage(reader) =>
      if reader !in s.readers || s.readers[reader].key in s.jobs then s
      else s.(jobs := s.jobs[s.readers[reader].key := Pending])
    case Move(key, state) =>
      if key !in s.jobs || IsTerminal(s.jobs[key]) then s else s.(jobs := s.jobs[key := state])
    case Abandon(reader) => s.(readers := s.readers - {reader})
  }

  function Perform(base: string, actions: seq<Action>): Run
  {
    if actions == [] then Run(map[], map[])
    else Act(base, Perform(base, actions[..|actions| - 1]), actions[|actions| - 1])
  }

  /** The rows are the first `n` attempts, and all but the last are terminal. */
  ghost predicate Attempts(base: string, jobs: map<string, State>, n: nat)
  {
    && (forall key :: key in jobs <==> exists k: nat :: k < n && key == AttemptKey(base, k))
    && (forall k: nat :: k + 1 < n ==> AttemptKey(base, k) in jobs && IsTerminal(jobs[AttemptKey(base, k)]))
  }

  /** A request stages the first key, or the key after `m` attempts that are all terminal. */
  ghost predicate ReaderOk(base: string, jobs: map<string, State>, n: nat, key: string)
  {
    key == base || exists m: nat ::
      m <= n && key == AttemptKey(base, m) && forall k: nat :: k < m ==>
        AttemptKey(base, k) in jobs && IsTerminal(jobs[AttemptKey(base, k)])
  }

  ghost predicate RunOk(base: string, s: Run, n: nat)
  {
    Attempts(base, s.jobs, n) && forall reader :: reader in s.readers ==> ReaderOk(base, s.jobs, n, s.readers[reader].key)
  }

  /** As many distinct keys as attempts. */
  lemma {:induction false} CountsAttempts(base: string, keys: seq<string>, n: nat)
    requires forall i, j :: 0 <= i < j < |keys| ==> keys[i] != keys[j]
    requires forall key :: key in keys <==> exists k: nat :: k < n && key == AttemptKey(base, k)
    ensures |keys| == n
  {
    hide AttemptKey;
    if n == 0 {
      if keys != [] {
        HasMember(keys);
      }
    } else {
      var last := AttemptKey(base, n - 1);
      assert last in keys;
      var i :| 0 <= i < |keys| && keys[i] == last;
      var rest := keys[..i] + keys[i + 1..];
      forall key ensures key in rest <==> exists k: nat :: k < n - 1 && key == AttemptKey(base, k) {
        RestOfAttempts(base, keys, n, i, key);
      }
      CountsAttempts(base, rest, n - 1);
    }
  }

  lemma HasMember(s: seq<string>)
    requires s != []
    ensures exists x :: x in s
  {
    assert s[0] in s;
  }

  lemma RestOfAttempts(base: string, keys: seq<string>, n: nat, i: nat, key: string)
    requires forall i, j :: 0 <= i < j < |keys| ==> keys[i] != keys[j]
    requires forall key :: key in keys <==> exists k: nat :: k < n && key == AttemptKey(base, k)
    requires n > 0 && i < |keys| && keys[i] == AttemptKey(base, n - 1)
    ensures key in keys[..i] + keys[i + 1..] <==> exists k: nat :: k < n - 1 && key == AttemptKey(base, k)
  {
    hide AttemptKey;
    var rest := keys[..i] + keys[i + 1..];
    if key in rest {
      var j :| 0 <= j < |rest| && rest[j] == key;
      assert key == if j < i then keys[j] else keys[j + 1];
      assert key in keys && key != keys[i];
    }
    if k: nat :| k < n - 1 && key == AttemptKey(base, k) {
      if key == keys[i] {
        AttemptKeysDiffer(base, k, n - 1);
      }
      assert key in keys;
      var j :| 0 <= j < |keys| && keys[j] == key;
      assert rest[if j < i then j else j - 1] == key;
    }
  }

  /** What a query's answer makes a request stage: the first key, or the one after all attempts, which are terminal. */
  lemma QueryIsOk(base: string, s: Run, n: nat, keys: seq<string>, states: seq<State>)
    requires Attempts(base, s.jobs, n) && Returns(s.jobs, keys)
    requires |states| == |keys| && forall i :: 0 <= i < |keys| ==> states[i] == s.jobs[keys[i]]
    ensures ReaderOk(base, s.jobs, n, NextKey(base, states))
  {
    hide AttemptKey;
    if (forall i :: 0 <= i < |states| ==> IsTerminal(states[i])) && CountTerminal(states) > 0 {
      CountsAttempts(base, keys, n);
      forall k: nat | k < n ensures AttemptKey(base, k) in s.jobs && IsTerminal(s.jobs[AttemptKey(base, k)]) {
        assert AttemptKey(base, k) in keys;
        var i :| 0 <= i < |keys| && keys[i] == AttemptKey(base, k);
        assert IsTerminal(states[i]);
      }
      assert NextKey(base, states) == AttemptKey(base, n);
    }
  }

  lemma BaseIsFirst(base: string)
    ensures AttemptKey(base, 0) == base
  {
  }

  lemma FirstIsThere(base: string, jobs: map<string, State>, n: nat)
    requires Attempts(base, jobs, n)
    ensures n > 0 ==> base in jobs
  {
    BaseIsFirst(base);
  }

  /** Staging adds at most the attempt after all others, and only when they are all terminal. */
  lemma StageIsOk(base: string, s: Run, n: nat, reader: nat)
    requires RunOk(base, s, n) && reader in s.readers && s.readers[reader].key !in s.jobs
    ensures s.readers[reader].key == AttemptKey(base, n)
    ensures forall key :: key in s.jobs ==> IsTerminal(s.jobs[key])
    ensures Attempts(base, s.jobs[s.readers[reader].key := Pending], n + 1)
  {
    hide AttemptKey;
    var key := s.readers[reader].key;
    BaseIsFirst(base);
    assert ReaderOk(base, s.jobs, n, key);
    if key == base {
      FirstIsThere(base, s.jobs, n);
    } else {
      var m: nat :| m <= n && key == AttemptKey(base, m) && forall k: nat :: k < m ==>
        AttemptKey(base, k) in s.jobs && IsTerminal(s.jobs[AttemptKey(base, k)]);
      assert m == n;
    }
  }

  lemma MoveIsOk(base: string, jobs: map<string, State>, n: nat, key: string, state: State)
    requires Attempts(base, jobs, n) && key in jobs && !IsTerminal(jobs[key])
    ensures Attempts(base, jobs[key := state], n)
    ensures forall reader :: ReaderOk(base, jobs, n, reader) ==> ReaderOk(base, jobs[key := state], n, reader)
  {
    hide AttemptKey;
    var t := jobs[key := state];
    forall reader | ReaderOk(base, jobs, n, reader) && reader != base ensures ReaderOk(base, t, n, reader) {
      var m: nat :| m <= n && reader == AttemptKey(base, m) && forall k: nat :: k < m ==>
        AttemptKey(base, k) in jobs && IsTerminal(jobs[AttemptKey(base, k)]);
      forall k: nat | k < m ensures AttemptKey(base, k) in t && IsTerminal(t[AttemptKey(base, k)]) {
      }
    }
    forall k: nat | k + 1 < n ensures AttemptKey(base, k) in t && IsTerminal(t[AttemptKey(base, k)]) {
    }
  }

  lemma ReadersStayOk(base: string, jobs: map<string, State>, t: map<string, State>, n: nat, key: string)
    requires ReaderOk(base, jobs, n, key) && forall k :: k in jobs ==> k in t && t[k] == jobs[k]
    ensures ReaderOk(base, t, n + 1, key)
  {
    hide AttemptKey;
    if key != base {
      var m: nat :| m <= n && key == AttemptKey(base, m) && forall k: nat :: k < m ==>
        AttemptKey(base, k) in jobs && IsTerminal(jobs[AttemptKey(base, k)]);
      assert forall k: nat :: k < m ==> AttemptKey(base, k) in t && IsTerminal(t[AttemptKey(base, k)]);
    }
  }

  lemma ActIsOk(base: string, s: Run, n: nat, a: Action)
    requires RunOk(base, s, n)
    ensures RunOk(base, Act(base, s, a), n) || RunOk(base, Act(base, s, a), n + 1)
  {
    hide AttemptKey, Attempts, ReaderOk;
    var t := Act(base, s, a);
    match a
    case Query(reader, keys) =>
      if Returns(s.jobs, keys) {
        var states := seq(|keys|, i requires 0 <= i < |keys| && keys[i] in s.jobs => s.jobs[keys[i]]);
        QueryIsOk(base, s, n, keys, states);
      }
    case Stage(reader) =>
      if reader in s.readers && s.readers[reader].key !in s.jobs {
        StageIsOk(base, s, n, reader);
        forall r | r in t.readers ensures ReaderOk(base, t.jobs, n + 1, t.readers[r].key) {
          ReadersStayOk(base, s.jobs, t.jobs, n, s.readers[r].key);
        }
      }
    case Move(key, state) =>
      if key in s.jobs && !IsTerminal(s.jobs[key]) {
        MoveIsOk(base, s.jobs, n, key, state);
      }
    case Abandon(_) =>
  }

  /** In every run, stale queries included: the attempts of a reminder are its first key and the retries numbered from one
      without gap, and every attempt but the last failed for good. */
  lemma {:induction false} AttemptsAreNumbered(base: string, actions: seq<Action>) returns (n: nat)
    ensures RunOk(base, Perform(base, actions), n)
  {
    hide RunOk, Act;
    if actions == [] {
      n := 0;
      EmptyRun(base);
    } else {
      var before := AttemptsAreNumbered(base, actions[..|actions| - 1]);
      ActIsOk(base, Perform(base, actions[..|actions| - 1]), before, actions[|actions| - 1]);
      n := if RunOk(base, Perform(base, actions), before) then before else before + 1;
    }
  }

  lemma EmptyRun(base: string)
    ensures RunOk(base, Run(map[], map[]), 0)
  {
  }

  /** The only attempts are the first key and numbered retries, all but the last terminal; and a request adds an attempt
      only when every attempt so far failed for good, so never beside one outstanding or delivered. */
  lemma NoAttemptBesideALiveOne(base: string, actions: seq<Action>, a: Action)
    ensures var s := Perform(base, actions);
            && (exists n: nat :: Attempts(base, s.jobs, n))
            && ((exists key :: key in Act(base, s, a).jobs && key !in s.jobs) ==>
                  forall key :: key in s.jobs ==> IsTerminal(s.jobs[key]))
  {
    hide Perform, Attempts, ReaderOk, Returns;
    var n := AttemptsAreNumbered(base, actions);
    var s := Perform(base, actions);
    if a.Stage? && a.reader in s.readers && s.readers[a.reader].key !in s.jobs {
      StageIsOk(base, s, n, a.reader);
    }
  }

  // ---------------------------------------------------------------------------------------------
  // What an undisturbed request achieves
  // ---------------------------------------------------------------------------------------------

  /** A request that queries and stages without anything in between. */
  function Request(base: string, s: Run, reader: nat, keys: seq<string>): Run
  {
    Act(base, Act(base, s, Query(reader, keys)), Stage(reader))
  }

  /** In every run, an undisturbed request adds the first attempt where there is none, the next numbered retry where
      every attempt failed for good, and nothing where one is outstanding or delivered. */
  lemma RequestsAddTheNextAttempt(base: string, actions: seq<Action>, reader: nat, keys: seq<string>) returns (n: nat)
    requires Returns(Perform(base, actions).jobs, keys)
    ensures var jobs := Perform(base, actions).jobs;
            && Attempts(base, jobs, n)
            && Request(base, Perform(base, actions), reader, keys).jobs ==
               if forall key :: key in jobs ==> jobs[key] == Failed || jobs[key] == DeadLetter
               then jobs[if n == 0 then base else base + ":retry-" + Decimal(n) := Pending] else jobs
  {
    hide Perform, Attempts, NextKey, Returns, Request;
    n := AttemptsAreNumbered(base, actions);
    var s := Perform(base, actions);
    var states := StatesOf(s.jobs, keys);
    RequestStages(base, s, reader, keys, states);
    if forall key :: key in s.jobs ==> IsTerminal(s.jobs[key]) {
      NextKeyIsNew(base, s.jobs, n, keys, states);
    } else {
      LiveOneStays(base, s.jobs, n, keys, states);
    }
  }

  lemma StatesOf(jobs: map<string, State>, keys: seq<string>) returns (states: seq<State>)
    requires Returns(jobs, keys)
    ensures |states| == |keys| && forall i :: 0 <= i < |keys| ==> keys[i] in jobs && states[i] == jobs[keys[i]]
  {
    states := seq(|keys|, i requires 0 <= i < |keys| && keys[i] in jobs => jobs[keys[i]]);
  }

  lemma RequestStages(base: string, s: Run, reader: nat, keys: seq<string>, states: seq<State>)
    requires Returns(s.jobs, keys)
    requires |states| == |keys| && forall i :: 0 <= i < |keys| ==> keys[i] in s.jobs && states[i] == s.jobs[keys[i]]
    ensures Request(base, s, reader, keys).jobs ==
            if NextKey(base, states) in s.jobs then s.jobs else s.jobs[NextKey(base, states) := Pending]
  {
    hide NextKey;
    assert states == seq(|keys|, i requires 0 <= i < |keys| && keys[i] in s.jobs => s.jobs[keys[i]]);
  }

  lemma LiveOneStays(base: string, jobs: map<string, State>, n: nat, keys: seq<string>, states: seq<State>)
    requires Attempts(base, jobs, n) && Returns(jobs, keys) && exists key :: key in jobs && !IsTerminal(jobs[key])
    requires |states| == |keys| && forall i :: 0 <= i < |keys| ==> keys[i] in jobs && states[i] == jobs[keys[i]]
    ensures NextKey(base, states) == base && base in jobs
  {
    hide AttemptKey;
    var key :| key in jobs && !IsTerminal(jobs[key]);
    var i :| 0 <= i < |keys| && keys[i] == key;
    assert !IsTerminal(states[i]);
    var k: nat :| k < n && key == AttemptKey(base, k);
    FirstIsThere(base, jobs, n);
  }

  lemma NextKeyIsNew(base: string, jobs: map<string, State>, n: nat, keys: seq<string>, states: seq<State>)
    requires Attempts(base, jobs, n) && Returns(jobs, keys) && forall key :: key in jobs ==> IsTerminal(jobs[key])
    requires |states| == |keys| && forall i :: 0 <= i < |keys| ==> keys[i] in jobs && states[i] == jobs[keys[i]]
    ensures NextKey(base, states) == AttemptKey(base, n) && AttemptKey(base, n) !in jobs
  {
    hide AttemptKey;
    BaseIsFirst(base);
    CountsAttempts(base, keys, n);
    if AttemptKey(base, n) in jobs {
      var k: nat :| k < n && AttemptKey(base, n) == AttemptKey(base, k);
      AttemptKeysDiffer(base, k, n);
    }
  }

  /** The number a numeral stands for. */
  function NumberOf(s: string): int
  {
    if s == "" then 0 else 10 * NumberOf(s[..|s| - 1]) + (s[|s| - 1] as int - '0' as int)
  }

  /** The number of a retry is written in decimal, without a leading zero. */
  lemma {:induction false} DecimalIsDecimal(n: nat)
    ensures NumberOf(Decimal(n)) == n
    ensures forall i :: 0 <= i < |Decimal(n)| ==> '0' <= Decimal(n)[i] <= '9'
    ensures n > 0 ==> Decimal(n)[0] != '0'
  {
    if n >= 10 {
      DecimalIsDecimal(n / 10);
      assert Decimal(n)[..|Decimal(n)| - 1] == Decimal(n / 10);
    } else {
      assert Decimal(n)[..0] == "";
    }
  }
}
