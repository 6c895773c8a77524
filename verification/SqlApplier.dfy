/** The retrying SQL applier: a list of statements swept over and over, executed ones cleared in place,
    until none is left or the tries run out (controllers/daisymanager/schemer.go, Retry in util.go). */
module SqlApplier {
  import opened Commons

  const DEFAULT_MAX_TRIES := 10

  /** One Exec call: which statement of the list, and whether it succeeded. */
  datatype Attempt = Attempt(stmt: nat, ok: bool)

  type History = seq<Attempt>

  /** A ClickHouse host: its answer to a statement may depend on everything executed on it so far.
      The fallback from CREATE to ATTACH on error 253 is part of the answer. */
  type Answer = (History, nat) -> bool

  predicate Succeeded(log: History, i: nat)
  {
    Attempt(i, true) in log
  }

  /** No statement succeeds twice. */
  ghost predicate Once(log: History)
  {
    forall a, b :: 0 <= a < b < |log| && log[a].ok && log[b].ok ==> log[a].stmt != log[b].stmt
  }

  // ---- specification ----

  /** `pending` are the positions whose text is not empty; `failed` is the last statement that failed
      in the current sweep, whose error the sweep returns. */
  datatype Progress = Progress(pending: set<nat>, log: History, failed: Option<nat>)

  function Try(answer: Answer, i: nat, p: Progress): Progress
  {
    if i !in p.pending then p
    else if answer(p.log, i) then Progress(p.pending - {i}, p.log + [Attempt(i, true)], p.failed)
    else Progress(p.pending, p.log + [Attempt(i, false)], Some(i))
  }

  function SweepFrom(answer: Answer, i: nat, n: nat, p: Progress): Progress
    decreases n - i
  {
    if i >= n then p else SweepFrom(answer, i + 1, n, Try(answer, i, p))
  }

  function Sweep(answer: Answer, n: nat, p: Progress): Progress
  {
    SweepFrom(answer, 0, n, p.(failed := None))
  }

  /** The remaining sweeps of Retry. */
  function Sweeps(answer: Answer, n: nat, tries: nat, p: Progress): Progress
    requires tries >= 1
  {
    var q := Sweep(answer, n, p);
    if q.failed.None? || tries == 1 then q else Sweeps(answer, n, tries - 1, q)
  }

  datatype Applied = Applied(pending: set<nat>, logs: seq<History>, err: Option<nat>)

  /** applySQLs over the hosts from position h on: they share the list, and the last host's error
      wins. */
  function Apply(answers: seq<Answer>, h: nat, n: nat, tries: nat, pending: set<nat>, err: Option<nat>): Applied
    requires tries >= 1
    decreases |answers| - h
  {
    if h >= |answers| then Applied(pending, [], err)
    else
      var q := Sweeps(answers[h], n, tries, Progress(pending, [], None));
      var rest := Apply(answers, h + 1, n, tries, q.pending, q.failed);
      Applied(rest.pending, [q.log] + rest.logs, rest.err)
  }

  // ---- the code ----

  class Connection {
    const answer: Answer
    var log: History

    constructor (answer: Answer)
      ensures this.answer == answer && log == []
    {
      this.answer, this.log := answer, [];
    }

    method Exec(i: nat) returns (ok: bool)
      modifies this
      ensures ok == answer(old(log), i) && log == old(log) + [Attempt(i, ok)]
    {
      ok := answer(log, i);
      log := log + [Attempt(i, ok)];
    }
  }

  function Pending(sqls: seq<string>): set<nat>
  {
    set i: nat | i < |sqls| && sqls[i] != ""
  }

  /** The list after a run: what was executed is now empty, the rest is untouched. */
  ghost predicate ClearedTo(now: seq<string>, was: seq<string>, pending: set<nat>)
  {
    && |now| == |was|
    && pending == Pending(now)
    && forall i | 0 <= i < |now| :: now[i] == was[i] || now[i] == ""
  }

  /** The function literal handed to Retry: one sweep over the list. */
  method RunSweep(conn: Connection, sqls: array<string>) returns (runErr: Option<nat>)
    modifies conn, sqls
    ensures Progress(Pending(sqls[..]), conn.log, runErr)
            == Sweep(conn.answer, sqls.Length, Progress(Pending(old(sqls[..])), old(conn.log), None))
    ensures ClearedTo(sqls[..], old(sqls[..]), Pending(sqls[..]))
  {
    runErr := None;
    ghost var start := Progress(Pending(sqls[..]), conn.log, None);
    for i := 0 to sqls.Length
      invariant SweepFrom(conn.answer, i, sqls.Length, Progress(Pending(sqls[..]), conn.log, runErr))
                == Sweep(conn.answer, sqls.Length, start)
      invariant ClearedTo(sqls[..], old(sqls[..]), Pending(sqls[..]))
    {
      if |sqls[i]| == 0 {
        continue;
      }
      ghost var pending := Pending(sqls[..]);
      assert i in pending;
      var ok := conn.Exec(i);
      if ok {
        sqls[i] := "";
        assert Pending(sqls[..]) == pending - {i};
      } else {
        runErr := Some(i);
      }
    }
  }

  /** Retry, for the sweep above. */
  method Retry(tries: nat, conn: Connection, sqls: array<string>) returns (err: Option<nat>)
    requires tries >= 1
    modifies conn, sqls
    ensures Progress(Pending(sqls[..]), conn.log, err)
            == Sweeps(conn.answer, sqls.Length, tries, Progress(Pending(old(sqls[..])), old(conn.log), None))
    ensures ClearedTo(sqls[..], old(sqls[..]), Pending(sqls[..]))
  {
    ghost var start := Progress(Pending(sqls[..]), conn.log, None);
    err := None;
    var try := 1;
    while try <= tries
      invariant 1 <= try <= tries + 1
      invariant ClearedTo(sqls[..], old(sqls[..]), Pending(sqls[..]))
      invariant var now := Progress(Pending(sqls[..]), conn.log, err);
        Sweeps(conn.answer, sqls.Length, tries, start)
          == if try == tries + 1 then now else Sweeps(conn.answer, sqls.Length, tries - try + 1, now)
    {
      err := RunSweep(conn, sqls);
      if err.None? {
        return;
      }
      try := try + 1;
    }
  }

  /** applySQLs. */
  method ApplySQLs(conns: seq<Connection>, sqls: array<string>, retry: bool) returns (err: Option<nat>)
    requires forall a, b :: 0 <= a < b < |conns| ==> conns[a] != conns[b]
    requires forall c | c in conns :: c.log == []
    modifies conns, sqls
    ensures var r := Apply(Answers(conns), 0, sqls.Length, MaxTries(retry), Pending(old(sqls[..])), None);
      && Pending(sqls[..]) == r.pending && err == r.err
      && |r.logs| == |conns| && forall h | 0 <= h < |conns| :: conns[h].log == r.logs[h]
    ensures ClearedTo(sqls[..], old(sqls[..]), Pending(sqls[..]))
  {
    err := None;
    var maxTries := MaxTries(retry);
    ghost var answers := Answers(conns);
    ghost var whole := Apply(answers, 0, sqls.Length, maxTries, Pending(sqls[..]), None);
    ghost var ran: seq<History> := [];
    for h := 0 to |conns|
      invariant ClearedTo(sqls[..], old(sqls[..]), Pending(sqls[..]))
      invariant forall g | h <= g < |conns| :: conns[g].log == []
      invariant |ran| == h && forall g | 0 <= g < h :: conns[g].log == ran[g]
      invariant var rest := Apply(answers, h, sqls.Length, maxTries, Pending(sqls[..]), err);
        whole == Applied(rest.pending, ran + rest.logs, rest.err)
    {
      ghost var pending := Pending(sqls[..]);
      ApplyStep(answers, h, sqls.Length, maxTries, pending, err, ran);
      err := Retry(maxTries, conns[h], sqls);
      ran := ran + [conns[h].log];
    }
  }

  /** replicaApplySQLs: all statements on one host. */
  method ReplicaApplySQLs(conn: Connection, sqls: array<string>, retry: bool, ghost deps: Dependencies) returns (err: Option<nat>)
    requires conn.log == []
    modifies conn, sqls
    ensures err.None? <==> forall i | 0 <= i < sqls.Length :: sqls[i] == ""
    ensures forall i | 0 <= i < sqls.Length :: sqls[i] == old(sqls[i]) || (sqls[i] == "" && Attempt(i, true) in conn.log)
    ensures err.Some? ==> err.value < sqls.Length && sqls[err.value] != "" && forall i | err.value < i < sqls.Length :: sqls[i] == ""
    ensures Once(conn.log)
    ensures Dependable(conn.answer, deps) && Closed(deps, Pending(old(sqls[..]))) ==>
      && (retry && (forall c | IsChain(deps, c) && c[0] in Pending(old(sqls[..])) :: |c| <= 10) ==> err.None?)
      && (retry && Strict(conn.answer, deps) ==>
          (err.None? <==> forall c | IsChain(deps, c) && c[0] in Pending(old(sqls[..])) :: Backward(c) < 10))
      && (!retry && Strict(conn.answer, deps) ==>
          (err.None? <==> forall c | IsChain(deps, c) && c[0] in Pending(old(sqls[..])) :: Backward(c) == 0))
  {
    ghost var was, pending, answer := sqls[..], Pending(sqls[..]), conn.answer;
    err := ApplySQLs([conn], sqls, retry);
    OneHost(answer, sqls.Length, if retry then 10 else 1, pending, deps);
    LastLeftIsReported([answer], 0, sqls.Length, if retry then 10 else 1, pending, None);
    assert Answers([conn]) == [answer];
    ghost var r := Apply([answer], 0, sqls.Length, if retry then 10 else 1, pending, None);
    assert Pending(sqls[..]) == r.pending && err == r.err && [conn][0].log == r.logs[0];
    ghost var now := sqls[..];
    assert forall i: nat | i < |now| :: i in Pending(now) <==> now[i] != "";
  }

  /** What is known of a run on one host with a given number of tries. */
  lemma OneHost(answer: Answer, n: nat, tries: nat, pending: set<nat>, deps: Dependencies)
    requires tries >= 1 && forall i | i in pending :: i < n
    ensures var r := Apply([answer], 0, n, tries, pending, None);
      && |r.logs| == 1 && Once(r.logs[0])
      && (r.err.None? <==> r.pending == {})
      && (forall i | i in pending && i !in r.pending :: Attempt(i, true) in r.logs[0])
      && (Dependable(answer, deps) && Closed(deps, pending) ==>
          var short := forall c | IsChain(deps, c) && c[0] in pending :: Backward(c) < tries;
          && (short ==> r.err.None?)
          && (Strict(answer, deps) ==> (r.err.None? <==> short)))
      && ((forall c | IsChain(deps, c) && c[0] in pending :: |c| <= tries) ==>
          forall c | IsChain(deps, c) && c[0] in pending :: Backward(c) < tries)
  {
    var p := Progress(pending, [], None);
    assert Accounted(pending, p);
    NilIffNothingLeft(answer, n, tries, pending, p);
    var q := Sweeps(answer, n, tries, p);
    assert Apply([answer], 1, n, tries, q.pending, q.failed) == Applied(q.pending, [], q.failed);
    if Dependable(answer, deps) && Closed(deps, pending) {
      RetryResolvesIff(answer, deps, n, tries, pending);
    }
    forall c | IsChain(deps, c)
      ensures Backward(c) <= |c| - 1
    {
      BackwardIsShort(c);
    }
  }

  /** A view listed before the table it needs is created with retry, and not without. */
  method ViewBeforeTable(retry: bool) returns (err: Option<nat>)
    ensures err.None? <==> retry
  {
    var conn := new Connection((log: History, i: nat) => i != 0 || Attempt(1, true) in log);
    var sqls := new string[2];
    sqls[0], sqls[1] := "CREATE VIEW v", "CREATE TABLE t";
    ghost var deps: Dependencies := map[0 := {1}];
    ViewChains(deps, conn.answer);
    assert sqls[..] == ["CREATE VIEW v", "CREATE TABLE t"];
    err := ReplicaApplySQLs(conn, sqls, retry, deps);
  }

  lemma ViewChains(deps: Dependencies, answer: Answer)
    requires deps == map[0 := {1}] && forall log, i :: answer(log, i) <==> i != 0 || Attempt(1, true) in log
    ensures Dependable(answer, deps) && Strict(answer, deps)
    ensures forall c | IsChain(deps, c) :: |c| <= 2
    ensures IsChain(deps, [0, 1]) && Backward([0, 1]) == 1
  {
    assert DependsOn(deps, 0, 1);
    forall log, i
      ensures Ready(deps, log, i) <==> i != 0 || Attempt(1, true) in log
    {
      assert i == 0 && Ready(deps, log, 0) ==> Succeeded(log, 1);
    }
    forall c | IsChain(deps, c)
      ensures |c| <= 2
    {
      ChainLinks(deps, c);
    }
    assert [0, 1][1..] == [1];
  }

  lemma ChainLinks(deps: Dependencies, c: seq<nat>)
    requires IsChain(deps, c)
    ensures |c| > 2 ==> DependsOn(deps, c[0], c[1]) && DependsOn(deps, c[1], c[2])
  {
  }

  /** Eleven statements, each needing the next one, exhaust the ten tries of a retry. */
  method ElevenReversed(conn: Connection, sqls: array<string>, ghost deps: Dependencies) returns (err: Option<nat>)
    requires conn.log == [] && sqls.Length == 11 && forall i | 0 <= i < 11 :: sqls[i] != ""
    requires forall i: nat, d: nat :: DependsOn(deps, i, d) <==> i < 10 && d == i + 1
    requires Dependable(conn.answer, deps) && Strict(conn.answer, deps)
    modifies conn, sqls
    ensures err.Some? && exists i | 0 <= i < 11 :: sqls[i] != ""
  {
    ghost var pending, answer := Pending(sqls[..]), conn.answer;
    assert forall i :: i in pending <==> 0 <= i < 11;
    ElevenInReverseFail(answer, deps, pending);
    RetryResolvesIff(answer, deps, 11, 10, pending);
    err := ReplicaApplySQLs(conn, sqls, true, deps);
  }

  lemma ApplyStep(answers: seq<Answer>, h: nat, n: nat, tries: nat, pending: set<nat>, err: Option<nat>, ran: seq<History>)
    requires tries >= 1 && h < |answers|
    ensures var all := Apply(answers, h, n, tries, pending, err);
      var q := Sweeps(answers[h], n, tries, Progress(pending, [], None));
      var rest := Apply(answers, h + 1, n, tries, q.pending, q.failed);
      all.pending == rest.pending && all.err == rest.err && ran + all.logs == ran + [q.log] + rest.logs
  {
  }

  function MaxTries(retry: bool): nat
  {
    if retry then DEFAULT_MAX_TRIES else 1
  }

  ghost function Answers(conns: seq<Connection>): seq<Answer>
  {
    seq(|conns|, h requires 0 <= h < |conns| => conns[h].answer)
  }

  // ---- what a sweep and a whole run preserve ----

  /** Reached from an empty log with `first` pending: the successes in the log are exactly the
      statements no longer pending, each of them once. */
  ghost predicate Accounted(first: set<nat>, p: Progress)
  {
    && p.pending <= first
    && Once(p.log)
    && forall i :: Succeeded(p.log, i) <==> i in first && i !in p.pending
  }

  lemma TryAccounts(answer: Answer, i: nat, p: Progress, first: set<nat>)
    requires Accounted(first, p)
    ensures Accounted(first, Try(answer, i, p))
  {
    if i in p.pending {
      var ok := answer(p.log, i);
      forall a | 0 <= a < |p.log| && p.log[a].ok
        ensures p.log[a].stmt != i
      {
        assert p.log[a] == Attempt(p.log[a].stmt, true);
        assert Succeeded(p.log, p.log[a].stmt);
      }
      forall j
        ensures Succeeded(p.log + [Attempt(i, ok)], j) <==> Succeeded(p.log, j) || (ok && j == i)
      {
      }
    }
  }

  lemma {:induction false} SweepAccounts(answer: Answer, i: nat, n: nat, p: Progress, first: set<nat>)
    requires Accounted(first, p)
    ensures Accounted(first, SweepFrom(answer, i, n, p))
    decreases n - i
  {
    if i < n {
      TryAccounts(answer, i, p, first);
      SweepAccounts(answer, i + 1, n, Try(answer, i, p), first);
    }
  }

  /** A sweep reports no failure exactly when it found nothing it could not clear. */
  lemma {:induction false} SweepFailsIff(answer: Answer, i: nat, n: nat, p: Progress)
    ensures var q := SweepFrom(answer, i, n, p);
      && q.pending <= p.pending
      && (forall j | j in p.pending && (j < i || n <= j) :: j in q.pending)
      && (q.failed.None? <==> p.failed.None? && forall j | j in q.pending :: j < i || n <= j)
    decreases n - i
  {
    if i < n {
      SweepFailsIff(answer, i + 1, n, Try(answer, i, p));
    }
  }

  /** A sweep reports the last statement that it leaves. */
  lemma {:induction false} SweepReportsLast(answer: Answer, i: nat, n: nat, p: Progress)
    ensures var q := SweepFrom(answer, i, n, p);
      && (forall j | i <= j < n && j in q.pending :: q.failed.Some? && q.failed.value >= j)
      && (q.failed == p.failed || (q.failed.Some? && q.failed.value in q.pending && i <= q.failed.value < n))
    decreases n - i
  {
    if i < n {
      var p' := Try(answer, i, p);
      SweepReportsLast(answer, i + 1, n, p');
      SweepFailsIff(answer, i + 1, n, p');
    }
  }

  lemma {:induction false} RetryReportsLast(answer: Answer, n: nat, tries: nat, p: Progress)
    requires tries >= 1
    ensures var q := Sweeps(answer, n, tries, p);
      q.failed.Some? ==> q.failed.value in q.pending && forall j | j in q.pending && j < n :: j <= q.failed.value
    decreases tries
  {
    SweepReportsLast(answer, 0, n, p.(failed := None));
    if tries > 1 {
      RetryReportsLast(answer, n, tries - 1, Sweep(answer, n, p));
    }
  }

  /** The error that is returned is the one of the last statement that is left. */
  lemma {:induction false} LastLeftIsReported(answers: seq<Answer>, h: nat, n: nat, tries: nat, pending: set<nat>, err: Option<nat>)
    requires tries >= 1 && h < |answers|
    ensures var r := Apply(answers, h, n, tries, pending, err);
      r.err.Some? ==> r.err.value in r.pending && forall j | j in r.pending && j < n :: j <= r.err.value
    decreases |answers| - h
  {
    var p := Progress(pending, [], None);
    RetryReportsLast(answers[h], n, tries, p);
    if h + 1 < |answers| {
      var q := Sweeps(answers[h], n, tries, p);
      LastLeftIsReported(answers, h + 1, n, tries, q.pending, q.failed);
    }
  }

  /** The result of a run on one host is nil exactly when no statement is left. Statements that
      succeeded are exactly those cleared, and none succeeded twice. */
  lemma {:induction false} NilIffNothingLeft(answer: Answer, n: nat, tries: nat, first: set<nat>, p: Progress)
    requires tries >= 1
    requires Accounted(first, p) && forall i | i in first :: i < n
    ensures var q := Sweeps(answer, n, tries, p);
      Accounted(first, q) && (q.failed.None? <==> q.pending == {})
    decreases tries
  {
    var q := Sweep(answer, n, p);
    SweepAccounts(answer, 0, n, p.(failed := None), first);
    SweepFailsIff(answer, 0, n, p.(failed := None));
    if q.failed.None? {
      assert q.pending == {} by {
        assert forall j :: j !in q.pending;
      }
    } else if tries > 1 {
      NilIffNothingLeft(answer, n, tries - 1, first, q);
    }
  }

  // ---- dependencies between statements ----

  /** For each statement, the statements that must have succeeded before it can. */
  type Dependencies = map<nat, set<nat>>

  predicate DependsOn(deps: Dependencies, i: nat, d: nat)
  {
    i in deps && d in deps[i]
  }

  ghost predicate Ready(deps: Dependencies, log: History, i: nat)
  {
    forall d: nat | DependsOn(deps, i, d) :: Succeeded(log, d)
  }

  /** A statement succeeds whenever what it depends on has succeeded. */
  ghost predicate Dependable(answer: Answer, deps: Dependencies)
  {
    forall log, i :: Ready(deps, log, i) ==> answer(log, i)
  }

  /** And otherwise it fails. */
  ghost predicate Strict(answer: Answer, deps: Dependencies)
  {
    forall log, i :: answer(log, i) ==> Ready(deps, log, i)
  }

  /** A chain of statements, each depending on the next. */
  ghost predicate IsChain(deps: Dependencies, c: seq<nat>)
  {
    |c| >= 1 && forall k :: 0 <= k < |c| - 1 ==> DependsOn(deps, c[k], c[k + 1])
  }

  /** The links of a chain that lead to a statement listed no earlier: the ones a sweep runs into. */
  function Backward(c: seq<nat>): nat
  {
    if |c| <= 1 then 0 else (if c[1] >= c[0] then 1 else 0) + Backward(c[1..])
  }

  /** Some chain from i has at least k backward links. */
  ghost predicate Late(deps: Dependencies, i: nat, k: nat)
  {
    exists c :: IsChain(deps, c) && c[0] == i && Backward(c) >= k
  }

  lemma LateStep(deps: Dependencies, i: nat, d: nat, k: nat)
    requires DependsOn(deps, i, d) && Late(deps, d, k)
    ensures Late(deps, i, if d >= i then k + 1 else k)
  {
    var c :| IsChain(deps, c) && c[0] == d && Backward(c) >= k;
    assert ([i] + c)[1..] == c;
    assert IsChain(deps, [i] + c);
  }

  lemma LateUnstep(deps: Dependencies, i: nat, k: nat) returns (d: nat)
    requires Late(deps, i, k + 1)
    ensures DependsOn(deps, i, d) && Late(deps, d, if d >= i then k else k + 1)
  {
    var c :| IsChain(deps, c) && c[0] == i && Backward(c) >= k + 1;
    d := c[1];
    assert IsChain(deps, c[1..]);
  }

  lemma {:induction false} LateAtZero(deps: Dependencies, i: nat)
    ensures Late(deps, i, 0)
  {
    assert IsChain(deps, [i]) && Backward([i]) == 0;
  }

  lemma LateLess(deps: Dependencies, i: nat, k: nat)
    requires Late(deps, i, k + 1)
    ensures Late(deps, i, k)
  {
    var c :| IsChain(deps, c) && c[0] == i && Backward(c) >= k + 1;
  }

  /** During sweep k + 1, when position i is next: what is still pending is late, by k + 1 backward
      links if it was already tried in this sweep. */
  ghost predicate OnlyLateLeft(deps: Dependencies, p: Progress, i: nat, k: nat)
  {
    forall j | j in p.pending :: Late(deps, j, if j < i then k + 1 else k)
  }

  /** And with a strict host everything so late is still pending. */
  ghost predicate AllLateLeft(deps: Dependencies, first: set<nat>, p: Progress, i: nat, k: nat)
  {
    forall j | j in first :: Late(deps, j, if j < i then k + 1 else k) ==> j in p.pending
  }

  ghost predicate Closed(deps: Dependencies, first: set<nat>)
  {
    forall i: nat, d: nat :: i in first && DependsOn(deps, i, d) ==> d in first
  }

  lemma TryLeavesOnlyLate(answer: Answer, deps: Dependencies, first: set<nat>, p: Progress, i: nat, k: nat)
    requires Dependable(answer, deps) && Closed(deps, first) && Accounted(first, p)
    requires OnlyLateLeft(deps, p, i, k)
    ensures OnlyLateLeft(deps, Try(answer, i, p), i + 1, k)
  {
    if i in p.pending && !answer(p.log, i) {
      var d: nat :| DependsOn(deps, i, d) && !Succeeded(p.log, d);
      assert d in p.pending;
      LateStep(deps, i, d, if d < i then k + 1 else k);
    }
  }

  lemma TryKeepsAllLate(answer: Answer, deps: Dependencies, first: set<nat>, p: Progress, i: nat, k: nat)
    requires Strict(answer, deps) && Closed(deps, first) && Accounted(first, p)
    requires AllLateLeft(deps, first, p, i, k)
    ensures AllLateLeft(deps, first, Try(answer, i, p), i + 1, k)
  {
    if i in first && Late(deps, i, k + 1) {
      LateLess(deps, i, k);
      var d := LateUnstep(deps, i, k);
      assert d in p.pending;
      assert !Succeeded(p.log, d);
      assert !Ready(deps, p.log, i);
    }
  }

  lemma {:induction false} SweepLeavesLate(answer: Answer, deps: Dependencies, first: set<nat>, p: Progress, i: nat, n: nat, k: nat)
    requires Closed(deps, first) && Accounted(first, p) && (forall j | j in first :: j < n) && i <= n
    ensures var q := SweepFrom(answer, i, n, p);
      && (Dependable(answer, deps) && OnlyLateLeft(deps, p, i, k) ==> OnlyLateLeft(deps, q, n, k))
      && (Strict(answer, deps) && AllLateLeft(deps, first, p, i, k) ==> AllLateLeft(deps, first, q, n, k))
    decreases n - i
  {
    if i < n {
      TryAccounts(answer, i, p, first);
      if Dependable(answer, deps) && OnlyLateLeft(deps, p, i, k) {
        TryLeavesOnlyLate(answer, deps, first, p, i, k);
      }
      if Strict(answer, deps) && AllLateLeft(deps, first, p, i, k) {
        TryKeepsAllLate(answer, deps, first, p, i, k);
      }
      SweepLeavesLate(answer, deps, first, Try(answer, i, p), i + 1, n, k);
    }
  }

  lemma {:induction false} SweepsLeaveLate(answer: Answer, deps: Dependencies, first: set<nat>, p: Progress, n: nat, k: nat, tries: nat)
    requires tries >= 1
    requires Closed(deps, first) && Accounted(first, p) && forall j | j in first :: j < n
    ensures var q := Sweeps(answer, n, tries, p);
      && (Dependable(answer, deps) && OnlyLateLeft(deps, p, 0, k) ==>
          q.failed.None? || OnlyLateLeft(deps, q, 0, k + tries))
      && (Strict(answer, deps) && AllLateLeft(deps, first, p, 0, k) ==>
          forall j | j in first && Late(deps, j, k + tries) :: j in q.pending)
    decreases tries
  {
    var start := p.(failed := None);
    var q := Sweep(answer, n, p);
    SweepAccounts(answer, 0, n, start, first);
    SweepLeavesLate(answer, deps, first, start, 0, n, k);
    if q.failed.Some? && tries > 1 {
      SweepsLeaveLate(answer, deps, first, q, n, k + 1, tries - 1);
    } else {
      forall j | j in first && Late(deps, j, k + tries)
        ensures Late(deps, j, k + 1)
      {
        var c :| IsChain(deps, c) && c[0] == j && Backward(c) >= k + tries;
      }
    }
  }

  /** Retry completeness. Dependencies are resolved if no chain of dependencies out of the list has as
      many backward links as there are tries; on a host where statements fail until their
      dependencies are there, exactly then. */
  lemma RetryResolvesIff(answer: Answer, deps: Dependencies, n: nat, tries: nat, pending: set<nat>)
    requires tries >= 1
    requires Dependable(answer, deps) && Closed(deps, pending) && forall i | i in pending :: i < n
    ensures var q := Sweeps(answer, n, tries, Progress(pending, [], None));
      var short := forall c | IsChain(deps, c) && c[0] in pending :: Backward(c) < tries;
      && (short ==> q.failed.None? && q.pending == {})
      && (Strict(answer, deps) ==> (q.failed.None? <==> short))
  {
    var p := Progress(pending, [], None);
    var q := Sweeps(answer, n, tries, p);
    forall i: nat {
      LateAtZero(deps, i);
    }
    NilIffNothingLeft(answer, n, tries, pending, p);
    SweepsLeaveLate(answer, deps, pending, p, n, 0, tries);
    if q.failed.Some? {
      var j :| j in q.pending;
      assert Late(deps, j, tries);
    }
    if Strict(answer, deps) && q.failed.None? {
      assert forall j | j in pending :: !Late(deps, j, tries);
    }
  }

  lemma {:induction false} BackwardIsShort(c: seq<nat>)
    requires |c| >= 1
    ensures Backward(c) <= |c| - 1
    ensures (forall k :: 0 <= k < |c| - 1 ==> c[k] <= c[k + 1]) ==> Backward(c) == |c| - 1
  {
    if |c| > 1 {
      BackwardIsShort(c[1..]);
    }
  }

  /** With retry, dependency chains of at most ten statements always resolve, in whatever order the
      statements are listed. */
  lemma ChainsOfTenResolve(answer: Answer, deps: Dependencies, n: nat, pending: set<nat>)
    requires Dependable(answer, deps) && Closed(deps, pending) && forall i | i in pending :: i < n
    requires forall c | IsChain(deps, c) && c[0] in pending :: |c| <= DEFAULT_MAX_TRIES
    ensures Sweeps(answer, n, DEFAULT_MAX_TRIES, Progress(pending, [], None)).failed.None?
  {
    forall c | IsChain(deps, c) && c[0] in pending
      ensures Backward(c) < DEFAULT_MAX_TRIES
    {
      BackwardIsShort(c);
    }
    RetryResolvesIff(answer, deps, n, DEFAULT_MAX_TRIES, pending);
  }

  /** Without retry one sweep is enough as soon as every statement is listed after those it needs. */
  lemma ListedInOrderResolves(answer: Answer, deps: Dependencies, n: nat, pending: set<nat>)
    requires Dependable(answer, deps) && Closed(deps, pending) && forall i | i in pending :: i < n
    requires forall i, d: nat :: DependsOn(deps, i, d) ==> d < i
    ensures Sweeps(answer, n, 1, Progress(pending, [], None)).failed.None?
  {
    forall c | IsChain(deps, c) && c[0] in pending
      ensures Backward(c) < 1
    {
      ForwardChain(deps, c);
    }
    RetryResolvesIff(answer, deps, n, 1, pending);
  }

  lemma {:induction false} ForwardChain(deps: Dependencies, c: seq<nat>)
    requires IsChain(deps, c) && forall i, d: nat :: DependsOn(deps, i, d) ==> d < i
    ensures Backward(c) == 0
  {
    if |c| > 1 {
      assert DependsOn(deps, c[0], c[1]);
      assert IsChain(deps, c[1..]);
      ForwardChain(deps, c[1..]);
    }
  }

  /** The bound is sharp: eleven statements, each needing the next one in the list, exhaust the ten
      tries. */
  lemma ElevenInReverseFail(answer: Answer, deps: Dependencies, pending: set<nat>)
    requires forall i: nat, d: nat :: DependsOn(deps, i, d) <==> i < 10 && d == i + 1
    requires forall i :: i in pending <==> 0 <= i < 11
    requires Dependable(answer, deps) && Strict(answer, deps)
    ensures Sweeps(answer, 11, DEFAULT_MAX_TRIES, Progress(pending, [], None)).failed.Some?
  {
    var c: seq<nat> := seq(11, k => k);
    assert IsChain(deps, c) && c[0] in pending;
    BackwardIsShort(c);
    RetryResolvesIff(answer, deps, 11, DEFAULT_MAX_TRIES, pending);
  }

  // ---- several hosts share one list ----

  /** Over all hosts together a statement succeeds at most once, and the result is nil exactly when
      nothing is left. */
  lemma {:induction false} SharedListRunsOnce(answers: seq<Answer>, h: nat, n: nat, tries: nat, pending: set<nat>, err: Option<nat>)
    requires tries >= 1 && h <= |answers| && forall i | i in pending :: i < n
    ensures var r := Apply(answers, h, n, tries, pending, err);
      && |r.logs| == |answers| - h
      && (forall a | 0 <= a < |r.logs| :: Once(r.logs[a]))
      && (forall a, i | 0 <= a < |r.logs| && Succeeded(r.logs[a], i) :: i in pending)
      && (forall a, b, i | 0 <= a < b < |r.logs| && Succeeded(r.logs[a], i) :: !Succeeded(r.logs[b], i))
      && (h < |answers| ==> (r.err.None? <==> r.pending == {}))
    decreases |answers| - h
  {
    if h < |answers| {
      var p := Progress(pending, [], None);
      NilIffNothingLeft(answers[h], n, tries, pending, p);
      var q := Sweeps(answers[h], n, tries, p);
      SharedListRunsOnce(answers, h + 1, n, tries, q.pending, q.failed);
    }
  }

  /** So only a single host is sure to get every statement: with two or more, each statement is
      missing on some host whatever the result says. */
  lemma SomeHostMissesIt(answers: seq<Answer>, n: nat, tries: nat, pending: set<nat>, i: nat)
    requires tries >= 1 && |answers| >= 2
    requires i in pending && forall j | j in pending :: j < n
    ensures var r := Apply(answers, 0, n, tries, pending, None);
      |r.logs| == |answers| && exists h | 0 <= h < |r.logs| :: !Succeeded(r.logs[h], i)
  {
    SharedListRunsOnce(answers, 0, n, tries, pending, None);
    var r := Apply(answers, 0, n, tries, pending, None);
    assert Succeeded(r.logs[0], i) ==> !Succeeded(r.logs[1], i);
  }

  /** When the result is nil, each statement has run on every host exactly if there is one host. */
  lemma EveryHostServedIff(answers: seq<Answer>, n: nat, tries: nat, pending: set<nat>, i: nat)
    requires tries >= 1 && answers != []
    requires i in pending && forall j | j in pending :: j < n
    requires Apply(answers, 0, n, tries, pending, None).err.None?
    ensures var r := Apply(answers, 0, n, tries, pending, None);
      |r.logs| == |answers| && ((forall h | 0 <= h < |r.logs| :: Succeeded(r.logs[h], i)) <==> |answers| == 1)
  {
    if |answers| == 1 {
      NilIffNothingLeft(answers[0], n, tries, pending, Progress(pending, [], None));
      assert Apply(answers, 1, n, tries, {}, None) == Applied({}, [], None);
    } else {
      SomeHostMissesIt(answers, n, tries, pending, i);
    }
  }
}
