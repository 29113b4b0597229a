/** The login limiter of backend/app/security/auth.py (rate_limited, record_login_failure,
    clear_login_failures) as the login endpoint of backend/app/api/auth.py uses it. */
module LoginWindow {
  import opened Common

  type Client = string      // the remote digest: distinct clients have distinct keys
  type Time = int

  datatype Failure = Failure(client: Client, at: Time)

  datatype Outcome = Limited | Rejected | Accepted

  /** One login request: the clock when the limiter reads it, the clock when a failure row is
      stamped, and whether the credentials would verify. */
  datatype Attempt = Attempt(client: Client, checkedAt: Time, stampedAt: Time, valid: bool)

  /** max_failures and the window of the settings. */
  datatype Policy = Policy(maxFailures: nat, window: nat)

  function Count(rows: seq<Failure>, client: Client, since: Time): nat {
    if rows == [] then 0
    else
      Count(rows[..|rows| - 1], client, since)
      + (if rows[|rows| - 1].client == client && rows[|rows| - 1].at >= since then 1 else 0)
  }

  function Purge(rows: seq<Failure>, cutoff: Time): seq<Failure> {
    Filter(rows, (f: Failure) => f.at >= cutoff)
  }

  function Clear(rows: seq<Failure>, client: Client): seq<Failure> {
    Filter(rows, (f: Failure) => f.client != client)
  }

  function CutoffOf(a: Attempt, p: Policy): Time {
    a.checkedAt - p.window
  }

  /** login(): limiter, credentials, then a failure row or the clearing of the client's rows. */
  function Login(rows: seq<Failure>, a: Attempt, p: Policy): (seq<Failure>, Outcome) {
    var kept := Purge(rows, CutoffOf(a, p));
    if Count(kept, a.client, CutoffOf(a, p)) >= p.maxFailures then (kept, Limited)
    else if !a.valid then (kept + [Failure(a.client, a.stampedAt)], Rejected)
    else (Clear(kept, a.client), Accepted)
  }

  /** The login_failures table. */
  class Limiter {
    var rows: seq<Failure>
    const policy: Policy

    constructor (policy: Policy)
      ensures this.policy == policy && rows == []
    {
      this.policy, rows := policy, [];
    }

    /** rate_limited: purge every client's old rows, then count this client's. */
    method RateLimited(client: Client, now: Time) returns (limited: bool)
      modifies this`rows
      ensures rows == Purge(old(rows), now - policy.window)
      ensures limited == (Count(rows, client, now - policy.window) >= policy.maxFailures)
    {
      var cutoff := now - policy.window;
      rows := Purge(rows, cutoff);
      var count := 0;
      for i := 0 to |rows|
        invariant count == Count(rows[..i], client, cutoff)
      {
        assert rows[..i + 1][..i] == rows[..i];
        if rows[i].client == client && rows[i].at >= cutoff {
          count := count + 1;
        }
      }
      assert rows[..|rows|] == rows;
      limited := count >= policy.maxFailures;
    }

    method Handle(a: Attempt) returns (outcome: Outcome)
      modifies this`rows
      ensures (rows, outcome) == Login(old(rows), a, policy)
    {
      var limited := RateLimited(a.client, a.checkedAt);
      if limited {
        return Limited;
      }
      if !a.valid {
        rows := rows + [Failure(a.client, a.stampedAt)];
        return Rejected;
      }
      rows := Clear(rows, a.client);
      return Accepted;
    }
  }

  // ---------------------------------------------------------------- runs

  /** The clock never goes backwards, within a request and from one request to the next. */
  ghost predicate Monotone(attempts: seq<Attempt>) {
    && (forall i :: 0 <= i < |attempts| ==> attempts[i].checkedAt <= attempts[i].stampedAt)
    && (forall i, j :: 0 <= i < j < |attempts| ==> attempts[i].stampedAt <= attempts[j].checkedAt)
  }

  function RowsAfter(attempts: seq<Attempt>, p: Policy): seq<Failure> {
    if attempts == [] then []
    else Login(RowsAfter(attempts[..|attempts| - 1], p), attempts[|attempts| - 1], p).0
  }

  function OutcomeOf(attempts: seq<Attempt>, i: nat, p: Policy): Outcome
    requires i < |attempts|
  {
    Login(RowsAfter(attempts[..i], p), attempts[i], p).1
  }

  /** The limiter without any purge: the rule as one would state it. */
  function Ledger(attempts: seq<Attempt>, p: Policy): seq<Failure> {
    if attempts == [] then []
    else LedgerLogin(Ledger(attempts[..|attempts| - 1], p), attempts[|attempts| - 1], p)
  }

  function LedgerLogin(rows: seq<Failure>, a: Attempt, p: Policy): seq<Failure> {
    match LedgerOutcome(rows, a, p)
    case Limited => rows
    case Rejected => rows + [Failure(a.client, a.stampedAt)]
    case Accepted => Clear(rows, a.client)
  }

  function LedgerOutcome(rows: seq<Failure>, a: Attempt, p: Policy): Outcome {
    if Count(rows, a.client, CutoffOf(a, p)) >= p.maxFailures then Limited
    else if !a.valid then Rejected
    else Accepted
  }

  // ---------------------------------------------------------------- counting

  lemma CountSnoc(rows: seq<Failure>, f: Failure, client: Client, since: Time)
    ensures Count(rows + [f], client, since) == Count(rows, client, since) + (if f.client == client && f.at >= since then 1 else 0)
  {
    assert (rows + [f])[..|rows|] == rows;
  }

  lemma PurgeSnoc(front: seq<Failure>, last: Failure, cutoff: Time)
    ensures Purge(front + [last], cutoff) == Purge(front, cutoff) + (if last.at >= cutoff then [last] else [])
  {
    FilterSnoc(front, last, (f: Failure) => f.at >= cutoff);
  }

  lemma {:induction false} CountPurged(rows: seq<Failure>, cutoff: Time, client: Client, since: Time)
    requires since >= cutoff
    ensures Count(Purge(rows, cutoff), client, since) == Count(rows, client, since)
  {
    if rows == [] {
    } else {
      var front, last := rows[..|rows| - 1], rows[|rows| - 1];
      assert rows == front + [last];
      CountPurged(front, cutoff, client, since);
      PurgeSnoc(front, last, cutoff);
      CountSnoc(Purge(front, cutoff), last, client, since);
    }
  }

  lemma {:induction false} CountCleared(rows: seq<Failure>, cleared: Client, client: Client, since: Time)
    ensures Count(Clear(rows, cleared), client, since) == if client == cleared then 0 else Count(rows, client, since)
  {
    if rows == [] {
    } else {
      var front, last := rows[..|rows| - 1], rows[|rows| - 1];
      assert rows == front + [last];
      CountCleared(front, cleared, client, since);
      FilterSnoc(front, last, (f: Failure) => f.client != cleared);
      CountSnoc(Clear(front, cleared), last, client, since);
    }
  }

  lemma {:induction false} CountMonotone(rows: seq<Failure>, client: Client, earlier: Time, later: Time)
    requires earlier <= later
    ensures Count(rows, client, later) <= Count(rows, client, earlier)
  {
    if rows == [] {
    } else {
      CountMonotone(rows[..|rows| - 1], client, earlier, later);
    }
  }

  // ---------------------------------------------------------------- the purge is invisible

  /** Both tables give every window that starts at `cut` or later the same counts. */
  ghost predicate Agree(rows: seq<Failure>, ledger: seq<Failure>, cut: Time) {
    forall client, since :: since >= cut ==> Count(rows, client, since) == Count(ledger, client, since)
  }

  lemma AgreeAfterPurge(rows: seq<Failure>, ledger: seq<Failure>, cut: Time, cutoff: Time)
    requires Agree(rows, ledger, cut) && cut <= cutoff
    ensures Agree(Purge(rows, cutoff), ledger, cutoff)
  {
    forall client, since | since >= cutoff
      ensures Count(Purge(rows, cutoff), client, since) == Count(ledger, client, since)
    {
      CountPurged(rows, cutoff, client, since);
    }
  }

  lemma AgreeAfterFailure(rows: seq<Failure>, ledger: seq<Failure>, cut: Time, f: Failure)
    requires Agree(rows, ledger, cut)
    ensures Agree(rows + [f], ledger + [f], cut)
  {
    forall client, since | since >= cut
      ensures Count(rows + [f], client, since) == Count(ledger + [f], client, since)
    {
      CountSnoc(rows, f, client, since);
      CountSnoc(ledger, f, client, since);
    }
  }

  lemma AgreeAfterClear(rows: seq<Failure>, ledger: seq<Failure>, cut: Time, cleared: Client)
    requires Agree(rows, ledger, cut)
    ensures Agree(Clear(rows, cleared), Clear(ledger, cleared), cut)
  {
    forall client, since | since >= cut
      ensures Count(Clear(rows, cleared), client, since) == Count(Clear(ledger, cleared), client, since)
    {
      CountCleared(rows, cleared, client, since);
      CountCleared(ledger, cleared, client, since);
    }
  }

  /** One login on tables that agree: same outcome, and they agree again. */
  lemma LoginKeepsAgreement(rows: seq<Failure>, ledger: seq<Failure>, a: Attempt, p: Policy, before: Time)
    requires Agree(rows, ledger, before) && before <= CutoffOf(a, p)
    ensures Login(rows, a, p).1 == LedgerOutcome(ledger, a, p)
    ensures Agree(Login(rows, a, p).0, LedgerLogin(ledger, a, p), CutoffOf(a, p))
  {
    var cut := CutoffOf(a, p);
    AgreeAfterPurge(rows, ledger, before, cut);
    var kept := Purge(rows, cut);
    assert Count(kept, a.client, cut) == Count(ledger, a.client, cut);
    AgreeAfterFailure(kept, ledger, cut, Failure(a.client, a.stampedAt));
    AgreeAfterClear(kept, ledger, cut, a.client);
  }

  lemma CutoffsGrow(attempts: seq<Attempt>, p: Policy)
    requires Monotone(attempts) && |attempts| >= 2
    ensures CutoffOf(attempts[|attempts| - 2], p) <= CutoffOf(attempts[|attempts| - 1], p)
  {
    var n := |attempts|;
    assert attempts[n - 2].checkedAt <= attempts[n - 2].stampedAt <= attempts[n - 1].checkedAt;
  }

  /** After any run the purged table answers like the full ledger. */
  lemma {:induction false} PurgeKeepsAgreement(attempts: seq<Attempt>, p: Policy, cut: Time)
    requires Monotone(attempts)
    requires attempts != [] ==> cut == CutoffOf(attempts[|attempts| - 1], p)
    ensures Agree(RowsAfter(attempts, p), Ledger(attempts, p), cut)
    ensures attempts != [] ==>
      OutcomeOf(attempts, |attempts| - 1, p)
      == LedgerOutcome(Ledger(attempts[..|attempts| - 1], p), attempts[|attempts| - 1], p)
  {
    if attempts == [] {
    } else {
      var front, a := attempts[..|attempts| - 1], attempts[|attempts| - 1];
      var before := if front == [] then cut else CutoffOf(front[|front| - 1], p);
      if front != [] {
        CutoffsGrow(attempts, p);
      }
      PurgeKeepsAgreement(front, p, before);
      LoginKeepsAgreement(RowsAfter(front, p), Ledger(front, p), a, p, before);
    }
  }

  /** The global purge of old rows never changes a decision: every outcome of every run is the one of
      the limiter that keeps all rows. */
  lemma PurgeIsInvisible(attempts: seq<Attempt>, i: nat, p: Policy)
    requires Monotone(attempts) && i < |attempts|
    ensures OutcomeOf(attempts, i, p) == LedgerOutcome(Ledger(attempts[..i], p), attempts[i], p)
  {
    var upTo := attempts[..i + 1];
    assert upTo[..i] == attempts[..i] && upTo[i] == attempts[i];
    PurgeKeepsAgreement(upTo, p, CutoffOf(attempts[i], p));
  }

  // ---------------------------------------------------------------- the window

  /** Recorded failures of one client, in order, with no accepted login of that client in between. */
  ghost predicate Streak(attempts: seq<Attempt>, p: Policy, client: Client, fails: seq<nat>) {
    && (forall k :: 0 <= k < |fails| ==>
          fails[k] < |attempts| && attempts[fails[k]].client == client && OutcomeOf(attempts, fails[k], p) == Rejected)
    && (forall j, k :: 0 <= j < k < |fails| ==> fails[j] < fails[k])
    && (fails != [] ==>
          forall i :: fails[0] <= i < |attempts| && attempts[i].client == client ==> OutcomeOf(attempts, i, p) != Accepted)
  }

  lemma OutcomeOfPrefix(attempts: seq<Attempt>, n: nat, i: nat, p: Policy)
    requires i < n <= |attempts|
    ensures OutcomeOf(attempts[..n], i, p) == OutcomeOf(attempts, i, p)
  {
    assert attempts[..n][..i] == attempts[..i];
  }

  lemma StreakPrefix(attempts: seq<Attempt>, p: Policy, client: Client, fails: seq<nat>, n: nat, k: nat)
    requires Streak(attempts, p, client, fails) && n <= |attempts| && k <= |fails|
    requires forall j :: 0 <= j < k ==> fails[j] < n
    ensures Streak(attempts[..n], p, client, fails[..k])
  {
    forall i | 0 <= i < n ensures OutcomeOf(attempts[..n], i, p) == OutcomeOf(attempts, i, p) {
      OutcomeOfPrefix(attempts, n, i, p);
    }
  }

  /** What the last attempt does to the ledger rows of one client. */
  lemma LedgerCountStep(attempts: seq<Attempt>, p: Policy, client: Client, since: Time)
    requires attempts != []
    ensures var n := |attempts| - 1;
            var before, a := Ledger(attempts[..n], p), attempts[n];
            Count(Ledger(attempts, p), client, since)
            == match LedgerOutcome(before, a, p)
               case Limited => Count(before, client, since)
               case Rejected => Count(before, client, since) + (if a.client == client && a.stampedAt >= since then 1 else 0)
               case Accepted => if client == a.client then 0 else Count(before, client, since)
  {
    var n := |attempts| - 1;
    var before, a := Ledger(attempts[..n], p), attempts[n];
    CountSnoc(before, Failure(a.client, a.stampedAt), client, since);
    CountCleared(before, a.client, client, since);
  }

  lemma RecordedIsCounted(attempts: seq<Attempt>, p: Policy, client: Client, since: Time)
    requires Monotone(attempts) && attempts != []
    requires attempts[|attempts| - 1].client == client && since <= attempts[|attempts| - 1].stampedAt
    requires OutcomeOf(attempts, |attempts| - 1, p) == Rejected
    ensures Count(Ledger(attempts, p), client, since) == Count(Ledger(attempts[..|attempts| - 1], p), client, since) + 1
  {
    PurgeIsInvisible(attempts, |attempts| - 1, p);
    LedgerCountStep(attempts, p, client, since);
  }

  lemma OnlyAcceptanceClears(attempts: seq<Attempt>, p: Policy, client: Client, since: Time)
    requires Monotone(attempts) && attempts != []
    requires attempts[|attempts| - 1].client == client ==> OutcomeOf(attempts, |attempts| - 1, p) != Accepted
    ensures Count(Ledger(attempts, p), client, since) >= Count(Ledger(attempts[..|attempts| - 1], p), client, since)
  {
    PurgeIsInvisible(attempts, |attempts| - 1, p);
    LedgerCountStep(attempts, p, client, since);
  }

  lemma StampsGrow(attempts: seq<Attempt>, i: nat)
    requires Monotone(attempts) && i < |attempts|
    ensures attempts[i].stampedAt <= attempts[|attempts| - 1].stampedAt
  {
    if i < |attempts| - 1 {
      assert attempts[i].stampedAt <= attempts[|attempts| - 1].checkedAt;
    }
  }

  /** The streak without the last attempt, and without the last failure if that was it. */
  lemma StreakFront(attempts: seq<Attempt>, p: Policy, client: Client, fails: seq<nat>, since: Time, k: nat)
    requires Monotone(attempts) && Streak(attempts, p, client, fails)
    requires fails != [] && since <= attempts[fails[0]].stampedAt
    requires k == if fails[|fails| - 1] == |attempts| - 1 then |fails| - 1 else |fails|
    ensures var front := attempts[..|attempts| - 1];
            && Monotone(front) && Streak(front, p, client, fails[..k])
            && (k > 0 ==> since <= front[fails[..k][0]].stampedAt)
  {
    var n := |attempts| - 1;
    forall j | 0 <= j < k ensures fails[j] < n {
      assert fails[j] < |attempts|;
      if j < |fails| - 1 {
        assert fails[j] < fails[|fails| - 1] <= n;
      }
    }
    StreakPrefix(attempts, p, client, fails, n, k);
    if k > 0 {
      assert fails[..k][0] == fails[0] && attempts[..n][fails[0]] == attempts[fails[0]];
    }
  }

  /** The ledger holds a row for every failure of the streak. */
  lemma {:induction false} LedgerHoldsStreak(attempts: seq<Attempt>, p: Policy, client: Client, fails: seq<nat>, since: Time)
    requires Monotone(attempts) && Streak(attempts, p, client, fails)
    requires fails != [] ==> since <= attempts[fails[0]].stampedAt
    ensures Count(Ledger(attempts, p), client, since) >= |fails|
    decreases |attempts|
  {
    if fails == [] {
    } else {
      var n := |attempts| - 1;
      var recorded := fails[|fails| - 1] == n;
      var k := if recorded then |fails| - 1 else |fails|;
      StreakFront(attempts, p, client, fails, since, k);
      LedgerHoldsStreak(attempts[..n], p, client, fails[..k], since);
      if recorded {
        StampsGrow(attempts, fails[0]);
        RecordedIsCounted(attempts, p, client, since);
      } else {
        OnlyAcceptanceClears(attempts, p, client, since);
      }
    }
  }

  /** A failure that is recorded found fewer than max_failures rows in its window. */
  lemma RecordedBelowLimit(attempts: seq<Attempt>, p: Policy, client: Client, last: nat, since: Time)
    requires Monotone(attempts) && last < |attempts| && attempts[last].client == client
    requires OutcomeOf(attempts, last, p) == Rejected && CutoffOf(attempts[last], p) <= since
    ensures Count(Ledger(attempts[..last], p), client, since) < p.maxFailures
  {
    PurgeIsInvisible(attempts, last, p);
    CountMonotone(Ledger(attempts[..last], p), client, CutoffOf(attempts[last], p), since);
  }

  lemma StreakSpansTheWindow(attempts: seq<Attempt>, p: Policy, client: Client, fails: seq<nat>)
    requires Monotone(attempts) && Streak(attempts, p, client, fails)
    requires |fails| == p.maxFailures + 1 && fails[p.maxFailures] == |attempts| - 1
    ensures CutoffOf(attempts[|attempts| - 1], p) > attempts[fails[0]].stampedAt
  {
    var last := |attempts| - 1;
    var t0 := attempts[fails[0]].stampedAt;
    StreakFront(attempts, p, client, fails, t0, p.maxFailures);
    LedgerHoldsStreak(attempts[..last], p, client, fails[..p.maxFailures], t0);
    if CutoffOf(attempts[last], p) <= t0 {
      RecordedBelowLimit(attempts, p, client, last, t0);
      assert false;
    }
  }

  lemma MonotonePrefix(attempts: seq<Attempt>, n: nat)
    requires Monotone(attempts) && n <= |attempts|
    ensures Monotone(attempts[..n])
  {
  }

  /** Any max_failures + 1 recorded failures of one client, with no successful login of that client
      between the first and the last, span strictly more than the window. */
  lemma FailuresSpanTheWindow(attempts: seq<Attempt>, p: Policy, client: Client, fails: seq<nat>)
    requires Monotone(attempts) && |fails| == p.maxFailures + 1
    requires var last := fails[p.maxFailures]; last < |attempts| && Streak(attempts[..last + 1], p, client, fails)
    ensures attempts[fails[p.maxFailures]].stampedAt - attempts[fails[0]].stampedAt > p.window
  {
    var last := fails[p.maxFailures];
    var upTo := attempts[..last + 1];
    MonotonePrefix(attempts, last + 1);
    StreakSpansTheWindow(upTo, p, client, fails);
    assert upTo[last] == attempts[last] && upTo[fails[0]] == attempts[fails[0]];
  }

  // ---------------------------------------------------------------- every outcome, from the history alone

  /** Attempt j is a recorded failure of the client since that time, and no login of the client was accepted
      between it and attempt n. */
  ghost predicate StillHeld(attempts: seq<Attempt>, p: Policy, client: Client, since: Time, j: int, n: int) {
    && 0 <= j < n <= |attempts| && attempts[j].client == client && attempts[j].stampedAt >= since
    && OutcomeOf(attempts, j, p) == Rejected
    && forall k :: j < k < n && attempts[k].client == client ==> OutcomeOf(attempts, k, p) != Accepted
  }

  ghost function Held(attempts: seq<Attempt>, p: Policy, client: Client, since: Time, n: nat): set<int> {
    set j | 0 <= j < n && StillHeld(attempts, p, client, since, j, n)
  }

  lemma StillHeldStep(attempts: seq<Attempt>, p: Policy, client: Client, since: Time, j: int, n: nat)
    requires n < |attempts|
    ensures StillHeld(attempts, p, client, since, j, n + 1) <==>
            || (StillHeld(attempts, p, client, since, j, n)
                && !(attempts[n].client == client && OutcomeOf(attempts, n, p) == Accepted))
            || (j == n && attempts[n].client == client && attempts[n].stampedAt >= since && OutcomeOf(attempts, n, p) == Rejected)
  {
  }

  /** How one more attempt changes what is held against a client. */
  lemma HeldStep(attempts: seq<Attempt>, p: Policy, client: Client, since: Time, n: nat)
    requires n < |attempts|
    ensures var before, a := Held(attempts, p, client, since, n), attempts[n];
            Held(attempts, p, client, since, n + 1)
            == if a.client != client || OutcomeOf(attempts, n, p) == Limited then before
               else if OutcomeOf(attempts, n, p) == Accepted then {}
               else if a.stampedAt >= since then before + {n} else before
  {
    forall j: int
      ensures StillHeld(attempts, p, client, since, j, n + 1) <==>
              || (StillHeld(attempts, p, client, since, j, n)
                  && !(attempts[n].client == client && OutcomeOf(attempts, n, p) == Accepted))
              || (j == n && attempts[n].client == client && attempts[n].stampedAt >= since && OutcomeOf(attempts, n, p) == Rejected)
    {
      StillHeldStep(attempts, p, client, since, j, n);
    }
  }

  lemma HeldCountStep(attempts: seq<Attempt>, p: Policy, client: Client, since: Time, n: nat)
    requires n < |attempts|
    ensures var before, a := |Held(attempts, p, client, since, n)|, attempts[n];
            |Held(attempts, p, client, since, n + 1)|
            == if a.client != client || OutcomeOf(attempts, n, p) == Limited then before
               else if OutcomeOf(attempts, n, p) == Accepted then 0
               else if a.stampedAt >= since then before + 1 else before
  {
    HeldStep(attempts, p, client, since, n);
    assert n !in Held(attempts, p, client, since, n);
  }

  /** The ledger's count of a client changes by the same outcomes. */
  lemma LedgerStepAt(attempts: seq<Attempt>, p: Policy, client: Client, since: Time, n: nat)
    requires Monotone(attempts) && n < |attempts|
    ensures var before, a := Count(Ledger(attempts[..n], p), client, since), attempts[n];
            Count(Ledger(attempts[..n + 1], p), client, since)
            == if a.client != client || OutcomeOf(attempts, n, p) == Limited then before
               else if OutcomeOf(attempts, n, p) == Accepted then 0
               else if a.stampedAt >= since then before + 1 else before
  {
    assert attempts[..n + 1][..n] == attempts[..n] && attempts[..n + 1][n] == attempts[n];
    LedgerCountStep(attempts[..n + 1], p, client, since);
    PurgeIsInvisible(attempts, n, p);
  }

  lemma NothingHeld(attempts: seq<Attempt>, p: Policy, client: Client, since: Time)
    ensures Count(Ledger(attempts[..0], p), client, since) == 0 && Held(attempts, p, client, since, 0) == {}
  {
    assert attempts[..0] == [];
  }

  /** The ledger counts exactly what is held. */
  lemma {:induction false} LedgerCountsHeld(attempts: seq<Attempt>, p: Policy, client: Client, since: Time, n: nat)
    requires Monotone(attempts) && n <= |attempts|
    ensures Count(Ledger(attempts[..n], p), client, since) == |Held(attempts, p, client, since, n)|
  {
    if n == 0 {
      NothingHeld(attempts, p, client, since);
    } else {
      LedgerCountsHeld(attempts, p, client, since, n - 1);
      HeldCountStep(attempts, p, client, since, n - 1);
      LedgerStepAt(attempts, p, client, since, n - 1);
    }
  }

  /** Every outcome follows from the earlier ones: a login is limited exactly when max_failures failures of
      its client within the window are recorded since its last accepted login, whatever the credentials;
      otherwise the credentials decide. */
  lemma OutcomeFromHistory(attempts: seq<Attempt>, i: nat, p: Policy)
    requires Monotone(attempts) && i < |attempts|
    ensures var a := attempts[i];
            OutcomeOf(attempts, i, p)
            == if |Held(attempts, p, a.client, a.checkedAt - p.window, i)| >= p.maxFailures then Limited
               else if a.valid then Accepted else Rejected
  {
    var a := attempts[i];
    LedgerCountsHeld(attempts, p, a.client, a.checkedAt - p.window, i);
    CountDecides(attempts, i, p, |Held(attempts, p, a.client, a.checkedAt - p.window, i)|);
  }

  lemma CountDecides(attempts: seq<Attempt>, i: nat, p: Policy, held: nat)
    requires Monotone(attempts) && i < |attempts|
    requires Count(Ledger(attempts[..i], p), attempts[i].client, attempts[i].checkedAt - p.window) == held
    ensures OutcomeOf(attempts, i, p) == if held >= p.maxFailures then Limited else if attempts[i].valid then Accepted else Rejected
  {
    PurgeIsInvisible(attempts, i, p);
    LedgerDecides(Ledger(attempts[..i], p), attempts[i], p, held);
  }

  lemma LedgerDecides(rows: seq<Failure>, a: Attempt, p: Policy, held: nat)
    requires Count(rows, a.client, a.checkedAt - p.window) == held
    ensures LedgerOutcome(rows, a, p) == if held >= p.maxFailures then Limited else if a.valid then Accepted else Rejected
  {
  }
}
