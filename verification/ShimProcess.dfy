/** One init process of the shim: its exit record and its bounded kill loop
    (changes/proc_init.go:179-206, 290-308, 368-401, 491-505). */
module ShimProcess {
  import opened Wrappers

  /** status, exited, and how often waitBlock has been closed. */
  datatype ExitRecord = ExitRecord(status: int, exitedAt: Option<nat>, closes: nat)

  const NEW_RECORD := ExitRecord(0, None, 0)

  /** setExited: only the first call has an effect. */
  function Settle(r: ExitRecord, status: int, now: nat): ExitRecord {
    if r.exitedAt.Some? then r else ExitRecord(status, Some(now), r.closes + 1)
  }

  function SettleAll(r: ExitRecord, calls: seq<(int, nat)>): ExitRecord
    decreases |calls|
  {
    if calls == [] then r else SettleAll(Settle(r, calls[0].0, calls[0].1), calls[1..])
  }

  /** Over any sequence of calls the first status and time stay, and the wait channel is closed
      exactly once, by the first. */
  lemma {:induction false} FirstExitWins(calls: seq<(int, nat)>)
    ensures var r := SettleAll(NEW_RECORD, calls);
            if calls == [] then r == NEW_RECORD
            else r == ExitRecord(calls[0].0, Some(calls[0].1), 1)
  {
    if calls != [] {
      SettledForever(Settle(NEW_RECORD, calls[0].0, calls[0].1), calls[1..]);
    }
  }

  lemma {:induction false} SettledForever(r: ExitRecord, calls: seq<(int, nat)>)
    requires r.exitedAt.Some?
    ensures SettleAll(r, calls) == r
    decreases |calls|
  {
    if calls != [] { SettledForever(r, calls[1..]); }
  }

  function Pow2(n: nat): nat {
    if n == 0 then 1 else 2 * Pow2(n - 1)
  }

  datatype StateReply = StateFailed | StateStopped | StateOther

  datatype KillResult = Nil | StateError | NoSuchProcess | KillTimeout

  /** A process as every container sees it: an init, or one started by exec. */
  class Process {
    const handle: nat
    const id: string
    const isInit: bool
    var status: int
    var exited: Option<nat>
    var waitClosed: bool

    constructor (handle: nat, id: string, isInit: bool)
      ensures this.handle == handle && this.id == id && this.isInit == isInit
      ensures Valid() && Record() == NEW_RECORD
    {
      this.handle := handle;
      this.id := id;
      this.isInit := isInit;
      this.status := 0;
      this.exited := None;
      this.waitClosed := false;
    }

    /** The wait channel is closed exactly when an exit time is set. */
    ghost predicate Valid()
      reads this
    {
      (waitClosed <==> exited.Some?) && (exited.None? ==> status == 0)
    }

    ghost function Record(): ExitRecord
      reads this
    {
      ExitRecord(status, exited, if waitClosed then 1 else 0)
    }

    /** close(p.waitBlock): closing twice panics. */
    method CloseWait()
      requires !waitClosed
      modifies this`waitClosed
      ensures waitClosed
    {
      waitClosed := true;
    }

    method SetExited(status: int, now: nat)
      requires Valid()
      modifies this
      ensures Valid() && Record() == Settle(old(Record()), status, now)
    {
      if exited.Some? { return; }
      exited := Some(now);
      this.status := status;
      CloseWait();
    }

    method ExitStatus() returns (r: int)
      ensures r == Record().status
    {
      r := status;
    }

    method ExitedAt() returns (r: Option<nat>)
      ensures r == Record().exitedAt
    {
      r := exited;
    }
  }

  /** The sleep requested after the n-th failed attempt (counting from 0). */
  function Backoff(b: nat, n: nat): nat {
    if n == 0 then b else 2 * Backoff(b, n - 1)
  }

  lemma {:induction false} BackoffIsPower(b: nat, n: nat)
    ensures Backoff(b, n) == b * Pow2(n)
    ensures Pow2(n) >= 1
  {
    if n > 0 { BackoffIsPower(b, n - 1); }
  }

  /** The k-th reading of time.Since(start) for every k: each sleep lasts at least as long as
      requested. */
  ghost predicate SleepsAsRequested(elapsed: nat -> nat, b: nat) {
    forall k: nat :: RoundSlept(elapsed, b, k)
  }

  ghost predicate RoundSlept(elapsed: nat -> nat, b: nat, k: nat) {
    elapsed(k + 1) >= elapsed(k) + Backoff(b, k)
  }

  /** kill: one state query and one kill attempt per round, sleeping twice as long after each
      failed attempt, until the timeout. `states`, `kills` and `elapsed` are what the runtime
      and the clock answer in each round. */
  method Kill(timeout: nat, backoff0: nat, elapsed: nat -> nat, states: nat -> StateReply, kills: nat -> bool)
    returns (r: KillResult, attempts: nat, slept: nat)
    requires backoff0 > 0 && SleepsAsRequested(elapsed, backoff0)
    ensures attempts > 0 ==> Backoff(backoff0, attempts - 1) - backoff0 < timeout
    ensures forall k | 0 <= k < attempts :: states(k) == StateOther && elapsed(k) < timeout
    ensures forall k | 0 <= k < attempts - 1 :: !kills(k)
    ensures r == Nil <==> (attempts == 0 && timeout <= elapsed(0)) || (attempts > 0 && kills(attempts - 1))
    ensures r == StateError ==> states(attempts) == StateFailed && elapsed(attempts) < timeout
    ensures r == NoSuchProcess ==> states(attempts) == StateStopped && elapsed(attempts) < timeout
    ensures r == KillTimeout ==> attempts > 0 && timeout <= elapsed(attempts)
    ensures r != Nil ==> slept == Backoff(backoff0, attempts) - backoff0
  {
    var backoff := backoff0;
    var failed := false;
    attempts, slept := 0, 0;
    while elapsed(attempts) < timeout
      invariant backoff == Backoff(backoff0, attempts)
      invariant slept == backoff - backoff0 && slept <= elapsed(attempts)
      invariant attempts > 0 ==> Backoff(backoff0, attempts - 1) - backoff0 < timeout
      invariant forall k | 0 <= k < attempts :: !kills(k) && states(k) == StateOther && elapsed(k) < timeout
      invariant failed <==> attempts > 0
      decreases timeout - elapsed(attempts)
    {
      if states(attempts) == StateFailed { return StateError, attempts, slept; }
      if states(attempts) == StateStopped { return NoSuchProcess, attempts, slept; }
      if kills(attempts) {
        return Nil, attempts + 1, slept;
      }
      failed := true;
      BackoffMonotone(backoff0, 0, attempts);
      assert RoundSlept(elapsed, backoff0, attempts);
      slept := slept + backoff;
      backoff := backoff * 2;
      attempts := attempts + 1;
    }
    // The error of the last attempt is nil when no attempt was made.
    if !failed { return Nil, attempts, slept; }
    return KillTimeout, attempts, slept;
  }

  /** In closed form: n attempts mean that b(2^(n-1) - 1) is below the timeout; if all fail the
      requested sleep is b(2^n - 1), below twice the timeout plus b; and with the shipped
      constants, one second and 100 milliseconds, there are at most four attempts. */
  lemma KillBounds(timeout: nat, b: nat, attempts: nat)
    requires attempts > 0 && Backoff(b, attempts - 1) - b < timeout
    ensures b * (Pow2(attempts - 1) - 1) < timeout
    ensures Backoff(b, attempts) - b == b * (Pow2(attempts) - 1) < 2 * timeout + b
    ensures timeout == 1000 && b == 100 ==> attempts <= 4
  {
    BackoffIsPower(b, attempts - 1);
    BackoffIsPower(b, attempts);
    if attempts > 4 {
      BackoffMonotone(b, 4, attempts - 1);
    }
    assert Backoff(b, 1) == 2 * b;
    assert Backoff(b, 2) == 2 * Backoff(b, 1);
    assert Backoff(b, 3) == 2 * Backoff(b, 2);
    assert Backoff(b, 4) == 2 * Backoff(b, 3);
  }

  lemma {:induction false} BackoffMonotone(b: nat, m: nat, n: nat)
    requires m <= n
    ensures Backoff(b, m) <= Backoff(b, n)
    decreases n - m
  {
    if m < n { BackoffMonotone(b, m, n - 1); }
  }
}
