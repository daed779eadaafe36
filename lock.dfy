/**
 * The two adapter locks of the BLE connectors.
 *
 * `PlainLock` is the lock file of `ble_control.py` (first class),
 * `all_ble_serail.py` and `only_ble_wakeup.py`: wait while the file exists,
 * give up waiting after 30 s or once a stale file was deleted, then write
 * the own pid into it.  `FcntlLock` is the `flock`-based lock of
 * `ble_connector.py`, `test.py`, `daq_plotter.py` and the second class of
 * `ble_control.py`.
 *
 * What other processes do to the file is an oracle: one observation per
 * poll of the waiting loop.  Time is the number of sleeps.
 */
module Lock {
  import opened Base
  import Retry

  /** Both locks stop waiting after 30 s. */
  const MaxWait: nat := 30
  /** A lock file older than 30 s is considered left behind by a dead process. */
  const StaleAge: nat := 30
  /** The `flock` retry loop sleeps 0.1 s per busy try, so at most 300 tries fit in 30 s. */
  const MaxPolls: nat := 300

  /**
   * One poll of the lock file: whether it exists, its age in seconds, and
   * whether deleting it would succeed.
   */
  datatype Seen = Seen(present: bool, age: nat, removable: bool)

  /** The waiting loop leaves at poll `i`: no file, waited too long, or a stale file deleted. */
  predicate StopsAt(s: Seen, i: nat, interval: nat)
  {
    !s.present || i * interval > MaxWait || (s.age > StaleAge && s.removable)
  }

  /** The poll at which the loop leaves, counted from `i`; it is also the number of sleeps. */
  function StopFrom(polls: seq<Seen>, interval: nat, i: nat): (k: nat)
    requires i <= |polls|
    ensures i <= k <= |polls|
    ensures k < |polls| ==> StopsAt(polls[k], k, interval)
    ensures forall j :: i <= j < k ==> !StopsAt(polls[j], j, interval)
    decreases |polls| - i
  {
    if i == |polls| || StopsAt(polls[i], i, interval) then i else StopFrom(polls, interval, i + 1)
  }

  function StopPoll(polls: seq<Seen>, interval: nat): (k: nat)
    ensures k <= |polls|
    ensures k < |polls| ==> StopsAt(polls[k], k, interval)
    ensures forall j :: 0 <= j < k ==> !StopsAt(polls[j], j, interval)
  {
    StopFrom(polls, interval, 0)
  }

  /** The poll after which `max_wait` has passed. */
  function TimeoutPoll(interval: nat): nat
    requires interval >= 1
  {
    MaxWait / interval + 1
  }

  /** The wait always ends: at the latest at the first poll past 30 s. */
  lemma WaitBounded(polls: seq<Seen>, interval: nat)
    requires interval >= 1 && |polls| > TimeoutPoll(interval)
    ensures StopPoll(polls, interval) <= TimeoutPoll(interval)
    ensures StopPoll(polls, interval) * interval <= MaxWait + interval
  {
    var t := TimeoutPoll(interval);
    assert t * interval > MaxWait by {
      assert MaxWait == (MaxWait / interval) * interval + MaxWait % interval;
      assert t * interval == (MaxWait / interval) * interval + interval;
    }
    assert StopsAt(polls[t], t, interval);
    var k := StopPoll(polls, interval);
    assert k <= t;
    if k > 0 {
      assert !StopsAt(polls[k - 1], k - 1, interval);
      assert (k - 1) * interval <= MaxWait;
      assert k * interval == (k - 1) * interval + interval;
    }
  }

  lemma {:induction false} StopFromAt(polls: seq<Seen>, interval: nat, i: nat, k: nat)
    requires i <= k <= |polls|
    requires k < |polls| ==> StopsAt(polls[k], k, interval)
    requires forall j :: i <= j < k ==> !StopsAt(polls[j], j, interval)
    ensures StopFrom(polls, interval, i) == k
    decreases k - i
  {
    if i < k {
      StopFromAt(polls, interval, i + 1, k);
    }
  }

  lemma StopPollAt(polls: seq<Seen>, interval: nat, k: nat)
    requires k <= |polls|
    requires k < |polls| ==> StopsAt(polls[k], k, interval)
    requires forall j :: 0 <= j < k ==> !StopsAt(polls[j], j, interval)
    ensures StopPoll(polls, interval) == k
  {
    StopFromAt(polls, interval, 0, k);
  }

  /** A missing file is taken at once, without sleeping. */
  lemma FreeAtOnce(polls: seq<Seen>, interval: nat)
    requires |polls| > 0 && !polls[0].present
    ensures StopPoll(polls, interval) == 0
  {
  }

  /**
   * The loop left by deleting a stale file.  `staleFirst` is the order of
   * `only_ble_wakeup.py`, which tests staleness before the timeout; the
   * others test the timeout first and so leave a stale file in place at the
   * poll where time runs out.
   */
  predicate RemovedStale(polls: seq<Seen>, interval: nat, staleFirst: bool)
  {
    var k := StopPoll(polls, interval);
    k < |polls| && polls[k].present && polls[k].age > StaleAge && polls[k].removable
    && (staleFirst || k * interval <= MaxWait)
  }

  /** One attempt of the plain lock: the polls of its waiting loop, and whether writing the pid succeeds. */
  datatype PlainTry = PlainTry(polls: seq<Seen>, written: bool)

  /** The lock file as this process sees it: whether it exists and whose pid it holds. */
  class PlainLock {
    const path: string
    var present: bool
    var owner: Option<nat>

    constructor(path: string)
      ensures this.path == path && !present && owner == None
    {
      this.path := path;
      present := false;
      owner := None;
    }

    /**
     * One acquisition: sleep `interval` seconds per poll until the loop
     * leaves, then overwrite the file with `pid`.  Nothing stops two
     * processes from both writing: the result is the path whenever the
     * write succeeds, whoever held the file before.  The order of the
     * timeout and staleness checks differs between the scripts, but both
     * leave at the same poll; they differ only in whether a stale file is
     * deleted at the poll where time runs out.
     */
    method Acquire(polls: seq<Seen>, interval: nat, staleFirst: bool, written: bool, pid: nat) returns (r: Option<string>, sleeps: nat)
      requires interval >= 1 && |polls| > TimeoutPoll(interval)
      modifies this
      ensures sleeps == StopPoll(polls, interval) && sleeps <= TimeoutPoll(interval)
      ensures written ==> r == Some(path) && present && owner == Some(pid)
      ensures !written && RemovedStale(polls, interval, staleFirst) ==> r == None && !present && owner == None
      ensures !written && !RemovedStale(polls, interval, staleFirst) ==> r == None && present == old(present) && owner == old(owner)
    {
      WaitBounded(polls, interval);
      var i := 0;
      sleeps := 0;
      while i < |polls| && polls[i].present
        invariant 0 <= i <= StopPoll(polls, interval)
        invariant forall j :: 0 <= j < i ==> !StopsAt(polls[j], j, interval)
        invariant sleeps == i
        invariant present == old(present) && owner == old(owner)
        decreases |polls| - i
      {
        if !staleFirst && i * interval > MaxWait {
          break;
        }
        if polls[i].age > StaleAge && polls[i].removable {
          present := false;
          owner := None;
          break;
        }
        if staleFirst && i * interval > MaxWait {
          break;
        }
        sleeps := sleeps + 1;
        i := i + 1;
      }
      StopPollAt(polls, interval, i);
      if written {
        present := true;
        owner := Some(pid);
        r := Some(path);
      } else {
        r := None;
      }
    }

    /**
     * Up to `max_retries` attempts with the timeout checked first, and `None`
     * when every write failed: `all_ble_serail.py`'s loop polls every 2 s
     * (and sleeps 2 s after a failed attempt); `ble_control.py` polls every
     * second under `_retry_operation`.  The sleeps between attempts are not
     * recorded.
     */
    method AcquireRetried(tries: seq<PlainTry>, maxRetries: nat, interval: nat, pid: nat) returns (r: Option<string>, failures: nat)
      requires maxRetries <= |tries| && interval >= 1
      requires forall t :: 0 <= t < |tries| ==> |tries[t].polls| > TimeoutPoll(interval)
      modifies this
      ensures r.Some? <==> exists t :: 0 <= t < maxRetries && tries[t].written
      ensures r.Some? ==> r == Some(path) && present && owner == Some(pid)
      ensures failures <= maxRetries
      ensures r.Some? ==> failures < maxRetries && tries[failures].written && forall t :: 0 <= t < failures ==> !tries[t].written
    {
      failures := 0;
      while failures < maxRetries
        invariant 0 <= failures <= maxRetries
        invariant forall t :: 0 <= t < failures ==> !tries[t].written
      {
        var sleeps;
        r, sleeps := Acquire(tries[failures].polls, interval, false, tries[failures].written, pid);
        if r.Some? {
          return;
        }
        failures := failures + 1;
      }
      r := None;
    }

    /**
     * `release_lock`: delete the file when a lock was returned and the file
     * still exists.  The pid in it is not checked, so a file another process
     * rewrote is deleted as well.
     */
    method Release(held: bool, removable: bool)
      modifies this
      ensures held && old(present) && removable ==> !present && owner == None
      ensures !(held && old(present) && removable) ==> present == old(present) && owner == old(owner)
    {
      if held && present {
        if removable {
          present := false;
          owner := None;
        }
      }
    }
  }

  // ---------------------------------------------------------------------
  // The `flock` lock.

  /** One `flock(LOCK_EX | LOCK_NB)` call: granted, held elsewhere (`BlockingIOError`), or another error. */
  datatype Flock = Granted | Busy | Failed

  /** Index of the first try that is not `Busy`, or `|tries|`. */
  function Decisive(tries: seq<Flock>): (k: nat)
    ensures k <= |tries|
    ensures k < |tries| ==> tries[k] != Busy
    ensures forall j :: 0 <= j < k ==> tries[j] == Busy
  {
    if tries == [] || tries[0] != Busy then 0 else 1 + Decisive(tries[1..])
  }

  /**
   * One attempt of `_acquire_lock_impl`: whether `os.open` succeeds, the
   * first `flock` and the ones of the 0.1 s polling loop.
   */
  datatype FlockTry = FlockTry(openOk: bool, tries: seq<Flock>)

  /** The attempt returns the path exactly when the file opens and a try is granted before any other outcome. */
  predicate Obtains(t: FlockTry)
  {
    t.openOk && Decisive(t.tries) < |t.tries| && t.tries[Decisive(t.tries)] == Granted
  }

  /** What `_retry_operation` sees from the attempt. */
  function Outcome(t: FlockTry, path: string): (a: Retry.Attempt<string>)
    ensures a.Ok? <==> Obtains(t)
    ensures a.Ok? ==> a.value == path
  {
    if Obtains(t) then Retry.Ok(path) else Retry.NoResult
  }

  /** The attempts as `_retry_operation` sees them. */
  function Outcomes(attempts: seq<FlockTry>, path: string): (outs: seq<Retry.Attempt<string>>)
    ensures |outs| == |attempts|
    ensures forall a :: 0 <= a < |attempts| ==> outs[a] == Outcome(attempts[a], path)
  {
    seq(|attempts|, a requires 0 <= a < |attempts| => Outcome(attempts[a], path))
  }

  /** The 0.1 s sleeps of an attempt: one per busy poll before the loop ends. */
  function Ticks(t: FlockTry): nat
  {
    var k := Decisive(t.tries);
    if !t.openOk || k == 0 then 0 else if k < |t.tries| then k - 1 else |t.tries| - 1
  }

  lemma TicksBounded(t: FlockTry)
    requires |t.tries| <= 1 + MaxPolls
    ensures Ticks(t) <= MaxPolls
  {
  }

  /**
   * The kernel lock and the descriptors of one process.  `recordsFile`
   * tells whether a granted attempt also sets `lock_file`, as in
   * `ble_connector.py`; the other variants set only `lock_fd` and leave
   * `lock_file` to the caller.
   */
  class FcntlLock {
    const path: string
    const recordsFile: bool
    var lockFd: Option<nat>
    var lockFile: Option<string>
    var fileExists: bool
    var held: bool
    var openFds: set<nat>
    var nextFd: nat

    constructor(path: string, recordsFile: bool)
      ensures this.path == path && this.recordsFile == recordsFile
      ensures lockFd == None && lockFile == None && !held && openFds == {} && !fileExists
    {
      this.path := path;
      this.recordsFile := recordsFile;
      lockFd := None;
      lockFile := None;
      fileExists := false;
      held := false;
      openFds := {};
      nextFd := 3;
    }

    predicate Valid()
      reads this
    {
      (held <==> lockFd.Some?) && (lockFd.Some? ==> lockFd.value in openFds) && (forall fd :: fd in openFds ==> fd < nextFd)
    }

    /**
     * `_acquire_lock_impl`: open (creating) the file, try the lock, and on
     * `BlockingIOError` retry every 0.1 s for 30 s.  Granted: the fd and
     * (when recorded) the path are stored and the path returned.  Timed
     * out: the fd is closed and `None` returned.  Any other error goes to
     * the outer handler, which returns `None` without closing the fd.
     */
    method AcquireOnce(t: FlockTry) returns (r: Option<string>, ticks: nat)
      requires Valid() && |t.tries| <= 1 + MaxPolls
      modifies this
      ensures Valid()
      ensures ticks == Ticks(t) && ticks <= MaxPolls
      ensures r.Some? <==> Obtains(t)
      ensures !t.openOk ==> (r == None && lockFd == old(lockFd) && lockFile == old(lockFile)
        && held == old(held) && openFds == old(openFds) && fileExists == old(fileExists) && nextFd == old(nextFd))
      ensures t.openOk ==> fileExists && nextFd == old(nextFd) + 1
      ensures Obtains(t) ==> (r == Some(path) && held && lockFd == Some(old(nextFd))
        && openFds == old(openFds) + {old(nextFd)}
        && lockFile == (if recordsFile then Some(path) else old(lockFile)))
      ensures t.openOk && !Obtains(t) ==> lockFd == old(lockFd) && lockFile == old(lockFile) && held == old(held)
      ensures t.openOk && !Obtains(t) && Decisive(t.tries) == |t.tries| ==> openFds == old(openFds)
      ensures t.openOk && !Obtains(t) && Decisive(t.tries) < |t.tries| ==> openFds == old(openFds) + {old(nextFd)}
    {
      ticks := 0;
      if !t.openOk {
        return None, 0;
      }
      var fd := nextFd;
      nextFd := nextFd + 1;
      openFds := openFds + {fd};
      fileExists := true;
      var i := 0;
      while i < |t.tries| && t.tries[i] == Busy
        invariant 0 <= i <= Decisive(t.tries)
        invariant ticks == (if i == 0 then 0 else i - 1)
      {
        if i > 0 {
          ticks := ticks + 1;
        }
        i := i + 1;
      }
      if i < |t.tries| && t.tries[i] == Granted {
        held := true;
        lockFd := Some(fd);
        if recordsFile {
          lockFile := Some(path);
        }
        return Some(path), ticks;
      }
      if i == |t.tries| {
        openFds := openFds - {fd};
        ticks := if i == 0 then 0 else i - 1;
      }
      r := None;
    }

    /**
     * `acquire_lock(max_retries=3)`: the attempts under `_retry_operation`,
     * with its `min(2 ** attempt, 30)` waits between failed attempts.
     */
    method Acquire(attempts: seq<FlockTry>, maxRetries: nat) returns (r: Option<string>, waits: seq<nat>, made: nat)
      requires Valid() && maxRetries <= |attempts|
      requires forall a :: 0 <= a < |attempts| ==> |attempts[a].tries| <= 1 + MaxPolls
      modifies this
      ensures Valid()
      ensures var outs := Outcomes(attempts[..maxRetries], path);
        r == Retry.RetryResult(outs)
        && made == (if r.Some? then Retry.FirstOk(outs) + 1 else maxRetries)
        && waits == Retry.Waits(if made == 0 then 0 else made - 1)
      ensures r.Some? ==> held && fileExists && lockFd.Some? && (recordsFile ==> lockFile == Some(path))
      ensures r.None? ==> lockFd == old(lockFd) && lockFile == old(lockFile)
    {
      ghost var outs := Outcomes(attempts[..maxRetries], path);
      r := None;
      waits := [];
      made := 0;
      var attempt := 1;
      while attempt <= maxRetries
        invariant 1 <= attempt <= maxRetries + 1
        invariant made == attempt - 1
        invariant Valid()
        invariant forall j :: 0 <= j < made ==> !outs[j].Ok?
        invariant attempt <= maxRetries ==> waits == Retry.Waits(made)
        invariant attempt > maxRetries ==> waits == Retry.Waits(if made == 0 then 0 else made - 1)
        invariant lockFd == old(lockFd) && lockFile == old(lockFile)
        invariant r == None
      {
        made := attempt;
        var ticks;
        r, ticks := AcquireOnce(attempts[attempt - 1]);
        if r.Some? {
          assert outs[attempt - 1] == Retry.Ok(path);
          Retry.FirstOkAt(outs, attempt - 1);
          assert Retry.RetryResult(outs) == Some(path);
          return;
        }
        if attempt < maxRetries {
          waits := waits + [Retry.Backoff(attempt)];
        }
        attempt := attempt + 1;
      }
      Retry.NoneWhenAllFail(outs);
    }

    /** `run`'s `self.lock_file = self.acquire_lock()`: the attribute is overwritten with the result. */
    method SetLockFile(v: Option<string>)
      requires Valid()
      modifies this
      ensures Valid()
      ensures lockFile == v
      ensures lockFd == old(lockFd) && fileExists == old(fileExists) && held == old(held)
      ensures openFds == old(openFds) && nextFd == old(nextFd)
    {
      lockFile := v;
    }

    /**
     * `release_lock`: unlock and close the fd when one is held, then delete
     * the file and forget its path when a path is recorded and the file
     * exists.  With nothing held nothing changes.
     */
    method Release()
      requires Valid()
      modifies this
      ensures Valid()
      ensures lockFd == None
      ensures old(lockFd).None? ==> held == old(held) && openFds == old(openFds)
      ensures old(lockFd).Some? ==> !held && openFds == old(openFds) - {old(lockFd).value}
      ensures old(lockFile).Some? && old(fileExists) ==> lockFile == None && !fileExists
      ensures !(old(lockFile).Some? && old(fileExists)) ==> lockFile == old(lockFile) && fileExists == old(fileExists)
      ensures nextFd == old(nextFd)
    {
      if lockFd.Some? {
        held := false;
        openFds := openFds - {lockFd.value};
        lockFd := None;
      }
      if lockFile.Some? && fileExists {
        fileExists := false;
        lockFile := None;
      }
    }
  }
}
