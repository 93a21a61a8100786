/** The restart budget: `handle_exit` keeps a pruned history, yet bounds every chain of automatic restarts. */
module Backoff {
  import opened Config
  import opened Machine
  import opened Supervision

  /** How many of `times` fall in the half-open interval from `lo` up to `hi`. */
  ghost function CountIn(times: seq<Instant>, lo: Instant, hi: Instant): nat {
    if times == [] then 0
    else
      var last := times[|times| - 1];
      CountIn(times[..|times| - 1], lo, hi) + if lo <= last < hi then 1 else 0
  }

  ghost predicate UpTo(times: seq<Instant>, now: Instant) {
    forall i :: 0 <= i < |times| ==> times[i] <= now
  }

  ghost function InWindow(times: seq<Instant>, w: Instant): nat {
    CountIn(times, w, w + BACKOFF_WINDOW)
  }

  /** At most five restarts in every ten-second interval, wherever it starts. */
  ghost predicate WithinBudget(chain: seq<Instant>) {
    forall w :: InWindow(chain, w) <= MAX_RESTARTS_IN_WINDOW
  }

  /** The stored history holds exactly the restarts of the chain in the window ending at the latest one. */
  ghost predicate FaithfulHistory(history: seq<Instant>, chain: seq<Instant>) {
    if chain == [] then history == []
    else
      var last := chain[|chain| - 1];
      UpTo(chain, last) && history == Recent(chain, last)
  }

  lemma {:induction false} RecentOfRecent(times: seq<Instant>, mid: Instant, now: Instant)
    requires UpTo(times, mid) && mid <= now
    ensures Recent(Recent(times, mid), now) == Recent(times, now)
  {
    if times == [] {
    } else {
      var init, last := times[..|times| - 1], times[|times| - 1];
      RecentOfRecent(init, mid, now);
      if Since(mid, last) < BACKOFF_WINDOW {
        assert (Recent(init, mid) + [last])[..|Recent(init, mid)|] == Recent(init, mid);
      } else {
        assert Recent(times, mid) == Recent(init, mid);
      }
    }
  }

  /** Pruning counts exactly the restarts of the window ending now. */
  lemma {:induction false} RecentCounts(times: seq<Instant>, now: Instant)
    requires UpTo(times, now)
    ensures |Recent(times, now)| == CountIn(times, now - BACKOFF_WINDOW + 1, now + 1)
  {
    if times == [] {
    } else {
      RecentCounts(times[..|times| - 1], now);
    }
  }

  lemma {:induction false} WindowAroundNow(times: seq<Instant>, w: Instant, now: Instant)
    requires UpTo(times, now) && w <= now < w + BACKOFF_WINDOW
    ensures InWindow(times, w) <= |Recent(times, now)|
  {
    if times == [] {
    } else {
      WindowAroundNow(times[..|times| - 1], w, now);
    }
  }

  lemma SnocRecent(chain: seq<Instant>, now: Instant)
    ensures Recent(chain + [now], now) == Recent(chain, now) + [now]
  {
    assert (chain + [now])[..|chain|] == chain;
  }

  /** What `handle_exit` computes from the pruned history is what the whole chain would give. */
  lemma PrunedIsEnough(history: seq<Instant>, chain: seq<Instant>, now: Instant)
    requires FaithfulHistory(history, chain) && UpTo(chain, now)
    ensures Recent(history, now) + [now] == Recent(chain + [now], now)
    ensures |Recent(history, now) + [now]| == CountIn(chain + [now], now - BACKOFF_WINDOW + 1, now + 1)
  {
    if chain != [] {
      RecentOfRecent(chain, chain[|chain| - 1], now);
    }
    SnocRecent(chain, now);
    RecentCounts(chain + [now], now);
  }

  /** A restart that is allowed keeps the budget and the history. */
  lemma RestartKeepsBudget(history: seq<Instant>, chain: seq<Instant>, now: Instant)
    requires FaithfulHistory(history, chain) && UpTo(chain, now) && WithinBudget(chain)
    requires |Recent(history, now) + [now]| <= MAX_RESTARTS_IN_WINDOW
    ensures FaithfulHistory(Recent(history, now) + [now], chain + [now])
    ensures WithinBudget(chain + [now])
  {
    PrunedIsEnough(history, chain, now);
    var longer := chain + [now];
    assert longer[..|chain|] == chain;
    forall w ensures InWindow(longer, w) <= MAX_RESTARTS_IN_WINDOW {
      assert InWindow(chain, w) <= MAX_RESTARTS_IN_WINDOW;
      if w <= now < w + BACKOFF_WINDOW {
        WindowAroundNow(longer, w, now);
      }
    }
  }

  /** `GaveUp` comes back exactly when a restartable, non-critical tracked service exits and restarting it would
      be the sixth restart of its chain in the ten seconds ending now. */
  lemma GaveUpExactly(os: Os, s: SupState, status: WaitStatus)
    requires forall p :: p in s.services ==>
               && FaithfulHistory(s.services[p].restartTimes, s.services[p].chain)
               && UpTo(s.services[p].chain, os.clock(s.kernel.t))
    ensures HandleExit(os, s, status).1.GaveUp? <==>
            && IsExit(status) && status.pid in s.services
            && var e := s.services[status.pid];
               && !e.def.critical && ShouldRestart(e.def.restart, status)
               && var now := os.clock(s.kernel.t);
                  CountIn(e.chain + [now], now - BACKOFF_WINDOW + 1, now + 1) > MAX_RESTARTS_IN_WINDOW
  {
    if IsExit(status) && status.pid in s.services {
      var e := s.services[status.pid];
      PrunedIsEnough(e.restartTimes, e.chain, os.clock(s.kernel.t));
    }
  }

  /** Whether the policy asks for a restart: always, or after anything but a clean exit. */
  ghost predicate AsksRestart(policy: RestartPolicy, status: WaitStatus)
    requires IsExit(status)
  {
    policy == Always || (policy == OnFailure && status != Exited(status.pid, 0))
  }

  /** Everything `handle_exit` can do with the exit of a tracked service: it leaves the table and its reports are
      forgotten; a critical one halts; one whose policy asks for it is started again with the same definition and
      one more restart in its chain, unless that would be the sixth within ten seconds; the others stay down. */
  lemma ExitExactly(os: Os, s: SupState, status: WaitStatus)
    requires IsExit(status) && status.pid in s.services
    requires FaithfulHistory(s.services[status.pid].restartTimes, s.services[status.pid].chain)
    requires UpTo(s.services[status.pid].chain, os.clock(s.kernel.t))
    ensures var (s', outcome) := HandleExit(os, s, status);
            var e, now := s.services[status.pid], os.clock(s.kernel.t);
            var sixth := CountIn(e.chain + [now], now - BACKOFF_WINDOW + 1, now + 1) > MAX_RESTARTS_IN_WINDOW;
            var again := os.spawn(s.kernel.t + 1, e.def, s.kernel.children);
            && e.def.name !in s'.notify.ready && e.def.name !in s'.notify.pings
            && (outcome.Halt? <==> e.def.critical)
            && (outcome.GaveUp? <==> !e.def.critical && AsksRestart(e.def.restart, status) && sixth)
            && (outcome != Continue ==> outcome.name == e.def.name)
            && (if !e.def.critical && AsksRestart(e.def.restart, status) && !sixth && again.Started? then
                  && again.pid in s'.services
                  && s'.services == (s.services - {status.pid})[again.pid := s'.services[again.pid]]
                  && s'.services[again.pid].def == e.def
                  && s'.services[again.pid].chain == e.chain + [now]
                  && s'.services[again.pid].startedAt == os.clock(s.kernel.t + 1)
                  && s'.services[again.pid].heard == None
                else s'.services == s.services - {status.pid})
  {
    var e := s.services[status.pid];
    PrunedIsEnough(e.restartTimes, e.chain, os.clock(s.kernel.t));
  }
}
