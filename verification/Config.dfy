/** Service definitions and configurations (`src/config.rs`), without the text parsers. */
module Config {

  datatype Option<+T> = None | Some(value: T)

  /** Instants and durations count nanoseconds, as `std::time` does. */
  type Instant = int
  type Duration = nat

  const SECOND: Duration := 1_000_000_000

  datatype RestartPolicy = Always | OnFailure | Never

  datatype Level = Error | Warn | Info | Debug

  datatype ServiceDef = ServiceDef(
    name: string,
    path: string,
    args: seq<string>,
    critical: bool,
    restart: RestartPolicy,
    memoryLimit: Option<nat>,
    after: seq<string>,
    afterReady: seq<string>,
    before: seq<string>,
    requires_: seq<string>,
    wants: seq<string>,
    user: Option<string>,
    group: Option<string>,
    watchdogTimeout: Option<Duration>,
    environment: seq<(string, string)>,
    workingDir: Option<string>,
    target: string,
    privateTmp: bool,
    protectSystem: bool,
    noNewPrivileges: bool,
    oomScoreAdjust: Option<int>)

  datatype Configuration = Configuration(
    hostname: Option<string>,
    loglevel: Level,
    shutdownTimeoutSecs: nat,
    defaultTarget: string,
    services: seq<ServiceDef>)

  /** The value Rust's derived `Default` gives a definition. */
  const DEFAULT_DEF := ServiceDef("", "", [], false, Never, None, [], [], [], [], [], None, None, None, [], None, "",
                                  false, false, false, None)

  function Names(defs: seq<ServiceDef>): set<string> {
    set d | d in defs :: d.name
  }

  ghost predicate UniqueNames(defs: seq<ServiceDef>) {
    forall i, j :: 0 <= i < j < |defs| ==> defs[i].name != defs[j].name
  }

  /** Definition `k` has a name that none before it has. */
  ghost predicate NewAt(defs: seq<ServiceDef>, k: nat)
    requires k < |defs|
  {
    defs[k].name !in Names(defs[..k])
  }

  ghost predicate EachNew(defs: seq<ServiceDef>) {
    forall k {:trigger NewAt(defs, k)} :: 0 <= k < |defs| ==> NewAt(defs, k)
  }

  lemma UniqueIsEachNew(defs: seq<ServiceDef>)
    requires UniqueNames(defs)
    ensures EachNew(defs)
  {
    forall k | 0 <= k < |defs| ensures NewAt(defs, k) {
      assert forall d :: d in defs[..k] ==> d.name != defs[k].name;
    }
  }

  /** The first definition called `name`. */
  function Lookup(defs: seq<ServiceDef>, name: string): Option<ServiceDef> {
    if defs == [] then None
    else if defs[0].name == name then Some(defs[0])
    else Lookup(defs[1..], name)
  }

  lemma {:induction false} LookupAppend(a: seq<ServiceDef>, b: seq<ServiceDef>, name: string)
    ensures Lookup(a + b, name) == if Lookup(a, name).Some? then Lookup(a, name) else Lookup(b, name)
    ensures Lookup(a, name).Some? <==> name in Names(a)
  {
    if a == [] {
      assert a + b == b;
    } else {
      LookupAppend(a[1..], b, name);
      assert (a + b)[1..] == a[1..] + b;
      assert a == [a[0]] + a[1..];
    }
  }

  /** In a uniquely named list the name determines the definition. */
  lemma SameNameSameDef(defs: seq<ServiceDef>, d: ServiceDef, e: ServiceDef)
    requires UniqueNames(defs) && d in defs && e in defs && d.name == e.name
    ensures d == e
  {
  }

  /** Unit files merged into the inline definitions: what the loop of `merge_services` computes. */
  function Merged(base: seq<ServiceDef>, extra: seq<ServiceDef>): seq<ServiceDef>
    decreases |extra|
  {
    if extra == [] then base
    else Merged(if extra[0].name in Names(base) then base else base + [extra[0]], extra[1..])
  }

  method MergeServices(base: seq<ServiceDef>, extra: seq<ServiceDef>) returns (merged: seq<ServiceDef>)
    ensures merged == Merged(base, extra)
  {
    merged := base;
    for i := 0 to |extra|
      invariant Merged(merged, extra[i..]) == Merged(base, extra)
    {
      assert extra[i..][1..] == extra[i + 1..];
      if extra[i].name !in Names(merged) {
        merged := merged + [extra[i]];
      }
    }
  }

  /** A merge keeps the inline definitions as they are, a name keeps the definition seen first, and the
      result is uniquely named exactly when the inline part already was. */
  lemma {:induction false} MergeKeepsFirstSeen(base: seq<ServiceDef>, extra: seq<ServiceDef>, name: string)
    ensures base <= Merged(base, extra)
    ensures Lookup(Merged(base, extra), name) == Lookup(base + extra, name)
    ensures UniqueNames(Merged(base, extra)) <==> UniqueNames(base)
    decreases |extra|
  {
    if extra == [] {
      assert base + extra == base;
    } else {
      var grown := if extra[0].name in Names(base) then base else base + [extra[0]];
      MergeKeepsFirstSeen(grown, extra[1..], name);
      LookupSkipsSeen(base, extra, name);
      if extra[0].name !in Names(base) {
        AppendFreshName(base, extra[0]);
      }
    }
  }

  lemma LookupSkipsSeen(base: seq<ServiceDef>, extra: seq<ServiceDef>, name: string)
    requires extra != []
    ensures Lookup(base + extra, name) ==
            Lookup((if extra[0].name in Names(base) then base else base + [extra[0]]) + extra[1..], name)
  {
    if extra[0].name in Names(base) {
      LookupAppend(base, extra, name);
      LookupAppend(base, extra[1..], name);
    } else {
      assert base + extra == (base + [extra[0]]) + extra[1..];
    }
  }

  lemma AppendFreshName(defs: seq<ServiceDef>, d: ServiceDef)
    requires d.name !in Names(defs)
    ensures UniqueNames(defs + [d]) <==> UniqueNames(defs)
  {
    var s := defs + [d];
    if UniqueNames(s) {
      forall i, j | 0 <= i < j < |defs| ensures defs[i].name != defs[j].name {
        assert s[i] == defs[i] && s[j] == defs[j];
      }
    }
  }

  /** A merge takes the unit files in listed order: each one goes to the end, or is left out if an inline definition or
      an earlier unit file has its name. */
  lemma {:induction false} MergeInOrder(base: seq<ServiceDef>, extra: seq<ServiceDef>, d: ServiceDef)
    ensures Merged(base, []) == base
    ensures Merged(base, extra + [d]) ==
            Merged(base, extra) + if d.name in Names(base) + Names(extra) then [] else [d]
    decreases |extra|
  {
    if extra == [] {
      assert extra + [d] == [d] && [d][1..] == [];
      assert Merged(base, [d]) == Merged(if d.name in Names(base) then base else base + [d], []);
    } else {
      var grown := if extra[0].name in Names(base) then base else base + [extra[0]];
      MergeInOrder(grown, extra[1..], d);
      assert (extra + [d])[0] == extra[0] && (extra + [d])[1..] == extra[1..] + [d];
      assert Names(grown) + Names(extra[1..]) == Names(base) + Names(extra) by {
        GrownNames(base, extra, grown);
      }
    }
  }

  lemma GrownNames(base: seq<ServiceDef>, extra: seq<ServiceDef>, grown: seq<ServiceDef>)
    requires extra != [] && grown == if extra[0].name in Names(base) then base else base + [extra[0]]
    ensures Names(grown) == Names(base) + {extra[0].name}
    ensures Names(extra) == {extra[0].name} + Names(extra[1..])
  {
    assert extra == [extra[0]] + extra[1..];
    assert forall e :: e in base + [extra[0]] <==> e in base || e == extra[0];
  }
}
