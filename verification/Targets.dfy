/** Named groups of services (`src/targets.rs`). */
module Targets {
  import opened Config

  function ServicesIn(all: seq<ServiceDef>, name: string): seq<ServiceDef> {
    if all == [] then []
    else (if all[0].target == name then [all[0]] else []) + ServicesIn(all[1..], name)
  }

  predicate HasTarget(all: seq<ServiceDef>, name: string) {
    exists d :: d in all && d.target == name
  }

  /** How many of the first `n` definitions are of target `name`. */
  function Count(all: seq<ServiceDef>, name: string, n: nat): nat
    requires n <= |all|
  {
    if n == 0 then 0 else Count(all, name, n - 1) + if all[n - 1].target == name then 1 else 0
  }

  /** `picked` holds the first `n` definitions' share of target `name` in listed order: each stands behind exactly
      those of the target that are listed before it. */
  ghost predicate ListedOrder(all: seq<ServiceDef>, name: string, picked: seq<ServiceDef>, n: nat)
    requires n <= |all|
  {
    && |picked| == Count(all, name, n)
    && forall i :: 0 <= i < n && all[i].target == name ==>
         Count(all, name, i) < |picked| && picked[Count(all, name, i)] == all[i]
  }

  lemma {:induction false} ServicesInAppend(all: seq<ServiceDef>, name: string, d: ServiceDef)
    ensures ServicesIn(all + [d], name) == ServicesIn(all, name) + if d.target == name then [d] else []
  {
    if all == [] {
      assert all + [d] == [d];
    } else {
      ServicesInAppend(all[1..], name, d);
      assert (all + [d])[1..] == all[1..] + [d];
    }
  }

  lemma {:induction false} ServicesInListed(all: seq<ServiceDef>, name: string, n: nat)
    requires n <= |all|
    ensures ListedOrder(all, name, ServicesIn(all[..n], name), n)
  {
    if n == 0 {
    } else {
      ServicesInListed(all, name, n - 1);
      ServicesInAppend(all[..n - 1], name, all[n - 1]);
      assert all[..n] == all[..n - 1] + [all[n - 1]];
    }
  }

  /** Exactly the definitions of that target, in listed order, and still uniquely named. */
  lemma ServicesInExact(all: seq<ServiceDef>, name: string)
    ensures forall d :: d in ServicesIn(all, name) <==> d in all && d.target == name
    ensures ListedOrder(all, name, ServicesIn(all, name), |all|)
    ensures UniqueNames(all) ==> UniqueNames(ServicesIn(all, name))
  {
    ServicesInMembers(all, name);
    ServicesInListed(all, name, |all|);
    assert all[..|all|] == all;
    if UniqueNames(all) {
      ServicesInUnique(all, name);
    }
  }

  lemma {:induction false} ServicesInMembers(all: seq<ServiceDef>, name: string)
    ensures forall d :: d in ServicesIn(all, name) <==> d in all && d.target == name
  {
    if all == [] {
    } else {
      ServicesInMembers(all[1..], name);
      assert all == [all[0]] + all[1..];
    }
  }

  lemma {:induction false} ServicesInUnique(all: seq<ServiceDef>, name: string)
    requires UniqueNames(all)
    ensures UniqueNames(ServicesIn(all, name))
  {
    if all == [] {
    } else {
      ServicesInUnique(all[1..], name);
      ServicesInMembers(all[1..], name);
      if all[0].target == name {
        PrependUnique(all[0], ServicesIn(all[1..], name));
      }
    }
  }

  lemma PrependUnique(d: ServiceDef, rest: seq<ServiceDef>)
    requires UniqueNames(rest) && forall e :: e in rest ==> e.name != d.name
    ensures UniqueNames([d] + rest)
  {
    var s := [d] + rest;
    forall i, j | 0 <= i < j < |s| ensures s[i].name != s[j].name {
      assert s[j] == rest[j - 1] && (i == 0 || s[i] == rest[i - 1]);
    }
  }
}
