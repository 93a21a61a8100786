/** `topological_order` (`src/supervisor.rs`): a first-ready Kahn loop with a fallback for cycles. */
module Ordering {
  import opened Config
  import opened Graphs

  /** Everything this definition comes after has been placed or is not configured. */
  predicate Ready(d: ServiceDef, names: set<string>, placed: set<string>) {
    forall dep :: dep in d.after ==> dep in placed || dep !in names
  }

  /** Position of the first ready definition, or the length of the list. */
  function FirstReady(remaining: seq<ServiceDef>, names: set<string>, placed: set<string>): (i: nat)
    ensures i <= |remaining|
    ensures forall j :: 0 <= j < i ==> !Ready(remaining[j], names, placed)
    ensures i < |remaining| ==> Ready(remaining[i], names, placed)
  {
    if remaining == [] || Ready(remaining[0], names, placed) then 0
    else 1 + FirstReady(remaining[1..], names, placed)
  }

  function Without(s: seq<ServiceDef>, i: nat): seq<ServiceDef>
    requires i < |s|
  {
    s[..i] + s[i + 1..]
  }

  /** What the loop places one by one, and what its cycle branch appends. */
  datatype Order = Order(placed: seq<ServiceDef>, stuck: seq<ServiceDef>) {
    function All(): seq<ServiceDef> { placed + stuck }
  }

  function Kahn(remaining: seq<ServiceDef>, names: set<string>, placed: set<string>): Order
    decreases |remaining|
  {
    var i := FirstReady(remaining, names, placed);
    if i == |remaining| then Order([], remaining)
    else
      var rest := Kahn(Without(remaining, i), names, placed + {remaining[i].name});
      Order([remaining[i]] + rest.placed, rest.stuck)
  }

  function Ordered(defs: seq<ServiceDef>): Order {
    Kahn(defs, Names(defs), {})
  }

  method FindReady(remaining: seq<ServiceDef>, names: set<string>, placed: set<string>) returns (i: nat)
    ensures i == FirstReady(remaining, names, placed)
  {
    i := 0;
    while i < |remaining| && !Ready(remaining[i], names, placed)
      invariant i <= |remaining|
      invariant FirstReady(remaining, names, placed) == i + FirstReady(remaining[i..], names, placed)
    {
      i := i + 1;
    }
  }

  method TopologicalOrder(defs: seq<ServiceDef>) returns (ordered: seq<ServiceDef>)
    ensures ordered == Ordered(defs).All()
  {
    var names := Names(defs);
    var remaining, placed := defs, {};
    ordered := [];
    ghost var all := Ordered(defs).All();
    while remaining != []
      invariant ordered + Kahn(remaining, names, placed).All() == all
      decreases |remaining|
    {
      var i := FindReady(remaining, names, placed);
      if i < |remaining| {
        var d := remaining[i];
        KahnStep(remaining, names, placed, i, Kahn(Without(remaining, i), names, placed + {d.name}));
        remaining := Without(remaining, i);
        placed := placed + {d.name};
        ordered := ordered + [d];
        assert ordered + Kahn(remaining, names, placed).All() == all;
      } else {
        KahnStops(remaining, names, placed);
        ordered := ordered + remaining;
        remaining := [];
        KahnStops(remaining, names, placed);
      }
    }
  }

  // ---------------------------------------------------------------- facts about the loop

  lemma WithoutElements(s: seq<ServiceDef>, i: nat)
    requires i < |s|
    ensures multiset(s) == multiset{s[i]} + multiset(Without(s, i))
  {
    assert s == s[..i] + [s[i]] + s[i + 1..];
  }

  /** One turn of the loop that finds something ready. */
  lemma KahnStep(remaining: seq<ServiceDef>, names: set<string>, placed: set<string>, i: nat, rest: Order)
    requires i == FirstReady(remaining, names, placed) < |remaining|
    requires rest == Kahn(Without(remaining, i), names, placed + {remaining[i].name})
    ensures Kahn(remaining, names, placed) == Order([remaining[i]] + rest.placed, rest.stuck)
    ensures Kahn(remaining, names, placed).All() == [remaining[i]] + rest.All()
  {
  }

  lemma KahnStops(remaining: seq<ServiceDef>, names: set<string>, placed: set<string>)
    requires FirstReady(remaining, names, placed) == |remaining|
    ensures Kahn(remaining, names, placed).All() == remaining
  {
  }

  lemma {:induction false} KahnPermutes(remaining: seq<ServiceDef>, names: set<string>, placed: set<string>)
    ensures multiset(Kahn(remaining, names, placed).All()) == multiset(remaining)
    decreases |remaining|
  {
    var i := FirstReady(remaining, names, placed);
    if i < |remaining| {
      KahnPermutes(Without(remaining, i), names, placed + {remaining[i].name});
      KahnStep(remaining, names, placed, i, Kahn(Without(remaining, i), names, placed + {remaining[i].name}));
      WithoutElements(remaining, i);
    }
  }

  /** Each placed definition was ready when it was placed; nothing left over is ready at the end. */
  ghost predicate ReadyInTurn(o: Order, names: set<string>, placed: set<string>) {
    && (forall k :: 0 <= k < |o.placed| ==> Ready(o.placed[k], names, placed + Names(o.placed[..k])))
    && (forall d :: d in o.stuck ==> !Ready(d, names, placed + Names(o.placed)))
  }

  lemma {:induction false} KahnReady(remaining: seq<ServiceDef>, names: set<string>, placed: set<string>)
    ensures ReadyInTurn(Kahn(remaining, names, placed), names, placed)
    decreases |remaining|
  {
    var i := FirstReady(remaining, names, placed);
    if i < |remaining| {
      var d := remaining[i];
      var rest := Kahn(Without(remaining, i), names, placed + {d.name});
      KahnReady(Without(remaining, i), names, placed + {d.name});
      KahnStep(remaining, names, placed, i, rest);
      ReadyFirst(d, rest, names, placed);
    } else {
      assert placed + Names([]) == placed;
      assert forall d :: d in remaining ==> !Ready(d, names, placed);
    }
  }

  lemma ReadyFirst(d: ServiceDef, rest: Order, names: set<string>, placed: set<string>)
    requires Ready(d, names, placed) && ReadyInTurn(rest, names, placed + {d.name})
    ensures ReadyInTurn(Order([d] + rest.placed, rest.stuck), names, placed)
  {
    var all := [d] + rest.placed;
    forall k | 0 <= k < |all| ensures Ready(all[k], names, placed + Names(all[..k])) {
      if k > 0 {
        assert all[..k] == [d] + rest.placed[..k - 1];
        NamesCons(d, rest.placed[..k - 1]);
        assert placed + Names(all[..k]) == placed + {d.name} + Names(rest.placed[..k - 1]);
      } else {
        assert placed + Names(all[..k]) == placed;
      }
    }
    NamesCons(d, rest.placed);
    assert placed + Names(all) == placed + {d.name} + Names(rest.placed);
  }

  lemma NamesCons(d: ServiceDef, s: seq<ServiceDef>)
    ensures Names([d] + s) == {d.name} + Names(s)
  {
    assert forall e :: e in [d] + s <==> e == d || e in s;
  }

  /** The definitions whose name is in `keep`, in listed order. */
  function Keep(defs: seq<ServiceDef>, keep: set<string>): seq<ServiceDef> {
    if defs == [] then []
    else (if defs[0].name in keep then [defs[0]] else []) + Keep(defs[1..], keep)
  }

  lemma {:induction false} KeepSkips(a: seq<ServiceDef>, d: ServiceDef, b: seq<ServiceDef>, keep: set<string>)
    requires d.name !in keep
    ensures Keep(a + [d] + b, keep) == Keep(a + b, keep)
  {
    if a == [] {
      assert a + [d] + b == [d] + b && a + b == b;
    } else {
      KeepSkips(a[1..], d, b, keep);
      assert (a + [d] + b)[1..] == a[1..] + [d] + b;
      assert (a + b)[1..] == a[1..] + b;
    }
  }

  lemma {:induction false} KeepAll(defs: seq<ServiceDef>, keep: set<string>)
    requires Names(defs) <= keep
    ensures Keep(defs, keep) == defs
  {
    if defs == [] {
    } else {
      assert defs[0].name in Names(defs);
      assert Names(defs[1..]) <= Names(defs);
      KeepAll(defs[1..], keep);
    }
  }

  lemma {:induction false} KeepSplit(defs: seq<ServiceDef>, keep: set<string>, i: nat)
    requires i <= |defs|
    ensures Keep(defs, keep) == Keep(defs[..i], keep) + Keep(defs[i..], keep)
  {
    if i == 0 {
      assert defs[..i] == [] && defs[i..] == defs;
    } else {
      KeepSplit(defs[1..], keep, i - 1);
      assert defs[1..][i - 1..] == defs[i..];
      assert defs[..i][1..] == defs[1..][..i - 1];
    }
  }

  lemma {:induction false} KeepMembers(defs: seq<ServiceDef>, keep: set<string>)
    ensures forall d :: d in Keep(defs, keep) <==> d in defs && d.name in keep
  {
    if defs == [] {
    } else {
      KeepMembers(defs[1..], keep);
      assert defs == [defs[0]] + defs[1..];
    }
  }

  /** Before a kept definition stand exactly the kept definitions listed before it. */
  lemma KeepBefore(defs: seq<ServiceDef>, keep: set<string>, i: nat, a: nat)
    requires i < |defs| && a < |Keep(defs, keep)| && Keep(defs, keep)[a] == defs[i]
    requires UniqueNames(Keep(defs, keep))
    ensures forall d :: d in Keep(defs, keep)[..a] <==> d in defs[..i] && d.name in keep
  {
    KeepMembers(defs, keep);
    KeepMembers(defs[..i], keep);
    KeepSplit(defs, keep, i);
    var k := |Keep(defs[..i], keep)|;
    assert Keep(defs, keep)[k] == defs[i];
    assert a == k;
  }

  lemma WithoutUnique(s: seq<ServiceDef>, i: nat)
    requires UniqueNames(s) && i < |s|
    ensures UniqueNames(Without(s, i)) && s[i].name !in Names(Without(s, i))
  {
    var w := Without(s, i);
    assert forall j :: 0 <= j < |w| ==> w[j] == s[if j < i then j else j + 1];
  }

  lemma KeepWithout(s: seq<ServiceDef>, i: nat, keep: set<string>)
    requires i < |s| && s[i].name !in keep
    ensures Keep(s, keep) == Keep(Without(s, i), keep)
  {
    KeepSkips(s[..i], s[i], s[i + 1..], keep);
    assert s == s[..i] + [s[i]] + s[i + 1..];
  }

  lemma StuckNames(o: Order, defs: seq<ServiceDef>)
    requires multiset(o.All()) == multiset(defs)
    ensures Names(o.stuck) <= Names(defs)
  {
    SameElements(o.All(), defs);
    assert forall d :: d in o.stuck ==> d in o.All();
  }

  /** The cycle branch keeps the listed order of what it appends. */
  lemma {:induction false} StuckKeepsListedOrder(remaining: seq<ServiceDef>, names: set<string>, placed: set<string>)
    requires UniqueNames(remaining)
    ensures var o := Kahn(remaining, names, placed); o.stuck == Keep(remaining, Names(o.stuck))
    decreases |remaining|
  {
    var i := FirstReady(remaining, names, placed);
    if i < |remaining| {
      var d, rest := remaining[i], Without(remaining, i);
      var o := Kahn(rest, names, placed + {d.name});
      WithoutUnique(remaining, i);
      StuckKeepsListedOrder(rest, names, placed + {d.name});
      KahnPermutes(rest, names, placed + {d.name});
      KahnStep(remaining, names, placed, i, o);
      StuckNames(o, rest);
      KeepWithout(remaining, i, Names(o.stuck));
    } else {
      KeepAll(remaining, Names(remaining));
    }
  }

  // ---------------------------------------------------------------- the main theorem

  /** Ordering edges between configured services. */
  function AfterGraph(defs: seq<ServiceDef>): Graph {
    set d, dep | d in defs && dep in d.after && dep in Names(defs) :: (d.name, dep)
  }

  function NameSeq(defs: seq<ServiceDef>): seq<string> {
    seq(|defs|, i requires 0 <= i < |defs| => defs[i].name)
  }

  lemma SameElements(a: seq<ServiceDef>, b: seq<ServiceDef>)
    requires multiset(a) == multiset(b)
    ensures forall d :: d in a <==> d in b
    ensures Names(a) == Names(b)
    ensures |a| == |b|
  {
    assert forall d :: d in a <==> d in multiset(a);
    assert forall d :: d in b <==> d in multiset(b);
    assert |multiset(a)| == |a| && |multiset(b)| == |b|;
  }

  lemma {:induction false} PermutedUnique(a: seq<ServiceDef>, b: seq<ServiceDef>)
    requires multiset(a) == multiset(b) && UniqueNames(a)
    ensures UniqueNames(b)
  {
    SameElements(a, b);
    forall i, j | 0 <= i < j < |b| ensures b[i].name != b[j].name {
      if b[i].name == b[j].name {
        SameNameSameDef(a, b[i], b[j]);
        TwiceInMultiset(b, i, j);
        OnceInUnique(a, b[i]);
        assert false;
      }
    }
  }

  lemma TwiceInMultiset(s: seq<ServiceDef>, i: nat, j: nat)
    requires i < j < |s| && s[i] == s[j]
    ensures multiset(s)[s[i]] >= 2
  {
    assert s == s[..j] + [s[j]] + s[j + 1..];
    assert s[i] in s[..j];
  }

  lemma OnceInUnique(s: seq<ServiceDef>, d: ServiceDef)
    requires UniqueNames(s) && d in s
    ensures multiset(s)[d] == 1
  {
    var i :| 0 <= i < |s| && s[i] == d;
    assert s == s[..i] + [d] + s[i + 1..];
    assert d !in s[..i] && d !in s[i + 1..];
  }

  /** All that the theorem below needs to know about the loop. */
  ghost predicate KahnResult(defs: seq<ServiceDef>, o: Order) {
    && multiset(o.All()) == multiset(defs)
    && ReadyInTurn(o, Names(defs), {})
    && o.stuck == Keep(defs, Names(o.stuck))
  }

  lemma OrderedIsKahnResult(defs: seq<ServiceDef>)
    requires UniqueNames(defs)
    ensures KahnResult(defs, Ordered(defs))
  {
    KahnPermutes(defs, Names(defs), {});
    KahnReady(defs, Names(defs), {});
    StuckKeepsListedOrder(defs, Names(defs), {});
  }

  /** What `topological_order` returns: a permutation in which the placed part lists every service after all
      the configured services it comes after and holds exactly the services from which no path reaches a
      cycle; the rest follow in listed order, and there is a rest exactly when the graph has a cycle. */
  lemma OrderTheorem(defs: seq<ServiceDef>)
    requires UniqueNames(defs)
    ensures var o, g := Ordered(defs), AfterGraph(defs);
            && multiset(o.All()) == multiset(defs)
            && UniqueNames(o.All())
            && SuccessorsFirst(g, NameSeq(o.placed))
            && (forall d :: d in defs ==> (d in o.placed <==> !ReachesCycle(g, d.name)))
            && (forall d :: d in defs ==> (d in o.stuck <==> ReachesCycle(g, d.name)))
            && o.stuck == Keep(defs, Names(o.stuck))
            && (o.stuck != [] <==> HasCycle(g))
  {
    OrderedIsKahnResult(defs);
    PermutedUnique(defs, Ordered(defs).All());
    PlacedFirst(defs, Ordered(defs));
    PlacedIffAcyclic(defs, Ordered(defs));
    StuckIffCycle(defs, Ordered(defs));
  }

  lemma PlacedFirst(defs: seq<ServiceDef>, o: Order)
    requires UniqueNames(defs) && KahnResult(defs, o)
    ensures SuccessorsFirst(AfterGraph(defs), NameSeq(o.placed))
  {
    var names := Names(defs);
    var order := NameSeq(o.placed);
    SameElements(defs, o.All());
    forall k, m | 0 <= k < |order| && (order[k], m) in AfterGraph(defs) ensures m in order[..k] {
      var d :| d in defs && m in d.after && m in names && d.name == order[k];
      assert o.placed[k] in o.All();
      SameNameSameDef(defs, d, o.placed[k]);
      assert Ready(o.placed[k], names, {} + Names(o.placed[..k]));
      NamedEarlier(o.placed, k, m);
    }
  }

  lemma NamedEarlier(defs: seq<ServiceDef>, k: nat, m: string)
    requires k <= |defs| && m in Names(defs[..k])
    ensures m in NameSeq(defs)[..k]
  {
    var e :| e in defs[..k] && e.name == m;
    var i :| 0 <= i < k && defs[i] == e;
    assert NameSeq(defs)[..k][i] == m;
  }

  lemma StuckTrapped(defs: seq<ServiceDef>, o: Order)
    requires KahnResult(defs, o)
    ensures Trapped(AfterGraph(defs), Names(o.stuck))
  {
    var g, names, stuck := AfterGraph(defs), Names(defs), Names(o.stuck);
    SameElements(defs, o.All());
    forall n | n in stuck ensures HasNext(g, stuck, n) {
      var d :| d in o.stuck && d.name == n;
      assert d in o.All();
      assert !Ready(d, names, {} + Names(o.placed));
      var dep :| dep in d.after && dep in names && dep !in {} + Names(o.placed);
      var e :| e in defs && e.name == dep;
      assert e in o.All();
      assert (n, dep) in g;
    }
  }

  lemma PlacedAcyclic(defs: seq<ServiceDef>, o: Order)
    requires UniqueNames(o.All()) && SuccessorsFirst(AfterGraph(defs), NameSeq(o.placed))
    ensures forall d :: d in o.placed ==> !ReachesCycle(AfterGraph(defs), d.name)
  {
    var order := NameSeq(o.placed);
    forall i, j | 0 <= i < j < |order| ensures order[i] != order[j] {
      assert o.All()[i] == o.placed[i] && o.All()[j] == o.placed[j];
    }
    forall d | d in o.placed ensures !ReachesCycle(AfterGraph(defs), d.name) {
      var k :| 0 <= k < |o.placed| && o.placed[k] == d;
      NoCycleFromOrder(AfterGraph(defs), order, k);
    }
  }

  lemma PlacedIffAcyclic(defs: seq<ServiceDef>, o: Order)
    requires UniqueNames(defs) && KahnResult(defs, o)
    ensures forall d :: d in o.placed ==> !ReachesCycle(AfterGraph(defs), d.name)
    ensures forall d :: d in o.stuck ==> ReachesCycle(AfterGraph(defs), d.name)
    ensures forall d :: d in defs <==> d in o.placed || d in o.stuck
  {
    PermutedUnique(defs, o.All());
    PlacedFirst(defs, o);
    PlacedAcyclic(defs, o);
    StuckTrapped(defs, o);
    forall d | d in o.stuck ensures ReachesCycle(AfterGraph(defs), d.name) {
      TrappedReachesCycle(AfterGraph(defs), Names(o.stuck), d.name);
    }
    SameElements(defs, o.All());
    assert forall d :: d in o.All() <==> d in o.placed || d in o.stuck;
  }

  lemma StuckIffCycle(defs: seq<ServiceDef>, o: Order)
    requires UniqueNames(defs) && KahnResult(defs, o)
    ensures o.stuck != [] <==> HasCycle(AfterGraph(defs))
  {
    var g := AfterGraph(defs);
    PlacedIffAcyclic(defs, o);
    CycleIffReached(g);
    if o.stuck != [] {
      assert ReachesCycle(g, o.stuck[0].name);
    }
    if n :| ReachesCycle(g, n) {
      var p :| WalkFrom(g, n, p) && Repeats(p);
      assert (p[0], p[1]) in g;
      var d :| d in defs && d.name == n;
    }
  }

  // ---------------------------------------------------------------- which one is placed next

  /** `d` is listed before `e`. */
  ghost predicate ListedBefore(defs: seq<ServiceDef>, d: ServiceDef, e: ServiceDef) {
    exists i, j :: 0 <= i < j < |defs| && defs[i] == d && defs[j] == e
  }

  /** Of what is left each turn places the first that is ready: whatever is listed before it was placed already or is
      not ready yet. */
  ghost predicate FirstReadyFirst(remaining: seq<ServiceDef>, names: set<string>, placed: set<string>, o: Order) {
    forall k, d :: 0 <= k < |o.placed| && ListedBefore(remaining, d, o.placed[k]) && d !in o.placed[..k] ==>
      !Ready(d, names, placed + Names(o.placed[..k]))
  }

  lemma {:induction false} KahnFirstReady(remaining: seq<ServiceDef>, names: set<string>, placed: set<string>)
    requires UniqueNames(remaining)
    ensures FirstReadyFirst(remaining, names, placed, Kahn(remaining, names, placed))
    decreases |remaining|
  {
    var i := FirstReady(remaining, names, placed);
    if i == |remaining| {
    } else {
      var d, left := remaining[i], Without(remaining, i);
      var rest := Kahn(left, names, placed + {d.name});
      WithoutUnique(remaining, i);
      KahnFirstReady(left, names, placed + {d.name});
      KahnPermutes(left, names, placed + {d.name});
      KahnStep(remaining, names, placed, i, rest);
      FirstReadyStep(remaining, names, placed, i, rest);
    }
  }

  lemma FirstReadyStep(remaining: seq<ServiceDef>, names: set<string>, placed: set<string>, i: nat, rest: Order)
    requires i == FirstReady(remaining, names, placed) < |remaining| && UniqueNames(remaining)
    requires multiset(rest.All()) == multiset(Without(remaining, i))
    requires FirstReadyFirst(Without(remaining, i), names, placed + {remaining[i].name}, rest)
    ensures FirstReadyFirst(remaining, names, placed, Order([remaining[i]] + rest.placed, rest.stuck))
  {
    var all := [remaining[i]] + rest.placed;
    forall k, e | 0 <= k < |all| && ListedBefore(remaining, e, all[k]) && e !in all[..k]
      ensures !Ready(e, names, placed + Names(all[..k]))
    {
      if k == 0 {
        NoneBefore(remaining, names, placed, i, e);
        assert placed + Names(all[..k]) == placed;
      } else {
        assert all[..k] == [remaining[i]] + rest.placed[..k - 1];
        NextReady(remaining, names, placed, i, rest, k - 1, e);
      }
    }
  }

  lemma NextReady(remaining: seq<ServiceDef>, names: set<string>, placed: set<string>, i: nat, rest: Order, k: nat,
                  e: ServiceDef)
    requires i < |remaining| && UniqueNames(remaining) && k < |rest.placed|
    requires multiset(rest.All()) == multiset(Without(remaining, i))
    requires FirstReadyFirst(Without(remaining, i), names, placed + {remaining[i].name}, rest)
    requires ListedBefore(remaining, e, rest.placed[k]) && e !in [remaining[i]] + rest.placed[..k]
    ensures !Ready(e, names, placed + Names([remaining[i]] + rest.placed[..k]))
  {
    var d := remaining[i];
    NamesCons(d, rest.placed[..k]);
    assert placed + Names([d] + rest.placed[..k]) == placed + {d.name} + Names(rest.placed[..k]);
    SameElements(rest.All(), Without(remaining, i));
    assert rest.placed[k] in rest.All();
    WithoutUnique(remaining, i);
    BeforeWithout(remaining, i, e, rest.placed[k]);
  }

  lemma NoneBefore(remaining: seq<ServiceDef>, names: set<string>, placed: set<string>, i: nat, e: ServiceDef)
    requires i == FirstReady(remaining, names, placed) < |remaining| && UniqueNames(remaining)
    requires ListedBefore(remaining, e, remaining[i])
    ensures !Ready(e, names, placed)
  {
    var a, b :| 0 <= a < b < |remaining| && remaining[a] == e && remaining[b] == remaining[i];
    assert b == i;
  }

  lemma BeforeWithout(s: seq<ServiceDef>, i: nat, d: ServiceDef, e: ServiceDef)
    requires i < |s| && d != s[i] && e != s[i] && ListedBefore(s, d, e)
    ensures ListedBefore(Without(s, i), d, e)
  {
    var a, b :| 0 <= a < b < |s| && s[a] == d && s[b] == e;
    var w := Without(s, i);
    assert w[if a < i then a else a - 1] == d && w[if b < i then b else b - 1] == e;
  }

  /** `topological_order` keeps to the listed order as far as dependencies allow: a service is placed only when what is
      listed before it was placed or still waits for something. */
  lemma OrderFirstReady(defs: seq<ServiceDef>, k: nat, d: ServiceDef)
    requires UniqueNames(defs) && k < |Ordered(defs).placed|
    requires ListedBefore(defs, d, Ordered(defs).placed[k]) && d !in Ordered(defs).placed[..k]
    ensures exists dep :: dep in d.after && dep in Names(defs) && dep !in Names(Ordered(defs).placed[..k])
  {
    KahnFirstReady(defs, Names(defs), {});
    assert {} + Names(Ordered(defs).placed[..k]) == Names(Ordered(defs).placed[..k]);
  }

  // ---------------------------------------------------------------- stability

  /** Every configured dependency appears earlier in the list. */
  ghost predicate InDependencyOrder(defs: seq<ServiceDef>) {
    forall k :: 0 <= k < |defs| ==> Ready(defs[k], Names(defs), Names(defs[..k]))
  }

  /** A list that starts with definitions ready in turn is taken in that order, and a tail in which nothing is
      ready is left alone. */
  lemma {:induction false} KahnKeepsReadyPrefix(
      p: seq<ServiceDef>, r: seq<ServiceDef>, names: set<string>, placed: set<string>)
    requires forall k :: 0 <= k < |p| ==> Ready(p[k], names, placed + Names(p[..k]))
    requires forall d :: d in r ==> !Ready(d, names, placed + Names(p))
    ensures Kahn(p + r, names, placed) == Order(p, r)
    decreases |p|
  {
    if p == [] {
      assert p + r == r;
      assert placed + Names(p) == placed;
    } else {
      assert placed + Names(p[..0]) == placed;
      assert Ready((p + r)[0], names, placed);
      assert Without(p + r, 0) == p[1..] + r;
      assert p == [p[0]] + p[1..];
      NamesCons(p[0], p[1..]);
      assert placed + {p[0].name} + Names(p[1..]) == placed + Names(p);
      forall k | 0 <= k < |p[1..]| ensures Ready(p[1..][k], names, placed + {p[0].name} + Names(p[1..][..k])) {
        assert p[..k + 1] == [p[0]] + p[1..][..k];
        NamesCons(p[0], p[1..][..k]);
        assert placed + {p[0].name} + Names(p[1..][..k]) == placed + Names(p[..k + 1]);
      }
      KahnKeepsReadyPrefix(p[1..], r, names, placed + {p[0].name});
    }
  }

  /** A list already in dependency order is returned unchanged. */
  lemma OrderIdentity(defs: seq<ServiceDef>)
    requires InDependencyOrder(defs)
    ensures Ordered(defs) == Order(defs, [])
  {
    forall k | 0 <= k < |defs| ensures Ready(defs[k], Names(defs), {} + Names(defs[..k])) {
      assert {} + Names(defs[..k]) == Names(defs[..k]);
    }
    KahnKeepsReadyPrefix(defs, [], Names(defs), {});
    assert defs + [] == defs;
  }

  /** Ordering twice is ordering once, whether or not the cycle branch was taken. */
  lemma OrderIdempotent(defs: seq<ServiceDef>)
    ensures Ordered(Ordered(defs).All()) == Ordered(defs)
  {
    var o, names := Ordered(defs), Names(defs);
    KahnPermutes(defs, names, {});
    SameElements(defs, o.All());
    KahnReady(defs, names, {});
    assert ReadyInTurn(o, names, {});
    KahnKeepsReadyPrefix(o.placed, o.stuck, names, {});
  }
}
