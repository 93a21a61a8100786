/** `effective_after` (`src/supervisor.rs`): folding `before=`, `requires=` and `wants=` into one `after` list. */
module Folding {
  import opened Config

  function Push(list: seq<string>, x: string): seq<string> {
    if x in list then list else list + [x]
  }

  /** Pushes each of `deps` that is not there yet, left to right. */
  function AddAll(list: seq<string>, deps: seq<string>): seq<string> {
    if deps == [] then list else Push(AddAll(list, deps[..|deps| - 1]), deps[|deps| - 1])
  }

  /** One (target, source) pair for every name in every `before` list, in listed order. */
  function BeforePairs(defs: seq<ServiceDef>): seq<(string, string)> {
    if defs == [] then []
    else
      var d := defs[|defs| - 1];
      BeforePairs(defs[..|defs| - 1]) + seq(|d.before|, k requires 0 <= k < |d.before| => (d.before[k], d.name))
  }

  function Sources(pairs: seq<(string, string)>, target: string): seq<string> {
    if pairs == [] then []
    else
      var p := pairs[|pairs| - 1];
      Sources(pairs[..|pairs| - 1], target) + if p.0 == target then [p.1] else []
  }

  function FirstNamed(defs: seq<ServiceDef>, name: string): (i: nat)
    ensures i <= |defs|
    ensures forall j :: 0 <= j < i ==> defs[j].name != name
    ensures i < |defs| ==> defs[i].name == name
  {
    if defs == [] then 0 else if defs[0].name == name then 0 else 1 + FirstNamed(defs[1..], name)
  }

  function HardAfter(d: ServiceDef): seq<string> {
    AddAll(d.after, d.requires_ + d.wants)
  }

  /** The `after` list of definition `i` once the pairs are injected; only the first definition of a name
      receives any. */
  function InjectedAfter(defs: seq<ServiceDef>, pairs: seq<(string, string)>, i: nat): seq<string>
    requires i < |defs|
  {
    if FirstNamed(defs, defs[i].name) == i then AddAll(HardAfter(defs[i]), Sources(pairs, defs[i].name))
    else HardAfter(defs[i])
  }

  /** The definitions once the pairs are injected. */
  function Injected(defs: seq<ServiceDef>, pairs: seq<(string, string)>): (folded: seq<ServiceDef>)
    ensures |folded| == |defs|
  {
    seq(|defs|, i requires 0 <= i < |defs| => defs[i].(after := InjectedAfter(defs, pairs, i)))
  }

  function EffectiveAfter(defs: seq<ServiceDef>): (folded: seq<ServiceDef>)
    ensures |folded| == |defs|
  {
    Injected(defs, BeforePairs(defs))
  }

  method FoldHard(defs: seq<ServiceDef>) returns (result: seq<ServiceDef>)
    ensures |result| == |defs|
    ensures forall j :: 0 <= j < |defs| ==> result[j] == defs[j].(after := HardAfter(defs[j]))
  {
    result := defs;
    for i := 0 to |result|
      invariant |result| == |defs|
      invariant forall j :: 0 <= j < i ==> result[j] == defs[j].(after := HardAfter(defs[j]))
      invariant forall j :: i <= j < |defs| ==> result[j] == defs[j]
    {
      var deps, after := result[i].requires_ + result[i].wants, result[i].after;
      for k := 0 to |deps|
        invariant after == AddAll(defs[i].after, deps[..k])
      {
        assert deps[..k + 1][..k] == deps[..k];
        if deps[k] !in after {
          after := after + [deps[k]];
        }
      }
      assert deps[..|deps|] == deps;
      result := result[i := result[i].(after := after)];
    }
  }

  method InjectOne(ghost defs: seq<ServiceDef>, ghost pairs: seq<(string, string)>, result: seq<ServiceDef>,
                   p: (string, string))
      returns (next: seq<ServiceDef>)
    requires result == Injected(defs, pairs)
    ensures next == Injected(defs, pairs + [p])
  {
    next := result;
    var i := FirstNamed(result, p.0);
    SameNamesSameFirst(result, defs, p.0);
    if i < |result| && p.1 !in result[i].after {
      next := result[i := result[i].(after := result[i].after + [p.1])];
    }
    forall j | 0 <= j < |defs| ensures next[j] == Injected(defs, pairs + [p])[j] {
      InjectSnoc(defs, pairs, p, j);
    }
  }

  method FoldAfter(defs: seq<ServiceDef>) returns (result: seq<ServiceDef>)
    ensures result == EffectiveAfter(defs)
  {
    result := FoldHard(defs);
    var pairs := BeforePairs(defs);
    assert result == Injected(defs, pairs[..0]);
    for k := 0 to |pairs|
      invariant result == Injected(defs, pairs[..k])
    {
      assert pairs[..k + 1] == pairs[..k] + [pairs[k]];
      result := InjectOne(defs, pairs[..k], result, pairs[k]);
    }
    assert pairs[..|pairs|] == pairs;
  }

  lemma SameNamesSameFirst(a: seq<ServiceDef>, b: seq<ServiceDef>, name: string)
    requires |a| == |b| && forall j :: 0 <= j < |a| ==> a[j].name == b[j].name
    ensures FirstNamed(a, name) == FirstNamed(b, name)
  {
  }

  lemma AddAllSnoc(list: seq<string>, deps: seq<string>, x: string)
    ensures AddAll(list, deps + [x]) == Push(AddAll(list, deps), x)
  {
    assert (deps + [x])[..|deps|] == deps;
  }

  lemma InjectSnoc(defs: seq<ServiceDef>, pairs: seq<(string, string)>, p: (string, string), j: nat)
    requires j < |defs|
    ensures InjectedAfter(defs, pairs + [p], j) ==
            var before := InjectedAfter(defs, pairs, j);
            if FirstNamed(defs, p.0) == j then Push(before, p.1) else before
  {
    var name := defs[j].name;
    assert (pairs + [p])[..|pairs|] == pairs;
    assert Sources(pairs + [p], name) == Sources(pairs, name) + if p.0 == name then [p.1] else [];
    AddAllSnoc(HardAfter(defs[j]), Sources(pairs, name), p.1);
    if p.0 != name {
      assert Sources(pairs + [p], name) == Sources(pairs, name);
    }
  }

  // ---------------------------------------------------------------- what the fold means

  ghost predicate NoDuplicates(s: seq<string>) {
    forall i, j :: 0 <= i < j < |s| ==> s[i] != s[j]
  }

  /** `AddAll` keeps the list as a prefix, adds exactly the missing names, each once. */
  lemma {:induction false} AddAllExact(list: seq<string>, deps: seq<string>)
    ensures list <= AddAll(list, deps)
    ensures forall x :: x in AddAll(list, deps) <==> x in list || x in deps
    ensures NoDuplicates(AddAll(list, deps)[|list|..])
    ensures forall x :: x in AddAll(list, deps)[|list|..] ==> x !in list
  {
    if deps == [] {
    } else {
      var init, last := deps[..|deps| - 1], deps[|deps| - 1];
      AddAllExact(list, init);
      var mid := AddAll(list, init);
      assert deps == init + [last];
      if last !in mid {
        assert (mid + [last])[|list|..] == mid[|list|..] + [last];
        assert forall x :: x in mid[|list|..] ==> x in mid;
      }
    }
  }

  /** Where `x` first occurs. */
  function FirstAt(s: seq<string>, x: string): (i: nat)
    ensures i <= |s| && (i < |s| <==> x in s)
    ensures forall j :: 0 <= j < i ==> s[j] != x
    ensures i < |s| ==> s[i] == x
  {
    if s == [] then 0 else if s[0] == x then 0 else 1 + FirstAt(s[1..], x)
  }

  /** Listed as they first occur in `deps`. */
  ghost predicate InOrderOf(s: seq<string>, deps: seq<string>) {
    forall i, j :: 0 <= i < j < |s| ==> FirstAt(deps, s[i]) < FirstAt(deps, s[j])
  }

  lemma FirstAtPrefix(init: seq<string>, last: string, x: string)
    requires x in init
    ensures FirstAt(init + [last], x) == FirstAt(init, x)
  {
    var i, j := FirstAt(init, x), FirstAt(init + [last], x);
    assert (init + [last])[i] == x;
    if j < i {
      assert init[j] == x;
    }
  }

  /** What `AddAll` adds comes in the order in which it is given. */
  lemma {:induction false} AddAllOrdered(list: seq<string>, deps: seq<string>)
    ensures list <= AddAll(list, deps) && InOrderOf(AddAll(list, deps)[|list|..], deps)
  {
    AddAllExact(list, deps);
    if deps == [] {
    } else {
      var init, last := deps[..|deps| - 1], deps[|deps| - 1];
      assert deps == init + [last];
      AddAllOrdered(list, init);
      AddAllExact(list, init);
      var s := AddAll(list, init)[|list|..];
      forall x | x in s ensures x in init {
        assert x in AddAll(list, init) && x !in list;
      }
      if last !in AddAll(list, init) {
        assert AddAll(list, deps)[|list|..] == s + [last];
        OrderedMore(s, init, last, true);
      } else {
        OrderedMore(s, init, last, false);
      }
    }
  }

  lemma OrderedMore(s: seq<string>, init: seq<string>, last: string, more: bool)
    requires InOrderOf(s, init) && (forall x :: x in s ==> x in init) && (more ==> last !in init)
    ensures InOrderOf(if more then s + [last] else s, init + [last])
  {
    forall i | 0 <= i < |s| ensures FirstAt(init + [last], s[i]) == FirstAt(init, s[i]) < |init| {
      assert s[i] in s;
      FirstAtPrefix(init, last, s[i]);
    }
    if more {
      var j := FirstAt(init + [last], last);
      assert (init + [last])[|init|] == last;
    }
  }

  lemma FirstNamedPrefix(init: seq<ServiceDef>, d: ServiceDef, x: string)
    ensures FirstNamed(init + [d], x) ==
            if FirstNamed(init, x) < |init| then FirstNamed(init, x)
            else if d.name == x then |init| else |init| + 1
  {
    var all, i := init + [d], FirstNamed(init, x);
    var j := FirstNamed(all, x);
    assert all[|init|] == d && forall k :: 0 <= k < |init| ==> all[k] == init[k];
    if j < |init| {
      assert all[j].name == x;
    }
    if i < |init| {
      assert all[i].name == x;
    }
  }

  /** Names of definitions, in listed order. */
  ghost predicate AsListed(s: seq<string>, defs: seq<ServiceDef>) {
    && (forall k :: 0 <= k < |s| ==> FirstNamed(defs, s[k]) < |defs|)
    && (forall j, k :: 0 <= j < k < |s| ==> FirstNamed(defs, s[j]) <= FirstNamed(defs, s[k]))
  }

  lemma AsListedMore(s: seq<string>, init: seq<ServiceDef>, d: ServiceDef, own: seq<string>)
    requires AsListed(s, init) && FirstNamed(init, d.name) == |init| && forall k :: 0 <= k < |own| ==> own[k] == d.name
    ensures AsListed(s + own, init + [d])
  {
    FirstNamedPrefix(init, d, d.name);
    forall k | 0 <= k < |s| ensures FirstNamed(init + [d], s[k]) == FirstNamed(init, s[k]) {
      FirstNamedPrefix(init, d, s[k]);
    }
  }

  /** The services that name `target` in `before` are found in listed order. */
  lemma {:induction false} SourcesAsListed(defs: seq<ServiceDef>, target: string)
    requires UniqueNames(defs)
    ensures AsListed(Sources(BeforePairs(defs), target), defs)
  {
    if defs == [] {
    } else {
      var init, d := defs[..|defs| - 1], defs[|defs| - 1];
      SourcesAsListed(init, target);
      var own := seq(|d.before|, k requires 0 <= k < |d.before| => (d.before[k], d.name));
      SourcesAppend(BeforePairs(init), own, target);
      OwnSources(d.name, own, target);
      AsListedMore(Sources(BeforePairs(init), target), init, d, Sources(own, target));
      assert defs == init + [d];
    }
  }

  lemma {:induction false} SourcesAppend(a: seq<(string, string)>, b: seq<(string, string)>, target: string)
    ensures Sources(a + b, target) == Sources(a, target) + Sources(b, target)
  {
    if b == [] {
      assert a + b == a;
    } else {
      var init, last := b[..|b| - 1], b[|b| - 1];
      SourcesAppend(a, init, target);
      assert (a + b)[..|a + b| - 1] == a + init;
    }
  }

  lemma {:induction false} OwnSources(name: string, pairs: seq<(string, string)>, target: string)
    requires forall k :: 0 <= k < |pairs| ==> pairs[k].1 == name
    ensures forall k :: 0 <= k < |Sources(pairs, target)| ==> Sources(pairs, target)[k] == name
  {
    if pairs == [] {
    } else {
      OwnSources(name, pairs[..|pairs| - 1], target);
    }
  }

  /** The names folding adds to a service come in this order: what it requires and wants, as listed there, then the
      services that name it in `before`, as listed in the configuration. */
  lemma FoldingOrdered(defs: seq<ServiceDef>, i: nat)
    requires UniqueNames(defs) && i < |defs|
    ensures var d, e := defs[i], EffectiveAfter(defs)[i];
            exists hard, soft :: AddedInOrder(defs, d, e, hard, soft)
  {
    var d, e := defs[i], EffectiveAfter(defs)[i];
    var middle, sources := HardAfter(d), Sources(BeforePairs(defs), d.name);
    assert FirstNamed(defs, d.name) == i;
    AddAllOrdered(d.after, d.requires_ + d.wants);
    AddAllOrdered(middle, sources);
    SourcesAsListed(defs, d.name);
    AddAllExact(d.after, d.requires_ + d.wants);
    var hard, soft := middle[|d.after|..], e.after[|middle|..];
    assert middle == d.after + hard && e.after == middle + soft;
    AddAllExact(middle, sources);
    StillAsListed(defs, sources, soft);
    assert AddedInOrder(defs, d, e, hard, soft);
  }

  ghost predicate AddedInOrder(defs: seq<ServiceDef>, d: ServiceDef, e: ServiceDef, hard: seq<string>,
                               soft: seq<string>)
  {
    && e.after == d.after + hard + soft
    && (forall x :: x in d.requires_ || x in d.wants ==> x in d.after + hard)
    && InOrderOf(hard, d.requires_ + d.wants)
    && AsListed(soft, defs)
  }

  lemma StillAsListed(defs: seq<ServiceDef>, sources: seq<string>, soft: seq<string>)
    requires AsListed(sources, defs) && InOrderOf(soft, sources) && forall x :: x in soft ==> x in sources
    ensures AsListed(soft, defs)
  {
    forall k | 0 <= k < |soft| ensures FirstAt(sources, soft[k]) < |sources| {
      assert soft[k] in soft;
    }
  }

  lemma {:induction false} AddAllAbsorbs(list: seq<string>, deps: seq<string>)
    requires forall x :: x in deps ==> x in list
    ensures AddAll(list, deps) == list
  {
    if deps == [] {
    } else {
      AddAllAbsorbs(list, deps[..|deps| - 1]);
    }
  }

  lemma {:induction false} BeforePairsExact(defs: seq<ServiceDef>, target: string, source: string)
    ensures (target, source) in BeforePairs(defs) <==> exists d :: d in defs && d.name == source && target in d.before
  {
    if defs == [] {
    } else {
      var init, d := defs[..|defs| - 1], defs[|defs| - 1];
      assert defs == init + [d];
      BeforePairsExact(init, target, source);
      var own := seq(|d.before|, k requires 0 <= k < |d.before| => (d.before[k], d.name));
      if d.name == source && target in d.before {
        var k :| 0 <= k < |d.before| && d.before[k] == target;
        assert own[k] == (target, source);
      }
    }
  }

  lemma {:induction false} SourcesExact(pairs: seq<(string, string)>, target: string, source: string)
    ensures source in Sources(pairs, target) <==> (target, source) in pairs
  {
    if pairs == [] {
    } else {
      var init := pairs[..|pairs| - 1];
      SourcesExact(init, target, source);
      assert pairs == init + [pairs[|pairs| - 1]];
    }
  }

  /** Everything that must come before `d` when the system boots. */
  ghost predicate MustPrecede(defs: seq<ServiceDef>, x: string, d: ServiceDef) {
    || x in d.after
    || x in d.requires_
    || x in d.wants
    || exists e :: e in defs && e.name == x && d.name in e.before
  }

  /** With unique names the folded `after` of a service is exactly the union of its own `after`, `requires`
      and `wants` with the services listing it in `before`; the configured list stays a prefix, the new names
      come once each, and no other field changes. */
  lemma FoldingExact(defs: seq<ServiceDef>, i: nat)
    requires UniqueNames(defs) && i < |defs|
    ensures var d, e := defs[i], EffectiveAfter(defs)[i];
            && e == d.(after := e.after)
            && d.after <= e.after
            && (forall x :: x in e.after <==> MustPrecede(defs, x, d))
            && NoDuplicates(e.after[|d.after|..])
            && (forall x :: x in e.after[|d.after|..] ==> x !in d.after)
  {
    var d, e := defs[i], EffectiveAfter(defs)[i];
    var pairs := BeforePairs(defs);
    var hard := HardAfter(d);
    AddAllExact(d.after, d.requires_ + d.wants);
    AddAllExact(hard, Sources(pairs, d.name));
    assert FirstNamed(defs, d.name) == i;
    forall x ensures x in Sources(pairs, d.name) <==> exists s :: s in defs && s.name == x && d.name in s.before {
      SourcesExact(pairs, d.name, x);
      BeforePairsExact(defs, d.name, x);
    }
    SuffixNoDuplicates(d.after, hard, e.after);
  }

  lemma SuffixNoDuplicates(a: seq<string>, b: seq<string>, c: seq<string>)
    requires a <= b <= c
    requires NoDuplicates(b[|a|..]) && NoDuplicates(c[|b|..])
    requires forall x :: x in b[|a|..] ==> x !in a
    requires forall x :: x in c[|b|..] ==> x !in b
    ensures NoDuplicates(c[|a|..])
    ensures forall x :: x in c[|a|..] ==> x !in a
  {
    var s, t := b[|a|..], c[|b|..];
    assert c[|a|..] == s + t;
    assert forall x :: x in s ==> x in b;
    assert forall x :: x in a ==> x in b;
    forall i, j | 0 <= i < j < |s + t| ensures (s + t)[i] != (s + t)[j] {
      if i < |s| <= j {
        assert s[i] in s && t[j - |s|] in t;
      } else if |s| <= i {
        assert t[i - |s|] != t[j - |s|];
      }
    }
  }

  lemma {:induction false} BeforePairsSame(a: seq<ServiceDef>, b: seq<ServiceDef>)
    requires |a| == |b|
    requires forall j :: 0 <= j < |a| ==> a[j].name == b[j].name && a[j].before == b[j].before
    ensures BeforePairs(a) == BeforePairs(b)
  {
    if a == [] {
    } else {
      BeforePairsSame(a[..|a| - 1], b[..|b| - 1]);
    }
  }

  /** Folding what is already folded changes nothing, duplicates or not. */
  lemma FoldingIdempotent(defs: seq<ServiceDef>)
    ensures EffectiveAfter(EffectiveAfter(defs)) == EffectiveAfter(defs)
  {
    var folded := EffectiveAfter(defs);
    BeforePairsSame(folded, defs);
    forall i | 0 <= i < |defs| ensures EffectiveAfter(folded)[i] == folded[i] {
      var d, e := defs[i], folded[i];
      SameNamesSameFirst(folded, defs, d.name);
      AddAllExact(d.after, d.requires_ + d.wants);
      AddAllExact(HardAfter(d), Sources(BeforePairs(defs), d.name));
      AddAllAbsorbs(e.after, e.requires_ + e.wants);
      if FirstNamed(defs, d.name) == i {
        AddAllAbsorbs(e.after, Sources(BeforePairs(defs), d.name));
      }
    }
  }

  /** Folding keeps names and order, so it keeps uniqueness. */
  lemma FoldingKeepsNames(defs: seq<ServiceDef>)
    ensures forall i :: 0 <= i < |defs| ==> EffectiveAfter(defs)[i].name == defs[i].name
    ensures Names(EffectiveAfter(defs)) == Names(defs)
    ensures UniqueNames(defs) ==> UniqueNames(EffectiveAfter(defs))
  {
    var folded := EffectiveAfter(defs);
    forall d | d in defs ensures d.name in Names(folded) {
      var i :| 0 <= i < |defs| && defs[i] == d;
      assert folded[i] in folded && folded[i].name == d.name;
    }
    forall e | e in folded ensures e.name in Names(defs) {
      var i :| 0 <= i < |defs| && folded[i] == e;
      assert defs[i] in defs;
    }
  }
}
