/**
 The chain steps of the request gate, an acquire, a release, a retirement and a
 close at once, are refined by the compare-and-swap loops: every atomic step of
 theirs is one of those steps of the gate, or none.
 */
module ChainRefinement {
  import FilterChain
  import RequestGate

  function Abstract(c: FilterChain.Chain): RequestGate.Chain {
    RequestGate.Chain(c.holders, FilterChain.IsRetired(c.word), c.closes > 0)
  }

  predicate IsAcquiring(c: FilterChain.Chain, t: nat) {
    t in c.loops && (c.loops[t].Acquiring? || c.loops[t].AcquireLoaded?)
  }

  predicate IsRetiring(c: FilterChain.Chain, t: nat) {
    t in c.loops && (c.loops[t].Retiring? || c.loops[t].RetireLoaded?)
  }

  // The thread is where the gate puts it: a request that has loaded the chain
  // acquires it, a running one releases it, and only chains given up are retired.
  predicate Linked(s: RequestGate.System, id: nat, c: FilterChain.Chain, t: nat) {
    && (IsAcquiring(c, t) ==> t in s.requests && s.requests[t].Loaded? && s.requests[t].chain == id)
    && (t in c.holders ==> t in s.requests && s.requests[t] == RequestGate.Running(id))
    && (IsRetiring(c, t) ==> id in s.retire || FilterChain.IsRetired(c.word))
  }

  ghost predicate AllLinked(s: RequestGate.System, id: nat, c: FilterChain.Chain) {
    forall t :: Linked(s, id, c, t)
  }

  // The gate's steps that touch a chain.
  predicate GateStep(s: RequestGate.System, id: nat, t: nat, s': RequestGate.System)
    requires s.core.configs != []
  {
    || RequestGate.Acquire(s, t, s') || RequestGate.Release(s, t, s')
    || RequestGate.RetireChain(s, id, s') || RequestGate.CloseChain(s, id, s')
  }

  // The system after the request acquired the chain.
  function Acquired(s: RequestGate.System, id: nat, t: nat, w: RequestGate.Chain): RequestGate.System
    requires s.core.configs != [] && t in s.requests && s.requests[t].Loaded?
  {
    var l := s.requests[t].l;
    s.(requests := s.requests[t := RequestGate.Acquired(l, id)], chains := s.chains[id := w],
       log := s.log + [RequestGate.Admission(t, l, id, |s.core.configs| - 1)])
  }

  lemma AcquireRefines(s: RequestGate.System, id: nat, c: FilterChain.Chain, t: nat, c': FilterChain.Chain) returns (s': RequestGate.System)
    requires s.core.configs != [] && id in s.chains && s.chains[id] == Abstract(c) && Linked(s, id, c, t)
    requires FilterChain.Invariant(c) && (FilterChain.AcquireLoad(c, t, c') || FilterChain.AcquireSwap(c, t, c'))
    ensures s' == s || RequestGate.Acquire(s, t, s')
    ensures s'.chains == s.chains[id := Abstract(c')]
    ensures t in c'.holders ==> t in s'.requests && s'.requests[t] == RequestGate.Acquired(s.requests[t].l, id)
    ensures FilterChain.IsRetired(c.word) && FilterChain.AcquireLoad(c, t, c') ==> t !in s'.requests
  {
    assert IsAcquiring(c, t);
    if t in c'.holders {
      assert FilterChain.AcquireSwap(c, t, c') && c.loops[t].seen < FilterChain.RETIRED - 1;
      s' := Acquired(s, id, t, Abstract(c'));
    } else if FilterChain.IsRetired(c.word) && FilterChain.AcquireLoad(c, t, c') {
      s' := s.(requests := s.requests - {t});
      assert s.chains[id := Abstract(c')] == s.chains;
    } else {
      s' := s;
      assert s.chains[id := Abstract(c')] == s.chains;
    }
  }

  // Taking one holder off never touches the retired bit.
  lemma ReleaseKeepsBit(c: FilterChain.Chain, t: nat, c': FilterChain.Chain)
    requires FilterChain.Invariant(c) && FilterChain.Release(c, t, c')
    ensures FilterChain.IsRetired(c'.word) == FilterChain.IsRetired(c.word)
  {
    assert |c.holders - {t}| == |c.holders| - 1;
    assert FilterChain.Count(c.word) > 0;
  }

  lemma ReleaseRefines(s: RequestGate.System, id: nat, c: FilterChain.Chain, t: nat, c': FilterChain.Chain) returns (s': RequestGate.System)
    requires s.core.configs != [] && id in s.chains && s.chains[id] == Abstract(c) && Linked(s, id, c, t)
    requires FilterChain.Invariant(c) && FilterChain.Release(c, t, c')
    ensures RequestGate.Release(s, t, s') && s'.chains == s.chains[id := Abstract(c')]
  {
    ReleaseKeepsBit(c, t, c');
    s' := s.(requests := s.requests - {t}, chains := s.chains[id := Abstract(c')]);
  }

  lemma RetireRefines(s: RequestGate.System, id: nat, c: FilterChain.Chain, t: nat, c': FilterChain.Chain) returns (s': RequestGate.System)
    requires id in s.chains && s.chains[id] == Abstract(c) && Linked(s, id, c, t)
    requires FilterChain.Invariant(c) && (FilterChain.RetireLoad(c, t, c') || FilterChain.RetireSwap(c, t, c'))
    ensures s' == s || RequestGate.RetireChain(s, id, s')
    ensures s'.chains == s.chains[id := Abstract(c')]
    ensures FilterChain.IsRetired(c'.word) && !FilterChain.IsRetired(c.word) ==> id !in s'.retire
  {
    assert IsRetiring(c, t);
    if FilterChain.IsRetired(c'.word) && !FilterChain.IsRetired(c.word) {
      s' := s.(chains := s.chains[id := Abstract(c')], retire := s.retire - {id});
    } else {
      s' := s;
      assert s.chains[id := Abstract(c')] == s.chains;
    }
  }

  lemma CloseRefines(s: RequestGate.System, id: nat, c: FilterChain.Chain, t: nat, c': FilterChain.Chain) returns (s': RequestGate.System)
    requires id in s.chains && s.chains[id] == Abstract(c)
    requires FilterChain.Invariant(c) && FilterChain.Close(c, t, c')
    ensures RequestGate.CloseChain(s, id, s') && s'.chains == s.chains[id := Abstract(c')]
  {
    s' := s.(chains := s.chains[id := Abstract(c')]);
  }

  /** Each atomic step of a thread on a chain is at most one step of the gate, which gives that chain its new value and no other. */
  lemma StepRefines(s: RequestGate.System, id: nat, c: FilterChain.Chain, t: nat, c': FilterChain.Chain) returns (s': RequestGate.System)
    requires s.core.configs != [] && id in s.chains && s.chains[id] == Abstract(c) && Linked(s, id, c, t)
    requires FilterChain.Invariant(c) && FilterChain.StepBy(c, t, c')
    ensures s' == s || GateStep(s, id, t, s')
    ensures s'.core == s.core && s'.chains == s.chains[id := Abstract(c')]
  {
    if FilterChain.AcquireLoad(c, t, c') || FilterChain.AcquireSwap(c, t, c') {
      s' := AcquireRefines(s, id, c, t, c');
    } else if FilterChain.Release(c, t, c') {
      s' := ReleaseRefines(s, id, c, t, c');
    } else if FilterChain.RetireLoad(c, t, c') || FilterChain.RetireSwap(c, t, c') {
      s' := RetireRefines(s, id, c, t, c');
    } else if FilterChain.Close(c, t, c') {
      s' := CloseRefines(s, id, c, t, c');
    } else {
      s' := s;
      assert s.chains[id := Abstract(c')] == s.chains;
    }
  }

  /** So every run of the loops is, step by step, a run of the gate's chain, from an open and unheld one. */
  lemma RunRefines(run: seq<FilterChain.Chain>, i: nat, s: RequestGate.System, id: nat) returns (t: nat, s': RequestGate.System)
    requires FilterChain.Run(run) && 0 < i < |run| && s.core.configs != []
    requires id in s.chains && s.chains[id] == Abstract(run[i - 1]) && AllLinked(s, id, run[i - 1])
    ensures Abstract(run[0]) == RequestGate.Chain({}, false, false)
    ensures (s' == s || GateStep(s, id, t, s')) && s'.chains == s.chains[id := Abstract(run[i])]
  {
    FilterChain.RunKeepsInvariant(run, i - 1);
    assert FilterChain.StepAt(run, i);
    t :| FilterChain.StepBy(run[i - 1], t, run[i]);
    assert Linked(s, id, run[i - 1], t);
    s' := StepRefines(s, id, run[i - 1], t, run[i]);
  }
}
