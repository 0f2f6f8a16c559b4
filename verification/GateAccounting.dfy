/**
 Nothing leaks while transactions replace filter chains: at every instant each
 chain that is not retired has somebody who will retire it, and each listener
 that is not configured has somebody who will close it. And no socket has two
 active listeners while it is handed over.
 */
module GateAccounting {
  import opened Options
  import opened RequestGate

  // A listener has the chain.
  ghost predicate Installed(s: System, c: nat) {
    exists l | l in s.core.listeners :: s.core.listeners[l].chain == Some(c)
  }

  // The transaction in progress has built the chain for a kept listener, and not installed it yet.
  ghost predicate Prepared(s: System, c: nat) {
    var m := s.core.manager;
    !m.Idle? && exists k | k in m.tx.refresh && k !in Swapped(m) :: m.tx.refresh[k] == c
  }

  // The transaction in progress has taken the chain out of a kept listener.
  ghost predicate BeingReplaced(s: System, c: nat)
    requires s.core.configs != []
  {
    var m := s.core.manager;
    m.Committing? && exists k | k in m.swapped && k in m.tx.refresh && k in Current(s.core) :: Current(s.core)[k] == c
  }

  // The chain is retired or will be.
  ghost predicate Accounted(s: System, c: nat)
    requires s.core.configs != [] && c in s.chains
  {
    s.chains[c].retired || c in s.retire || Installed(s, c) || Prepared(s, c) || BeingReplaced(s, c)
  }

  // The listener is configured, staged, waiting to be closed, or closed.
  predicate Placed(c: Core, l: nat)
    requires c.configs != [] && l in c.listeners
  {
    l in Current(c) || (!c.manager.Idle? && l in c.manager.tx.staged) || l in c.close || c.listeners[l].chain.None?
  }

  ghost predicate NoLeak(s: System)
    requires s.core.configs != []
  {
    (forall c | c in s.chains :: Accounted(s, c)) && (forall l | l in s.core.listeners :: Placed(s.core, l))
  }

  lemma RequestLeaksNothing(s: System, r: nat, l: nat, s': System)
    requires s.core.configs != [] && NoLeak(s) && RequestStep(s, r, l, s')
    ensures s'.core == s.core && NoLeak(s')
  {
    forall c | c in s'.chains ensures Accounted(s', c) {
      assert c in s.chains && Accounted(s, c) && s'.chains[c].retired == s.chains[c].retired;
    }
  }

  lemma ChainLeaksNothing(s: System, c: nat, s': System)
    requires s.core.configs != [] && NoLeak(s) && ChainStep(s, c, s')
    ensures s'.core == s.core && NoLeak(s')
  {
    forall d | d in s'.chains ensures Accounted(s', d) {
      assert Accounted(s, d);
    }
  }

  lemma PrepareLeaksNothing(s: System, tx: Transaction, s': System)
    requires s.core.configs != [] && NoLeak(s) && Prepare(s, tx, s')
    ensures s'.core.configs == s.core.configs && NoLeak(s')
  {
    forall c | c in s'.chains ensures Accounted(s', c) {
      if c in s.chains {
        assert Accounted(s, c);
        if l :| l in s.core.listeners && s.core.listeners[l].chain == Some(c) {
          assert s'.core.listeners[l] == s.core.listeners[l];
        }
      } else if k :| k in tx.staged && tx.staged[k] == c {
        assert s'.core.listeners[k].chain == Some(c);
      }
    }
    forall l | l in s'.core.listeners ensures Placed(s'.core, l) {
      assert l in s.core.listeners ==> Placed(s.core, l);
    }
  }

  lemma SwapAccounts(s: System, l: nat, s': System, c: nat)
    requires s.core.configs != [] && Swap(s.core, l, s'.core) && s' == s.(core := s'.core)
    requires l in Current(s.core) && s.core.listeners[l].chain == Some(Current(s.core)[l])
    requires c in s.chains && Accounted(s, c)
    ensures Accounted(s', c)
  {
    var m := s.core.manager;
    if c == m.tx.refresh[l] {
      assert s'.core.listeners[l].chain == Some(c);
    } else if c == Current(s.core)[l] {
      assert BeingReplaced(s', c) by { assert l in s'.core.manager.swapped; }
    } else if Installed(s, c) {
      var k :| k in s.core.listeners && s.core.listeners[k].chain == Some(c);
      assert s'.core.listeners[k] == s.core.listeners[k];
    } else if Prepared(s, c) {
      var k :| k in m.tx.refresh && k !in m.swapped && m.tx.refresh[k] == c;
      assert k !in s'.core.manager.swapped;
    }
  }

  lemma SwapLeaksNothing(s: System, l: nat, s': System)
    requires Invariant(s) && NoLeak(s) && Swap(s.core, l, s'.core) && s' == s.(core := s'.core)
    ensures NoLeak(s')
  {
    assert l in Current(s.core) && s.core.listeners[l].chain == Some(Current(s.core)[l]);
    forall c | c in s'.chains ensures Accounted(s', c) {
      assert Accounted(s, c);
      SwapAccounts(s, l, s', c);
    }
    forall k | k in s'.core.listeners ensures Placed(s'.core, k) {
      assert Placed(s.core, k);
    }
  }

  lemma InsideKeepsClosing(c: Core, l: nat, readers: bool, c': Core)
    requires Inside(c, l, readers, c')
    ensures c'.close == c.close && c'.configs == c.configs && (c.manager.Committing? ==> c'.manager.Committing?)
  {}

  lemma UnderGateLeaksNothing(s: System, l: nat, s': System)
    requires Invariant(s) && NoLeak(s) && UnderGate(s, l, s')
    ensures s'.core.configs == s.core.configs && NoLeak(s')
  {
    InsideKeepsClosing(s.core, l, Readers(s), s'.core);
    if Swap(s.core, l, s'.core) {
      SwapLeaksNothing(s, l, s');
    } else {
      InsideKeepsSameChains(s.core, l, Readers(s), s'.core);
      SameChainsLeakNothing(s, s');
    }
  }

  lemma SameChainsLeakNothing(s: System, s': System)
    requires s.core.configs != [] && NoLeak(s) && SameChains(s.core, s'.core) && s'.core.close == s.core.close
    requires s.core.manager.Committing? ==> s'.core.manager.Committing?
    requires s'.chains == s.chains && s'.retire == s.retire
    ensures NoLeak(s')
  {
    forall c | c in s'.chains ensures Accounted(s', c) {
      assert Accounted(s, c);
      if k :| k in s.core.listeners && s.core.listeners[k].chain == Some(c) {
        assert s'.core.listeners[k].chain == Some(c);
      }
    }
    forall k | k in s'.core.listeners ensures Placed(s'.core, k) {
      assert Placed(s.core, k);
    }
  }

  lemma AbandonLeaksNothing(s: System, s': System)
    requires s.core.configs != [] && NoLeak(s) && Abandon(s, s')
    ensures s'.core.configs == s.core.configs && NoLeak(s')
  {
    forall c | c in s'.chains ensures Accounted(s', c) {
      assert Accounted(s, c);
      if Prepared(s, c) {
        assert c in s.core.manager.tx.refresh.Values;
      }
    }
    forall k | k in s'.core.listeners ensures Placed(s'.core, k) {
      assert Placed(s.core, k);
    }
  }

  lemma FinishAccounts(s: System, s': System, c: nat)
    requires s.core.configs != [] && Finish(s, s') && c in s.chains && Accounted(s, c)
    ensures s'.core.configs != [] && c in s'.chains && Accounted(s', c)
  {
    assert s'.core.listeners == s.core.listeners;
    assert Installed(s, c) ==> Installed(s', c);
    assert !Prepared(s, c);
  }

  lemma FinishPlaces(c: Core, l: nat, c': Core)
    requires c.configs != [] && UnlockCommitted(c, c') && l in c.listeners && Placed(c, l)
    ensures c'.configs != [] && l in c'.listeners && Placed(c', l)
  {
    var tx := c.manager.tx;
    assert Current(c') == Committed(tx, Current(c));
    assert l in Current(c) && l !in tx.removed ==> l in Current(c');
    assert l in tx.staged ==> l in Current(c');
  }

  lemma FinishLeaksNothing(s: System, s': System)
    requires s.core.configs != [] && NoLeak(s) && Finish(s, s')
    ensures s'.core.configs != [] && NoLeak(s')
  {
    forall c | c in s'.chains ensures Accounted(s', c) {
      assert Accounted(s, c);
      FinishAccounts(s, s', c);
    }
    forall k | k in s'.core.listeners ensures Placed(s'.core, k) {
      assert Placed(s.core, k);
      FinishPlaces(s.core, k, s'.core);
    }
  }

  lemma DiscardLeaksNothing(s: System, l: nat, s': System)
    requires s.core.configs != [] && NoLeak(s) && Discard(s, l, s')
    ensures s'.core.configs == s.core.configs && NoLeak(s')
  {
    forall c | c in s'.chains ensures Accounted(s', c) {
      assert Accounted(s, c);
      if k :| k in s.core.listeners && s.core.listeners[k].chain == Some(c) {
        assert k != l ==> s'.core.listeners[k] == s.core.listeners[k];
      }
    }
    forall k | k in s'.core.listeners ensures Placed(s'.core, k) {
      assert Placed(s.core, k);
    }
  }

  lemma StepLeaksNothing(s: System, s': System)
    requires Invariant(s) && NoLeak(s) && Step(s, s')
    ensures s'.core.configs != [] && NoLeak(s')
  {
    if r, l :| RequestStep(s, r, l, s') {
      RequestLeaksNothing(s, r, l, s');
    } else if c :| ChainStep(s, c, s') {
      ChainLeaksNothing(s, c, s');
    } else {
      var l, tx :| ManagerStep(s, l, tx, s');
      if Prepare(s, tx, s') {
        PrepareLeaksNothing(s, tx, s');
      } else if UnderGate(s, l, s') {
        UnderGateLeaksNothing(s, l, s');
      } else if Abandon(s, s') {
        AbandonLeaksNothing(s, s');
      } else if Finish(s, s') {
        FinishLeaksNothing(s, s');
      } else {
        DiscardLeaksNothing(s, l, s');
      }
    }
  }

  // No listeners but the configured ones, and no chains but theirs.
  ghost predicate Tidy(s: System)
    requires s.core.configs != []
  {
    s.core.listeners.Keys == Current(s.core).Keys && forall c | c in s.chains && !s.chains[c].retired :: c in Current(s.core).Values
  }

  lemma TidyLeaksNothing(s: System)
    requires Invariant(s) && Tidy(s)
    ensures NoLeak(s)
  {
    forall c | c in s.chains && !s.chains[c].retired ensures Accounted(s, c) {
      var l :| l in Current(s.core) && Current(s.core)[l] == c;
      assert s.core.manager.Committing? && l in s.core.manager.swapped && l in s.core.manager.tx.refresh ==> BeingReplaced(s, c);
      assert l in s.core.listeners;
    }
  }

  lemma {:induction false} RunLeaksNothing(run: seq<System>, i: nat)
    requires Run(run) && Tidy(run[0]) && i < |run|
    ensures Invariant(run[i]) && NoLeak(run[i])
  {
    if i == 0 {
      InitialInvariant(run[0]);
      TidyLeaksNothing(run[0]);
    } else {
      RunLeaksNothing(run, i - 1);
      RunStep(run, i);
      assert StepAt(run, i);
      StepLeaksNothing(run[i - 1], run[i]);
    }
  }

  // No transaction is in progress, and nothing waits to be closed or retired.
  predicate Settled(s: System) {
    s.core.manager.Idle? && s.core.close == {} && s.retire == {}
  }

  /**
   Whenever no transaction is in progress and everything given up has been
   retired and closed, the chains that are left are those of the configured
   listeners, and only configured listeners have a chain.
   */
  lemma NothingLeaks(run: seq<System>, i: nat)
    requires Run(run) && Tidy(run[0]) && i < |run|
    requires Settled(run[i])
    ensures var s := run[i];
            && s.core.configs != []
            && (forall c | c in s.chains && !s.chains[c].retired :: c in Current(s.core).Values)
            && (forall l | l in s.core.listeners && s.core.listeners[l].chain.Some? :: l in Current(s.core))
  {
    RunLeaksNothing(run, i);
    var s := run[i];
    forall l | l in s.core.listeners && s.core.listeners[l].chain.Some? ensures l in Current(s.core) {
      assert Placed(s.core, l);
    }
    forall c | c in s.chains && !s.chains[c].retired ensures c in Current(s.core).Values {
      assert Accounted(s, c);
      var l :| l in s.core.listeners && s.core.listeners[l].chain == Some(c);
      assert l in Current(s.core) && Current(s.core)[l] == c;
    }
  }

  // ---------------------------------------------------------------- handed-off sockets

  // A commit starts only after every hand-off has freed its socket.
  ghost predicate HandoffsAreGone(c: Core) {
    c.manager.Committing? ==> c.manager.tx.handoffs <= c.manager.gone
  }

  lemma StepKeepsHandoffsGone(s: System, s': System)
    requires s.core.configs != [] && HandoffsAreGone(s.core) && Step(s, s')
    ensures HandoffsAreGone(s'.core)
  {
    if s'.core != s.core {
      var l, tx := StepOfCore(s, s');
    }
  }

  lemma {:induction false} RunKeepsHandoffsGone(run: seq<System>, i: nat)
    requires Run(run) && i < |run|
    ensures Invariant(run[i]) && HandoffsAreGone(run[i].core)
  {
    if i == 0 {
      InitialInvariant(run[0]);
    } else {
      RunKeepsHandoffsGone(run, i - 1);
      RunStep(run, i);
      assert StepAt(run, i);
      StepKeepsHandoffsGone(run[i - 1], run[i]);
    }
  }

  // l is a listener of the transaction in progress and active; h had to free a socket for the transaction.
  predicate TakesOver(c: Core, l: nat, h: nat) {
    && !c.manager.Idle? && l in c.manager.tx.staged && h in c.manager.tx.handoffs
    && l in c.listeners && c.listeners[l].active && h in c.listeners
  }

  /** While a new listener is active, no dropped listener that had to free a socket for the transaction is. */
  lemma SocketsAreHandedOver(run: seq<System>, i: nat, l: nat, h: nat)
    requires Run(run) && i < |run|
    requires TakesOver(run[i].core, l, h)
    ensures !run[i].core.listeners[h].active
  {
    RunKeepsHandoffsGone(run, i);
    var c := run[i].core;
    assert l in Live(c) && l !in Current(c);
    assert c.manager.Committing?;
    assert h in Current(c) && h !in Live(c);
  }
}
