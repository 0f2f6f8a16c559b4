/**
 Requests entering listeners while xDS transactions replace filter chains.
 A request holds the shared gate for reading from its activity check until it
 has acquired a chain; a transaction publishes its whole change while holding
 the gate for writing. A chain's own steps are in module FilterChain: here an
 acquire, a release and a retirement are one step each.
 */
module RequestGate {
  import opened Options

  // Listener services, chains and requests are named by numbers.
  datatype Listener = Listener(active: bool, chain: Option<nat>)

  /**
   What a transaction prepared: new chains for kept listeners, new listeners
   with their chains, the listeners it drops, and those of them that must free
   their socket before a new listener can bind it.
   */
  datatype Transaction = Transaction(refresh: map<nat, nat>, staged: map<nat, nat>, removed: set<nat>, handoffs: set<nat>)

  datatype Manager =
    | Idle
    | Staged(tx: Transaction)
    | Locked(tx: Transaction, stopped: set<nat>)
    | RollingBack(tx: Transaction, left: set<nat>)
    | Committing(tx: Transaction, gone: set<nat>, swapped: set<nat>, started: set<nat>)

  // The listeners, the transaction in progress, the configurations published
  // so far (listener to chain), the configured listeners that are down because
  // a rollback could not restart them, the services waiting to be closed, and
  // the services that were dropped or rejected.
  datatype Core = Core(listeners: map<nat, Listener>, manager: Manager, configs: seq<map<nat, nat>>,
                       down: set<nat>, close: set<nat>, dead: set<nat>)

  predicate HoldsGate(m: Manager) {
    m.Locked? || m.RollingBack? || m.Committing?
  }

  function Current(c: Core): map<nat, nat>
    requires c.configs != []
  {
    c.configs[|c.configs| - 1]
  }

  // The configuration a commit is on its way to, as far as it has come.
  function Partial(tx: Transaction, config: map<nat, nat>, gone: set<nat>, swapped: set<nat>, started: set<nat>): map<nat, nat> {
    map l | l in config.Keys + tx.staged.Keys && ((l in config && l !in gone) || (l in started && l in tx.staged))
      :: if l in started && l in tx.staged then tx.staged[l] else if l in swapped && l in tx.refresh then tx.refresh[l] else config[l]
  }

  function Committed(tx: Transaction, config: map<nat, nat>): map<nat, nat> {
    Partial(tx, config, tx.removed, tx.refresh.Keys, tx.staged.Keys)
  }

  // A transaction prepared against the current listeners.
  predicate Fits(tx: Transaction, c: Core)
    requires c.configs != []
  {
    && tx.refresh.Keys + tx.removed <= Current(c).Keys
    && tx.refresh.Keys !! tx.removed
    && tx.handoffs <= tx.removed
    && tx.staged.Keys !! Current(c).Keys
  }

  function SetActive(listeners: map<nat, Listener>, l: nat, active: bool): map<nat, Listener>
    requires l in listeners
  {
    listeners[l := listeners[l].(active := active)]
  }

  // Every chain and listener is created, inactive, before the gate is taken.
  predicate Begin(c: Core, tx: Transaction, c': Core)
    requires c.configs != []
  {
    && c.manager.Idle? && Fits(tx, c) && tx.staged.Keys !! c.listeners.Keys
    && c' == c.(listeners := c.listeners + map l | l in tx.staged :: Listener(false, Some(tx.staged[l])), manager := Staged(tx))
  }

  predicate RejectEarly(c: Core, c': Core) {
    && c.manager.Staged?
    && c' == c.(manager := Idle, close := c.close + c.manager.tx.staged.Keys, dead := c.dead + c.manager.tx.staged.Keys)
  }

  predicate Lock(c: Core, readers: bool, c': Core) {
    c.manager.Staged? && !readers && c' == c.(manager := Locked(c.manager.tx, {}))
  }

  predicate StopOld(c: Core, l: nat, c': Core) {
    && c.manager.Locked? && l in c.manager.tx.handoffs && l in c.listeners
    && c' == c.(listeners := SetActive(c.listeners, l, false), manager := c.manager.(stopped := c.manager.stopped + {l}))
  }

  predicate Reject(c: Core, c': Core) {
    c.manager.Locked? && c' == c.(manager := RollingBack(c.manager.tx, c.manager.stopped))
  }

  predicate Restore(c: Core, l: nat, c': Core) {
    && c.manager.RollingBack? && l in c.manager.left && l in c.listeners
    && c' == c.(listeners := SetActive(c.listeners, l, true), manager := c.manager.(left := c.manager.left - {l}),
                down := c.down - {l})
  }

  predicate RestoreFails(c: Core, l: nat, c': Core) {
    && c.manager.RollingBack? && l in c.manager.left
    && c' == c.(manager := c.manager.(left := c.manager.left - {l}), down := c.down + {l})
  }

  predicate UnlockRejected(c: Core, c': Core)
    requires c.configs != []
  {
    && c.manager.RollingBack? && c.manager.left == {}
    && c' == c.(manager := Idle, close := c.close + c.manager.tx.staged.Keys, dead := c.dead + c.manager.tx.staged.Keys)
  }

  predicate Commit(c: Core, c': Core) {
    && c.manager.Locked? && c.manager.stopped == c.manager.tx.handoffs
    && c' == c.(manager := Committing(c.manager.tx, c.manager.stopped, {}, {}))
  }

  predicate Remove(c: Core, l: nat, c': Core) {
    && c.manager.Committing? && l in c.manager.tx.removed && l in c.listeners
    && c' == c.(listeners := SetActive(c.listeners, l, false), manager := c.manager.(gone := c.manager.gone + {l}))
  }

  predicate Swap(c: Core, l: nat, c': Core) {
    && c.manager.Committing? && l in c.manager.tx.refresh && l !in c.manager.swapped && l in c.listeners
    && c' == c.(listeners := c.listeners[l := c.listeners[l].(chain := Some(c.manager.tx.refresh[l]))],
                manager := c.manager.(swapped := c.manager.swapped + {l}))
  }

  predicate Activate(c: Core, l: nat, c': Core) {
    && c.manager.Committing? && l in c.manager.tx.staged && l in c.listeners
    && c' == c.(listeners := SetActive(c.listeners, l, true), manager := c.manager.(started := c.manager.started + {l}))
  }

  predicate UnlockCommitted(c: Core, c': Core)
    requires c.configs != []
  {
    && c.manager.Committing? && c.manager.gone == c.manager.tx.removed
    && c.manager.swapped == c.manager.tx.refresh.Keys && c.manager.started == c.manager.tx.staged.Keys
    && c' == c.(manager := Idle, configs := c.configs + [Committed(c.manager.tx, Current(c))],
                down := c.down - c.manager.tx.removed, close := c.close + c.manager.tx.removed, dead := c.dead + c.manager.tx.removed)
  }

  // CloseFilterChain, on a dropped or rejected listener: a short write section of its own.
  predicate CloseListener(c: Core, l: nat, readers: bool, c': Core) {
    && l in c.close && l in c.listeners && !readers && !HoldsGate(c.manager)
    && c' == c.(listeners := c.listeners[l := Listener(false, None)], close := c.close - {l})
  }

  // The listeners that are active now, with their chains.
  function Live(c: Core): map<nat, nat>
    requires c.configs != []
  {
    (match c.manager
     case Idle => Current(c)
     case Staged(_) => Current(c)
     case Locked(_, stopped) => Current(c) - stopped
     case RollingBack(_, left) => Current(c) - left
     case Committing(tx, gone, swapped, started) => Partial(tx, Current(c), gone, swapped, started)) - c.down
  }

  ghost predicate LiveMatches(c: Core)
    requires c.configs != []
  {
    var live := Live(c);
    && (forall l | l in live :: l in c.listeners && c.listeners[l] == Listener(true, Some(live[l])))
    && (forall l | l in c.listeners && c.listeners[l].active :: l in live)
  }

  // The chain of a configured listener, active or stopped for a hand-off.
  ghost predicate ConfiguredHaveChains(c: Core)
    requires c.configs != []
  {
    forall l | l in Current(c) :: l in c.listeners && c.listeners[l].chain
      == Some(if c.manager.Committing? && l in c.manager.swapped && l in c.manager.tx.refresh
              then c.manager.tx.refresh[l] else Current(c)[l])
  }

  ghost predicate InProgress(c: Core)
    requires c.configs != []
  {
    var m := c.manager;
    && (!m.Idle? ==>
        && Fits(m.tx, c) && m.tx.staged.Keys !! c.dead
        && (forall l | l in m.tx.staged :: l in c.listeners && c.listeners[l].chain == Some(m.tx.staged[l])))
    && (m.Locked? ==> m.stopped <= m.tx.handoffs)
    && (m.RollingBack? ==> m.left <= m.tx.handoffs)
    && (m.Committing? ==> m.gone <= m.tx.removed && m.swapped <= m.tx.refresh.Keys && m.started <= m.tx.staged.Keys)
  }

  ghost predicate DeadAreOut(c: Core)
    requires c.configs != []
  {
    c.close <= c.dead <= c.listeners.Keys && c.dead !! Current(c).Keys && c.down <= Current(c).Keys
  }

  ghost predicate CoreInvariant(c: Core) {
    c.configs != [] && LiveMatches(c) && ConfiguredHaveChains(c) && InProgress(c) && DeadAreOut(c)
  }

  // The steps that take or hold the gate and give up nothing.
  predicate Inside(c: Core, l: nat, readers: bool, c': Core) {
    || Lock(c, readers, c') || StopOld(c, l, c') || Reject(c, c') || Restore(c, l, c') || RestoreFails(c, l, c')
    || Commit(c, c') || Remove(c, l, c') || Swap(c, l, c') || Activate(c, l, c')
  }

  lemma RollBackKeeps(c: Core, l: nat, c': Core)
    requires CoreInvariant(c) && (StopOld(c, l, c') || Restore(c, l, c') || RestoreFails(c, l, c'))
    ensures CoreInvariant(c')
  {
    if StopOld(c, l, c') {} else if Restore(c, l, c') {} else {}
  }

  lemma RemoveKeeps(c: Core, l: nat, c': Core)
    requires CoreInvariant(c) && Remove(c, l, c')
    ensures CoreInvariant(c')
  {}

  lemma SwapKeeps(c: Core, l: nat, c': Core)
    requires CoreInvariant(c) && Swap(c, l, c')
    ensures CoreInvariant(c')
  {}

  lemma ActivateKeeps(c: Core, l: nat, c': Core)
    requires CoreInvariant(c) && Activate(c, l, c')
    ensures CoreInvariant(c')
  {}

  lemma InsideKeeps(c: Core, l: nat, readers: bool, c': Core)
    requires CoreInvariant(c) && Inside(c, l, readers, c')
    ensures CoreInvariant(c')
    ensures c'.configs == c.configs && c'.dead == c.dead && HoldsGate(c'.manager) && (HoldsGate(c.manager) || !readers)
  {
    if StopOld(c, l, c') || Restore(c, l, c') || RestoreFails(c, l, c') {
      RollBackKeeps(c, l, c');
    } else if Remove(c, l, c') {
      RemoveKeeps(c, l, c');
    } else if Swap(c, l, c') {
      SwapKeeps(c, l, c');
    } else if Activate(c, l, c') {
      ActivateKeeps(c, l, c');
    }
  }

  lemma UnlockKeeps(c: Core, c': Core)
    requires CoreInvariant(c) && (UnlockRejected(c, c') || UnlockCommitted(c, c'))
    ensures CoreInvariant(c')
  {
    if UnlockRejected(c, c') {} else {}
  }

  lemma OutsideKeeps(c: Core, l: nat, tx: Transaction, readers: bool, c': Core)
    requires CoreInvariant(c) && (Begin(c, tx, c') || RejectEarly(c, c') || CloseListener(c, l, readers, c'))
    ensures CoreInvariant(c')
  {
    if Begin(c, tx, c') {} else if RejectEarly(c, c') {} else {}
  }

  // A request in the gate has entered, seen an active listener, loaded its
  // chain, acquired it; then it leaves the gate and runs.
  datatype Position = Entered(l: nat) | Checked(l: nat) | Loaded(l: nat, chain: nat) | Acquired(l: nat, chain: nat) | Running(chain: nat)

  datatype Chain = Chain(holders: set<nat>, retired: bool, closed: bool)

  // A request that was let in, and the number of configurations published before it.
  datatype Admission = Admission(request: nat, listener: nat, chain: nat, epoch: nat)

  datatype System = System(core: Core, requests: map<nat, Position>, log: seq<Admission>, chains: map<nat, Chain>, retire: set<nat>)

  ghost predicate Readers(s: System) {
    exists r | r in s.requests :: !s.requests[r].Running?
  }

  predicate Enter(s: System, r: nat, l: nat, s': System) {
    r !in s.requests && !HoldsGate(s.core.manager) && s' == s.(requests := s.requests[r := Entered(l)])
  }

  predicate CheckActive(s: System, r: nat, s': System) {
    && r in s.requests && s.requests[r].Entered?
    && var l := s.requests[r].l;
      s' == s.(requests := if l in s.core.listeners && s.core.listeners[l].active then s.requests[r := Checked(l)]
                           else s.requests - {r})
  }

  predicate LoadChain(s: System, r: nat, s': System) {
    && r in s.requests && s.requests[r].Checked?
    && var l := s.requests[r].l;
      s' == s.(requests := if l in s.core.listeners && s.core.listeners[l].chain.Some?
                           then s.requests[r := Loaded(l, s.core.listeners[l].chain.value)]
                           else s.requests - {r})
  }

  predicate Acquire(s: System, r: nat, s': System)
    requires s.core.configs != []
  {
    && r in s.requests && s.requests[r].Loaded?
    && var l, c := s.requests[r].l, s.requests[r].chain;
      s' == if c in s.chains && !s.chains[c].retired
            then s.(requests := s.requests[r := Acquired(l, c)],
                    chains := s.chains[c := s.chains[c].(holders := s.chains[c].holders + {r})],
                    log := s.log + [Admission(r, l, c, |s.core.configs| - 1)])
            else s.(requests := s.requests - {r})
  }

  predicate LeaveGate(s: System, r: nat, s': System) {
    && r in s.requests && s.requests[r].Acquired?
    && s' == s.(requests := s.requests[r := Running(s.requests[r].chain)])
  }

  predicate Release(s: System, r: nat, s': System) {
    && r in s.requests && s.requests[r].Running? && s.requests[r].chain in s.chains
    && var c := s.requests[r].chain;
      s' == s.(requests := s.requests - {r}, chains := s.chains[c := s.chains[c].(holders := s.chains[c].holders - {r})])
  }

  predicate RetireChain(s: System, c: nat, s': System) {
    && c in s.retire && c in s.chains
    && s' == s.(chains := s.chains[c := s.chains[c].(retired := true)], retire := s.retire - {c})
  }

  predicate CloseChain(s: System, c: nat, s': System) {
    && c in s.chains && s.chains[c].retired && s.chains[c].holders == {}
    && s' == s.(chains := s.chains[c := s.chains[c].(closed := true)])
  }

  predicate Injective(m: map<nat, nat>) {
    forall k, l | k in m && l in m && m[k] == m[l] :: k == l
  }

  // The chains a transaction builds are new, and not shared between listeners.
  predicate BuildsNewChains(tx: Transaction, chains: map<nat, Chain>) {
    && Injective(tx.refresh) && Injective(tx.staged) && tx.refresh.Values !! tx.staged.Values
    && (tx.refresh.Values + tx.staged.Values) !! chains.Keys
  }

  function NewChains(ids: set<nat>): map<nat, Chain> {
    map c | c in ids :: Chain({}, false, false)
  }

  predicate Prepare(s: System, tx: Transaction, s': System)
    requires s.core.configs != []
  {
    && Begin(s.core, tx, s'.core) && BuildsNewChains(tx, s.chains)
    && s' == s.(core := s'.core, chains := s.chains + NewChains(tx.refresh.Values + tx.staged.Values))
  }

  ghost predicate UnderGate(s: System, l: nat, s': System) {
    Inside(s.core, l, Readers(s), s'.core) && s' == s.(core := s'.core)
  }

  // A rejected transaction gives up the chains it prepared.
  predicate Abandon(s: System, s': System)
    requires s.core.configs != []
  {
    && (RejectEarly(s.core, s'.core) || UnlockRejected(s.core, s'.core))
    && s' == s.(core := s'.core, retire := s.retire + s.core.manager.tx.refresh.Values)
  }

  // A committed one gives up the chains it replaced.
  predicate Finish(s: System, s': System)
    requires s.core.configs != []
  {
    && UnlockCommitted(s.core, s'.core)
    && s' == s.(core := s'.core,
                retire := s.retire + set k | k in s.core.manager.tx.refresh && k in Current(s.core) :: Current(s.core)[k])
  }

  ghost predicate Discard(s: System, l: nat, s': System) {
    && CloseListener(s.core, l, Readers(s), s'.core)
    && s' == s.(core := s'.core,
                retire := s.retire + if s.core.listeners[l].chain.Some? then {s.core.listeners[l].chain.value} else {})
  }

  predicate RequestStep(s: System, r: nat, l: nat, s': System)
    requires s.core.configs != []
  {
    || Enter(s, r, l, s') || CheckActive(s, r, s') || LoadChain(s, r, s') || Acquire(s, r, s')
    || LeaveGate(s, r, s') || Release(s, r, s')
  }

  predicate ChainStep(s: System, c: nat, s': System) {
    RetireChain(s, c, s') || CloseChain(s, c, s')
  }

  ghost predicate ManagerStep(s: System, l: nat, tx: Transaction, s': System)
    requires s.core.configs != []
  {
    Prepare(s, tx, s') || UnderGate(s, l, s') || Abandon(s, s') || Finish(s, s') || Discard(s, l, s')
  }

  ghost predicate Step(s: System, s': System)
    requires s.core.configs != []
  {
    || (exists r, l :: RequestStep(s, r, l, s'))
    || (exists c :: ChainStep(s, c, s'))
    || (exists l, tx :: ManagerStep(s, l, tx, s'))
  }

  ghost predicate GateExcludes(s: System) {
    HoldsGate(s.core.manager) ==> !Readers(s)
  }

  // What a request in the gate has seen is still the current configuration.
  ghost predicate SeesCurrent(s: System)
    requires s.core.configs != []
  {
    forall r | r in s.requests ::
      && (s.requests[r].Checked? ==> s.requests[r].l in Current(s.core))
      && (s.requests[r].Loaded? || s.requests[r].Acquired? ==>
          s.requests[r].l in Current(s.core) && Current(s.core)[s.requests[r].l] == s.requests[r].chain)
  }

  ghost predicate LogFollowsConfigs(configs: seq<map<nat, nat>>, log: seq<Admission>) {
    && (forall i | 0 <= i < |log| ::
          log[i].epoch < |configs| && log[i].listener in configs[log[i].epoch]
          && configs[log[i].epoch][log[i].listener] == log[i].chain)
    && (forall i, j | 0 <= i < j < |log| :: log[i].epoch <= log[j].epoch)
  }

  ghost predicate AdmissionInvariant(s: System) {
    CoreInvariant(s.core) && GateExcludes(s) && SeesCurrent(s) && LogFollowsConfigs(s.core.configs, s.log)
  }

  lemma RequestKeepsAdmission(s: System, r: nat, l: nat, s': System)
    requires AdmissionInvariant(s) && RequestStep(s, r, l, s')
    ensures AdmissionInvariant(s')
  {
    assert r in s.requests && !s.requests[r].Running? ==> Readers(s);
    RequestKeepsSight(s, r, l, s');
    if Acquire(s, r, s') {
      AcquireLogs(s, r, s');
    }
    if Readers(s') {
      var q :| q in s'.requests && !s'.requests[q].Running?;
      assert q == r || (q in s.requests && !s.requests[q].Running?);
    }
  }

  lemma RequestKeepsSight(s: System, r: nat, l: nat, s': System)
    requires AdmissionInvariant(s) && RequestStep(s, r, l, s')
    ensures SeesCurrent(s')
  {
    assert r in s.requests && !s.requests[r].Running? ==> Readers(s);
    assert forall q | q in s'.requests && q != r :: q in s.requests && s'.requests[q] == s.requests[q];
    if CheckActive(s, r, s') {
      assert forall k | k in Live(s.core) :: k in Current(s.core) && Live(s.core)[k] == Current(s.core)[k];
    } else if LoadChain(s, r, s') {
      assert forall k | k in Live(s.core) :: k in Current(s.core) && Live(s.core)[k] == Current(s.core)[k];
    }
  }

  lemma AcquireLogs(s: System, r: nat, s': System)
    requires AdmissionInvariant(s) && Acquire(s, r, s')
    ensures LogFollowsConfigs(s'.core.configs, s'.log)
  {}

  lemma LogGrowsWithConfigs(configs: seq<map<nat, nat>>, more: seq<map<nat, nat>>, log: seq<Admission>)
    requires LogFollowsConfigs(configs, log) && configs <= more
    ensures LogFollowsConfigs(more, log)
  {}

  lemma ManagerKeepsAdmission(s: System, l: nat, tx: Transaction, s': System)
    requires AdmissionInvariant(s) && ManagerStep(s, l, tx, s')
    ensures AdmissionInvariant(s')
    ensures s'.log == s.log && s'.requests == s.requests && s.core.dead <= s'.core.dead
  {
    if UnderGate(s, l, s') {
      InsideKeeps(s.core, l, Readers(s), s'.core);
    } else if Finish(s, s') || (Abandon(s, s') && UnlockRejected(s.core, s'.core)) {
      UnlockKeeps(s.core, s'.core);
      LogGrowsWithConfigs(s.core.configs, s'.core.configs, s.log);
      assert forall r | r in s.requests :: s.requests[r].Running?;
    } else {
      OutsideKeeps(s.core, l, tx, Readers(s), s'.core);
      assert s'.core.configs == s.core.configs;
    }
    assert Readers(s') == Readers(s);
  }

  // A chain that no listener has installed.
  ghost predicate NotInstalled(listeners: map<nat, Listener>, c: nat) {
    forall l | l in listeners :: listeners[l].chain != Some(c)
  }

  ghost predicate Open(s: System, c: nat) {
    c in s.chains && !s.chains[c].retired && c !in s.retire
  }

  ghost predicate InstalledAreOpen(s: System) {
    && (forall l | l in s.core.listeners && s.core.listeners[l].chain.Some? :: Open(s, s.core.listeners[l].chain.value))
    && (forall k, l | k in s.core.listeners && l in s.core.listeners && k != l && s.core.listeners[k].chain.Some? ::
          s.core.listeners[k].chain != s.core.listeners[l].chain)
  }

  function Swapped(m: Manager): set<nat> {
    if m.Committing? then m.swapped else {}
  }

  // The chains of a transaction are its own.
  predicate Separate(tx: Transaction, config: map<nat, nat>) {
    Injective(tx.refresh) && forall k, l | k in tx.refresh && l in config :: tx.refresh[k] != config[l]
  }

  // Prepared chains wait to be installed.
  ghost predicate Waiting(s: System, tx: Transaction, swapped: set<nat>) {
    forall l | l in tx.refresh && l !in swapped :: Open(s, tx.refresh[l]) && NotInstalled(s.core.listeners, tx.refresh[l])
  }

  // Replaced chains are installed nowhere.
  ghost predicate Replaced(s: System, config: map<nat, nat>, swapped: set<nat>) {
    forall l | l in swapped && l in config :: config[l] in s.chains && NotInstalled(s.core.listeners, config[l])
  }

  ghost predicate PreparedAreOpen(s: System)
    requires s.core.configs != []
  {
    var m := s.core.manager;
    !m.Idle? ==>
      Separate(m.tx, Current(s.core)) && Waiting(s, m.tx, Swapped(m)) && Replaced(s, Current(s.core), Swapped(m))
  }

  ghost predicate HoldersHold(s: System) {
    && s.retire <= s.chains.Keys
    && (forall r | r in s.requests && (s.requests[r].Acquired? || s.requests[r].Running?) ::
          s.requests[r].chain in s.chains && r in s.chains[s.requests[r].chain].holders)
    && (forall c | c in s.chains && s.chains[c].closed :: s.chains[c].retired && s.chains[c].holders == {})
  }

  ghost predicate Invariant(s: System) {
    AdmissionInvariant(s) && InstalledAreOpen(s) && PreparedAreOpen(s) && HoldersHold(s)
  }

  lemma RequestKeepsChains(s: System, r: nat, l: nat, s': System)
    requires Invariant(s) && RequestStep(s, r, l, s')
    ensures InstalledAreOpen(s') && PreparedAreOpen(s')
  {
    assert s'.core == s.core && s'.retire == s.retire;
    assert forall c | c in s.chains :: c in s'.chains && s'.chains[c].retired == s.chains[c].retired;
  }

  lemma OutsideChainKeepsHolders(s: System, r: nat, l: nat, s': System)
    requires Invariant(s) && (Enter(s, r, l, s') || CheckActive(s, r, s') || LoadChain(s, r, s') || LeaveGate(s, r, s'))
    ensures HoldersHold(s')
  {
    assert s'.chains == s.chains;
    assert forall q | q in s'.requests && q != r :: q in s.requests && s'.requests[q] == s.requests[q];
  }

  lemma AcquireKeepsHolders(s: System, r: nat, s': System)
    requires Invariant(s) && Acquire(s, r, s')
    ensures HoldersHold(s')
  {
    assert forall q | q in s'.requests && q != r :: q in s.requests && s'.requests[q] == s.requests[q];
    assert forall c | c in s.chains :: c in s'.chains && s.chains[c].holders <= s'.chains[c].holders;
    assert forall c | c in s'.chains && s'.chains[c].closed :: s'.chains[c] == s.chains[c];
  }

  lemma ReleaseKeepsHolders(s: System, r: nat, s': System)
    requires Invariant(s) && Release(s, r, s')
    ensures HoldersHold(s')
  {
    assert forall q | q in s'.requests :: q != r && q in s.requests && s'.requests[q] == s.requests[q];
    assert forall c, q | c in s.chains && q in s.chains[c].holders && q != r :: q in s'.chains[c].holders;
  }

  lemma RequestKeepsHolders(s: System, r: nat, l: nat, s': System)
    requires Invariant(s) && RequestStep(s, r, l, s')
    ensures HoldersHold(s')
  {
    if Acquire(s, r, s') {
      AcquireKeepsHolders(s, r, s');
    } else if Release(s, r, s') {
      ReleaseKeepsHolders(s, r, s');
    } else {
      OutsideChainKeepsHolders(s, r, l, s');
    }
  }

  lemma ChainStepKeeps(s: System, c: nat, s': System)
    requires Invariant(s) && ChainStep(s, c, s')
    ensures Invariant(s')
  {
    assert s'.requests == s.requests && s'.core == s.core;
    assert Readers(s') == Readers(s);
  }

  lemma PrepareKeepsInstalled(s: System, tx: Transaction, s': System)
    requires Invariant(s) && Prepare(s, tx, s')
    ensures InstalledAreOpen(s') && HoldersHold(s')
  {
    var listeners := s'.core.listeners;
    forall l | l in listeners && listeners[l].chain.Some? ensures Open(s', listeners[l].chain.value) {
      if l !in tx.staged {
        assert Open(s, s.core.listeners[l].chain.value);
      }
    }
    forall k, l | k in listeners && l in listeners && k != l && listeners[k].chain.Some?
      ensures listeners[k].chain != listeners[l].chain
    {
      if k in tx.staged && l !in tx.staged && s.core.listeners[l].chain.Some? {
        assert Open(s, s.core.listeners[l].chain.value);
      } else if k !in tx.staged && l in tx.staged {
        assert Open(s, s.core.listeners[k].chain.value);
      }
    }
  }

  lemma PreparedIsSeparate(s: System, tx: Transaction)
    requires CoreInvariant(s.core) && s.core.manager.Idle? && InstalledAreOpen(s) && BuildsNewChains(tx, s.chains)
    ensures Separate(tx, Current(s.core))
  {
    forall k, l | k in tx.refresh && l in Current(s.core) ensures tx.refresh[k] != Current(s.core)[l] {
      assert tx.refresh[k] in tx.refresh.Values;
      assert Open(s, s.core.listeners[l].chain.value);
    }
  }

  lemma PreparedIsWaiting(s: System, tx: Transaction, s': System)
    requires InstalledAreOpen(s) && s.retire <= s.chains.Keys && BuildsNewChains(tx, s.chains)
    requires s'.core.listeners == s.core.listeners + map l | l in tx.staged :: Listener(false, Some(tx.staged[l]))
    requires s'.chains == s.chains + NewChains(tx.refresh.Values + tx.staged.Values) && s'.retire == s.retire
    ensures Waiting(s', tx, {})
  {
    forall l | l in tx.refresh ensures Open(s', tx.refresh[l]) && NotInstalled(s'.core.listeners, tx.refresh[l]) {
      assert tx.refresh[l] in tx.refresh.Values && tx.refresh[l] !in s.chains;
      forall k | k in s'.core.listeners ensures s'.core.listeners[k].chain != Some(tx.refresh[l]) {
        if k in tx.staged {
          assert tx.staged[k] in tx.staged.Values;
        } else if s.core.listeners[k].chain.Some? {
          assert Open(s, s.core.listeners[k].chain.value);
        }
      }
    }
  }

  lemma PrepareKeepsChains(s: System, tx: Transaction, s': System)
    requires Invariant(s) && Prepare(s, tx, s')
    ensures InstalledAreOpen(s') && PreparedAreOpen(s') && HoldersHold(s')
  {
    assert InstalledAreOpen(s') && HoldersHold(s') by { PrepareKeepsInstalled(s, tx, s'); }
    assert PreparedAreOpen(s') by {
      assert Separate(tx, Current(s.core)) by { PreparedIsSeparate(s, tx); }
      assert Waiting(s', tx, {}) by { PreparedIsWaiting(s, tx, s'); }
    }
  }

  // Installing a prepared chain in place of another.
  lemma SwapInstalls(listeners: map<nat, Listener>, l: nat, c: nat, after: map<nat, Listener>)
    requires l in listeners && listeners[l].chain.Some? && NotInstalled(listeners, c)
    requires after == listeners[l := listeners[l].(chain := Some(c))]
    requires forall k | k in listeners && k != l :: listeners[k].chain != listeners[l].chain
    ensures forall d | d != c && NotInstalled(listeners, d) :: NotInstalled(after, d)
    ensures NotInstalled(after, listeners[l].chain.value)
  {}

  lemma SwapKeepsChains(s: System, l: nat, s': System)
    requires Invariant(s) && Swap(s.core, l, s'.core) && s' == s.(core := s'.core)
    ensures InstalledAreOpen(s') && PreparedAreOpen(s')
  {
    var m := s.core.manager;
    var c := m.tx.refresh[l];
    assert Open(s, c) && NotInstalled(s.core.listeners, c);
    assert s.core.listeners[l].chain == Some(Current(s.core)[l]);
    SwapInstalls(s.core.listeners, l, c, s'.core.listeners);
    SwapKeepsInstalled(s, l, c, s');
    assert Open(s, Current(s.core)[l]);
    SwapKeepsPrepared(s, m.tx, Current(s.core), m.swapped, l, s');
  }

  lemma SwapKeepsPrepared(s: System, tx: Transaction, config: map<nat, nat>, swapped: set<nat>, l: nat, s': System)
    requires Separate(tx, config) && Waiting(s, tx, swapped) && Replaced(s, config, swapped)
    requires l in tx.refresh && l in config && config[l] in s.chains
    requires forall d | d != tx.refresh[l] && NotInstalled(s.core.listeners, d) :: NotInstalled(s'.core.listeners, d)
    requires NotInstalled(s'.core.listeners, config[l])
    requires s'.chains == s.chains && s'.retire == s.retire
    ensures Waiting(s', tx, swapped + {l}) && Replaced(s', config, swapped + {l})
  {
    forall k | k in tx.refresh && k !in swapped + {l}
      ensures Open(s', tx.refresh[k]) && NotInstalled(s'.core.listeners, tx.refresh[k])
    {
      assert Open(s, tx.refresh[k]);
    }
  }

  lemma SwapKeepsInstalled(s: System, l: nat, c: nat, s': System)
    requires InstalledAreOpen(s) && l in s.core.listeners && Open(s, c) && NotInstalled(s.core.listeners, c)
    requires s'.core.listeners == s.core.listeners[l := s.core.listeners[l].(chain := Some(c))]
    requires s'.chains == s.chains && s'.retire == s.retire
    ensures InstalledAreOpen(s')
  {}

  ghost predicate SameChains(c: Core, c': Core) {
    && c'.listeners.Keys == c.listeners.Keys
    && (forall l | l in c.listeners :: c'.listeners[l].chain == c.listeners[l].chain)
    && c'.configs == c.configs && !c.manager.Idle? && !c'.manager.Idle?
    && c'.manager.tx == c.manager.tx && Swapped(c'.manager) == Swapped(c.manager)
  }

  lemma InsideKeepsSameChains(c: Core, l: nat, readers: bool, c': Core)
    requires Inside(c, l, readers, c') && !Swap(c, l, c')
    ensures SameChains(c, c')
  {}

  lemma SameChainsKeep(s: System, s': System)
    requires s.core.configs != [] && InstalledAreOpen(s) && PreparedAreOpen(s)
    requires SameChains(s.core, s'.core) && s'.chains == s.chains && s'.retire == s.retire
    ensures InstalledAreOpen(s') && PreparedAreOpen(s')
  {
    forall c | NotInstalled(s.core.listeners, c) ensures NotInstalled(s'.core.listeners, c) {}
    forall l | l in s'.core.listeners && s'.core.listeners[l].chain.Some? ensures Open(s', s'.core.listeners[l].chain.value) {
      assert Open(s, s.core.listeners[l].chain.value);
    }
    forall c | Open(s, c) ensures Open(s', c) {}
  }

  lemma UnderGateKeepsChains(s: System, l: nat, s': System)
    requires Invariant(s) && UnderGate(s, l, s')
    ensures InstalledAreOpen(s') && PreparedAreOpen(s') && HoldersHold(s')
  {
    if Swap(s.core, l, s'.core) {
      SwapKeepsChains(s, l, s');
    } else {
      InsideKeepsSameChains(s.core, l, Readers(s), s'.core);
      SameChainsKeep(s, s');
    }
  }

  lemma AbandonKeepsChains(s: System, s': System)
    requires Invariant(s) && (Abandon(s, s') || Finish(s, s'))
    ensures InstalledAreOpen(s') && PreparedAreOpen(s') && HoldersHold(s')
  {}

  lemma DiscardKeepsChains(s: System, l: nat, s': System)
    requires Invariant(s) && Discard(s, l, s')
    ensures InstalledAreOpen(s') && PreparedAreOpen(s') && HoldersHold(s')
  {}

  lemma ManagerKeepsInvariant(s: System, l: nat, tx: Transaction, s': System)
    requires Invariant(s) && ManagerStep(s, l, tx, s')
    ensures Invariant(s')
  {
    ManagerKeepsAdmission(s, l, tx, s');
    if Prepare(s, tx, s') {
      PrepareKeepsChains(s, tx, s');
    } else if UnderGate(s, l, s') {
      UnderGateKeepsChains(s, l, s');
    } else if Discard(s, l, s') {
      DiscardKeepsChains(s, l, s');
    } else {
      AbandonKeepsChains(s, s');
    }
  }

  lemma RequestKeepsInvariant(s: System, r: nat, l: nat, s': System)
    requires Invariant(s) && RequestStep(s, r, l, s')
    ensures Invariant(s')
  {
    RequestKeepsAdmission(s, r, l, s');
    RequestKeepsChains(s, r, l, s');
    RequestKeepsHolders(s, r, l, s');
  }

  // What no step undoes: dropped listeners stay dropped, and the log grows
  // only by admissions of listeners that are not.
  ghost predicate Later(s: System, s': System) {
    && s.core.dead <= s'.core.dead
    && s.core.configs <= s'.core.configs
    && s.log <= s'.log
    && (forall i | |s.log| <= i < |s'.log| :: s'.log[i].listener !in s.core.dead)
  }

  lemma RequestMovesForward(s: System, r: nat, l: nat, s': System)
    requires Invariant(s) && RequestStep(s, r, l, s')
    ensures Later(s, s')
  {
    assert s'.core == s.core;
  }

  lemma ManagerMovesForward(s: System, l: nat, tx: Transaction, s': System)
    requires Invariant(s) && ManagerStep(s, l, tx, s')
    ensures Later(s, s')
  {
    ManagerKeepsAdmission(s, l, tx, s');
    if UnderGate(s, l, s') {
      InsideKeeps(s.core, l, Readers(s), s'.core);
    }
  }

  /** Every step keeps the invariant and moves forward. */
  lemma StepKeepsInvariant(s: System, s': System)
    requires Invariant(s) && Step(s, s')
    ensures Invariant(s') && Later(s, s')
  {
    if r, l :| RequestStep(s, r, l, s') {
      RequestKeepsInvariant(s, r, l, s');
      RequestMovesForward(s, r, l, s');
    } else if l, tx :| ManagerStep(s, l, tx, s') {
      ManagerKeepsInvariant(s, l, tx, s');
      ManagerMovesForward(s, l, tx, s');
    } else {
      var c :| ChainStep(s, c, s');
      ChainStepKeeps(s, c, s');
    }
  }

  // A manager with its static listeners, each with an open chain of its own.
  ghost predicate Initial(s: System) {
    && s.core.manager.Idle? && s.core.down == {} && s.core.close == {} && s.core.dead == {} && |s.core.configs| == 1
    && s.requests == map[] && s.log == [] && s.retire == {}
    && LiveMatches(s.core) && InstalledAreOpen(s)
    && (forall c | c in s.chains :: s.chains[c] == Chain({}, false, false))
  }

  ghost predicate StepAt(run: seq<System>, i: nat)
    requires 0 < i < |run|
  {
    run[i - 1].core.configs != [] && Step(run[i - 1], run[i])
  }

  ghost predicate Run(run: seq<System>) {
    run != [] && Initial(run[0]) && forall i: nat | 0 < i < |run| :: StepAt(run, i)
  }

  lemma InitialInvariant(s: System)
    requires Initial(s)
    ensures Invariant(s)
  {}

  lemma RunStep(run: seq<System>, i: nat)
    requires Run(run) && 0 < i < |run| && Invariant(run[i - 1])
    ensures Invariant(run[i]) && Later(run[i - 1], run[i])
  {
    assert StepAt(run, i);
    StepKeepsInvariant(run[i - 1], run[i]);
  }

  lemma {:induction false} RunKeepsInvariant(run: seq<System>, i: nat)
    requires Run(run) && i < |run|
    ensures Invariant(run[i])
  {
    if i == 0 {
      InitialInvariant(run[0]);
    } else {
      RunKeepsInvariant(run, i - 1);
      RunStep(run, i);
    }
  }

  lemma LaterTransitive(a: System, b: System, c: System)
    requires Later(a, b) && Later(b, c)
    ensures Later(a, c)
  {
    forall i | |a.log| <= i < |c.log| ensures c.log[i].listener !in a.core.dead {
      if i < |b.log| {
        assert c.log[i] == b.log[i];
      }
    }
  }

  lemma {:induction false} RunMovesForward(run: seq<System>, i: nat, j: nat)
    requires Run(run) && i <= j < |run|
    ensures Later(run[i], run[j])
    decreases j
  {
    if i < j {
      RunMovesForward(run, i, j - 1);
      RunKeepsInvariant(run, j - 1);
      RunStep(run, j);
      LaterTransitive(run[i], run[j - 1], run[j]);
    }
  }

  /**
   In every run, each request was let in on the chain its listener has in one
   published configuration, and the configurations only move forward in the
   order of admission: requests use the chains from before a transaction, then,
   across all listeners at once, only those from after it.
   */
  lemma AdmissionsFollowConfigurations(run: seq<System>, n: nat, i: nat, j: nat)
    requires Run(run) && n < |run| && i <= j < |run[n].log|
    ensures var configs, a := run[n].core.configs, run[n].log[i];
      a.epoch < |configs| && a.listener in configs[a.epoch] && configs[a.epoch][a.listener] == a.chain
    ensures run[n].log[i].epoch <= run[n].log[j].epoch
  {
    RunKeepsInvariant(run, n);
  }

  /** A listener staged by a rejected transaction, or dropped by a committed one, lets nothing in any more. */
  lemma DroppedListenersAdmitNothing(run: seq<System>, i: nat, j: nat, k: nat)
    requires Run(run) && i <= j < |run| && |run[i].log| <= k < |run[j].log|
    ensures run[j].log[k].listener !in run[i].core.dead
  {
    RunMovesForward(run, i, j);
  }

  /** A running request's chain is not closed, and an active listener's chain is not even retired. */
  lemma RequestsRunOnOpenChains(run: seq<System>, n: nat)
    requires Run(run) && n < |run|
    ensures forall r | r in run[n].requests && run[n].requests[r].Running? ::
      var c := run[n].requests[r].chain; c in run[n].chains && r in run[n].chains[c].holders && !run[n].chains[c].closed
    ensures forall l | l in run[n].core.listeners && run[n].core.listeners[l].active ::
      var c := run[n].core.listeners[l].chain; c.Some? && c.value in run[n].chains && !run[n].chains[c.value].retired
  {
    RunKeepsInvariant(run, n);
    var s := run[n];
    forall l | l in s.core.listeners && s.core.listeners[l].active
      ensures var c := s.core.listeners[l].chain; c.Some? && c.value in s.chains && !s.chains[c.value].retired
    {
      assert Open(s, s.core.listeners[l].chain.value);
    }
  }

  // ------------------------------------------------------------ whole transactions

  // Every admission since s0 was on the configuration that was current then.
  ghost predicate AdmitsOld(s0: System, s: System) {
    && s0.log <= s.log
    && forall k | |s0.log| <= k < |s.log| :: s.log[k].epoch == |s0.core.configs| - 1
  }

  // The transaction that began after s0 is in progress.
  ghost predicate Within(s0: System, tx: Transaction, s: System) {
    && s.core.configs == s0.core.configs && !s.core.manager.Idle? && s.core.manager.tx == tx
    && s.core.down <= s0.core.down + tx.handoffs && AdmitsOld(s0, s)
  }

  // The configuration changed exactly where the transaction says.
  ghost predicate IsResult(tx: Transaction, config: map<nat, nat>, next: map<nat, nat>) {
    forall l :: Lookup(next, l) == if l in tx.removed then None
                                   else if l in tx.staged then Some(tx.staged[l])
                                   else if l in tx.refresh then Some(tx.refresh[l])
                                   else Lookup(config, l)
  }

  // The listeners that are active are the configured ones that are not down, each on its configured chain.
  ghost predicate ServesConfig(c: Core)
    requires c.configs != []
  {
    && (forall l | l in Current(c) && l !in c.down :: l in c.listeners && c.listeners[l] == Listener(true, Some(Current(c)[l])))
    && (forall l | l in c.listeners && c.listeners[l].active :: l in Current(c) && l !in c.down)
  }

  ghost predicate Rejected(s0: System, tx: Transaction, s: System) {
    s.core.configs == s0.core.configs && tx.staged.Keys <= s.core.dead
  }

  ghost predicate Accepted(s0: System, tx: Transaction, s: System)
    requires s0.core.configs != [] && s.core.configs != []
  {
    && s.core.configs == s0.core.configs + [Current(s.core)] && IsResult(tx, Current(s0.core), Current(s.core))
    && tx.removed <= s.core.dead
  }

  lemma PrepareIsWithin(s0: System, tx: Transaction, s: System)
    requires s0.core.configs != [] && Prepare(s0, tx, s)
    ensures Within(s0, tx, s)
  {}

  lemma ManagerStaysWithin(s0: System, tx: Transaction, s: System, l: nat, tx': Transaction, s': System)
    requires Invariant(s) && Within(s0, tx, s) && ManagerStep(s, l, tx', s') && !s'.core.manager.Idle?
    ensures Within(s0, tx, s')
  {
    if UnderGate(s, l, s') {
      InsideStaysWithin(s.core, l, Readers(s), s'.core);
    }
  }

  lemma InsideStaysWithin(c: Core, l: nat, readers: bool, c': Core)
    requires CoreInvariant(c) && !c.manager.Idle? && Inside(c, l, readers, c')
    ensures c'.configs == c.configs && !c'.manager.Idle? && c'.manager.tx == c.manager.tx && c'.down <= c.down + c.manager.tx.handoffs
  {}

  // A request is let in under the configurations published so far.
  lemma RequestStaysWithin(s0: System, tx: Transaction, s: System, r: nat, l: nat, s': System)
    requires s.core.configs != [] && Within(s0, tx, s) && RequestStep(s, r, l, s')
    ensures Within(s0, tx, s')
  {
    assert s'.core == s.core;
    assert s'.log == s.log || (|s'.log| == |s.log| + 1 && s.log <= s'.log && s'.log[|s.log|].epoch == |s.core.configs| - 1);
  }

  lemma StepStaysWithin(s0: System, tx: Transaction, s: System, s': System)
    requires Invariant(s) && Within(s0, tx, s) && Step(s, s') && !s'.core.manager.Idle?
    ensures Within(s0, tx, s')
  {
    if r, l :| RequestStep(s, r, l, s') {
      RequestStaysWithin(s0, tx, s, r, l, s');
    } else if l, tx' :| ManagerStep(s, l, tx', s') {
      ManagerStaysWithin(s0, tx, s, l, tx', s');
    } else {
      var c :| ChainStep(s, c, s');
    }
  }

  lemma FinishIsResult(s: System, s': System)
    requires Invariant(s) && Finish(s, s')
    ensures IsResult(s.core.manager.tx, Current(s.core), Current(s'.core))
  {}

  lemma StepOfCore(s: System, s': System) returns (l: nat, tx: Transaction)
    requires s.core.configs != [] && Step(s, s') && s'.core != s.core
    ensures ManagerStep(s, l, tx, s')
  {
    assert forall r, l :: !RequestStep(s, r, l, s');
    assert forall c :: !ChainStep(s, c, s');
    l, tx :| ManagerStep(s, l, tx, s');
  }

  lemma OnlyEndsAreIdle(s: System, l: nat, tx: Transaction, s': System)
    requires s.core.configs != [] && !s.core.manager.Idle? && ManagerStep(s, l, tx, s') && s'.core.manager.Idle?
    ensures Abandon(s, s') || Finish(s, s')
  {}

  lemma AbandonRejects(s0: System, tx: Transaction, s: System, s': System)
    requires s0.core.configs != [] && Invariant(s) && Within(s0, tx, s) && Abandon(s, s')
    ensures Rejected(s0, tx, s') && s'.core.down <= s0.core.down + tx.handoffs && AdmitsOld(s0, s')
  {}

  lemma FinishAccepts(s0: System, tx: Transaction, s: System, s': System)
    requires s0.core.configs != [] && Invariant(s) && Within(s0, tx, s) && Finish(s, s')
    ensures s'.core.configs != [] && Accepted(s0, tx, s') && s'.core.down <= s0.core.down + tx.handoffs && AdmitsOld(s0, s')
  {
    FinishIsResult(s, s');
  }

  // A transaction in progress ends only by being abandoned or finished.
  lemma LastStep(s0: System, tx: Transaction, s: System, s': System)
    requires s0.core.configs != [] && Invariant(s) && Within(s0, tx, s) && Step(s, s') && s'.core.manager.Idle?
    ensures s'.core.configs != [] && (Rejected(s0, tx, s') || Accepted(s0, tx, s'))
    ensures s'.core.down <= s0.core.down + tx.handoffs && AdmitsOld(s0, s')
  {
    var l, tx' := StepOfCore(s, s');
    OnlyEndsAreIdle(s, l, tx', s');
    if Finish(s, s') {
      FinishAccepts(s0, tx, s, s');
    } else {
      AbandonRejects(s0, tx, s, s');
    }
  }

  lemma IdleServesConfig(c: Core)
    requires CoreInvariant(c) && c.manager.Idle?
    ensures ServesConfig(c)
  {
    var live := Live(c);
    assert forall l :: l in live <==> l in Current(c) && l !in c.down;
  }

  ghost predicate BusyAt(run: seq<System>, n: nat) {
    n < |run| && !run[n].core.manager.Idle?
  }

  ghost predicate BusyBetween(run: seq<System>, i: nat, j: nat) {
    forall n: nat | i < n < j :: BusyAt(run, n)
  }

  lemma WithinStep(run: seq<System>, s0: System, tx: Transaction, k: nat)
    requires Run(run) && 0 < k < |run| && Within(s0, tx, run[k - 1]) && BusyAt(run, k)
    ensures Within(s0, tx, run[k])
  {
    RunKeepsInvariant(run, k - 1);
    assert StepAt(run, k);
    StepStaysWithin(s0, tx, run[k - 1], run[k]);
  }

  lemma {:induction false} StaysWithin(run: seq<System>, s0: System, tx: Transaction, i: nat, k: nat)
    requires Run(run) && i < k < |run| && Within(s0, tx, run[i + 1]) && BusyBetween(run, i, k + 1)
    ensures Within(s0, tx, run[k])
    decreases k
  {
    if i + 1 < k {
      StaysWithin(run, s0, tx, i, k - 1);
      assert BusyAt(run, k);
      WithinStep(run, s0, tx, k);
    }
  }

  lemma EndOfTransaction(run: seq<System>, s0: System, tx: Transaction, j: nat)
    requires Run(run) && 0 < j < |run| && s0.core.configs != [] && Within(s0, tx, run[j - 1]) && run[j].core.manager.Idle?
    ensures run[j].core.configs != [] && (Rejected(s0, tx, run[j]) || Accepted(s0, tx, run[j]))
    ensures run[j].core.down <= s0.core.down + tx.handoffs && AdmitsOld(s0, run[j])
  {
    RunKeepsInvariant(run, j - 1);
    assert StepAt(run, j);
    LastStep(s0, tx, run[j - 1], run[j]);
  }

  lemma IdleRunServesConfig(run: seq<System>, j: nat)
    requires Run(run) && j < |run| && run[j].core.manager.Idle?
    ensures run[j].core.configs != [] && ServesConfig(run[j].core)
  {
    RunKeepsInvariant(run, j);
    IdleServesConfig(run[j].core);
  }

  ghost predicate Begins(run: seq<System>, i: nat, tx: Transaction) {
    i + 1 < |run| && run[i].core.configs != [] && Prepare(run[i], tx, run[i + 1])
  }

  lemma BeginIsWithin(run: seq<System>, i: nat, tx: Transaction)
    requires Begins(run, i, tx)
    ensures Within(run[i], tx, run[i + 1])
  {
    PrepareIsWithin(run[i], tx, run[i + 1]);
  }

  /**
   A transaction is all or nothing, from its first step to its last in every
   run: it leaves the configurations as they were or appends the one it
   describes; the active listeners are then exactly the configured ones on
   their configured chains, but for those whose restart failed, which are
   hand-offs of this transaction or were down before; and no request let in
   meanwhile saw anything but the old configuration.
   */
  lemma TransactionIsAllOrNothing(run: seq<System>, i: nat, j: nat, tx: Transaction)
    requires Run(run) && i + 1 < j < |run| && Begins(run, i, tx) && BusyBetween(run, i, j) && run[j].core.manager.Idle?
    ensures run[j].core.configs != [] && (Rejected(run[i], tx, run[j]) || Accepted(run[i], tx, run[j]))
    ensures ServesConfig(run[j].core) && run[j].core.down <= run[i].core.down + tx.handoffs
    ensures AdmitsOld(run[i], run[j])
  {
    var s0 := run[i];
    assert Within(s0, tx, run[j - 1]) by {
      BeginIsWithin(run, i, tx);
      StaysWithin(run, s0, tx, i, j - 1);
    }
    EndOfTransaction(run, s0, tx, j);
    IdleRunServesConfig(run, j);
  }
}
