/**
 The reference count of a listener's filter chain: one 64-bit word whose top
 bit says that the chain is retired and whose other bits count its holders.
 Acquire and retire are compare-and-swap loops, release is an atomic add, and
 each load, swap or add is one step here, in any interleaving of any threads.
 */
module FilterChain {
  const RETIRED: nat := 0x8000_0000_0000_0000
  const WORD: nat := 0x1_0000_0000_0000_0000

  // A thread inside a compare-and-swap loop: at its head, or between load and swap.
  datatype Loop = Acquiring | AcquireLoaded(seen: nat) | Retiring | RetireLoaded(seen: nat)

  // Threads that hold the chain are in `holders`, threads about to run the
  // once-guarded close in `closing`; `closes` counts the chain's own Close.
  datatype Chain = Chain(word: nat, loops: map<nat, Loop>, holders: set<nat>, closing: set<nat>, once: bool, closes: nat)

  predicate IsRetired(word: nat) {
    word >= RETIRED
  }

  // The word operations: + 1 and - 1 wrap around, | sets the top bit.
  function Increment(word: nat): nat {
    if word == WORD - 1 then 0 else word + 1
  }

  function Decrement(word: nat): nat {
    if word == 0 then WORD - 1 else word - 1
  }

  function WithRetiredBit(word: nat): nat {
    if IsRetired(word) then word else word + RETIRED
  }

  function Count(word: nat): nat {
    if IsRetired(word) then word - RETIRED else word
  }

  predicate Idle(c: Chain, t: nat) {
    t !in c.loops && t !in c.holders && t !in c.closing
  }

  predicate Start(c: Chain, t: nat, c': Chain) {
    Idle(c, t) && (c' == c.(loops := c.loops[t := Acquiring]) || c' == c.(loops := c.loops[t := Retiring]))
  }

  predicate AcquireLoad(c: Chain, t: nat, c': Chain) {
    && t in c.loops && c.loops[t].Acquiring?
    && c' == c.(loops := if IsRetired(c.word) || c.word == RETIRED - 1 then c.loops - {t}
                         else c.loops[t := AcquireLoaded(c.word)])
  }

  predicate AcquireSwap(c: Chain, t: nat, c': Chain) {
    && t in c.loops && c.loops[t].AcquireLoaded?
    && c' == if c.word == c.loops[t].seen
             then c.(word := Increment(c.loops[t].seen), loops := c.loops - {t}, holders := c.holders + {t})
             else c.(loops := c.loops[t := Acquiring])
  }

  predicate Release(c: Chain, t: nat, c': Chain) {
    && t in c.holders
    && c' == c.(word := Decrement(c.word), holders := c.holders - {t},
                closing := if Decrement(c.word) == RETIRED then c.closing + {t} else c.closing)
  }

  predicate RetireLoad(c: Chain, t: nat, c': Chain) {
    && t in c.loops && c.loops[t].Retiring?
    && c' == if !IsRetired(c.word) then c.(loops := c.loops[t := RetireLoaded(c.word)])
             else if c.word == RETIRED then c.(loops := c.loops - {t}, closing := c.closing + {t})
             else c.(loops := c.loops - {t})
  }

  predicate RetireSwap(c: Chain, t: nat, c': Chain) {
    && t in c.loops && c.loops[t].RetireLoaded?
    && c' == if c.word != c.loops[t].seen then c.(loops := c.loops[t := Retiring])
             else c.(word := WithRetiredBit(c.loops[t].seen), loops := c.loops - {t},
                     closing := if c.loops[t].seen == 0 then c.closing + {t} else c.closing)
  }

  predicate Close(c: Chain, t: nat, c': Chain) {
    && t in c.closing
    && c' == c.(closing := c.closing - {t}, once := true, closes := if c.once then c.closes else c.closes + 1)
  }

  predicate StepBy(c: Chain, t: nat, c': Chain) {
    || Start(c, t, c')
    || AcquireLoad(c, t, c') || AcquireSwap(c, t, c')
    || Release(c, t, c')
    || RetireLoad(c, t, c') || RetireSwap(c, t, c')
    || Close(c, t, c')
  }

  ghost predicate Step(c: Chain, c': Chain) {
    exists t :: StepBy(c, t, c')
  }

  ghost predicate Counted(c: Chain) {
    c.word < WORD && Count(c.word) == |c.holders| < RETIRED
  }

  // A thread is in one place, and a loaded word it may still swap is unretired.
  ghost predicate Placed(c: Chain) {
    && (forall t | t in c.loops :: t !in c.holders && t !in c.closing)
    && (forall t | t in c.loops && c.loops[t].AcquireLoaded? :: c.loops[t].seen < RETIRED - 1)
    && (forall t | t in c.loops && c.loops[t].RetireLoaded? :: c.loops[t].seen < RETIRED)
  }

  // A close is done or pending exactly when the chain is retired and nobody holds it.
  ghost predicate ClosedWhenDrained(c: Chain) {
    && c.closes == (if c.once then 1 else 0)
    && (IsRetired(c.word) && c.holders == {} <==> c.once || c.closing != {})
  }

  ghost predicate Invariant(c: Chain) {
    Counted(c) && Placed(c) && ClosedWhenDrained(c)
  }

  ghost predicate Initial(c: Chain) {
    c == Chain(0, map[], {}, {}, false, 0)
  }

  // Retirement is final, a retired chain gains no holder, and it stays closed.
  ghost predicate Later(c: Chain, c': Chain) {
    && (IsRetired(c.word) ==> IsRetired(c'.word) && c'.holders <= c.holders)
    && (c.once ==> c'.once)
  }

  lemma AcquireSwapKeeps(c: Chain, t: nat, c': Chain)
    requires Invariant(c) && AcquireSwap(c, t, c')
    ensures Invariant(c') && Later(c, c')
  {
    assert |c.holders + {t}| == |c.holders| + 1;
  }

  lemma ReleaseKeeps(c: Chain, t: nat, c': Chain)
    requires Invariant(c) && Release(c, t, c')
    ensures Invariant(c') && Later(c, c')
  {
    assert |c.holders - {t}| == |c.holders| - 1;
    assert |c'.holders| == 0 <==> c'.holders == {};
  }

  lemma RetireLoadKeeps(c: Chain, t: nat, c': Chain)
    requires Invariant(c) && RetireLoad(c, t, c')
    ensures Invariant(c') && Later(c, c')
  {}

  lemma RetireSwapKeeps(c: Chain, t: nat, c': Chain)
    requires Invariant(c) && RetireSwap(c, t, c')
    ensures Invariant(c') && Later(c, c')
  {
    assert |c.holders| == 0 <==> c.holders == {};
  }

  lemma CloseKeeps(c: Chain, t: nat, c': Chain)
    requires Invariant(c) && Close(c, t, c')
    ensures Invariant(c') && Later(c, c')
  {}

  lemma LoopHeadKeeps(c: Chain, t: nat, c': Chain)
    requires Invariant(c) && (Start(c, t, c') || AcquireLoad(c, t, c'))
    ensures Invariant(c') && Later(c, c')
  {}

  /** One step of one thread keeps the invariant and only moves forward. */
  lemma StepKeepsInvariant(c: Chain, c': Chain)
    requires Invariant(c) && Step(c, c')
    ensures Invariant(c') && Later(c, c')
  {
    var t :| StepBy(c, t, c');
    if AcquireSwap(c, t, c') {
      AcquireSwapKeeps(c, t, c');
    } else if Release(c, t, c') {
      ReleaseKeeps(c, t, c');
    } else if RetireLoad(c, t, c') {
      RetireLoadKeeps(c, t, c');
    } else if RetireSwap(c, t, c') {
      RetireSwapKeeps(c, t, c');
    } else if Close(c, t, c') {
      CloseKeeps(c, t, c');
    } else {
      LoopHeadKeeps(c, t, c');
    }
  }

  ghost predicate StepAt(run: seq<Chain>, i: nat)
    requires 0 < i < |run|
  {
    Step(run[i - 1], run[i])
  }

  // A run: each state follows from the one before it by one step.
  ghost predicate Run(run: seq<Chain>) {
    run != [] && Initial(run[0]) && forall i: nat | 0 < i < |run| :: StepAt(run, i)
  }

  lemma RunStep(run: seq<Chain>, i: nat)
    requires Run(run) && 0 < i < |run| && Invariant(run[i - 1])
    ensures Invariant(run[i]) && Later(run[i - 1], run[i])
  {
    assert StepAt(run, i);
    StepKeepsInvariant(run[i - 1], run[i]);
  }

  lemma {:induction false} RunKeepsInvariant(run: seq<Chain>, i: nat)
    requires Run(run) && i < |run|
    ensures Invariant(run[i])
  {
    if i > 0 {
      RunKeepsInvariant(run, i - 1);
      RunStep(run, i);
    }
  }

  lemma LaterTransitive(a: Chain, b: Chain, c: Chain)
    requires Later(a, b) && Later(b, c)
    ensures Later(a, c)
  {}

  lemma {:induction false} RunMovesForward(run: seq<Chain>, i: nat, j: nat)
    requires Run(run) && i <= j < |run|
    ensures Later(run[i], run[j])
    decreases j
  {
    if i < j {
      RunMovesForward(run, i, j - 1);
      RunKeepsInvariant(run, j - 1);
      RunStep(run, j);
      LaterTransitive(run[i], run[j - 1], run[j]);
    }
  }

  /**
   In every run the count is the number of holders and never reaches the
   retired bit, the chain is closed at most once and only when nobody holds it,
   and a retired chain with no holder and no pending close has been closed.
   */
  lemma ChainIsSafe(run: seq<Chain>, i: nat)
    requires Run(run) && i < |run|
    ensures Count(run[i].word) == |run[i].holders| < RETIRED
    ensures run[i].closes <= 1
    ensures run[i].closes == 1 ==> IsRetired(run[i].word) && run[i].holders == {}
    ensures IsRetired(run[i].word) && run[i].holders == {} && run[i].closing == {} ==> run[i].closes == 1
  {
    RunKeepsInvariant(run, i);
  }

  /** After retirement no thread becomes a holder, and a closed chain is never held again. */
  lemma NoHolderAfterRetirement(run: seq<Chain>, i: nat, j: nat)
    requires Run(run) && i <= j < |run| && IsRetired(run[i].word)
    ensures IsRetired(run[j].word) && run[j].holders <= run[i].holders
    ensures run[i].closes == 1 ==> run[j].closes == 1 && run[j].holders == {}
  {
    RunMovesForward(run, i, j);
    RunKeepsInvariant(run, i);
    RunKeepsInvariant(run, j);
  }
}
