/**
 Following the watch: when the configuration folded event by event from some
 starting table is what the resulting store means, and when it is what a rebuild
 would give.
 */
module ApiConfigLog {
  import opened Options
  import opened ApiConfigView

  predicate OfResource(e: Event, rid: int) {
    (e.PutResource? || e.DeleteResource?) && e.rid == rid
  }

  predicate OfMethod(e: Event, rid: int, mid: int) {
    (e.PutMethod? || e.DeleteMethod?) && e.rid == rid && e.mid == mid
  }

  // The resource after the log, given what it was before.
  function ResourceAfter(start: Option<Body>, log: seq<Event>, rid: int): Option<Body> {
    if log == [] then start
    else
      var e := log[|log| - 1];
      if OfResource(e, rid) then (if e.PutResource? then Some(e.body) else None)
      else ResourceAfter(start, log[..|log| - 1], rid)
  }

  function MethodAfter(start: Option<Info>, log: seq<Event>, rid: int, mid: int): Option<Info> {
    if log == [] then start
    else
      var e := log[|log| - 1];
      if OfMethod(e, rid, mid) then (if e.PutMethod? then Some(e.info) else None)
      else MethodAfter(start, log[..|log| - 1], rid, mid)
  }

  // Where the log last changes the method, or -1.
  function LastChange(log: seq<Event>, rid: int, mid: int): (n: int)
    ensures -1 <= n < |log| && (n >= 0 ==> OfMethod(log[n], rid, mid))
  {
    if log == [] then -1
    else if OfMethod(log[|log| - 1], rid, mid) then |log| - 1
    else LastChange(log[..|log| - 1], rid, mid)
  }

  // Where the resource last appeared after it was missing, or -1.
  function LastAppeared(start: Option<Body>, log: seq<Event>, rid: int): (n: int)
    ensures -1 <= n < |log| && (n >= 0 ==> OfResource(log[n], rid))
  {
    if log == [] then -1
    else
      var e, before := log[|log| - 1], log[..|log| - 1];
      if e.PutResource? && e.rid == rid && ResourceAfter(start, before, rid).None? then |log| - 1
      else LastAppeared(start, before, rid)
  }

  predicate Touched(log: seq<Event>, rid: int) {
    exists i | 0 <= i < |log| :: OfResource(log[i], rid)
  }

  lemma {:induction false} ResourceForgetsStart(a: Option<Body>, b: Option<Body>, log: seq<Event>, rid: int)
    ensures ResourceAfter(a, log, rid) == ResourceAfter(b, log, rid) <==> a == b || Touched(log, rid)
  {
    if log != [] {
      var before := log[..|log| - 1];
      ResourceForgetsStart(a, b, before, rid);
      assert Touched(log, rid) <==> Touched(before, rid) || OfResource(log[|log| - 1], rid) by {
        if i :| 0 <= i < |before| && OfResource(before[i], rid) {
          assert OfResource(log[i], rid);
        }
        if i :| 0 <= i < |log| && OfResource(log[i], rid) && i != |log| - 1 {
          assert OfResource(before[i], rid);
        }
      }
    }
  }

  lemma {:induction false} MethodForgetsStart(a: Option<Info>, b: Option<Info>, log: seq<Event>, rid: int, mid: int)
    ensures LastChange(log, rid, mid) >= 0 ==> MethodAfter(a, log, rid, mid) == MethodAfter(b, log, rid, mid)
    ensures LastChange(log, rid, mid) < 0 ==> MethodAfter(a, log, rid, mid) == a
  {
    if log != [] {
      MethodForgetsStart(a, b, log[..|log| - 1], rid, mid);
    }
  }

  // ------------------------------------------------------- what each side holds

  lemma {:induction false} StoreAfter(s: Store, log: seq<Event>)
    ensures forall rid :: Lookup(WriteAll(s, log).resources, rid) == ResourceAfter(Lookup(s.resources, rid), log, rid)
    ensures forall rid, mid :: Lookup(WriteAll(s, log).methods, (rid, mid)) == MethodAfter(Lookup(s.methods, (rid, mid)), log, rid, mid)
  {
    if log != [] {
      StoreAfter(s, log[..|log| - 1]);
    }
  }

  function BodyIn(t: Table, rid: int): Option<Body> {
    if rid in t then Some(t[rid].body) else None
  }

  function MethodIn(t: Table, rid: int, mid: int): Option<Info> {
    if rid in t then Lookup(t[rid].methods, mid) else None
  }

  lemma {:induction false} RowsAfter(t: Table, log: seq<Event>)
    ensures forall rid :: BodyIn(HandleAll(t, log), rid) == ResourceAfter(BodyIn(t, rid), log, rid)
  {
    if log != [] {
      RowsAfter(t, log[..|log| - 1]);
    }
  }

  // A row that was there from the start and has not appeared since holds its first methods or later ones; any other only later ones.
  function ViewAfter(t: Table, log: seq<Event>, rid: int, mid: int): Option<Info> {
    if LastChange(log, rid, mid) > LastAppeared(BodyIn(t, rid), log, rid) then MethodAfter(None, log, rid, mid)
    else if LastAppeared(BodyIn(t, rid), log, rid) >= 0 then None
    else MethodIn(t, rid, mid)
  }

  lemma {:induction false} MethodsAfter(t: Table, log: seq<Event>, rid: int, mid: int)
    requires rid in HandleAll(t, log)
    ensures MethodIn(HandleAll(t, log), rid, mid) == ViewAfter(t, log, rid, mid)
  {
    if log != [] {
      var before, e := log[..|log| - 1], log[|log| - 1];
      RowsAfter(t, before);
      if rid in HandleAll(t, before) {
        MethodsAfter(t, before, rid, mid);
        assert ResourceAfter(BodyIn(t, rid), before, rid).Some? by {
          assert BodyIn(HandleAll(t, before), rid).Some?;
        }
      } else {
        assert ResourceAfter(BodyIn(t, rid), before, rid).None? by {
          assert BodyIn(HandleAll(t, before), rid).None?;
        }
        assert e.PutResource? && e.rid == rid;
      }
    }
  }

  // --------------------------------------------------------------- the exact law

  // The log tells of the resource, or the start was right about it.
  predicate RowIsTold(t: Table, s: Store, log: seq<Event>, rid: int) {
    Touched(log, rid) || BodyIn(t, rid) == Lookup(s.resources, rid)
  }

  // The method was last changed after its resource last appeared. If it was not,
  // the store must not hold it; and with no such event at all the start was right.
  predicate MethodIsTold(t: Table, s: Store, log: seq<Event>, rid: int, mid: int) {
    var change, appeared := LastChange(log, rid, mid), LastAppeared(BodyIn(t, rid), log, rid);
    || change > appeared
    || (appeared >= 0 && (rid, mid) !in WriteAll(s, log).methods)
    || (change < 0 && appeared < 0 && MethodIn(t, rid, mid) == Lookup(s.methods, (rid, mid)))
  }

  ghost predicate IsTold(t: Table, s: Store, log: seq<Event>) {
    && (forall rid :: RowIsTold(t, s, log, rid))
    && (forall rid, mid | rid in WriteAll(s, log).resources :: MethodIsTold(t, s, log, rid, mid))
  }

  lemma MethodAgreesIff(t: Table, s: Store, log: seq<Event>, rid: int, mid: int)
    requires rid in HandleAll(t, log)
    ensures MethodIn(HandleAll(t, log), rid, mid) == Lookup(WriteAll(s, log).methods, (rid, mid)) <==> MethodIsTold(t, s, log, rid, mid)
  {
    MethodsAfter(t, log, rid, mid);
    StoreAfter(s, log);
    MethodForgetsStart(Lookup(s.methods, (rid, mid)), None, log, rid, mid);
    MethodForgetsStart(None, None, log, rid, mid);
  }

  lemma MeaningHolds(s: Store, rid: int, mid: int)
    ensures BodyIn(Meaning(s), rid) == Lookup(s.resources, rid)
    ensures rid in s.resources ==> MethodIn(Meaning(s), rid, mid) == Lookup(s.methods, (rid, mid))
  {
    if rid in s.resources {
      var row := MethodsOf(s.methods, rid);
      assert mid in row <==> (rid, mid) in s.methods;
    }
  }

  lemma TablesEqual(t: Table, u: Table)
    requires forall rid :: BodyIn(t, rid) == BodyIn(u, rid)
    requires forall rid, mid | rid in t :: MethodIn(t, rid, mid) == MethodIn(u, rid, mid)
    ensures t == u
  {
    forall rid ensures rid in t <==> rid in u {
      assert BodyIn(t, rid) == BodyIn(u, rid);
    }
    forall rid | rid in t ensures t[rid] == u[rid] {
      assert BodyIn(t, rid) == BodyIn(u, rid);
      forall mid ensures Lookup(t[rid].methods, mid) == Lookup(u[rid].methods, mid) {
        assert MethodIn(t, rid, mid) == MethodIn(u, rid, mid);
      }
      SameLookups(t[rid].methods, u[rid].methods);
    }
  }

  lemma SameLookups(a: map<int, Info>, b: map<int, Info>)
    requires forall k :: Lookup(a, k) == Lookup(b, k)
    ensures a == b
  {
    forall k ensures k in a <==> k in b {
      assert Lookup(a, k) == Lookup(b, k);
    }
    forall k | k in a ensures a[k] == b[k] {
      assert Lookup(a, k) == Lookup(b, k);
    }
  }

  lemma RowsAgreeIff(t: Table, s: Store, log: seq<Event>, rid: int)
    ensures BodyIn(HandleAll(t, log), rid) == BodyIn(Meaning(WriteAll(s, log)), rid) <==> RowIsTold(t, s, log, rid)
  {
    RowsAfter(t, log);
    StoreAfter(s, log);
    MeaningHolds(WriteAll(s, log), rid, 0);
    ResourceForgetsStart(BodyIn(t, rid), Lookup(s.resources, rid), log, rid);
  }

  /**
   Folding the log over any starting table gives what the resulting store means
   if and only if every resource is told of or was right from the start, and
   every method of a live resource was last changed after the resource last
   appeared, is gone, or was right from the start.
   */
  lemma FoldIsMeaningIff(t: Table, s: Store, log: seq<Event>)
    ensures HandleAll(t, log) == Meaning(WriteAll(s, log)) <==> IsTold(t, s, log)
  {
    var view, store := HandleAll(t, log), WriteAll(s, log);
    forall rid ensures BodyIn(view, rid) == BodyIn(Meaning(store), rid) <==> RowIsTold(t, s, log, rid) {
      RowsAgreeIff(t, s, log, rid);
    }
    forall rid, mid | rid in view && rid in store.resources
      ensures MethodIn(view, rid, mid) == MethodIn(Meaning(store), rid, mid) <==> MethodIsTold(t, s, log, rid, mid)
    {
      MethodAgreesIff(t, s, log, rid, mid);
      MeaningHolds(store, rid, mid);
    }
    if IsTold(t, s, log) {
      forall rid, mid | rid in view ensures MethodIn(view, rid, mid) == MethodIn(Meaning(store), rid, mid) {
        assert RowIsTold(t, s, log, rid);
        assert BodyIn(view, rid) == BodyIn(Meaning(store), rid);
        assert MethodIsTold(t, s, log, rid, mid);
      }
      TablesEqual(view, Meaning(store));
    }
  }

  // Every stored method of a live resource was last put after the resource last appeared, or neither happened.
  ghost predicate MethodsFollow(s: Store, log: seq<Event>) {
    forall rid, mid | (rid, mid) in WriteAll(s, log).methods && rid in WriteAll(s, log).resources ::
      LastAppeared(Lookup(s.resources, rid), log, rid) <= LastChange(log, rid, mid)
  }

  lemma ToldFromMeaning(s: Store, log: seq<Event>, rid: int, mid: int)
    requires rid in WriteAll(s, log).resources
    ensures MethodIsTold(Meaning(s), s, log, rid, mid) <==>
            ((rid, mid) in WriteAll(s, log).methods ==> LastAppeared(Lookup(s.resources, rid), log, rid) <= LastChange(log, rid, mid))
  {
    MeaningHolds(s, rid, mid);
    StoreAfter(s, log);
    if LastAppeared(Lookup(s.resources, rid), log, rid) < 0 {
      NeverMissing(Lookup(s.resources, rid), log, rid);
    }
  }

  // A resource that is there in the end and never appeared was there all along.
  lemma {:induction false} NeverMissing(start: Option<Body>, log: seq<Event>, rid: int)
    requires ResourceAfter(start, log, rid).Some? && LastAppeared(start, log, rid) < 0
    ensures start.Some?
  {
    if log != [] {
      NeverMissing(start, log[..|log| - 1], rid);
    }
  }

  /**
   A gateway that loaded a store a rebuild is right about, and then followed the
   watch, is right exactly when every stored method of a live resource was last
   put after that resource last appeared.
   */
  lemma LoadedAndFollowedIff(s: Store, list: seq<MethodEntry>, log: seq<Event>)
    requires Lists(list, s.methods) && NoOrphans(s) && AllVerbsDistinct(s)
    ensures HandleAll(AddMethods(Bare(s.resources), list), log) == Meaning(WriteAll(s, log)) <==> MethodsFollow(s, log)
  {
    RebuildIsMeaningIff(s, list);
    FoldIsMeaningIff(Meaning(s), s, log);
    forall rid ensures RowIsTold(Meaning(s), s, log, rid) {
      MeaningHolds(s, rid, 0);
    }
    forall rid, mid | rid in WriteAll(s, log).resources
      ensures MethodIsTold(Meaning(s), s, log, rid, mid) <==>
              ((rid, mid) in WriteAll(s, log).methods ==> LastAppeared(Lookup(s.resources, rid), log, rid) <= LastChange(log, rid, mid))
    {
      ToldFromMeaning(s, log, rid, mid);
    }
  }

  /**
   Folding and rebuilding agree, for logs that tell everything, exactly when a
   rebuild is right about the final store; and where it is, exactly for the
   logs that tell everything. LoadAPIConfig starts from a rebuilt table.
   */
  lemma FoldIsRebuildIff(t: Table, s: Store, log: seq<Event>, list: seq<MethodEntry>)
    requires Lists(list, WriteAll(s, log).methods)
    ensures var store := WriteAll(s, log);
            var agree := HandleAll(t, log) == AddMethods(Bare(store.resources), list);
            && (IsTold(t, s, log) ==> (agree <==> NoOrphans(store) && AllVerbsDistinct(store)))
            && (NoOrphans(store) && AllVerbsDistinct(store) ==> (agree <==> IsTold(t, s, log)))
  {
    FoldIsMeaningIff(t, s, log);
    RebuildIsMeaningIff(WriteAll(s, log), list);
  }

  lemma AfterTwo(log: seq<Event>, a: Event, b: Event)
    requires log == [a, b]
    ensures log[..1] == [a] && log[..1][..0] == []
  {}

  /**
   Whatever the start, a resource with methods in the store that is deleted and
   put again ends without its methods in the view.
   */
  lemma RecreatedResourceLosesMethods(t: Table, s: Store, rid: int, mid: int, body: Body)
    requires (rid, mid) in s.methods
    ensures var log := [DeleteResource(rid), PutResource(rid, body)];
            HandleAll(t, log) != Meaning(WriteAll(s, log)) && !IsTold(t, s, log)
  {
    var log := [DeleteResource(rid), PutResource(rid, body)];
    AfterTwo(log, log[0], log[1]);
    FoldIsMeaningIff(t, s, log);
    assert ResourceAfter(BodyIn(t, rid), log[..1], rid).None?;
    assert LastAppeared(BodyIn(t, rid), log, rid) == 1;
    assert LastChange(log[..1], rid, mid) == -1 && LastChange(log, rid, mid) == -1;
    assert WriteAll(s, log[..1]).methods == s.methods && WriteAll(s, log).methods == s.methods;
    assert !MethodIsTold(t, s, log, rid, mid);
  }

  // Nothing in the log changes the method or takes its resource away.
  predicate Leaves(log: seq<Event>, rid: int, mid: int) {
    forall i | 0 <= i < |log| :: !OfMethod(log[i], rid, mid) && log[i] != DeleteResource(rid)
  }

  lemma {:induction false} LeftMethodStays(t: Table, log: seq<Event>, rid: int, mid: int)
    requires rid in t && Leaves(log, rid, mid)
    ensures rid in HandleAll(t, log) && MethodIn(HandleAll(t, log), rid, mid) == MethodIn(t, rid, mid)
  {
    if log != [] {
      var before, e := log[..|log| - 1], log[|log| - 1];
      assert Leaves(before, rid, mid) && !OfMethod(e, rid, mid) && e != DeleteResource(rid);
      LeftMethodStays(t, before, rid, mid);
    }
  }

  lemma {:induction false} HandleConcat(t: Table, a: seq<Event>, b: seq<Event>)
    ensures HandleAll(t, a + b) == HandleAll(HandleAll(t, a), b)
  {
    if b == [] {
      assert a + b == a;
    } else {
      assert (a + b)[..|a + b| - 1] == a + b[..|b| - 1];
      HandleConcat(t, a, b[..|b| - 1]);
    }
  }

  /**
   A method put while its resource is there stays in the table, whatever came
   before it, until an event changes the method or deletes the resource.
   */
  lemma PutMethodIsKept(t: Table, before: seq<Event>, rid: int, mid: int, info: Info, after: seq<Event>)
    requires rid in HandleAll(t, before) && Leaves(after, rid, mid)
    ensures MethodIn(HandleAll(t, before + [PutMethod(rid, mid, info)] + after), rid, mid) == Some(info)
  {
    var put := before + [PutMethod(rid, mid, info)];
    assert put[..|put| - 1] == before;
    HandleConcat(t, put, after);
    LeftMethodStays(HandleAll(t, put), after, rid, mid);
  }
}
