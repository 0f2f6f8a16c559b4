/**
 The conflict check of a binding publish compares the compiled path as it is with
 stored paths that it trims, and the compiler trims nothing. This module says
 exactly when that keeps two Methods from serving one route.
 */
module RoutePaths {
  import opened Options
  import opened Etcd
  import opened RouteStore
  import opened RouteProtocol
  import opened RouteInvariants
  import opened RouteTheorems
  import opened RouteConflicts
  import opened RouteVerbs

  function Publishing(b: Binding): Operation {
    Publish(b.obj.name, 0)
  }

  ghost predicate HasDraft(b: Binding, st: KV) {
    Lookup(Values(st), DraftBinding(b.obj.name)) == Some(BindingValue(b))
  }

  // Publishing the draft with nobody else around leaves a store in order free of conflicts.
  ghost predicate BindingKeepsFrom(s: Schema, b: Binding, st: KV) {
    InOrder(s, st) && HasDraft(b, st) ==> Clear(s, AfterAlone(s, Publishing(b), st))
  }

  lemma BindingShape(s: Schema, b: Binding, st: KV)
    ensures var plan := Plan(s, Publishing(b), ReadsAt(Publishing(b), st));
            AfterAlone(s, Publishing(b), st) == if plan.Some? then Write(st, plan.value) else st
  {
    var r := ReadsAt(Publishing(b), st);
    var plan := Plan(s, Publishing(b), r);
    if plan.Some? {
      assert plan.value.compares == PublishCompares(b.obj.name, r);
    }
  }

  lemma SteadyWithOwnPaths(s: Schema, st: KV, c: CompiledBinding, published: Decoded)
    requires Typed(Values(st)) && OwnPaths(s, Values(st)) && RuntimeDecodes(RuntimeTable(st)) && StableBinding(s, c)
    ensures SteadyBinding(s, c, published, RuntimeTable(st))
  {
    TablesFollowValues(st);
    forall k | k in RuntimeTable(st) && StaysBeside(c, published, k) ensures HasPath(s, RuntimeTable(st)[k].m) {
      assert Runtime(k) && k in Values(st);
    }
  }

  lemma DraftIsRead(b: Binding, st: KV)
    requires HasDraft(b, st)
    ensures var d := Decode(ReadsAt(Publishing(b), st).draft, b.obj.name); d.Found? && d.binding == b
  {
    assert DraftBinding(b.obj.name) in st.kvs;
  }

  lemma StableBindingKeeps(s: Schema, b: Binding, st: KV)
    requires Sound(s) && InOrder(s, st) && HasDraft(b, st)
    requires CompileBinding(s, b).Some? ==> StableBinding(s, CompileBinding(s, b).value)
    ensures Clear(s, AfterAlone(s, Publishing(b), st))
  {
    var op := Publishing(b);
    BindingShape(s, b, st);
    DraftIsRead(b, st);
    var r := ReadsAt(op, st);
    if Plan(s, op, r).Some? {
      assert r == ReadsAt(op, st).(draft := r.draft);
      PublishShape(s, st, op, r.draft);
      var published, c := Decode(Lookup(st.kvs, PublishedBinding(op.name)), op.name), CompileBinding(s, b).value;
      var t := Plan(s, op, r).value;
      SteadyWithOwnPaths(s, st, c, published);
      PublishIsTyped(Values(st), published, c, op.name, Generation(Values(st)) + 1);
      ValuesAfter(st, t);
      BindingCommitKeepsClear(s, st, published, c, op.name, Generation(Values(st)) + 1, t);
    }
  }

  // ------------------------------------------------------------- the failing input

  // A namespace with the binding's draft and, under another Resource, a legacy Method.
  function Beside(b: Binding, other: Key, m: Method): KV {
    Store(map[other := Entry(MethodValue(m), 1, 1), DraftBinding(b.obj.name) := Entry(BindingValue(b), 1, 1)], 1)
  }

  lemma BesideHolds(b: Binding, other: Key, m: Method)
    requires other.MethodKey?
    ensures var st := Beside(b, other, m);
            && Values(st) == map[other := MethodValue(m), DraftBinding(b.obj.name) := BindingValue(b)]
            && RuntimeTable(st) == map[other := MethodValue(m)] && PublishedTable(st) == map[]
            && WellFormed(st) && Typed(Values(st)) && HasDraft(b, st)
  {
  }

  lemma OneRoute(s: Schema, other: Key, m: Method)
    requires other.MethodKey? && HasPath(s, m)
    ensures var v := map[other := MethodValue(m)];
            RuntimeDecodes(v) && RuntimeRoutes(s, v) == map[other := RouteOf(s, m)] && ConflictFree(s, v)
  {
    var v := map[other := MethodValue(m)];
    assert RuntimeRoutes(s, v) == map[other := RouteOf(s, m)];
  }

  lemma BesideIsInOrder(s: Schema, b: Binding, other: Key, m: Method)
    requires other.MethodKey? && HasPath(s, m)
    ensures InOrder(s, Beside(b, other, m)) && HasDraft(b, Beside(b, other, m))
    ensures RuntimeRoutes(s, RuntimeTable(Beside(b, other, m))) == map[other := RouteOf(s, m)]
    ensures PublishedTable(Beside(b, other, m)) == map[] && Initial(System(Beside(b, other, m), map[]))
  {
    BesideHolds(b, other, m);
    OneRoute(s, other, m);
  }

  lemma UnstableBindingIsAccepted(s: Schema, b: Binding, other: Key)
    requires CompileBinding(s, b).Some? && !StableBinding(s, CompileBinding(s, b).value)
    requires other.MethodKey? && other.rid != b.resourceId
    requires var c := CompileBinding(s, b).value; HasPath(s, c.route.m)
    ensures var st, c := Beside(b, other, CompileBinding(s, b).value.route.m), CompileBinding(s, b).value;
            var plan := Plan(s, Publishing(b), ReadsAt(Publishing(b), st));
            plan.Some? && plan.value.deletes == iset{} && plan.value.puts == PublishPuts(b.obj.name, c, 1)
  {
    var c := CompileBinding(s, b).value;
    var st := Beside(b, other, c.route.m);
    BesideIsInOrder(s, b, other, c.route.m);
    DraftIsRead(b, st);
    var r := ReadsAt(Publishing(b), st);
    assert Decode(r.published, b.obj.name).Missing? && NextGeneration(r.generation) == Some(1);
    assert SnapshotCompiles(s, b.obj.name, b, r.bindings);
    assert RouteIsFree(s, c, Missing, r.runtime);
  }

  // The binding's Method beside an equal one.
  lemma ServedTwice(s: Schema, v: Table, c: CompiledBinding, name: string, other: Key, next: Table)
    requires other.MethodKey? && other.rid != c.rid && HasPath(s, c.route.m) && Lookup(v, other) == Some(MethodValue(c.route.m))
    requires (forall k | k in v :: k == other) && (forall k | k in next :: Runtime(k))
    requires RuntimeUpdate(v, iset{}, PublishPuts(name, c, 1), next)
    ensures RuntimeDecodes(next)
    ensures Lookup(RuntimeRoutes(s, next), other) == Lookup(RuntimeRoutes(s, next), MethodKey(c.rid, c.mid)) == Some(RouteOf(s, c.route.m))
  {
    forall k | k in next ensures (k.ResourceKey? ==> next[k].ResourceValue?) && (k.MethodKey? ==> next[k].MethodValue?) {
      assert Runtime(k);
    }
    assert Runtime(other) && Runtime(MethodKey(c.rid, c.mid));
  }

  /**
   From a namespace with one legacy Method, publishing a binding that compiles to
   the same Method is accepted if its path is not stable, and two Methods then
   serve its route.
   */
  lemma UnstablePathBreaksRoutes(s: Schema, b: Binding, other: Key, client: nat)
    requires Sound(s) && CompileBinding(s, b).Some? && !StableBinding(s, CompileBinding(s, b).value)
    requires other.MethodKey? && other.rid != b.resourceId
    ensures var c := CompileBinding(s, b).value;
            var sys := System(Beside(b, other, c.route.m), map[]);
            var v := RuntimeTable(Run(s, sys, Alone(client, Publishing(b))).store);
            && Initial(sys) && InOrder(s, sys.store) && HasDraft(b, sys.store) && RuntimeDecodes(v)
            && Lookup(RuntimeRoutes(s, v), other) == Lookup(RuntimeRoutes(s, v), MethodKey(c.rid, c.mid)) == Some(RouteOf(s, c.route.m))
  {
    var c := CompileBinding(s, b).value;
    var st := Beside(b, other, c.route.m);
    BesideIsInOrder(s, b, other, c.route.m);
    AloneRuns(s, System(st, map[]), client, Publishing(b));
    UnstableBindingIsAccepted(s, b, other);
    BindingShape(s, b, st);
    var t := Plan(s, Publishing(b), ReadsAt(Publishing(b), st)).value;
    WriteUpdatesRuntime(st, t);
    ServedTwice(s, RuntimeTable(st), c, b.obj.name, other, RuntimeTable(Write(st, t)));
  }

  lemma UnstableBindingBreaks(s: Schema, b: Binding, other: Key)
    requires Sound(s) && CompileBinding(s, b).Some? && !StableBinding(s, CompileBinding(s, b).value)
    requires other.MethodKey? && other.rid != b.resourceId
    ensures !BindingKeepsFrom(s, b, Beside(b, other, CompileBinding(s, b).value.route.m))
  {
    var c := CompileBinding(s, b).value;
    var st := Beside(b, other, c.route.m);
    UnstablePathBreaksRoutes(s, b, other, 0);
    assert Run(s, System(st, map[]), Alone(0, Publishing(b))).store == AfterAlone(s, Publishing(b), st) by {
      AloneRuns(s, System(st, map[]), 0, Publishing(b));
    }
    var routes, own := RuntimeRoutes(s, RuntimeTable(AfterAlone(s, Publishing(b), st))), MethodKey(c.rid, c.mid);
    assert other in routes && own in routes && other != own && routes[other] == routes[own];
    assert !Apart(s, routes);
  }

  /**
   Exactly when the check protects the routes: publishing this draft keeps every
   store in order free of conflicts if and only if the compiled route is checked
   by the key it will be stored with.
   */
  lemma BindingKeepsRoutesApartIff(s: Schema, b: Binding)
    requires Sound(s)
    ensures (forall st :: BindingKeepsFrom(s, b, st)) <==>
            (CompileBinding(s, b).Some? ==> StableBinding(s, CompileBinding(s, b).value))
  {
    if CompileBinding(s, b).Some? && !StableBinding(s, CompileBinding(s, b).value) {
      UnstableBindingBreaks(s, b, MethodKey(b.resourceId + 1, 1));
    } else {
      forall st ensures BindingKeepsFrom(s, b, st) {
        if InOrder(s, st) && HasDraft(b, st) { StableBindingKeeps(s, b, st); }
      }
    }
  }

  // ------------------------------------------------------ Methods that move along

  // The binding's draft; a Method without a path under the binding's Resource ID;
  // and one with the same verb under a Resource that has the binding's path.
  function Neighbours(b: Binding, path: string, moved: Key, other: Key, m: Method): KV
    requires other.MethodKey?
  {
    Store(map[DraftBinding(b.obj.name) := Entry(BindingValue(b), 1, 1),
              moved := Entry(MethodValue(m), 1, 1),
              ResourceKey(other.rid) := Entry(ResourceValue(Resource(path, "")), 1, 1),
              other := Entry(MethodValue(m), 1, 1)], 1)
  }

  ghost predicate AreNeighbours(b: Binding, moved: Key, other: Key) {
    && moved.MethodKey? && moved.rid == b.resourceId && moved.mid != b.methodId
    && other.MethodKey? && other.rid != b.resourceId
  }

  lemma NeighboursHold(b: Binding, path: string, moved: Key, other: Key, m: Method)
    requires AreNeighbours(b, moved, other)
    ensures var st := Neighbours(b, path, moved, other, m);
            && RuntimeTable(st) == map[moved := MethodValue(m), ResourceKey(other.rid) := ResourceValue(Resource(path, "")), other := MethodValue(m)]
            && PublishedTable(st) == map[] && WellFormed(st) && Typed(Values(st)) && HasDraft(b, st) && Initial(System(st, map[]))
  {
  }

  // Without a Resource of its own the first Method serves nothing.
  lemma NeighbourRoutes(s: Schema, b: Binding, path: string, moved: Key, other: Key, m: Method)
    requires AreNeighbours(b, moved, other) && !HasPath(s, m) && HasRoot(Resource(path, ""))
    ensures var v := RuntimeTable(Neighbours(b, path, moved, other, m));
            RuntimeDecodes(v) && RuntimeRoutes(s, v) == map[other := Route(path, m.verb)] && ConflictFree(s, v)
  {
    NeighboursHold(b, path, moved, other, m);
    var v := RuntimeTable(Neighbours(b, path, moved, other, m));
    assert ResourceOf(v, moved.rid) == None && ResourceOf(v, other.rid) == Some(Resource(path, ""));
    assert RuntimeRoutes(s, v) == map[other := Route(path, m.verb)];
  }

  lemma NeighbourIsAccepted(s: Schema, b: Binding, moved: Key, other: Key, m: Method)
    requires Sound(s) && AreNeighbours(b, moved, other) && !HasPath(s, m) && CompileBinding(s, b).Some?
    requires var c := CompileBinding(s, b).value;
             s.routeKey(m.verb, c.route.resource.path) != s.routeKey(s.trim(c.route.m.verb), c.route.resource.path)
    ensures var c := CompileBinding(s, b).value;
            var st := Neighbours(b, c.route.resource.path, moved, other, m);
            var plan := Plan(s, Publishing(b), ReadsAt(Publishing(b), st));
            plan.Some? && plan.value.deletes == iset{} && plan.value.puts == PublishPuts(b.obj.name, c, 1)
  {
    var c := CompileBinding(s, b).value;
    var st := Neighbours(b, c.route.resource.path, moved, other, m);
    NeighboursHold(b, c.route.resource.path, moved, other, m);
    NeighbourRoutes(s, b, c.route.resource.path, moved, other, m);
    DraftIsRead(b, st);
    var r := ReadsAt(Publishing(b), st);
    assert Decode(r.published, b.obj.name).Missing? && NextGeneration(r.generation) == Some(1);
    assert SnapshotCompiles(s, b.obj.name, b, r.bindings);
    assert RouteIsFree(s, c, Missing, r.runtime);
  }

  lemma MovedIsServed(s: Schema, v: Table, c: CompiledBinding, name: string, moved: Key, other: Key, m: Method, next: Table)
    requires moved.MethodKey? && moved.rid == c.rid && moved.mid != c.mid && other.MethodKey? && other.rid != c.rid
    requires HasRoot(c.route.resource) && !HasPath(s, m)
    requires v == map[moved := MethodValue(m), ResourceKey(other.rid) := ResourceValue(Resource(c.route.resource.path, "")), other := MethodValue(m)]
    requires (forall k | k in next :: Runtime(k)) && RuntimeUpdate(v, iset{}, PublishPuts(name, c, 1), next)
    ensures RuntimeDecodes(next)
    ensures Lookup(RuntimeRoutes(s, next), moved) == Lookup(RuntimeRoutes(s, next), other) == Some(Route(c.route.resource.path, m.verb))
  {
    forall k | k in next ensures (k.ResourceKey? ==> next[k].ResourceValue?) && (k.MethodKey? ==> next[k].MethodValue?) {
      assert Runtime(k);
    }
    assert Runtime(moved) && Runtime(other) && Runtime(ResourceKey(c.rid)) && Runtime(ResourceKey(other.rid));
    assert ResourceOf(next, c.rid) == Some(c.route.resource);
    assert ResourceOf(next, other.rid) == Some(Resource(c.route.resource.path, ""));
  }

  /**
   A Method without a path moves to the path of a binding that is published under
   its Resource ID, and no check looks at it: the run ends with two Methods of one
   route, however stable the binding is.
   */
  lemma MovedMethodBreaksRoutes(s: Schema, b: Binding, moved: Key, other: Key, m: Method, client: nat)
    requires Sound(s) && AreNeighbours(b, moved, other) && !HasPath(s, m) && CompileBinding(s, b).Some?
    requires var c := CompileBinding(s, b).value;
             s.routeKey(m.verb, c.route.resource.path) != s.routeKey(s.trim(c.route.m.verb), c.route.resource.path)
    ensures var c := CompileBinding(s, b).value;
            var sys := System(Neighbours(b, c.route.resource.path, moved, other, m), map[]);
            var v := RuntimeTable(Run(s, sys, Alone(client, Publishing(b))).store);
            && Initial(sys) && Clear(s, sys.store) && RuntimeDecodes(v)
            && Lookup(RuntimeRoutes(s, v), moved) == Lookup(RuntimeRoutes(s, v), other) == Some(Route(c.route.resource.path, m.verb))
  {
    var c := CompileBinding(s, b).value;
    var st := Neighbours(b, c.route.resource.path, moved, other, m);
    NeighboursHold(b, c.route.resource.path, moved, other, m);
    NeighbourRoutes(s, b, c.route.resource.path, moved, other, m);
    AloneRuns(s, System(st, map[]), client, Publishing(b));
    NeighbourIsAccepted(s, b, moved, other, m);
    BindingShape(s, b, st);
    var t := Plan(s, Publishing(b), ReadsAt(Publishing(b), st)).value;
    WriteUpdatesRuntime(st, t);
    MovedIsServed(s, RuntimeTable(st), c, b.obj.name, moved, other, m, RuntimeTable(Write(st, t)));
  }
}
