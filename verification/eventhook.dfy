/** The event-hook registry and its dispatcher (src/libboxten/eventhook.cpp).
    The hook-invoker thread is replaced by an explicit pending queue that
    `ProcessPending` drains as one batch; the hook functions themselves are
    named by `HookId` and their calls are recorded, not run. */
module EventHook {
  import opened Wrappers

  /** The events the engine publishes. */
  datatype Event = SongChange | PlaybackChange

  /** Identifies an installed hook function. */
  type HookId = nat

  /** Identifies the `Component*` that installed a hook. */
  type ComponentId = nat

  /** `InstalledEventhook`: one (hook, event, owning component) entry. */
  datatype Installed = Installed(hook: HookId, event: Event, component: ComponentId)

  /** One observable step of a dispatch: a hook called with the event and its
      payload, or the payload released after the event's hooks have run. */
  datatype Action<P> = Call(hook: HookId, event: Event, payload: Option<P>) | Release(released: P)

  /** A published event waiting for the invoker: the event and its payload
      (`None` for a null parameter). */
  datatype Pending<P> = Pending(event: Event, payload: Option<P>)

  /** The registry of installed hooks and the invoker's pending queue. */
  datatype Dispatcher<P> = Dispatcher(installed: seq<Installed>, pending: seq<Pending<P>>)

  /** `install_eventhook`: appends one entry at the end. */
  function Install<P>(d: Dispatcher<P>, hook: HookId, event: Event, component: ComponentId): (r: Dispatcher<P>)
    ensures |r.installed| == |d.installed| + 1
    ensures r.installed[..|d.installed|] == d.installed
    ensures r.installed[|d.installed|] == Installed(hook, event, component)
    ensures r.pending == d.pending
  {
    d.(installed := d.installed + [Installed(hook, event, component)])
  }

  /** The entries that do not belong to component `c`, in their original order. */
  function Without(s: seq<Installed>, c: ComponentId): seq<Installed> {
    if |s| == 0 then []
    else if s[0].component == c then Without(s[1..], c)
    else [s[0]] + Without(s[1..], c)
  }

  lemma {:induction false} WithoutMembers(s: seq<Installed>, c: ComponentId)
    ensures forall x :: x in Without(s, c) <==> x in s && x.component != c
    ensures |Without(s, c)| <= |s|
  {
    if |s| > 0 {
      WithoutMembers(s[1..], c);
      assert forall x :: x in s <==> x == s[0] || x in s[1..];
    }
  }

  lemma {:induction false} WithoutAppend(a: seq<Installed>, b: seq<Installed>, c: ComponentId)
    ensures Without(a + b, c) == Without(a, c) + Without(b, c)
  {
    if |a| == 0 {
      assert a + b == b;
    } else {
      assert (a + b)[1..] == a[1..] + b;
      WithoutAppend(a[1..], b, c);
    }
  }

  /** `uninstall_eventhook`: walks the list, erasing every entry of `c` and
      stepping over the others. */
  /** One loop step of `uninstall` that erases the entry at `i`. */
  lemma WithoutSkip(hooks: seq<Installed>, i: nat, c: ComponentId)
    requires i < |hooks| && hooks[i].component == c
    ensures var next := hooks[..i] + hooks[i + 1..];
            i <= |next| && hooks[..i] + Without(hooks[i..], c) == next[..i] + Without(next[i..], c)
  {
    var next := hooks[..i] + hooks[i + 1..];
    assert hooks[i..] == [hooks[i]] + hooks[i + 1..];
    assert next[..i] == hooks[..i];
    assert next[i..] == hooks[i + 1..];
  }

  /** One loop step of `uninstall` that keeps the entry at `i`. */
  lemma WithoutKeep(hooks: seq<Installed>, i: nat, c: ComponentId)
    requires i < |hooks| && hooks[i].component != c
    ensures hooks[..i] + Without(hooks[i..], c) == hooks[..i + 1] + Without(hooks[i + 1..], c)
  {
    assert hooks[i..] == [hooks[i]] + hooks[i + 1..];
    assert hooks[..i + 1] == hooks[..i] + [hooks[i]];
  }

  method Uninstall<P>(d: Dispatcher<P>, c: ComponentId) returns (r: Dispatcher<P>)
    ensures r.installed == Without(d.installed, c)
    ensures forall x :: x in r.installed <==> x in d.installed && x.component != c
    ensures r.pending == d.pending
  {
    var hooks := d.installed;
    var i := 0;
    while i < |hooks|
      invariant 0 <= i <= |hooks|
      invariant Without(d.installed, c) == hooks[..i] + Without(hooks[i..], c)
      invariant forall k :: 0 <= k < i ==> hooks[k].component != c
      decreases |hooks| - i
    {
      if hooks[i].component == c {
        WithoutSkip(hooks, i, c);
        hooks := hooks[..i] + hooks[i + 1..];
      } else {
        WithoutKeep(hooks, i, c);
        i := i + 1;
      }
    }
    assert hooks[..i] == hooks;
    assert hooks[i..] == [];
    WithoutMembers(d.installed, c);
    r := d.(installed := hooks);
  }

  /** Uninstalling twice is the same as uninstalling once. */
  lemma {:induction false} WithoutIdempotent(s: seq<Installed>, c: ComponentId)
    ensures Without(Without(s, c), c) == Without(s, c)
  {
    if |s| > 0 {
      WithoutIdempotent(s[1..], c);
      if s[0].component != c {
        assert ([s[0]] + Without(s[1..], c))[1..] == Without(s[1..], c);
      }
    }
  }

  /** `invoke_eventhook`: only queues the event; no hook runs. */
  function Invoke<P>(d: Dispatcher<P>, event: Event, payload: Option<P>): (r: Dispatcher<P>)
    ensures r.installed == d.installed
    ensures r.pending == d.pending + [Pending(event, payload)]
  {
    d.(pending := d.pending + [Pending(event, payload)])
  }

  /** The calls one published event makes: every installed hook whose event
      matches, in install order. */
  function CallsFor<P>(installed: seq<Installed>, p: Pending<P>): (r: seq<Action<P>>)
    ensures |r| == Listeners(installed, p.event)
    ensures forall i :: 0 <= i < |r| ==> r[i].Call? && r[i].event == p.event && r[i].payload == p.payload
  {
    if |installed| == 0 then []
    else if installed[0].event == p.event then [Call(installed[0].hook, p.event, p.payload)] + CallsFor(installed[1..], p)
    else CallsFor(installed[1..], p)
  }

  /** The release that follows an event's hooks when its payload is not null. */
  function ReleaseOf<P>(p: Pending<P>): seq<Action<P>> {
    if p.payload.Some? then [Release(p.payload.value)] else []
  }

  /** `HookInvoker::proc`: for each queued event in order, its matching hooks
      in install order, then the release of its payload. */
  function Dispatch<P>(installed: seq<Installed>, batch: seq<Pending<P>>): (r: seq<Action<P>>)
    ensures |r| == CallCount(installed, batch) + ReleaseCount(batch)
  {
    if |batch| == 0 then []
    else CallsFor(installed, batch[0]) + ReleaseOf(batch[0]) + Dispatch(installed, batch[1..])
  }

  /** Drains the pending queue as one batch, returning the actions it caused. */
  function ProcessPending<P>(d: Dispatcher<P>): (r: (Dispatcher<P>, seq<Action<P>>))
    ensures r.0.installed == d.installed && r.0.pending == []
    ensures r.1 == Dispatch(d.installed, d.pending)
    ensures |r.1| == CallCount(d.installed, d.pending) + ReleaseCount(d.pending)
  {
    (d.(pending := []), Dispatch(d.installed, d.pending))
  }

  /** Installed hooks that listen for `e`. */
  function Listeners(installed: seq<Installed>, e: Event): nat {
    if |installed| == 0 then 0
    else (if installed[0].event == e then 1 else 0) + Listeners(installed[1..], e)
  }

  /** Hook calls a batch should cause: one per listener per queued event. */
  function CallCount<P>(installed: seq<Installed>, batch: seq<Pending<P>>): nat {
    if |batch| == 0 then 0 else Listeners(installed, batch[0].event) + CallCount(installed, batch[1..])
  }

  /** Non-null payloads in a batch. */
  function ReleaseCount<P>(batch: seq<Pending<P>>): nat {
    if |batch| == 0 then 0 else (if batch[0].payload.Some? then 1 else 0) + ReleaseCount(batch[1..])
  }

  /** Every call made for one event goes to a hook installed for that very
      event, with that event's payload. */
  lemma {:induction false} CallsForMatch<P>(installed: seq<Installed>, p: Pending<P>)
    ensures forall a :: a in CallsFor(installed, p) ==>
              a.Call? && a.event == p.event && a.payload == p.payload &&
              exists x :: x in installed && x.hook == a.hook && x.event == p.event
  {
    if |installed| > 0 {
      CallsForMatch(installed[1..], p);
      forall a | a in CallsFor(installed, p)
        ensures a.Call? && a.event == p.event && a.payload == p.payload &&
                exists x :: x in installed && x.hook == a.hook && x.event == p.event
      {
        if installed[0].event == p.event && a == Call(installed[0].hook, p.event, p.payload) {
          assert installed[0] in installed;
        } else {
          assert a in CallsFor(installed[1..], p);
          var x :| x in installed[1..] && x.hook == a.hook && x.event == p.event;
          assert x in installed;
        }
      }
    }
  }

  /** The calls for an event follow the install order: the calls for a list
      of entries are those for its front followed by those for its back. */
  lemma {:induction false} CallsForAppend<P>(a: seq<Installed>, b: seq<Installed>, p: Pending<P>)
    ensures CallsFor(a + b, p) == CallsFor(a, p) + CallsFor(b, p)
  {
    if |a| == 0 {
      assert a + b == b;
    } else {
      assert (a + b)[0] == a[0];
      assert (a + b)[1..] == a[1..] + b;
      CallsForAppend(a[1..], b, p);
    }
  }

  /** The calls one entry contributes: exactly one call of its hook when it
      listens for the event, none otherwise. */
  function EntryCalls<P>(x: Installed, p: Pending<P>): seq<Action<P>> {
    if x.event == p.event then [Call(x.hook, p.event, p.payload)] else []
  }

  /** Each listener is called exactly once, in install order: the calls for
      the event are the calls of the entries before `k`, then entry `k`'s own
      call (if it listens), then those of the entries after `k`. */
  lemma CallsForInOrder<P>(installed: seq<Installed>, k: nat, p: Pending<P>)
    requires k < |installed|
    ensures CallsFor(installed, p) == CallsFor(installed[..k], p) + EntryCalls(installed[k], p) + CallsFor(installed[k + 1..], p)
  {
    assert installed == installed[..k] + ([installed[k]] + installed[k + 1..]);
    CallsForAppend(installed[..k], [installed[k]] + installed[k + 1..], p);
    CallsForAppend([installed[k]], installed[k + 1..], p);
    assert CallsFor([installed[k]], p) == EntryCalls(installed[k], p) by {
      assert [installed[k]][1..] == [];
    }
  }

  /** A newly installed hook is called after every hook installed before it,
      once per event it listens for. */
  lemma InstallRunsLast<P>(d: Dispatcher<P>, hook: HookId, event: Event, component: ComponentId, p: Pending<P>)
    ensures CallsFor(Install(d, hook, event, component).installed, p)
            == CallsFor(d.installed, p) + EntryCalls(Installed(hook, event, component), p)
  {
    var x := Installed(hook, event, component);
    CallsForAppend(d.installed, [x], p);
    assert CallsFor([x], p) == EntryCalls(x, p) by {
      assert [x][1..] == [];
    }
  }

  /** Splitting a queue into two batches dispatches exactly the same actions
      in the same order as handling it at once. */
  lemma {:induction false} DispatchAppend<P>(installed: seq<Installed>, a: seq<Pending<P>>, b: seq<Pending<P>>)
    ensures Dispatch(installed, a + b) == Dispatch(installed, a) + Dispatch(installed, b)
  {
    if |a| == 0 {
      assert a + b == b;
    } else {
      var ab := a + b;
      assert ab[1..] == a[1..] + b;
      assert ab[0] == a[0];
      DispatchCons(installed, ab);
      DispatchCons(installed, a);
      DispatchAppend(installed, a[1..], b);
      AppendAssoc(CallsFor(installed, a[0]) + ReleaseOf(a[0]), Dispatch(installed, a[1..]), Dispatch(installed, b));
    }
  }

  /** Hooks are dispatched per event in queue order: the actions of the
      event at position `i` (its calls, then its release) come after those of
      every earlier event and before those of every later one. */
  lemma DispatchInPlace<P>(installed: seq<Installed>, q: seq<Pending<P>>, i: nat)
    requires i < |q|
    ensures Dispatch(installed, q)
            == Dispatch(installed, q[..i]) + CallsFor(installed, q[i]) + ReleaseOf(q[i]) + Dispatch(installed, q[i + 1..])
  {
    var x := Dispatch(installed, q[..i]);
    var mid := CallsFor(installed, q[i]) + ReleaseOf(q[i]);
    var y := Dispatch(installed, q[i + 1..]);
    assert Dispatch(installed, q) == x + Dispatch(installed, q[i..]) by {
      DispatchSplit(installed, q, i);
    }
    assert Dispatch(installed, q[i..]) == mid + y by {
      DispatchCons(installed, q[i..]);
      assert q[i..][0] == q[i];
      assert q[i..][1..] == q[i + 1..];
    }
    var b, c := CallsFor(installed, q[i]), ReleaseOf(q[i]);
    AppendAssoc(x, mid, y);
    AppendAssoc(x, b, c);
  }

  lemma AppendAssoc<T>(a: seq<T>, b: seq<T>, c: seq<T>)
    ensures a + (b + c) == a + b + c
  {
  }

  lemma DispatchSplit<P>(installed: seq<Installed>, q: seq<Pending<P>>, i: nat)
    requires i <= |q|
    ensures Dispatch(installed, q) == Dispatch(installed, q[..i]) + Dispatch(installed, q[i..])
  {
    assert q == q[..i] + q[i..];
    DispatchAppend(installed, q[..i], q[i..]);
  }

  /** An event published with `invoke_eventhook` is handled after everything
      already pending: its listeners' calls, then the release of its payload. */
  lemma InvokeThenProcess<P>(d: Dispatcher<P>, event: Event, payload: Option<P>)
    ensures ProcessPending(Invoke(d, event, payload)).1
            == ProcessPending(d).1 + CallsFor(d.installed, Pending(event, payload)) + ReleaseOf(Pending(event, payload))
  {
    var p := Pending(event, payload);
    DispatchAppend(d.installed, d.pending, [p]);
    DispatchSingle(d.installed, p);
  }

  lemma DispatchCons<P>(installed: seq<Installed>, q: seq<Pending<P>>)
    requires |q| > 0
    ensures Dispatch(installed, q) == CallsFor(installed, q[0]) + ReleaseOf(q[0]) + Dispatch(installed, q[1..])
  {
  }

  lemma DispatchSingle<P>(installed: seq<Installed>, p: Pending<P>)
    ensures Dispatch(installed, [p]) == CallsFor(installed, p) + ReleaseOf(p)
  {
    assert [p][1..] == [];
    assert Dispatch(installed, [p][1..]) == [];
  }

  /** Hooks of a component that has uninstalled are never called again. */
  lemma {:induction false} NoCallsAfterUninstall<P>(installed: seq<Installed>, c: ComponentId, p: Pending<P>)
    ensures forall a :: a in CallsFor(Without(installed, c), p) ==>
              a.Call? && exists x :: x in installed && x.component != c && x.hook == a.hook && x.event == p.event
  {
    var w := Without(installed, c);
    WithoutMembers(installed, c);
    CallsForMatch(w, p);
    forall a | a in CallsFor(w, p)
      ensures a.Call? && exists x :: x in installed && x.component != c && x.hook == a.hook && x.event == p.event
    {
      var x :| x in w && x.hook == a.hook && x.event == p.event;
      assert x in installed && x.component != c;
    }
  }
}
