/** The client's host configuration as a transaction: all of it, or exactly the host as it was. */
module Transaction {
  import opened Bytes
  import opened Control

  datatype Interface = V4(address: Ipv4, prefix: byte) | V6(addressV6: Ipv6, prefix: byte)

  datatype Route = RouteV4(network: Ipv4, prefix: byte, gateway: Ipv4) | RouteV6(networkV6: Ipv6, prefix: byte, gatewayV6: Ipv6)

  datatype Mtus = Mtus(v4: nat, v6: nat)

  datatype Host = Host(adapter: bool, session: bool, addresses: set<Interface>, mtu: Mtus, routes: set<Route>)

  // ---------- Actions on the host, and their undoing ----------

  datatype Action =
    | OpenAdapter
    | StartSession
    | AddAddress(address: Interface)
    | SetMtu(prior: Mtus, mtu: nat)
    | AddRoute(route: Route)

  function Do(h: Host, a: Action): Host {
    match a
    case OpenAdapter => h.(adapter := true)
    case StartSession => h.(session := true)
    case AddAddress(i) => h.(addresses := h.addresses + {i})
    case SetMtu(_, m) => h.(mtu := Mtus(m, m))
    case AddRoute(r) => h.(routes := h.routes + {r})
  }

  function Undo(h: Host, a: Action): Host {
    match a
    case OpenAdapter => h.(adapter := false)
    case StartSession => h.(session := false)
    case AddAddress(i) => h.(addresses := h.addresses - {i})
    case SetMtu(prior, _) => h.(mtu := prior)
    case AddRoute(r) => h.(routes := h.routes - {r})
  }

  /** The action creates something that is not there yet. */
  predicate Effective(h: Host, a: Action) {
    match a
    case OpenAdapter => !h.adapter
    case StartSession => !h.session
    case AddAddress(i) => i !in h.addresses
    case SetMtu(prior, m) => h.mtu == prior != Mtus(m, m)
    case AddRoute(r) => r !in h.routes
  }

  /** Creations, the latest on top. */
  datatype Stack = Empty | Push(top: Action, below: Stack)

  function DoAll(h: Host, acts: Stack): Host {
    match acts
    case Empty => h
    case Push(a, below) => Do(DoAll(h, below), a)
  }

  /** Undo from the top. */
  function UndoAll(h: Host, acts: Stack): Host
    decreases acts
  {
    match acts
    case Empty => h
    case Push(a, below) => UndoAll(Undo(h, a), below)
  }

  /** The log after undoing from the top: the latest creation is undone first. */
  function Unwound(log: seq<Action>, acts: Stack): seq<Action>
    decreases acts
  {
    match acts
    case Empty => log
    case Push(a, below) => Unwound(log + [a], below)
  }

  /** Every action created something new at its turn. */
  predicate Justified(h: Host, acts: Stack) {
    match acts
    case Empty => true
    case Push(a, below) => Justified(h, below) && Effective(DoAll(h, below), a)
  }

  predicate Contains(acts: Stack, a: Action) {
    acts.Push? && (acts.top == a || Contains(acts.below, a))
  }

  lemma UndoDo(h: Host, a: Action)
    requires Effective(h, a)
    ensures Undo(Do(h, a), a) == h
  {
    match a
    case AddAddress(i) => assert h.addresses + {i} - {i} == h.addresses;
    case AddRoute(r) => assert h.routes + {r} - {r} == h.routes;
    case _ =>
  }

  /** Undoing what was created, in reverse order, is exact. */
  lemma {:induction false} UndoRestores(h: Host, acts: Stack)
    requires Justified(h, acts)
    ensures UndoAll(DoAll(h, acts), acts) == h
  {
    if acts.Push? {
      UndoDo(DoAll(h, acts.below), acts.top);
      UndoRestores(h, acts.below);
    }
  }

  /** Nothing that existed before is among what was created, so nothing of it is ever removed. */
  lemma {:induction false} CreatedIsNew(h: Host, acts: Stack)
    requires Justified(h, acts)
    ensures forall r :: Contains(acts, AddRoute(r)) ==> r !in h.routes
    ensures forall i :: Contains(acts, AddAddress(i)) ==> i !in h.addresses
    ensures h.routes <= DoAll(h, acts).routes && h.addresses <= DoAll(h, acts).addresses
  {
    if acts.Push? {
      CreatedIsNew(h, acts.below);
    }
  }

  // ---------- The backend ----------

  datatype Attempt = Thrown | Created | Existing

  /** A backend that keeps its contract and fails wherever `fails` says, leaving nothing behind. */
  class Backend {
    const fails: nat -> bool
    var calls: nat
    var host: Host
    /** Removals, in order. */
    ghost var undone: seq<Action>

    constructor (fails: nat -> bool, host: Host)
      ensures this.host == host && this.fails == fails && undone == []
    {
      this.fails, this.host, calls, undone := fails, host, 0, [];
    }

    /** One setup call: it throws, or finds the thing in place, or creates it. */
    method Try(a: Action) returns (r: Attempt)
      modifies this
      ensures r == if fails(old(calls)) then Thrown else if Effective(old(host), a) then Created else Existing
      ensures host == (if r == Created then Do(old(host), a) else old(host)) && undone == old(undone)
    {
      calls := calls + 1;
      if fails(calls - 1) {
        return Thrown;
      }
      if !Effective(host, a) {
        return Existing;
      }
      host, r := Do(host, a), Created;
    }

    method Remove(a: Action)
      requires !a.SetMtu?
      modifies this
      ensures host == Undo(old(host), a) && undone == old(undone) + [a]
    {
      host, undone := Undo(host, a), undone + [a];
    }

    method RestoreMtu(prior: Mtus, ghost mtu: nat)
      modifies this
      ensures host == Undo(old(host), SetMtu(prior, mtu)) && undone == old(undone) + [SetMtu(prior, mtu)]
    {
      host, undone := host.(mtu := prior), undone + [SetMtu(prior, mtu)];
    }
  }

  // ---------- The transaction ----------

  datatype Outcome = Activated | AlreadyActive | NoRoutes | Failed

  /** The configuration an assignment asks for; a route that cannot be parsed is `None`. */
  datatype Plan = Plan(address: Interface, addressV6: Option<Interface>, mtu: nat, routes: seq<Option<Route>>)

  predicate Parsable(plan: Plan) {
    forall i :: 0 <= i < |plan.routes| ==> plan.routes[i].Some?
  }

  /** The routes asked for so far. */
  function Asked(routes: seq<Option<Route>>): set<Route> {
    set i | 0 <= i < |routes| && routes[i].Some? :: routes[i].value
  }

  /** The host with the whole plan in place. */
  function Configured(h: Host, plan: Plan): Host {
    Host(true, true,
         h.addresses + {plan.address} + (if plan.addressV6.Some? then {plan.addressV6.value} else {}),
         Mtus(plan.mtu, plan.mtu),
         h.routes + Asked(plan.routes))
  }

  /** What a transaction holds, in the order of creation. */
  datatype Holdings = Holdings(
    adapter: bool,
    session: bool,
    address: Option<Interface>,
    addressV6: Option<Interface>,
    mtu: Option<Action>,
    routes: seq<Route>)

  const NOTHING := Holdings(false, false, None, None, None, [])

  function Opened(h: Holdings): Stack {
    var s := if h.adapter then Push(OpenAdapter, Empty) else Empty;
    if h.session then Push(StartSession, s) else s
  }

  function Addressed(h: Holdings): Stack {
    if h.address.Some? then Push(AddAddress(h.address.value), Opened(h)) else Opened(h)
  }

  function AddressedV6(h: Holdings): Stack {
    if h.addressV6.Some? then Push(AddAddress(h.addressV6.value), Addressed(h)) else Addressed(h)
  }

  function Basics(h: Holdings): Stack {
    if h.mtu.Some? then Push(h.mtu.value, AddressedV6(h)) else AddressedV6(h)
  }

  function Routed(base: Stack, routes: seq<Route>): Stack {
    if routes == [] then base else Push(AddRoute(routes[|routes| - 1]), Routed(base, routes[..|routes| - 1]))
  }

  function Stacked(h: Holdings): Stack {
    Routed(Basics(h), h.routes)
  }

  lemma AskedNext(routes: seq<Option<Route>>, i: nat)
    requires i < |routes| && routes[i].Some?
    ensures Asked(routes[..i + 1]) == Asked(routes[..i]) + {routes[i].value}
  {
    var more, less := routes[..i + 1], routes[..i];
    forall r | r in Asked(less) + {routes[i].value}
      ensures r in Asked(more)
    {
      if r in Asked(less) {
        var j :| 0 <= j < |less| && less[j].Some? && less[j].value == r;
        assert more[j] == less[j];
      } else {
        assert more[i] == routes[i];
      }
    }
    forall r | r in Asked(more)
      ensures r in Asked(less) + {routes[i].value}
    {
      var j :| 0 <= j < |more| && more[j].Some? && more[j].value == r;
      assert j < i ==> less[j] == more[j];
    }
  }

  class NetworkTransaction {
    const backend: Backend
    var address: Interface
    var addressV6: Option<Interface>
    var createdRoutes: seq<Route>
    ghost var mtu: nat
    var priorMtu: Option<Mtus>
    var adapterOpen: bool
    var sessionStarted: bool
    var addressCreated: bool
    var addressV6Created: bool
    var active: bool
    /** The host before the current activation. */
    ghost var origin: Host

    /** What the flags say is held. */
    ghost function Held(): Holdings
      reads this
    {
      Holdings(adapterOpen, sessionStarted, if addressCreated then Some(address) else None,
               if addressV6Created then addressV6 else None,
               if priorMtu.Some? then Some(SetMtu(priorMtu.value, mtu)) else None, createdRoutes)
    }

    /** The host is `origin` plus exactly the recorded creations, each of which was new. */
    ghost predicate Consistent()
      reads this, backend
    {
      && Accounted(origin, backend.host, Stacked(Held())) && !origin.adapter && !origin.session
      && (addressV6Created ==> addressV6.Some?)
    }

    /** Either nothing is held, or the transaction is active with the adapter open. */
    ghost predicate Valid()
      reads this, backend
    {
      Consistent() && (active <==> adapterOpen) && (!active ==> Held() == NOTHING)
    }

    constructor (backend: Backend)
      requires !backend.host.adapter && !backend.host.session
      ensures Valid() && !active && this.backend == backend && origin == backend.host
    {
      this.backend := backend;
      address, addressV6, createdRoutes, mtu, priorMtu := V4(IPV4_ZERO, 0), None, [], 0, None;
      adapterOpen, sessionStarted, addressCreated, addressV6Created, active := false, false, false, false, false;
      origin := backend.host;
      new;
      NothingDone(origin, backend.host);
    }

    /** Undo from the latest creation to the first. */
    method Rollback()
      requires Consistent()
      modifies this, backend
      ensures Valid() && !active && backend.host == origin == old(origin)
      ensures backend.undone == Unwound(old(backend.undone), Stacked(old(Held())))
    {
      AccountedRestores(origin, backend.host, Stacked(Held()));
      active := false;
      RemoveRoutes();
      createdRoutes := [];
      RemoveBasics();
      addressV6 := None;
      NothingDone(origin, backend.host);
    }

    method RemoveRoutes()
      modifies backend
      ensures UndoAll(backend.host, Basics(Held())) == UndoAll(old(backend.host), Stacked(Held()))
      ensures Unwound(backend.undone, Basics(Held())) == Unwound(old(backend.undone), Stacked(Held()))
    {
      ghost var h := Held();
      var i := |createdRoutes|;
      assert createdRoutes[..i] == createdRoutes;
      while i > 0
        invariant i <= |createdRoutes|
        invariant UndoAll(backend.host, Routed(Basics(h), h.routes[..i])) == UndoAll(old(backend.host), Stacked(h))
        invariant Unwound(backend.undone, Routed(Basics(h), h.routes[..i])) == Unwound(old(backend.undone), Stacked(h))
      {
        i := i - 1;
        assert h.routes[..i + 1][..i] == h.routes[..i];
        backend.Remove(AddRoute(createdRoutes[i]));
      }
    }

    method RemoveBasics()
      modifies this`priorMtu, this`addressV6Created, this`addressCreated, this`sessionStarted, this`adapterOpen, backend
      ensures backend.host == UndoAll(old(backend.host), Basics(old(Held())))
      ensures backend.undone == Unwound(old(backend.undone), Basics(old(Held())))
      ensures Held() == NOTHING.(routes := createdRoutes) && !addressV6Created
    {
      RemoveAddresses();
      if sessionStarted {
        backend.Remove(StartSession);
        sessionStarted := false;
      }
      if adapterOpen {
        backend.Remove(OpenAdapter);
        adapterOpen := false;
      }
    }

    /** The MTU and the addresses, the latest first. */
    method RemoveAddresses()
      modifies this`priorMtu, this`addressV6Created, this`addressCreated, backend
      ensures Remaining(old(backend.host), old(backend.undone), Basics(old(Held())),
                        backend.host, backend.undone, Opened(old(Held())))
      ensures priorMtu.None? && !addressV6Created && !addressCreated
    {
      ghost var h, host, log := Held(), backend.host, backend.undone;
      if priorMtu.Some? {
        backend.RestoreMtu(priorMtu.value, mtu);
        priorMtu := None;
      }
      assert Remaining(host, log, Basics(h), backend.host, backend.undone, AddressedV6(h));
      if addressV6Created && addressV6.Some? {
        backend.Remove(AddAddress(addressV6.value));
      }
      addressV6Created := false;
      assert Remaining(host, log, Basics(h), backend.host, backend.undone, Addressed(h));
      if addressCreated {
        backend.Remove(AddAddress(address));
        addressCreated := false;
      }
    }

    /** Set up everything up to the MTU; false stands for the exception that stopped it. */
    method SetUpInterface(plan: Plan) returns (ok: bool)
      requires Valid() && !active
      modifies this, backend
      ensures Consistent() && origin == old(backend.host) && !active && createdRoutes == []
      ensures backend.undone == old(backend.undone)
      ensures ok ==> adapterOpen && backend.host == Configured(origin, plan.(routes := []))
      ensures (forall i :: !backend.fails(i)) ==> ok
    {
      NothingDone(origin, backend.host);
      origin := backend.host;
      NothingDone(origin, backend.host);
      address, addressV6, mtu := plan.address, plan.addressV6, plan.mtu;
      ok := OpenSession();
      if !ok {
        return;
      }
      ok := AddAddresses(plan);
      if !ok {
        return;
      }
      ghost var before := backend.host;
      var prior := backend.host.mtu;
      var r := backend.Try(SetMtu(prior, plan.mtu));
      if r == Thrown {
        return false;
      }
      if r == Created {
        OneMore(origin, before, Basics(Held()), SetMtu(prior, mtu));
        priorMtu := Some(prior);
      }
      assert backend.host.routes + Asked([]) == backend.host.routes;
    }

    method OpenSession() returns (ok: bool)
      requires Held() == NOTHING && Consistent() && backend.host == origin
      modifies this`adapterOpen, this`sessionStarted, backend
      ensures Consistent() && backend.undone == old(backend.undone)
      ensures ok ==> && Held() == NOTHING.(adapter := true, session := true)
                     && backend.host == old(backend.host).(adapter := true, session := true)
      ensures (forall i :: !backend.fails(i)) ==> ok
    {
      var r := backend.Try(OpenAdapter);
      if r == Thrown {
        return false;
      }
      OneMore(origin, origin, Empty, OpenAdapter);
      adapterOpen := true;
      ghost var before := backend.host;
      r := backend.Try(StartSession);
      if r == Thrown {
        return false;
      }
      OneMore(origin, before, Opened(Held()), StartSession);
      sessionStarted := true;
      ok := true;
    }

    method AddAddresses(plan: Plan) returns (ok: bool)
      requires Held() == NOTHING.(adapter := true, session := true) && Consistent()
      requires address == plan.address && addressV6 == plan.addressV6
      modifies this`addressCreated, this`addressV6Created, backend
      ensures Consistent() && priorMtu.None? && backend.undone == old(backend.undone)
      ensures ok ==> backend.host == old(backend.host).(addresses := Configured(old(backend.host), plan).addresses)
      ensures (forall i :: !backend.fails(i)) ==> ok
    {
      var r := backend.Try(AddAddress(address));
      if r == Thrown {
        return false;
      }
      if r == Created {
        OneMore(origin, old(backend.host), Opened(Held()), AddAddress(address));
      }
      addressCreated := r == Created;
      assert backend.host.addresses == old(backend.host).addresses + {address};
      if addressV6.Some? {
        ghost var before := backend.host;
        r := backend.Try(AddAddress(addressV6.value));
        if r == Thrown {
          return false;
        }
        if r == Created {
          OneMore(origin, before, Addressed(Held()), AddAddress(addressV6.value));
        }
        addressV6Created := r == Created;
        assert backend.host.addresses == old(backend.host).addresses + {address} + {addressV6.value};
      }
      ok := true;
    }

    method AddRoutes(routes: seq<Option<Route>>) returns (ok: bool)
      requires Consistent() && createdRoutes == []
      modifies this`createdRoutes, backend
      ensures Consistent() && backend.undone == old(backend.undone)
      ensures ok ==> && (forall i :: 0 <= i < |routes| ==> routes[i].Some?)
                     && backend.host == old(backend.host).(routes := old(backend.host).routes + Asked(routes))
      ensures (forall i :: !backend.fails(i)) && (forall i :: 0 <= i < |routes| ==> routes[i].Some?) ==> ok
    {
      for i := 0 to |routes|
        invariant Consistent() && backend.undone == old(backend.undone)
        invariant forall j :: 0 <= j < i ==> routes[j].Some?
        invariant backend.host == old(backend.host).(routes := old(backend.host).routes + Asked(routes[..i]))
      {
        if routes[i].None? {
          return false;
        }
        AskedNext(routes, i);
        var route := routes[i].value;
        ghost var host := backend.host;
        var r := backend.Try(AddRoute(route));
        if r == Thrown {
          return false;
        }
        if r == Created {
          OneMore(origin, host, Stacked(Held()), AddRoute(route));
          ghost var before := createdRoutes;
          createdRoutes := createdRoutes + [route];
          assert createdRoutes[..|createdRoutes| - 1] == before;
        }
      }
      assert routes[..|routes|] == routes;
      ok := true;
    }

    /**
     * All or nothing: on success the host is the old one plus exactly the plan; on any failure it is the old
     * one, and what had been created, all of it new, was undone from the latest to the first.
     */
    method Activate(plan: Plan) returns (r: Outcome, ghost created: Stack)
      requires Valid()
      modifies this, backend
      ensures Valid() && (r == AlreadyActive <==> old(active)) && (r == NoRoutes <==> !old(active) && plan.routes == [])
      ensures r == AlreadyActive || r == NoRoutes ==>
                && backend.host == old(backend.host) && active == old(active) && Held() == old(Held())
                && origin == old(origin) && backend.undone == old(backend.undone)
      ensures r == Activated ==>
                && active && origin == old(backend.host) && Parsable(plan)
                && backend.host == Configured(origin, plan) && backend.undone == old(backend.undone)
      ensures r == Failed ==>
                && !active && backend.host == old(backend.host)
                && Justified(old(backend.host), created) && backend.undone == Unwound(old(backend.undone), created)
      ensures r == Failed ==> !Parsable(plan) || exists i :: backend.fails(i)
    {
      created := Empty;
      if active || adapterOpen || sessionStarted || addressCreated || addressV6Created || |createdRoutes| > 0 {
        return AlreadyActive, created;
      }
      if |plan.routes| == 0 {
        return NoRoutes, created;
      }
      var ok := SetUpInterface(plan);
      if ok {
        ok := AddRoutes(plan.routes);
      }
      if !ok {
        created := Stacked(Held());
        AccountedRestores(origin, backend.host, created);
        Rollback();
        return Failed, created;
      }
      active := true;
      r := Activated;
    }
  }

  /** Any sequence of activations and rollbacks, and then the destructor's rollback, leaves the host as it was. */
  method AnyCycles(t: NetworkTransaction, script: seq<Option<Plan>>)
    requires t.Valid() && !t.active
    modifies t, t.backend
    ensures t.Valid() && !t.active && t.backend.host == old(t.backend.host)
  {
    NothingDone(t.origin, t.backend.host);
    for i := 0 to |script|
      invariant t.Valid() && t.origin == old(t.backend.host)
    {
      if !t.active {
        NothingDone(t.origin, t.backend.host);
      }
      if script[i].Some? {
        var _, _ := t.Activate(script[i].value);
        if !t.active {
          NothingDone(t.origin, t.backend.host);
        }
      } else {
        t.Rollback();
      }
    }
    t.Rollback();
  }

  /** `host` is `origin` after the creations of `acts`, each of which was new. */
  ghost predicate Accounted(origin: Host, host: Host, acts: Stack) {
    forall x {:trigger Justified(x, acts)} :: x == origin ==> Justified(x, acts) && host == DoAll(x, acts)
  }

  lemma NothingDone(origin: Host, host: Host)
    ensures Accounted(origin, host, Empty) <==> host == origin
  {
    assert Justified(origin, Empty);
  }

  lemma OneMore(origin: Host, host: Host, acts: Stack, a: Action)
    requires Accounted(origin, host, acts) && Effective(host, a)
    ensures Accounted(origin, Do(host, a), Push(a, acts))
  {
    assert Justified(origin, acts);
  }

  lemma AccountedRestores(origin: Host, host: Host, acts: Stack)
    requires Accounted(origin, host, acts)
    ensures Justified(origin, acts) && UndoAll(host, acts) == origin
  {
    assert Justified(origin, acts);
    UndoRestores(origin, acts);
  }

  /** Undoing `rest` from here ends where undoing `acts` from the start does. */
  ghost predicate Remaining(host: Host, log: seq<Action>, acts: Stack, host': Host, log': seq<Action>, rest: Stack) {
    UndoAll(host', rest) == UndoAll(host, acts) && Unwound(log', rest) == Unwound(log, acts)
  }
}
