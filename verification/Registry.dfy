/** The get-or-create accessors of a module over its component registry. */
module Registry {
  import opened Types

  datatype Kind =
    | Kafka | RabbitMQ | Mongo | Grpc | GrpcClient | DB | Redis | RedisLock | Deduplicator | Scheduler

  function Base(kind: Kind): string {
    match kind
    case Kafka => "Kafka"
    case RabbitMQ => "RabbitMQ"
    case Mongo => "Mongo"
    case Grpc => "Grpc"
    case GrpcClient => "GrpcClient"
    case DB => "DB"
    case Redis => "Redis"
    case RedisLock => "RedisLock"
    case Deduplicator => "Deduplicator"
    case Scheduler => "Scheduler"
  }

  /** Grpc, GrpcClient and Schedule take no name. */
  predicate TakesName(kind: Kind) {
    !kind.Grpc? && !kind.GrpcClient? && !kind.Scheduler?
  }

  /** What an accessor is asked for. */
  datatype Request = Request(kind: Kind, name: string)

  function Ask(kind: Kind, name: string): Request {
    Request(kind, if TakesName(kind) then name else "")
  }

  predicate Askable(r: Request) {
    TakesName(r.kind) || r.name == ""
  }

  function ComponentName(r: Request): string {
    if r.name == "" then Base(r.kind) else Base(r.kind) + ":" + r.name
  }

  // ---- Naming is injective --------------------------------------------------------------------------------

  lemma BasesDiffer(a: Kind, b: Kind)
    requires a != b
    ensures Base(a) != Base(b)
  {
  }

  lemma NamedIffColon(r: Request)
    ensures ':' !in Base(r.kind)
    ensures ':' in ComponentName(r) <==> r.name != ""
  {
    if r.name != "" {
      assert ComponentName(r)[|Base(r.kind)|] == ':';
    }
  }

  /** Two prefixes without a colon, each followed by a colon, are equal if the texts are. */
  lemma SplitAtColon(a: string, b: string, x: string, y: string)
    requires ':' !in a && ':' !in b && a + ":" + x == b + ":" + y
    ensures a == b && x == y
  {
    var s := a + ":" + x;
    assert s[|a|] == ':' && s[|b|] == ':';
    assert forall i :: 0 <= i < |a| ==> s[i] == a[i];
    assert forall i :: 0 <= i < |b| ==> s[i] == b[i];
    assert |a| == |b|;
    assert a == s[..|a|] && b == s[..|b|];
    assert x == s[|a| + 1..] && y == s[|b| + 1..];
  }

  /** Different kinds or names never share a component name, although "Redis" begins "RedisLock"
      and names may contain colons. */
  lemma NamesInjective(r: Request, q: Request)
    requires ComponentName(r) == ComponentName(q)
    ensures r == q
  {
    NamedIffColon(r);
    NamedIffColon(q);
    if r.name != "" {
      SplitAtColon(Base(r.kind), Base(q.kind), r.name, q.name);
    }
    if r.kind != q.kind {
      BasesDiffer(r.kind, q.kind);
    }
  }

  /** The names in full. */
  lemma NamesInFull(name: string)
    ensures ComponentName(Ask(Kafka, "")) == "Kafka" && ComponentName(Ask(RabbitMQ, "")) == "RabbitMQ"
    ensures ComponentName(Ask(Mongo, "")) == "Mongo" && ComponentName(Ask(DB, "")) == "DB"
    ensures ComponentName(Ask(Redis, "")) == "Redis" && ComponentName(Ask(RedisLock, "")) == "RedisLock"
    ensures ComponentName(Ask(Deduplicator, "")) == "Deduplicator"
    ensures ComponentName(Ask(Grpc, name)) == "Grpc" && ComponentName(Ask(GrpcClient, name)) == "GrpcClient"
    ensures ComponentName(Ask(Scheduler, name)) == "Scheduler"
    ensures forall kind: Kind ::
              kind in {Kafka, RabbitMQ, Mongo, DB, Redis, RedisLock, Deduplicator} && name != "" ==>
                ComponentName(Ask(kind, name)) == ComponentName(Ask(kind, "")) + ":" + name
  {
  }

  // ---- The accessors on values ---------------------------------------------------------------------------------

  /** A component: its identity, what it was asked for, and the Redis component it will look up. */
  datatype Component = Component(id: nat, request: Request, redis: string)

  /** `initialised` lists the names passed to `initialize`, in order. */
  datatype State = State(components: map<string, Component>, started: bool, made: nat, initialised: seq<string>)

  const EMPTY := State(map[], false, 0, [])

  datatype Outcome = Returned(c: Component) | WrongType | AfterStart

  predicate NeedsRedis(kind: Kind) {
    kind.RedisLock? || kind.Deduplicator?
  }

  function RedisFor(r: Request): Request {
    Request(Redis, r.name)
  }

  function Create(s: State, r: Request): (State, Component) {
    var c := Component(s.made, r, if NeedsRedis(r.kind) then ComponentName(RedisFor(r)) else "");
    (s.(components := s.components[ComponentName(r) := c], made := s.made + 1,
        initialised := s.initialised + [ComponentName(r)]), c)
  }

  /** The part all accessors share: what is found, or the refusal to create after the start. */
  function Lookup(s: State, r: Request): Option<Outcome> {
    var cn := ComponentName(r);
    if cn in s.components then
      Some(if s.components[cn].request.kind == r.kind then Returned(s.components[cn]) else WrongType)
    else if s.started then Some(AfterStart)
    else None
  }

  function AccessSimple(s: State, r: Request): (State, Outcome) {
    match Lookup(s, r)
    case Some(outcome) => (s, outcome)
    case None => var (s', c) := Create(s, r); (s', Returned(c))
  }

  function Access(s: State, r: Request): (State, Outcome) {
    if !NeedsRedis(r.kind) then AccessSimple(s, r)
    else
      match Lookup(s, r)
      case Some(outcome) => (s, outcome)
      case None =>
        var (t, redis) := AccessSimple(s, RedisFor(r));
        if !redis.Returned? then (t, redis)
        else var (s', c) := Create(t, r); (s', Returned(c))
  }

  datatype Event = Get(r: Request) | Start

  function Step(s: State, e: Event): State {
    match e
    case Get(r) => if Askable(r) then Access(s, r).0 else s
    case Start => s.(started := true)
  }

  function After(es: seq<Event>): State {
    if es == [] then EMPTY else Step(After(es[..|es| - 1]), es[|es| - 1])
  }

  // ---- Invariants over all accessor sequences --------------------------------------------------------------------

  ghost predicate EntryOk(s: State, cn: string) {
    cn in s.components ==>
      var c := s.components[cn];
      && cn == ComponentName(c.request)
      && c.id < s.made
      && (NeedsRedis(c.request.kind) ==>
            && c.redis == ComponentName(RedisFor(c.request))
            && c.redis in s.components && s.components[c.redis].request.kind == Redis)
  }

  ghost predicate RegistryInv(s: State) {
    && (forall cn :: EntryOk(s, cn))
    && (forall a, b :: a in s.components && b in s.components && s.components[a].id == s.components[b].id ==> a == b)
    && (forall i, j :: 0 <= i < j < |s.initialised| ==> s.initialised[i] != s.initialised[j])
    && (forall cn :: cn in s.initialised <==> cn in s.components)
  }

  lemma CreateKeeps(s: State, r: Request)
    requires RegistryInv(s) && ComponentName(r) !in s.components
    requires NeedsRedis(r.kind) ==>
               ComponentName(RedisFor(r)) in s.components && s.components[ComponentName(RedisFor(r))].request.kind == Redis
    ensures RegistryInv(Create(s, r).0)
  {
    var (s', _) := Create(s, r);
    forall cn ensures EntryOk(s', cn) { assert EntryOk(s, cn); }
    forall a, b | a in s'.components && b in s'.components && s'.components[a].id == s'.components[b].id
      ensures a == b
    {
      assert EntryOk(s, a) && EntryOk(s, b);
    }
  }

  /** In a sound registry a lookup never finds another type. */
  lemma RightType(s: State, r: Request)
    requires RegistryInv(s)
    ensures Lookup(s, r) != Some(WrongType)
  {
    var cn := ComponentName(r);
    assert EntryOk(s, cn);
    if cn in s.components { NamesInjective(r, s.components[cn].request); }
  }

  lemma AccessKeeps(s: State, r: Request)
    requires RegistryInv(s)
    ensures RegistryInv(Access(s, r).0)
    ensures Access(s, r).1 != WrongType
  {
    RightType(s, r);
    if Lookup(s, r).None? {
      if NeedsRedis(r.kind) {
        var q := RedisFor(r);
        RightType(s, q);
        if Lookup(s, q).None? { CreateKeeps(s, q); }
        var t := AccessSimple(s, q).0;
        assert EntryOk(t, ComponentName(q));
        if ComponentName(r) == ComponentName(q) { NamesInjective(r, q); }
        CreateKeeps(t, r);
      } else {
        CreateKeeps(s, r);
      }
    }
  }

  lemma {:induction false} Invariant(es: seq<Event>)
    ensures RegistryInv(After(es))
  {
    if es != [] {
      var s, e := After(es[..|es| - 1]), es[|es| - 1];
      Invariant(es[..|es| - 1]);
      if e.Get? {
        AccessKeeps(s, e.r);
      } else {
        forall cn ensures EntryOk(Step(s, e), cn) { assert EntryOk(s, cn); }
      }
    }
  }

  /** No type-mismatch panic is reachable: after any sequence of accesses, an accessor returns a
      component of its own kind and name, or refuses to create one after the start. */
  lemma NeverWrongType(es: seq<Event>, r: Request)
    ensures var (s', outcome) := Access(After(es), r);
            match outcome
            case WrongType => false
            case AfterStart => After(es).started && ComponentName(r) !in After(es).components
            case Returned(c) => c.request == r && ComponentName(r) in s'.components && s'.components[ComponentName(r)] == c
  {
    var s := After(es);
    Invariant(es);
    AccessKeeps(s, r);
    var cn := ComponentName(r);
    assert EntryOk(s, cn);
    if cn in s.components { NamesInjective(r, s.components[cn].request); }
  }

  /** `t` is `s` with r's component made, initialised and registered last, and nothing else touched. */
  predicate Adds(s: State, t: State, r: Request, redis: string) {
    var cn := ComponentName(r);
    && cn !in s.components
    && t.components.Keys == s.components.Keys + {cn}
    && (forall n :: n in s.components ==> t.components[n] == s.components[n])
    && t.components[cn].request == r && t.components[cn].redis == redis
    && t.initialised == s.initialised + [cn]
    && t.started == s.started
  }

  lemma CreateAdds(s: State, r: Request)
    requires ComponentName(r) !in s.components
    ensures var (t, c) := Create(s, r);
            && Adds(s, t, r, if r.kind.RedisLock? || r.kind.Deduplicator? then ComponentName(Request(Redis, r.name)) else "")
            && t.components[ComponentName(r)] == c
  {
  }

  /** What an access does, in every run. A registered component is returned and nothing changes; a missing
      one is refused after the start, and nothing changes. */
  lemma {:induction false} AccessFinds(es: seq<Event>, r: Request)
    ensures var s := After(es);
            var (t, outcome) := Access(s, r);
            && (ComponentName(r) in s.components ==> outcome == Returned(s.components[ComponentName(r)]) && t == s)
            && (outcome == AfterStart <==> ComponentName(r) !in s.components && s.started)
            && (outcome == AfterStart ==> t == s)
  {
    Invariant(es);
    RightType(After(es), r);
    RightType(After(es), RedisFor(r));
  }

  /** A missing one is, before the start, made, initialised and registered under its name; for RedisLock and
      Deduplicator the Redis component of the same name comes first, if it is missing, and is the one
      that they will look up. Nothing else is registered or touched. */
  lemma {:induction false} AccessCreates(es: seq<Event>, r: Request)
    requires ComponentName(r) !in After(es).components && !After(es).started
    ensures var s := After(es);
            var (t, outcome) := Access(s, r);
            && outcome.Returned? && ComponentName(r) in t.components && outcome.c == t.components[ComponentName(r)]
            && if !(r.kind.RedisLock? || r.kind.Deduplicator?) then Adds(s, t, r, "")
               else
                 var q := Request(Redis, r.name);
                 if ComponentName(q) in s.components then Adds(s, t, r, ComponentName(q))
                 else Adds(s, Create(s, q).0, q, "") && Adds(Create(s, q).0, t, r, ComponentName(q))
  {
    var (s, q) := (After(es), Request(Redis, r.name));
    Invariant(es);
    RightType(s, q);
    if ComponentName(r) == ComponentName(q) { NamesInjective(r, q); }
    if ComponentName(q) !in s.components { CreateAdds(s, q); }
    if NeedsRedis(r.kind) {
      CreateAdds(AccessSimple(s, q).0, r);
    } else {
      CreateAdds(s, r);
    }
  }

  /** The application counts as started in a run exactly when a start is among its events. */
  lemma {:induction false} StartedIff(es: seq<Event>)
    ensures After(es).started <==> Start in es
  {
    if es != [] {
      var init, e := es[..|es| - 1], es[|es| - 1];
      StartedIff(init);
      assert es == init + [e];
      if e.Get? && Askable(e.r) { AccessKeepsStarted(After(init), e.r); }
    }
  }

  lemma AccessKeepsStarted(s: State, r: Request)
    ensures Access(s, r).0.started == s.started
  {
  }

  lemma AccessExtends(s: State, r: Request, cn: string)
    requires cn in s.components
    ensures cn in Access(s, r).0.components && Access(s, r).0.components[cn] == s.components[cn]
  {
  }

  /** What an accessor has returned, it returns for ever, whatever is accessed in between. */
  lemma {:induction false} SameComponentAgain(es: seq<Event>, more: seq<Event>, r: Request)
    requires ComponentName(r) in After(es).components
    ensures ComponentName(r) in After(es + more).components
    ensures Access(After(es + more), r) == (After(es + more), Returned(After(es).components[ComponentName(r)]))
  {
    var cn := ComponentName(r);
    if more == [] {
      assert es + more == es;
    } else {
      var init, e := more[..|more| - 1], more[|more| - 1];
      SameComponentAgain(es, init, r);
      assert (es + more)[..|es + more| - 1] == es + init && (es + more)[|es + more| - 1] == e;
      assert After(es + init).components[cn] == After(es).components[cn];
      if e.Get? { AccessExtends(After(es + init), e.r, cn); }
    }
    Invariant(es + more);
    assert EntryOk(After(es + more), cn);
    NamesInjective(r, After(es + more).components[cn].request);
  }

  /** Every registered name has been initialised exactly once, and no two names share a component. */
  lemma InitialisedOnce(es: seq<Event>)
    ensures var s := After(es);
            && (forall cn :: cn in s.components <==> cn in s.initialised)
            && (forall i, j :: 0 <= i < j < |s.initialised| ==> s.initialised[i] != s.initialised[j])
            && (forall a, b :: a in s.components && b in s.components && a != b ==>
                  s.components[a].id != s.components[b].id)
  {
    Invariant(es);
  }

  /** The Redis component that a lock manager or deduplicator looks up is always registered, with the
      right type, and is the one the Redis accessor returns for the same name. */
  lemma RedisLookupSucceeds(es: seq<Event>, r: Request)
    requires NeedsRedis(r.kind) && ComponentName(r) in After(es).components
    ensures var s := After(es);
            var redis := s.components[ComponentName(r)].redis;
            redis in s.components && Access(s, Ask(Redis, r.name)) == (s, Returned(s.components[redis]))
  {
    Invariant(es);
    var s := After(es);
    var cn := ComponentName(r);
    assert EntryOk(s, cn);
    NamesInjective(r, s.components[cn].request);
    assert EntryOk(s, s.components[cn].redis);
  }

  // ---- The module object --------------------------------------------------------------------------------------------

  class ModuleBase {
    var components: map<string, Component>
    var started: bool
    var made: nat
    var initialised: seq<string>

    function View(): State
      reads this
    {
      State(components, started, made, initialised)
    }

    constructor ()
      ensures View() == EMPTY
    {
      components, started, made, initialised := map[], false, 0, [];
    }

    method Register(r: Request, redis: string) returns (c: Component)
      requires redis == if NeedsRedis(r.kind) then ComponentName(RedisFor(r)) else ""
      modifies this
      ensures View() == Create(old(View()), r).0 && c == Create(old(View()), r).1
    {
      c := Component(made, r, redis);
      made := made + 1;
      initialised := initialised + [ComponentName(r)];
      components := components[ComponentName(r) := c];
    }

    /** Kafka, RabbitMQ, Mongo, Grpc, GrpcClient, DB, Redis and Schedule. */
    method GetSimple(kind: Kind, name: string) returns (outcome: Outcome)
      requires !NeedsRedis(kind)
      modifies this
      ensures View() == Access(old(View()), Ask(kind, name)).0 && outcome == Access(old(View()), Ask(kind, name)).1
    {
      var r := Ask(kind, name);
      var componentName := ComponentName(r);
      if componentName in components {
        var c := components[componentName];
        return if c.request.kind == kind then Returned(c) else WrongType;
      }
      if started {
        return AfterStart;
      }
      var c := Register(r, "");
      outcome := Returned(c);
    }

    /** RedisLock and Deduplicator: the Redis component of the same name is created first. */
    method GetOverRedis(kind: Kind, name: string) returns (outcome: Outcome)
      requires NeedsRedis(kind)
      modifies this
      ensures View() == Access(old(View()), Ask(kind, name)).0 && outcome == Access(old(View()), Ask(kind, name)).1
    {
      var r := Ask(kind, name);
      var componentName := ComponentName(r);
      if componentName in components {
        var c := components[componentName];
        return if c.request.kind == kind then Returned(c) else WrongType;
      }
      if started {
        return AfterStart;
      }
      outcome := GetSimple(Redis, name);
      if outcome.Returned? {
        var c := Register(r, ComponentName(RedisFor(r)));
        outcome := Returned(c);
      }
    }
  }
}
