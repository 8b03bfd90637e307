/** `yarl.service`: the service container, the `Service` descriptor and
    the `Injector` wrapper.  The container singleton is passed and
    returned explicitly.  A factory is identified by an id; calling it
    makes a new object, told apart from every other by the position of
    the call in the container's call log. */
module Services {
  import opened Wrappers
  import Assets

  type FactoryId = nat

  /** The objects the container hands out: itself, an object a factory
      made, an object registered from outside (by identity), or `None`. */
  datatype Value =
    | ContainerRef
    | Made(factory: FactoryId, call: nat)
    | Supplied(id: nat)
    | NoneValue

  /** `factories`, `instances`, and the log of the names whose factory
      has been called, in call order. */
  datatype Container = Container(factories: map<string, FactoryId>, instances: map<string, Value>, calls: seq<string>)

  const SelfName := "service_container"

  /** An instance made by a factory records the call that made it. */
  ghost predicate Valid(c: Container)
  {
    forall n :: n in c.instances && c.instances[n].Made? ==> c.instances[n].call < |c.calls|
  }

  /** `Container()`: no factories, and the container registered as its
      own instance under `service_container`. */
  function NewContainer(): (c: Container)
    ensures c.factories == map[] && c.calls == []
    ensures c.instances.Keys == {SelfName} && c.instances[SelfName] == ContainerRef
    ensures Valid(c)
  {
    Container(map[], map[SelfName := ContainerRef], [])
  }

  /** `add_factory(name, factory)`: a name that already has a factory is a
      `KeyError`. */
  function AddFactory(c: Container, name: string, f: FactoryId): (r: Result<Container>)
    ensures r.Ok? <==> name !in c.factories
    ensures r.Err? ==> r.error == KeyError
    ensures r.Ok? ==> r.value.factories == c.factories[name := f]
    ensures r.Ok? ==> r.value.instances == c.instances && r.value.calls == c.calls
  {
    if name in c.factories then Err(KeyError)
    else Ok(c.(factories := c.factories[name := f]))
  }

  /** `add_instance(name, instance)`: a name that already has an instance,
      registered or made, is a `KeyError`. */
  function AddInstance(c: Container, name: string, v: Value): (r: Result<Container>)
    ensures r.Ok? <==> name !in c.instances
    ensures r.Err? ==> r.error == KeyError
    ensures r.Ok? ==> r.value.instances == c.instances[name := v]
    ensures r.Ok? ==> r.value.factories == c.factories && r.value.calls == c.calls
  {
    if name in c.instances then Err(KeyError)
    else Ok(c.(instances := c.instances[name := v]))
  }

  /** `load(name)`: the name's factory is called once and its object
      stored; a name without a factory is a `KeyError`. */
  function Load(c: Container, name: string): (r: Result<Container>)
    ensures r.Ok? <==> name in c.factories
    ensures r.Err? ==> r.error == KeyError
    ensures r.Ok? ==> r.value.calls == c.calls + [name]
    ensures r.Ok? ==> r.value.instances == c.instances[name := Made(c.factories[name], |c.calls|)]
    ensures r.Ok? ==> r.value.factories == c.factories
  {
    if name !in c.factories then Err(KeyError)
    else
      var made := Made(c.factories[name], |c.calls|);
      Ok(Container(c.factories, c.instances[name := made], c.calls + [name]))
  }

  /** `service(name)`: the stored instance, loading it first when there is
      none; `KeyError` when there is neither an instance nor a factory. */
  function GetService(c: Container, name: string): (r: Result<(Container, Value)>)
    ensures r.Ok? <==> name in c.instances || name in c.factories
    ensures r.Err? ==> r.error == KeyError
    ensures r.Ok? ==> name in r.value.0.instances && r.value.1 == r.value.0.instances[name]
    ensures name in c.instances ==> r == Ok((c, c.instances[name]))
    ensures name !in c.instances && name in c.factories ==>
              r.Ok? && r.value.0.calls == c.calls + [name]
              && r.value.1 == Made(c.factories[name], |c.calls|)
    ensures r.Ok? ==> r.value.0.factories == c.factories
    ensures r.Ok? ==> forall n :: n in c.instances ==> n in r.value.0.instances && r.value.0.instances[n] == c.instances[n]
    ensures r.Ok? ==> r.value.0.instances.Keys == c.instances.Keys + {name}
  {
    if name in c.instances then Ok((c, c.instances[name]))
    else
      var c1 :- Load(c, name);
      Ok((c1, c1.instances[name]))
  }

  /** Requesting a service keeps the container valid, and a made object
      is new: it is not any instance stored before. */
  lemma GetServiceKeepsValid(c: Container, name: string)
    requires Valid(c)
    requires GetService(c, name).Ok?
    ensures Valid(GetService(c, name).value.0)
    ensures name !in c.instances ==> forall n :: n in c.instances ==> c.instances[n] != GetService(c, name).value.1
  {
  }

  /** A second request returns the same object and calls no factory. */
  lemma GetServiceMemoises(c: Container, name: string)
    requires GetService(c, name).Ok?
    ensures var (c1, v) := GetService(c, name).value;
            GetService(c1, name) == Ok((c1, v))
  {
  }

  /** However many times a service is requested, its factory runs at most
      once. */
  function Repeat(c: Container, name: string, n: nat): (r: Result<(Container, Value)>)
    decreases n
  {
    if n <= 1 then GetService(c, name)
    else
      var (c1, _) :- GetService(c, name);
      Repeat(c1, name, n - 1)
  }

  lemma {:induction false} RepeatCallsOnce(c: Container, name: string, n: nat)
    requires n >= 1
    requires name in c.instances || name in c.factories
    ensures Repeat(c, name, n) == GetService(c, name)
    decreases n
  {
    if n > 1 {
      var (c1, v) := GetService(c, name).value;
      GetServiceMemoises(c, name);
      RepeatCallsOnce(c1, name, n - 1);
    }
  }

  /** Once a service has been loaded its name can no longer be given an
      instance. */
  lemma AddInstanceAfterLoad(c: Container, name: string, v: Value)
    requires GetService(c, name).Ok?
    ensures AddInstance(GetService(c, name).value.0, name, v) == Err(KeyError)
  {
  }

  /** `Service(name)`: a descriptor holding the name and a cache that
      starts as `None`. */
  datatype ServiceProperty = ServiceProperty(name: string, cache: Value)

  function NewServiceProperty(name: string): (p: ServiceProperty)
    ensures p.name == name && p.cache == NoneValue
  {
    ServiceProperty(name, NoneValue)
  }

  /** `__get__`: while the cache is `None` the container is asked and the
      answer cached; otherwise the cache is returned and the container is
      not consulted.  A service whose instance is `None` is therefore
      asked for again on every read. */
  function PropertyGet(c: Container, p: ServiceProperty): (r: Result<(Container, ServiceProperty, Value)>)
    ensures p.cache != NoneValue ==> r == Ok((c, p, p.cache))
    ensures p.cache == NoneValue ==> r.Ok? == GetService(c, p.name).Ok?
    ensures p.cache == NoneValue && r.Ok? ==>
              var (c1, v) := GetService(c, p.name).value;
              r.value == (c1, p.(cache := v), v)
  {
    if p.cache != NoneValue then Ok((c, p, p.cache))
    else
      var (c1, v) :- GetService(c, p.name);
      Ok((c1, p.(cache := v), v))
  }

  /** After one successful read of a service that is not `None`, reads
      return the same object and leave container and descriptor as they
      are. */
  lemma PropertyGetCaches(c: Container, p: ServiceProperty)
    requires PropertyGet(c, p).Ok?
    requires PropertyGet(c, p).value.2 != NoneValue
    ensures var (c1, p1, v) := PropertyGet(c, p).value;
            forall c2 :: PropertyGet(c2, p1) == Ok((c2, p1, v))
  {
  }

  /** `__set__` and `__delete__`: an injected property can be neither
      assigned nor deleted. */
  function PropertySet(p: ServiceProperty, v: Value): (r: Result<ServiceProperty>)
    ensures r == Err(RuntimeError)
  {
    Err(RuntimeError)
  }

  function PropertyDelete(p: ServiceProperty): (r: Result<ServiceProperty>)
    ensures r == Err(RuntimeError)
  {
    Err(RuntimeError)
  }

  /** The attributes an injector's items name. */
  function ItemAttrs(services: seq<(string, string)>): set<string>
    decreases |services|
  {
    if |services| == 0 then {}
    else ItemAttrs(services[..|services| - 1]) + {services[|services| - 1].0}
  }

  /** The services an injector's items request. */
  function ItemNames(services: seq<(string, string)>): set<string>
    decreases |services|
  {
    if |services| == 0 then {}
    else ItemNames(services[..|services| - 1]) + {services[|services| - 1].1}
  }

  lemma {:induction false} ItemAttrsHas(services: seq<(string, string)>, i: nat)
    requires i < |services|
    ensures services[i].0 in ItemAttrs(services)
    decreases |services|
  {
    if i < |services| - 1 {
      ItemAttrsHas(services[..|services| - 1], i);
    }
  }

  lemma {:induction false} ItemNamesHas(services: seq<(string, string)>, i: nat)
    requires i < |services|
    ensures services[i].1 in ItemNames(services)
    decreases |services|
  {
    if i < |services| - 1 {
      ItemNamesHas(services[..|services| - 1], i);
    }
  }

  lemma {:induction false} ItemNamesFrom(services: seq<(string, string)>, n: string) returns (i: nat)
    requires n in ItemNames(services)
    ensures i < |services| && services[i].1 == n
    decreases |services|
  {
    if services[|services| - 1].1 == n {
      i := |services| - 1;
    } else {
      i := ItemNamesFrom(services[..|services| - 1], n);
    }
  }

  /** The `{attr: service(name)}` dictionary `Injector.__call__` builds,
      requests made in item order and a repeated attribute keeping its
      last value.  The container keeps its factories and instances and
      gains an instance for each named service. */
  function ResolveAll(c: Container, services: seq<(string, string)>): (r: Result<(Container, map<string, Value>)>)
    ensures r.Err? ==> r.error == KeyError
    ensures r.Ok? ==> forall n :: n in c.instances ==> n in r.value.0.instances && r.value.0.instances[n] == c.instances[n]
    ensures r.Ok? ==> r.value.0.factories == c.factories
    ensures r.Ok? ==> r.value.0.instances.Keys == c.instances.Keys + ItemNames(services)
    decreases |services|
  {
    if |services| == 0 then Ok((c, map[]))
    else
      var init := services[..|services| - 1];
      var (attr, name) := services[|services| - 1];
      var (c1, injected) :- ResolveAll(c, init);
      var (c2, v) :- GetService(c1, name);
      Ok((c2, injected[attr := v]))
  }

  /** `service(name)` can answer: there is an instance or a factory. */
  predicate Resolvable(c: Container, name: string)
  {
    name in c.instances || name in c.factories
  }

  /** Every item names a service that can answer. */
  ghost predicate AllResolvable(c: Container, services: seq<(string, string)>)
  {
    forall i :: 0 <= i < |services| ==> Resolvable(c, services[i].1)
  }

  lemma AllResolvableSnoc(c: Container, services: seq<(string, string)>)
    requires |services| > 0
    ensures AllResolvable(c, services) <==>
              AllResolvable(c, services[..|services| - 1]) && Resolvable(c, services[|services| - 1].1)
  {
    var init := services[..|services| - 1];
    assert forall i :: 0 <= i < |init| ==> init[i] == services[i];
  }

  /** Resolution succeeds exactly when every named service has an
      instance or a factory. */
  lemma {:induction false} ResolveAllSucceeds(c: Container, services: seq<(string, string)>)
    ensures ResolveAll(c, services).Ok? <==> AllResolvable(c, services)
    decreases |services|
  {
    if |services| > 0 {
      var init := services[..|services| - 1];
      var name := services[|services| - 1].1;
      ResolveAllSucceeds(c, init);
      AllResolvableSnoc(c, services);
      if ResolveAll(c, init).Ok? {
        var c1 := ResolveAll(c, init).value.0;
        if name in c1.instances && name !in c.instances {
          var j := ItemNamesFrom(init, name);
          assert Resolvable(c, init[j].1);
        }
        assert GetService(c1, name).Ok? <==> Resolvable(c, name);
      }
    }
  }

  /** A resolution injects exactly the listed attributes. */
  lemma {:induction false} ResolveAllAttrs(c: Container, services: seq<(string, string)>)
    requires ResolveAll(c, services).Ok?
    ensures ResolveAll(c, services).value.1.Keys == ItemAttrs(services)
    decreases |services|
  {
    if |services| > 0 {
      var init := services[..|services| - 1];
      var attr := services[|services| - 1].0;
      ResolveAllAttrs(c, init);
    }
  }

  /** Every injected value is the container's instance for the service
      named by the last item with that attribute. */
  lemma {:induction false} ResolveAllValues(c: Container, services: seq<(string, string)>, i: nat)
    requires ResolveAll(c, services).Ok?
    requires i < |services|
    requires forall j :: i < j < |services| ==> services[j].0 != services[i].0
    ensures var r := ResolveAll(c, services).value;
            && services[i].0 in r.1 && services[i].1 in r.0.instances
            && r.1[services[i].0] == r.0.instances[services[i].1]
    decreases |services|
  {
    var last := |services| - 1;
    var init := services[..last];
    var (attr, name) := services[last];
    var (c1, injected1) := ResolveAll(c, init).value;
    var (c2, v) := GetService(c1, name).value;
    assert ResolveAll(c, services).value == (c2, injected1[attr := v]);
    if i < last {
      assert services[i] == init[i];
      forall j | i < j < |init|
        ensures init[j].0 != init[i].0
      {
        assert init[j] == services[j];
      }
      ResolveAllValues(c, init, i);
      assert attr != services[i].0;
    }
  }

  /** `Injector.__call__`: the caller's keyword arguments updated with the
      injected services, which win over a caller's argument of the same
      name; the result is what the decorated callable receives. */
  function InjectorCall(c: Container, services: seq<(string, string)>, kwargs: map<string, Value>): (r: Result<(Container, map<string, Value>)>)
    ensures r.Ok? <==> ResolveAll(c, services).Ok?
    ensures r.Err? ==> r.error == KeyError
    ensures r.Ok? ==> forall k :: k in kwargs && k !in ResolveAll(c, services).value.1 ==> k in r.value.1 && r.value.1[k] == kwargs[k]
    ensures r.Ok? ==> forall i :: 0 <= i < |services| ==> services[i].0 in r.value.1
  {
    var (c1, injected) :- ResolveAll(c, services);
    ResolveAllAttrs(c, services);
    forall i | 0 <= i < |services|
      ensures services[i].0 in injected
    {
      ItemAttrsHas(services, i);
    }
    Ok((c1, Assets.Update(kwargs, injected)))
  }

  /** An injected attribute overrides the caller's argument of the same
      name with the container's service. */
  lemma InjectedWins(c: Container, services: seq<(string, string)>, kwargs: map<string, Value>, i: nat)
    requires InjectorCall(c, services, kwargs).Ok?
    requires i < |services|
    requires forall j :: i < j < |services| ==> services[j].0 != services[i].0
    ensures var (c1, passed) := InjectorCall(c, services, kwargs).value;
            services[i].0 in passed && services[i].1 in c1.instances
            && passed[services[i].0] == c1.instances[services[i].1]
  {
    ResolveAllValues(c, services, i);
  }
}
