/**
 * The decision rule both drafts of the registration pass share: which contract keys
 * an annotated type is registered under, and which container call its lifecycle
 * selects.
 */
module Resolution {
  import opened Wrappers
  import opened Annotations
  import opened Reflection
  import DI = DependencyInjection

  /**
   * The contract keys of an annotated type: the type itself when it implements no
   * interface; otherwise the first interface (FirstOnly) or every interface in order
   * (any other strategy value). Every annotated type gets at least one key.
   */
  function ContractKeys(t: ScannedType, attribute: RegisterServiceAttribute): (keys: seq<DI.TypeId>)
    ensures |keys| >= 1
    ensures forall k :: k in keys ==> k == t.id || k in t.interfaces
    ensures |t.interfaces| > 0 ==> keys[0] == t.interfaces[0] && forall k :: k in keys ==> k in t.interfaces
    ensures attribute.strategy == FirstOnly ==> |keys| == 1
    ensures attribute.strategy != FirstOnly ==> |keys| == if |t.interfaces| == 0 then 1 else |t.interfaces|
    ensures attribute.strategy != FirstOnly ==> forall n :: 0 <= n < |t.interfaces| ==> keys[n] == t.interfaces[n]
  {
    if |t.interfaces| == 0 then [t.id]
    else if attribute.strategy == FirstOnly then [t.interfaces[0]]
    else t.interfaces
  }

  /**
   * The lifetime binder: the container lifetime whose `Add…` call the three-way switch
   * makes for a lifecycle value, always the one of the same name; none for a value
   * outside the enumeration.
   */
  function Bound(lifeCycle: ServiceLifeCycle): (lifetime: Option<DI.ServiceLifetime>)
    ensures lifetime.None? <==> lifeCycle.Undeclared?
    ensures lifeCycle == Transient <==> lifetime == Some(DI.Transient)
    ensures lifeCycle == Scoped <==> lifetime == Some(DI.Scoped)
    ensures lifeCycle == Singleton <==> lifetime == Some(DI.Singleton)
  {
    match lifeCycle
    case Transient => Some(DI.Transient)
    case Scoped => Some(DI.Scoped)
    case Singleton => Some(DI.Singleton)
    case Undeclared(_) => None
  }

  /** Distinct declared lifecycles bind to distinct container lifetimes, and every one is reachable. */
  lemma BoundIsBijective(x: ServiceLifeCycle, y: ServiceLifeCycle, lifetime: DI.ServiceLifetime)
    ensures Bound(x) == Bound(y) && Bound(x).Some? ==> x == y
    ensures exists lc :: Bound(lc) == Some(lifetime)
  {
    match lifetime
    case Transient => assert Bound(Transient) == Some(lifetime);
    case Scoped => assert Bound(Scoped) == Some(lifetime);
    case Singleton => assert Bound(Singleton) == Some(lifetime);
  }

  /**
   * What one call of `Register` appends: a single descriptor with the bound lifetime,
   * or nothing at all for an undeclared lifecycle (the switch has no default case).
   */
  function Registered(serviceType: DI.TypeId, implementationType: DI.TypeId, lifeCycle: ServiceLifeCycle): (added: seq<DI.ServiceDescriptor>)
    ensures |added| == if lifeCycle.Undeclared? then 0 else 1
    ensures forall d :: d in added ==>
      d.Service? && d.serviceType == serviceType && d.implementationType == implementationType && Bound(lifeCycle) == Some(d.lifetime)
  {
    match Bound(lifeCycle)
    case Some(lifetime) => [DI.Service(serviceType, implementationType, lifetime)]
    case None => []
  }

  /** What `foreach (var iface in keys) Register(services, iface, implementationType, lifeCycle)` appends. */
  function RegisterEach(keys: seq<DI.TypeId>, implementationType: DI.TypeId, lifeCycle: ServiceLifeCycle): (added: seq<DI.ServiceDescriptor>)
    ensures |added| == if lifeCycle.Undeclared? then 0 else |keys|
    ensures forall n :: 0 <= n < |added| ==> added[n] == DI.Service(keys[n], implementationType, Bound(lifeCycle).value)
  {
    if keys == [] then []
    else RegisterEach(keys[..|keys| - 1], implementationType, lifeCycle) + Registered(keys[|keys| - 1], implementationType, lifeCycle)
  }

  /** Everything the registration pass appends for one type carrying `attribute`. */
  function TypeRegistrations(t: ScannedType, attribute: RegisterServiceAttribute): seq<DI.ServiceDescriptor>
  {
    RegisterEach(ContractKeys(t, attribute), t.id, attribute.lifeCycle)
  }

  /** A type with no interfaces is registered under itself, once, with its own lifecycle. */
  lemma SelfRegistration(t: ScannedType, attribute: RegisterServiceAttribute)
    requires |t.interfaces| == 0
    ensures TypeRegistrations(t, attribute) == Registered(t.id, t.id, attribute.lifeCycle)
    ensures !attribute.lifeCycle.Undeclared? ==>
      TypeRegistrations(t, attribute) == [DI.Service(t.id, t.id, Bound(attribute.lifeCycle).value)]
  {
    assert ContractKeys(t, attribute)[..0] == [];
  }

  /** FirstOnly registers under the first interface alone, never under a later one. */
  lemma FirstOnlyRegistration(t: ScannedType, attribute: RegisterServiceAttribute)
    requires |t.interfaces| > 0 && attribute.strategy == FirstOnly
    ensures !attribute.lifeCycle.Undeclared? ==>
      TypeRegistrations(t, attribute) == [DI.Service(t.interfaces[0], t.id, Bound(attribute.lifeCycle).value)]
    ensures forall d :: d in TypeRegistrations(t, attribute) ==> d.serviceType == t.interfaces[0]
  {
  }

  /**
   * Any other strategy registers once per interface, in interface order, each entry
   * with the same implementation type and lifecycle.
   */
  lemma AllInterfacesRegistration(t: ScannedType, attribute: RegisterServiceAttribute)
    requires |t.interfaces| > 0 && attribute.strategy != FirstOnly && !attribute.lifeCycle.Undeclared?
    ensures |TypeRegistrations(t, attribute)| == |t.interfaces|
    ensures forall n :: 0 <= n < |t.interfaces| ==>
      TypeRegistrations(t, attribute)[n] == DI.Service(t.interfaces[n], t.id, Bound(attribute.lifeCycle).value)
  {
  }

  /** An undeclared lifecycle value falls through the switch: the type adds nothing. */
  lemma UndeclaredLifeCycleRegistersNothing(t: ScannedType, attribute: RegisterServiceAttribute)
    requires attribute.lifeCycle.Undeclared?
    ensures TypeRegistrations(t, attribute) == []
  {
  }

  /**
   * Every entry made for a type names that type as its implementation, carries the
   * container lifetime its lifecycle binds to, and is keyed by one of its contract keys.
   */
  lemma TypeRegistrationsMembers(t: ScannedType, attribute: RegisterServiceAttribute)
    ensures forall d :: d in TypeRegistrations(t, attribute) ==>
      && d.Service?
      && d.implementationType == t.id
      && Bound(attribute.lifeCycle) == Some(d.lifetime)
      && d.serviceType in ContractKeys(t, attribute)
  {
    var keys := ContractKeys(t, attribute);
    var added := TypeRegistrations(t, attribute);
    forall d | d in added
      ensures d.Service? && d.implementationType == t.id && Bound(attribute.lifeCycle) == Some(d.lifetime) && d.serviceType in keys
    {
      var n :| 0 <= n < |added| && added[n] == d;
      assert d == DI.Service(keys[n], t.id, Bound(attribute.lifeCycle).value);
    }
  }

  /** One more iteration of a `foreach … Register(…)` loop appends one more key's registration. */
  lemma RegisterEachStep(before: seq<DI.ServiceDescriptor>, keys: seq<DI.TypeId>, j: nat, implementationType: DI.TypeId, lifeCycle: ServiceLifeCycle)
    requires j < |keys|
    ensures before + RegisterEach(keys[..j], implementationType, lifeCycle) + Registered(keys[j], implementationType, lifeCycle)
         == before + RegisterEach(keys[..j + 1], implementationType, lifeCycle)
  {
    var prefix := keys[..j + 1];
    assert prefix[..j] == keys[..j] && prefix[j] == keys[j];
    assert RegisterEach(prefix, implementationType, lifeCycle)
        == RegisterEach(keys[..j], implementationType, lifeCycle) + Registered(keys[j], implementationType, lifeCycle);
  }
}
