/**
 * The earlier draft of the helper: `RegisterServices` walks the assemblies, then
 * each assembly's annotated types, in two nested loops. The assembly list it
 * discovers at run time is an input here.
 */
module DIalect {
  import opened Annotations
  import opened Reflection
  import opened Resolution
  import DI = DependencyInjection
  import DynamicDI

  /**
   * What the inner loop appends for the annotated types of one assembly. Every such
   * type carries the attribute, so the null-forgiving `attribute!` never fails.
   */
  function AssemblyEntries(servicesToRegister: seq<ScannedType>): seq<DI.ServiceDescriptor>
    requires forall t :: t in servicesToRegister ==> GetCustomAttribute(t, true).Some?
  {
    if servicesToRegister == [] then []
    else
      var last := servicesToRegister[|servicesToRegister| - 1];
      AssemblyEntries(servicesToRegister[..|servicesToRegister| - 1])
        + TypeRegistrations(last, GetCustomAttribute(last, true).value)
  }

  /**
   * `IsDefined(typeof(RegisterServiceAttribute))` with the default `inherit = true`:
   * the types of one assembly the inner loop visits, in declaration order.
   */
  function ServicesToRegister(assembly: Assembly): (types: seq<ScannedType>)
    ensures forall t :: t in types <==> t in assembly.definedTypes && t.service.Some?
    ensures forall t :: t in types ==> GetCustomAttribute(t, true).Some?
  {
    WhereDefined(assembly.definedTypes, RegisterServiceKind, true)
  }

  /** Everything one pass of `RegisterServices` appends: assembly by assembly. */
  function Registrations(assemblies: seq<Assembly>): seq<DI.ServiceDescriptor>
  {
    if assemblies == [] then []
    else
      Registrations(assemblies[..|assemblies| - 1])
        + AssemblyEntries(ServicesToRegister(assemblies[|assemblies| - 1]))
  }

  /** `Register`: the same three-way switch as in the later draft, with no default case. */
  method Register(services: DI.ServiceCollection, serviceType: DI.TypeId, implementationType: DI.TypeId, lifetime: ServiceLifeCycle)
    modifies services
    ensures services.descriptors == old(services.descriptors) + Registered(serviceType, implementationType, lifetime)
  {
    match lifetime
    case Transient => services.AddTransient(serviceType, implementationType);
    case Scoped => services.AddScoped(serviceType, implementationType);
    case Singleton => services.AddSingleton(serviceType, implementationType);
    case Undeclared(_) =>
  }

  /**
   * `RegisterServices`: only appends, leaving earlier registrations in place, and
   * appends exactly `Registrations(assemblies)`.
   */
  method RegisterServices(services: DI.ServiceCollection, assemblies: seq<Assembly>)
    modifies services
    ensures services.descriptors == old(services.descriptors) + Registrations(assemblies)
  {
    for k := 0 to |assemblies|
      invariant services.descriptors == old(services.descriptors) + Registrations(assemblies[..k])
    {
      ghost var before := services.descriptors;
      var servicesToRegister := ServicesToRegister(assemblies[k]);
      for n := 0 to |servicesToRegister|
        invariant services.descriptors == before + AssemblyEntries(servicesToRegister[..n])
      {
        RegisterService(services, servicesToRegister[n]);
        AssemblyEntriesStep(before, servicesToRegister, n);
      }
      assert servicesToRegister[..|servicesToRegister|] == servicesToRegister;
      RegistrationsStep(old(services.descriptors), assemblies, k);
    }
    assert assemblies[..|assemblies|] == assemblies;
  }

  /** The body of the inner loop of `RegisterServices`, for one annotated type. */
  method RegisterService(services: DI.ServiceCollection, service: ScannedType)
    requires GetCustomAttribute(service, true).Some?
    modifies services
    ensures services.descriptors
         == old(services.descriptors) + TypeRegistrations(service, GetCustomAttribute(service, true).value)
  {
    var attribute := GetCustomAttribute(service, true);
    var interfaces := service.interfaces;
    if |interfaces| == 0 {
      Register(services, service.id, service.id, attribute.value.lifeCycle);
    } else {
      var interfacesToRegister := if attribute.value.strategy == FirstOnly then [interfaces[0]] else interfaces;
      for j := 0 to |interfacesToRegister|
        invariant services.descriptors
               == old(services.descriptors) + RegisterEach(interfacesToRegister[..j], service.id, attribute.value.lifeCycle)
      {
        Register(services, interfacesToRegister[j], service.id, attribute.value.lifeCycle);
        RegisterEachStep(old(services.descriptors), interfacesToRegister, j, service.id, attribute.value.lifeCycle);
      }
      assert interfacesToRegister[..|interfacesToRegister|] == interfacesToRegister;
    }
  }

  /** One more iteration of the inner loop appends one more type's entries. */
  lemma AssemblyEntriesStep(before: seq<DI.ServiceDescriptor>, types: seq<ScannedType>, n: nat)
    requires n < |types|
    requires forall t :: t in types ==> GetCustomAttribute(t, true).Some?
    ensures before + AssemblyEntries(types[..n]) + TypeRegistrations(types[n], GetCustomAttribute(types[n], true).value)
         == before + AssemblyEntries(types[..n + 1])
  {
    var prefix := types[..n + 1];
    assert prefix[..n] == types[..n] && prefix[n] == types[n];
    assert forall t :: t in prefix ==> t in types;
    assert AssemblyEntries(prefix)
        == AssemblyEntries(types[..n]) + TypeRegistrations(types[n], GetCustomAttribute(types[n], true).value);
  }

  /** One more iteration of the outer loop appends one more assembly's entries. */
  lemma RegistrationsStep(before: seq<DI.ServiceDescriptor>, assemblies: seq<Assembly>, k: nat)
    requires k < |assemblies|
    ensures before + Registrations(assemblies[..k]) + AssemblyEntries(ServicesToRegister(assemblies[k]))
         == before + Registrations(assemblies[..k + 1])
  {
    var prefix := assemblies[..k + 1];
    assert prefix[..k] == assemblies[..k] && prefix[k] == assemblies[k];
    assert Registrations(prefix) == Registrations(assemblies[..k]) + AssemblyEntries(ServicesToRegister(assemblies[k]));
  }

  /** On types that all carry the attribute, the two drafts' per-type loops append the same. */
  lemma {:induction false} AssemblyEntriesAgree(types: seq<ScannedType>)
    requires forall t :: t in types ==> GetCustomAttribute(t, true).Some?
    ensures AssemblyEntries(types) == DynamicDI.EntriesOf(types)
    decreases |types|
  {
    if types != [] {
      AssemblyEntriesAgree(types[..|types| - 1]);
    }
  }

  /**
   * The two drafts make the same registrations in the same order: walking assemblies
   * then types, with `inherit = true`, gives what flattening all types first and
   * filtering with `inherit: false` gives.
   */
  lemma {:induction false} DraftsAgree(assemblies: seq<Assembly>)
    ensures Registrations(assemblies) == DynamicDI.ServiceRegistrations(assemblies)
    decreases |assemblies|
  {
    if assemblies != [] {
      var prefix, last := assemblies[..|assemblies| - 1], assemblies[|assemblies| - 1];
      var earlier := DynamicDI.GetTypesWithAttribute(prefix, RegisterServiceKind);
      DraftsAgree(prefix);
      WhereDefinedAppend(DefinedTypes(prefix), last.definedTypes, RegisterServiceKind, false);
      WhereDefinedInheritIrrelevant(last.definedTypes, RegisterServiceKind);
      AssemblyEntriesAgree(ServicesToRegister(last));
      calc {
        DynamicDI.ServiceRegistrations(assemblies);
        DynamicDI.EntriesOf(earlier + ServicesToRegister(last));
        { DynamicDI.EntriesOfAppend(earlier, ServicesToRegister(last)); }
        DynamicDI.EntriesOf(earlier) + DynamicDI.EntriesOf(ServicesToRegister(last));
        Registrations(prefix) + AssemblyEntries(ServicesToRegister(last));
        Registrations(assemblies);
      }
    }
  }

  /** A pass over one assembly holding one type makes exactly that type's entries. */
  lemma SingleTypeRegistrations(t: ScannedType)
    ensures Registrations([Assembly([t])])
         == if t.service.Some? then TypeRegistrations(t, t.service.value) else []
  {
    assert [Assembly([t])][..0] == [];
    assert [t][..0] == [];
    assert ServicesToRegister(Assembly([t])) == if t.service.Some? then [t] else [];
    if t.service.Some? {
      assert GetCustomAttribute(t, true) == t.service;
      assert AssemblyEntries([t]) == AssemblyEntries([]) + TypeRegistrations(t, t.service.value);
    }
  }
}
