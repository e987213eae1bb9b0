/**
 * The annotated classes of the two test web APIs, as scanned types, and the
 * registrations each draft makes for them. The type names are parameters: what
 * is registered depends only on the annotations and the interface lists.
 */
module Scenarios {
  import opened Wrappers
  import opened Annotations
  import opened Reflection
  import opened Resolution
  import DI = DependencyInjection
  import DynamicDI
  import DIalect

  /** `[RegisterService(ServiceLifeCycle.Singleton)] class TestRepository : ITestRepository` */
  function DIalectTestRepository(repository: DI.TypeId, iRepository: DI.TypeId): ScannedType
  {
    ScannedType(repository, [iRepository], Some(RegisterServiceAttribute(Singleton)), false, None, false)
  }

  /** `[RegisterService(Transient, AllInterfaces)] class TestService : ITestService, ITestable` */
  function TestService(service: DI.TypeId, iService: DI.TypeId, iTestable: DI.TypeId): ScannedType
  {
    ScannedType(service, [iService, iTestable], Some(RegisterServiceAttribute(Transient, AllInterfaces)), false, None, false)
  }

  /** An unannotated class, such as a controller. */
  function Unannotated(id: DI.TypeId, interfaces: seq<DI.TypeId>): ScannedType
  {
    ScannedType(id, interfaces, None, false, None, false)
  }

  /** `[RegisterService] class TestRepository : ITestRepository`, with both defaults. */
  function DynamicDITestRepository(repository: DI.TypeId, iRepository: DI.TypeId): ScannedType
  {
    ScannedType(repository, [iRepository], Some(RegisterServiceAttribute()), false, None, false)
  }

  /** A Singleton repository registered FirstOnly gets one Singleton entry under its interface. */
  lemma DIalectTestRepositoryRegistration(repository: DI.TypeId, iRepository: DI.TypeId)
    ensures DIalect.Registrations([Assembly([DIalectTestRepository(repository, iRepository)])])
         == [DI.Service(iRepository, repository, DI.Singleton)]
  {
    DIalect.SingleTypeRegistrations(DIalectTestRepository(repository, iRepository));
    RepositoryEntries(repository, iRepository);
  }

  /** A Transient service registered AllInterfaces gets one Transient entry per interface, in order. */
  lemma DIalectTestServiceRegistration(service: DI.TypeId, iService: DI.TypeId, iTestable: DI.TypeId)
    ensures DIalect.Registrations([Assembly([TestService(service, iService, iTestable)])])
         == [DI.Service(iService, service, DI.Transient), DI.Service(iTestable, service, DI.Transient)]
  {
    DIalect.SingleTypeRegistrations(TestService(service, iService, iTestable));
    ServiceEntries(service, iService, iTestable);
  }

  /** A bare `[RegisterService]` gives one Transient entry under the first interface. */
  lemma DynamicDITestRepositoryRegistration(repository: DI.TypeId, iRepository: DI.TypeId)
    ensures DynamicDI.ServiceRegistrations([Assembly([DynamicDITestRepository(repository, iRepository)])])
         == [DI.Service(iRepository, repository, DI.Transient)]
  {
    var t := DynamicDITestRepository(repository, iRepository);
    DynamicDI.SingleTypeRegistrations(t);
    FirstOnlyRegistration(t, t.service.value);
  }

  /**
   * A test assembly holding a controller, the repository and the service: the
   * controller adds nothing, and the repository's entry precedes the service's two.
   */
  lemma DIalectTestAssemblyRegistration(controller: DI.TypeId, repository: DI.TypeId, iRepository: DI.TypeId,
                                        service: DI.TypeId, iService: DI.TypeId, iTestable: DI.TypeId)
    ensures DIalect.Registrations([Assembly([Unannotated(controller, []),
                                             DIalectTestRepository(repository, iRepository),
                                             TestService(service, iService, iTestable)])])
         == [DI.Service(iRepository, repository, DI.Singleton),
             DI.Service(iService, service, DI.Transient),
             DI.Service(iTestable, service, DI.Transient)]
  {
    var x, y, z := DI.Service(iRepository, repository, DI.Singleton), DI.Service(iService, service, DI.Transient),
                   DI.Service(iTestable, service, DI.Transient);
    var c, r, s := Unannotated(controller, []), DIalectTestRepository(repository, iRepository),
                   TestService(service, iService, iTestable);
    assert c.service.None? && r.service.Some? && s.service.Some?;
    assert TypeRegistrations(r, r.service.value) == [x] by {
      RepositoryEntries(repository, iRepository);
    }
    assert TypeRegistrations(s, s.service.value) == [y, z] by {
      ServiceEntries(service, iService, iTestable);
    }
    OneThenTwo(c, r, s, x, y, z);
  }

  /** The Singleton, FirstOnly repository's entries. */
  lemma RepositoryEntries(repository: DI.TypeId, iRepository: DI.TypeId)
    ensures var r := DIalectTestRepository(repository, iRepository);
      TypeRegistrations(r, r.service.value) == [DI.Service(iRepository, repository, DI.Singleton)]
  {
    var r := DIalectTestRepository(repository, iRepository);
    FirstOnlyRegistration(r, r.service.value);
  }

  /** The Transient, AllInterfaces service's entries. */
  lemma ServiceEntries(service: DI.TypeId, iService: DI.TypeId, iTestable: DI.TypeId)
    ensures var s := TestService(service, iService, iTestable);
      TypeRegistrations(s, s.service.value)
        == [DI.Service(iService, service, DI.Transient), DI.Service(iTestable, service, DI.Transient)]
  {
    var s := TestService(service, iService, iTestable);
    var added := TypeRegistrations(s, s.service.value);
    AllInterfacesRegistration(s, s.service.value);
    assert added == [added[0], added[1]];
  }

  /** One assembly of an unannotated type followed by two annotated ones. */
  lemma ThreeTypeAssembly(c: ScannedType, r: ScannedType, s: ScannedType,
                          fromR: seq<DI.ServiceDescriptor>, fromS: seq<DI.ServiceDescriptor>)
    requires c.service.None? && r.service.Some? && s.service.Some?
    requires TypeRegistrations(r, r.service.value) == fromR && TypeRegistrations(s, s.service.value) == fromS
    ensures DIalect.Registrations([Assembly([c, r, s])]) == fromR + fromS
  {
    var whole := [Assembly([c, r, s])];
    ThreeTypeFilter(c, r, s);
    assert DIalect.Registrations(whole) == DIalect.AssemblyEntries([r, s]) by {
      assert whole[..0] == [];
    }
    assert [r, s][..1] == [r] && [r][..0] == [];
    assert GetCustomAttribute(r, true) == r.service && GetCustomAttribute(s, true) == s.service;
    assert DIalect.AssemblyEntries([r]) == TypeRegistrations(r, r.service.value);
  }

  /** An unannotated type, then a type with one entry, then a type with two: three entries in that order. */
  lemma OneThenTwo(c: ScannedType, r: ScannedType, s: ScannedType, x: DI.ServiceDescriptor, y: DI.ServiceDescriptor, z: DI.ServiceDescriptor)
    requires c.service.None? && r.service.Some? && s.service.Some?
    requires TypeRegistrations(r, r.service.value) == [x] && TypeRegistrations(s, s.service.value) == [y, z]
    ensures DIalect.Registrations([Assembly([c, r, s])]) == [x, y, z]
  {
    ThreeTypeAssembly(c, r, s, [x], [y, z]);
    OneThenTwoConcat(x, y, z);
  }

  /** The concatenation step of `OneThenTwo`, kept apart so that it is checked in a small context. */
  lemma OneThenTwoConcat(x: DI.ServiceDescriptor, y: DI.ServiceDescriptor, z: DI.ServiceDescriptor)
    ensures [x] + [y, z] == [x, y, z]
  {
  }

  /** The filter of the earlier draft keeps the two annotated types of such an assembly, in order. */
  lemma ThreeTypeFilter(c: ScannedType, r: ScannedType, s: ScannedType)
    requires c.service.None? && r.service.Some? && s.service.Some?
    ensures DIalect.ServicesToRegister(Assembly([c, r, s])) == [r, s]
  {
    var types := [c, r, s];
    assert types[..2] == [c, r] && [c, r][..1] == [c] && [c][..0] == [];
    assert WhereDefined([c], RegisterServiceKind, true) == [];
    assert WhereDefined([c, r], RegisterServiceKind, true) == [r];
  }
}
