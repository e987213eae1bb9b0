# dynamic_di, modelled in Dafny

`dynamic_di` is a small .NET helper that fills a dependency-injection container
from annotations instead of hand-written `AddTransient`/`AddScoped`/`AddSingleton` calls.
A class marked `[RegisterService(lifeCycle, strategy)]` is registered under:

- itself, when it implements no interface;
- its first interface, under the `FirstOnly` strategy;
- every interface, under any other strategy.

The lifecycle picks which container call is made. A class marked
`[RegisterDbContext]` is registered through Entity Framework's generic
`AddDbContext<T>`, which the helper finds by reflection and specialises at run time.

The repository holds two drafts of the service pass:

- **DynamicDI**: flattens all assemblies' types, then filters them.
- **DIalect**: walks the assemblies, then each assembly's annotated types, in nested loops.

DynamicDI also has the DbContext pass.

The model replaces reflection with plain data:

- An assembly is a sequence of `ScannedType`s.
- Each scanned type records its id, its implemented interfaces, and the annotations declared on it and on its nearest annotated base class.
- The service collection is a class whose only state is an append-only `seq` of descriptors.

The three looping passes are imperative methods:

- `DynamicDI.HandleRegisterServices` and `DIalect.RegisterServices` are each proved against a specification function of the assemblies, in the form `descriptors == old(descriptors) + ServiceRegistrations(assemblies)`.
- `DynamicDI.HandleRegisterDbContexts` returns an `Outcome`. It is proved against `DbContextPass`: on failure the collection is unchanged, and on success it has the entries `DbContextPass` gives appended.

The properties of these specification functions are then proved as lemmas.

Files and modules:

- `wrappers.dfy`: `Wrappers`, with Option, Result and Outcome.
- `dependency_injection.dfy`: `DependencyInjection`, the container's registration surface.
- `annotations.dfy`: `Annotations`, with the enumerations and the two attribute classes.
- `reflection.dfy`: `Reflection`, with scanned types, `IsDefined`, `GetCustomAttribute`, SelectMany and Where.
- `resolution.dfy`: `Resolution`, with the contract-key rule and lifecycle switch that both drafts share.
- `dynamic_di.dfy`: `DynamicDI`, the later draft, including the DbContext pass.
- `dialect.dfy`: `DIalect`, the earlier draft and its equivalence with the later one.
- `scenarios.dfy`: `Scenarios`, the annotated classes of the two test web APIs.

## Model

| member | source | states |
|---|---|---|
| Annotations.RegisterServiceConstructor | DynamicDI/RegisterServiceAttribute.cs:24-28 | the lifecycle defaults to Transient and the strategy to FirstOnly; given arguments are stored verbatim (the earlier draft's constructor, DIalect/RegisterServiceAttribute.cs lines 10-14, is identical) |
| Annotations.Usage | DynamicDI/RegisterServiceAttribute.cs:6 | `[RegisterService]` (and `[RegisterDbContext]`) apply to classes only, at most once, and are not inherited (the earlier draft declares the same usage, DIalect/RegisterServiceAttribute.cs line 3) |
| Annotations.NewService | DynamicDI/ServiceAttribute.cs:22-26 | the parameterless constructor gives Transient and null implemented types |
| Annotations.NewServiceWithLifeCycle | DynamicDI/ServiceAttribute.cs:32-36 | the lifecycle-only constructor keeps the lifecycle and gives null implemented types |
| Annotations.NewServiceWithTypes | DynamicDI/ServiceAttribute.cs:42-46 | the types-only constructor gives Transient and the given types |
| Annotations.ServiceConstructors | DynamicDI/ServiceAttribute.cs:53-57 | the two-argument constructor stores both arguments verbatim, null included; each shorter constructor equals it with Transient or null filled in |
| Annotations.ServiceUsage | DynamicDI/ServiceAttribute.cs:6 | `[Service]` is class-only and not inherited; AllowMultiple keeps its default, false |
| Reflection.InheritFlagIrrelevant | DynamicDI/RegisterServiceAttribute.cs:6 | for the attribute classes as declared, which are not inheritable, `inherit: true` and `inherit: false` see the same annotation, and a subclass of an annotated class is not itself annotated |
| Reflection.DefinedTypes | DynamicDI/ServiceCollectionExtensions.cs:98-99 | SelectMany yields exactly the types of the given assemblies |
| Reflection.WhereDefined | DynamicDI/ServiceCollectionExtensions.cs:100 | the filter keeps exactly the types on which the attribute is defined, and never more types than it was given |
| Reflection.DefinedTypesAppend | DynamicDI/ServiceCollectionExtensions.cs:98-99 | SelectMany over concatenated assembly lists is the concatenation of the two results (assembly order) |
| Reflection.WhereDefinedAppend | DynamicDI/ServiceCollectionExtensions.cs:100 | filtering commutes with concatenation, so the relative order is kept |
| Reflection.WhereDefinedInheritIrrelevant | DIalect/ServiceCollectionExtensions.cs:18 | for the attribute class as declared, the earlier draft's default `inherit = true` filter keeps the same types as the later draft's `inherit: false` |
| DynamicDI.GetTypesWithAttribute | DynamicDI/ServiceCollectionExtensions.cs:96-101 | a type is scanned iff it is defined in one of the assemblies and declares the attribute itself |
| Resolution.ContractKeys | DynamicDI/ServiceCollectionExtensions.cs:46-56 | at least one key; the type itself when it has no interfaces; otherwise the first interface first, and only interfaces; one key under FirstOnly; every interface under any other strategy |
| Resolution.Bound | DynamicDI/ServiceCollectionExtensions.cs:105-116 | the switch makes a container call exactly for the three declared lifecycles, and each lifecycle selects the container lifetime of the same name (Transient to `AddTransient`, Scoped to `AddScoped`, Singleton to `AddSingleton`), in both directions |
| Resolution.BoundIsBijective | DynamicDI/ServiceCollectionExtensions.cs:107-115 | distinct declared lifecycles select distinct container lifetimes, and every container lifetime is selected by one |
| Resolution.Registered | DynamicDI/ServiceCollectionExtensions.cs:103-117 | one `Register` call appends one entry with the given keys and the bound lifetime, or none for an undeclared lifecycle |
| Resolution.RegisterEach | DynamicDI/ServiceCollectionExtensions.cs:58-59 | the per-key loop appends one entry per key, in key order, all with the same implementation and lifetime |
| Resolution.SelfRegistration | DynamicDI/ServiceCollectionExtensions.cs:48-51 | a type with no interfaces gets exactly the one entry (type, type, lifecycle) |
| Resolution.FirstOnlyRegistration | DynamicDI/ServiceCollectionExtensions.cs:54-55 | FirstOnly with interfaces gives exactly one entry, keyed by the first interface, and no entry under any other key |
| Resolution.AllInterfacesRegistration | DynamicDI/ServiceCollectionExtensions.cs:56-59 | any other strategy gives one entry per interface, in interface order, each with the same implementation type and lifecycle |
| Resolution.UndeclaredLifeCycleRegistersNothing | DynamicDI/ServiceCollectionExtensions.cs:105-116 | a lifecycle outside the enumeration makes the type add nothing |
| Resolution.TypeRegistrationsMembers | DynamicDI/ServiceCollectionExtensions.cs:46-60 | every entry for a type has that type as implementation, one of its contract keys as service type, and its bound lifecycle |
| DynamicDI.Register | DynamicDI/ServiceCollectionExtensions.cs:103-117 | the switch appends exactly what `Registered` describes and changes nothing else |
| DynamicDI.RegisterType | DynamicDI/ServiceCollectionExtensions.cs:43-60 | one loop iteration appends the type's entries, or nothing when it carries no attribute |
| DynamicDI.HandleRegisterServices | DynamicDI/ServiceCollectionExtensions.cs:39-62 | the pass keeps the earlier registrations and appends exactly `ServiceRegistrations(assemblies)` |
| DynamicDI.EntriesOfAppend | DynamicDI/ServiceCollectionExtensions.cs:41-61 | the loop over concatenated type lists appends the two loops' entries in order |
| DynamicDI.ServiceRegistrationsAppend | DynamicDI/ServiceCollectionExtensions.cs:41 | registration is assembly-major: the entries for the first assemblies come before those for the later ones |
| DynamicDI.OnlyAnnotatedTypesRegister | DynamicDI/ServiceCollectionExtensions.cs:41-44 | every entry comes from a type of the assemblies that declares `[RegisterService]` itself, keyed by one of its contract keys, with its lifecycle |
| DynamicDI.AnnotatedTypesRegister | DynamicDI/ServiceCollectionExtensions.cs:41-60 | every entry of every type that declares the attribute is made |
| DynamicDI.SingleTypeRegistrations | DynamicDI/ServiceCollectionExtensions.cs:41-61 | a one-type assembly yields that type's entries when it is annotated and nothing otherwise |
| DynamicDI.PublicStaticMethods | DynamicDI/ServiceCollectionExtensions.cs:67 | exactly the public static methods are kept |
| DynamicDI.Selector | DynamicDI/ServiceCollectionExtensions.cs:68-73 | the selector accepts exactly the `AddDbContext<T>(IServiceCollection, …)` overload; it throws exactly on a parameterless generic `AddDbContext` with one type parameter |
| DynamicDI.FirstMatching | DynamicDI/ServiceCollectionExtensions.cs:66-73 | `First` fails only with its own two exceptions; it returns the first accepted method, with every earlier one rejected; it fails with "no matching element" iff every method is rejected; a "no elements" failure means the selector threw |
| DynamicDI.ContextEntries | DynamicDI/ServiceCollectionExtensions.cs:75-85 | one `AddDbContext` entry per context type, in scan order, each with Scoped context and options lifetimes |
| DynamicDI.InvokeArguments | DynamicDI/ServiceCollectionExtensions.cs:78-84 | the four `Invoke` arguments fit exactly a parameter list of the collection, the options callback and two lifetimes; a wrong count throws a parameter-count exception, a wrong type an argument exception |
| DynamicDI.DbContextPass | DynamicDI/ServiceCollectionExtensions.cs:64-86 | a selection failure is the pass's failure; otherwise the pass fails, with the argument exception, exactly when some type is marked and the selected overload rejects the arguments; a successful pass appends exactly `DbContextRegistrations(assemblies)` |
| DynamicDI.HandleRegisterDbContexts | DynamicDI/ServiceCollectionExtensions.cs:64-86 | the pass fails exactly when `DbContextPass` does, with its exception, and then registers nothing; otherwise it keeps the earlier registrations and appends exactly the entries `DbContextPass` gives |
| DynamicDI.OptionsOverloadRegisters | DynamicDI/ServiceCollectionExtensions.cs:66-84 | when EF Core's `(IServiceCollection, Action<DbContextOptionsBuilder>, ServiceLifetime, ServiceLifetime)` overload comes first, every marked type is registered |
| DynamicDI.LifetimeOverloadThrows | DynamicDI/ServiceCollectionExtensions.cs:68-84 | the selector also accepts an `(IServiceCollection, ServiceLifetime, ServiceLifetime)` overload; taken first, it makes the pass throw as soon as a type is marked |
| DynamicDI.DbContextRegistrationsExact | DynamicDI/ServiceCollectionExtensions.cs:75-84 | each entry is a Scoped/Scoped `AddDbContext` of a type declaring `[RegisterDbContext]`; every such type gets one; there are as many entries as scanned types |
| DIalect.ServicesToRegister | DIalect/ServiceCollectionExtensions.cs:18 | the inner loop visits exactly the assembly's types that declare `[RegisterService]`, and each of them has an attribute for `attribute!` |
| DIalect.Register | DIalect/ServiceCollectionExtensions.cs:41-55 | the earlier draft's switch appends exactly what `Registered` describes |
| DIalect.RegisterService | DIalect/ServiceCollectionExtensions.cs:22-36 | one inner iteration appends the type's entries: under itself, under the first interface, or under every interface |
| DIalect.RegisterServices | DIalect/ServiceCollectionExtensions.cs:9-39 | the nested loops keep the earlier registrations and append exactly `Registrations(assemblies)`, assembly by assembly |
| DIalect.AssemblyEntriesAgree | DIalect/ServiceCollectionExtensions.cs:20-37 | on annotated types, the earlier draft's inner loop appends what the later draft's loop appends |
| DIalect.DraftsAgree | DIalect/ServiceCollectionExtensions.cs:16-38 | both drafts append the same entries in the same order for every assembly list, when the only service annotation is `RegisterServiceAttribute` itself |
| DIalect.SingleTypeRegistrations | DIalect/ServiceCollectionExtensions.cs:16-38 | a one-type assembly yields that type's entries when it is annotated and nothing otherwise |
| Scenarios.DIalectTestRepositoryRegistration | DIalect.Test.WebApi/TestRepository.cs:3-4 | `[RegisterService(Singleton)] TestRepository : ITestRepository` gives exactly (ITestRepository, TestRepository, Singleton) |
| Scenarios.DIalectTestServiceRegistration | DIalect.Test.WebApi/TestService.cs:4-5 | the Transient/AllInterfaces `TestService` gives exactly (ITestService, TestService, Transient) then (ITestable, TestService, Transient) |
| Scenarios.DynamicDITestRepositoryRegistration | DynamicDI.Test.WebApi/TestRepository.cs:6-7 | a bare `[RegisterService]` gives exactly one Transient entry under the first interface |
| Scenarios.RepositoryEntries | DIalect.Test.WebApi/TestRepository.cs:3-4 | the Singleton, FirstOnly repository's own entries are exactly (ITestRepository, TestRepository, Singleton) |
| Scenarios.ServiceEntries | DIalect.Test.WebApi/TestService.cs:4-5 | the Transient, AllInterfaces service's own entries are exactly its two interface entries, in order |
| Scenarios.ThreeTypeFilter | DIalect/ServiceCollectionExtensions.cs:18 | the filter drops an unannotated type and keeps two annotated ones in declaration order |
| Scenarios.ThreeTypeAssembly | DIalect/ServiceCollectionExtensions.cs:16-38 | for an unannotated type followed by two annotated ones, the pass appends the second type's entries and then the third's |
| Scenarios.OneThenTwo | DIalect/ServiceCollectionExtensions.cs:16-38 | an unannotated type, a type with one entry and a type with two give exactly those three entries, in declaration order |
| Scenarios.DIalectTestAssemblyRegistration | DIalect.Test.WebApi/Controllers/TestController.cs:7 | an assembly of an unannotated controller, the repository and the service gives the repository's entry and then the service's two |

## Left out

- Assembly discovery is not modelled. This covers `DependencyContext.Default.RuntimeLibraries`, the `"project"` filter and `Assembly.Load` (DynamicDI/ServiceCollectionExtensions.cs:88-94, DIalect/ServiceCollectionExtensions.cs:11-14). They are runtime I/O. The assembly list is an input, so the parameterless overloads at lines 17 and 30 are the explicit-assembly overloads at lines 24 and 37 applied to that list. A load failure is not modelled.
- `MakeGenericMethod` and `Invoke` are foreign reflection calls, and so is Entity Framework's real `AddDbContext`. `Invoke` is modelled only by its argument check against the selected parameter list. A constraint violation when specialising for a type that is not a DbContext is not modelled. An exception thrown inside `AddDbContext` itself is not modelled either. Each successful call is recorded as a `DbContext(type, Scoped, Scoped)` descriptor.
- Type handles are full names. The selector compares the first parameter type with the service-collection interface by that name. The `Invoke` argument check likewise compares parameter types by name. An argument passed to a parameter of a base type or of `object` is therefore counted as a mismatch.
- `NewServiceWithTypes` takes a sequence, so `[Service(null)]` is not expressible through it. C# binds that attribute to the types-only constructor and stores null. The model gives that value only through the two-argument form, `ServiceAttribute(Transient, None)`.
- The container's behaviour beyond appending a descriptor is not modelled: resolution, duplicate handling and disposal.
- `Type.ImplementedInterfaces` has no guaranteed order in .NET. The interface sequence of a scanned type is taken as given.
- `ServiceAttribute.ImplementedTypes` is read by neither scanner, so neither draft has an explicit-contract override. Neither draft de-duplicates repeated interfaces. Contract keys therefore come only from the implemented interfaces, and a repeated interface gives a repeated entry.
- DIalect.DraftsAgree: attribute classes derived from `RegisterServiceAttribute` are not modelled. The class is not sealed, and `IsDefined` also matches derived attribute classes. A derived class declared `Inherited = true` makes the drafts differ: the earlier draft's `inherit = true` filter (DIalect/ServiceCollectionExtensions.cs:18) then keeps subclasses of an annotated class and registers them with the base class's annotation, while the later draft's `inherit: false` filter (DynamicDI/ServiceCollectionExtensions.cs:100) skips them. A derived class declared `AllowMultiple = true` and applied twice makes `GetCustomAttribute` throw `AmbiguousMatchException` in both drafts.
- Reflection.InheritFlagIrrelevant and Reflection.WhereDefinedInheritIrrelevant hold only for the attribute classes as declared. The scanned-type usage is fixed per attribute kind, so a derived attribute class with its own usage cannot be expressed.
- A lifecycle value outside the enumeration is silently skipped, because the switch has no default case. The model does not turn it into an error.
- `First` takes the first matching `AddDbContext` overload and raises no ambiguity error when several match. Reflection order alone decides which overload is taken.
- Idempotence of a rescan needs no lemma: every specification function here is deterministic, so scanning the same assemblies twice gives the same entries.
- `DynamicDI.Test.WebApi/Data/DataContext.cs`, the controllers, `Program.cs` and the test services' method bodies are not part of this model. They are framework and database glue. Only the annotations of the test classes appear, as scenarios.
- The enumeration files `ServiceLifeCycle.cs` and `InterfaceRegistrationStrategy.cs`, and the marker `RegisterDbContextAttribute.cs`, appear only as datatypes and a boolean flag. The earlier draft's own copies of the two enumerations are not part of this model; both drafts share one datatype of each.
- Scenarios take the type names as parameters rather than the literal names of the test classes. What is registered depends only on the annotations and the interface lists.
