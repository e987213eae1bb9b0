/**
 * The later draft of the helper: `RegisterServices` and `RegisterDbContexts` over an
 * explicit list of assemblies. The assembly list the parameterless overloads discover
 * at run time is an input here.
 */
module DynamicDI {
  import opened Wrappers
  import opened Annotations
  import opened Reflection
  import opened Resolution
  import DI = DependencyInjection

  /**
   * `GetTypesWithAttribute<TAttribute>`: every type of every assembly on which the
   * attribute is declared directly (`inherit: false`), assembly by assembly.
   */
  function GetTypesWithAttribute(assemblies: seq<Assembly>, kind: AttributeKind): (types: seq<ScannedType>)
    ensures forall t :: t in types <==>
      (exists a :: a in assemblies && t in a.definedTypes) && IsDefined(t, kind, false)
  {
    WhereDefined(DefinedTypes(assemblies), kind, false)
  }

  /** What the loop body of `HandleRegisterServices` appends for one type. */
  function TypeEntries(t: ScannedType): seq<DI.ServiceDescriptor>
  {
    match GetCustomAttribute(t, true)
    case None => []
    case Some(attribute) => TypeRegistrations(t, attribute)
  }

  /** What the loop of `HandleRegisterServices` appends for a list of types, in order. */
  function EntriesOf(types: seq<ScannedType>): seq<DI.ServiceDescriptor>
  {
    if types == [] then []
    else EntriesOf(types[..|types| - 1]) + TypeEntries(types[|types| - 1])
  }

  /** One more iteration of the loop in `HandleRegisterServices` appends one more type's entries. */
  lemma EntriesOfStep(before: seq<DI.ServiceDescriptor>, types: seq<ScannedType>, i: nat)
    requires i < |types|
    ensures before + EntriesOf(types[..i]) + TypeEntries(types[i]) == before + EntriesOf(types[..i + 1])
  {
    var prefix := types[..i + 1];
    assert prefix[..i] == types[..i] && prefix[i] == types[i];
    assert EntriesOf(prefix) == EntriesOf(types[..i]) + TypeEntries(types[i]);
  }

  /** Everything one service-registration pass appends. */
  function ServiceRegistrations(assemblies: seq<Assembly>): seq<DI.ServiceDescriptor>
  {
    EntriesOf(GetTypesWithAttribute(assemblies, RegisterServiceKind))
  }

  /**
   * `Register`: the three-way switch on the lifecycle; a value outside the
   * enumeration matches no case and appends nothing.
   */
  method Register(services: DI.ServiceCollection, serviceType: DI.TypeId, implementationType: DI.TypeId, lifetime: ServiceLifeCycle)
    modifies services
    ensures services.descriptors == old(services.descriptors) + Registered(serviceType, implementationType, lifetime)
  {
    match lifetime
    case Transient => services.AddTransient(serviceType, implementationType);
    case Scoped => services.AddScoped(serviceType, implementationType);
    case Singleton => services.AddSingleton(serviceType, implementationType);
    case Undeclared(_) =>
  }

  /**
   * `HandleRegisterServices`: only appends, leaving earlier registrations in place,
   * and appends exactly `ServiceRegistrations(assemblies)`.
   */
  method HandleRegisterServices(services: DI.ServiceCollection, assemblies: seq<Assembly>)
    modifies services
    ensures services.descriptors == old(services.descriptors) + ServiceRegistrations(assemblies)
  {
    var types := GetTypesWithAttribute(assemblies, RegisterServiceKind);
    for i := 0 to |types|
      invariant services.descriptors == old(services.descriptors) + EntriesOf(types[..i])
    {
      RegisterType(services, types[i]);
      EntriesOfStep(old(services.descriptors), types, i);
    }
    assert types[..|types|] == types;
  }

  /** The body of the loop in `HandleRegisterServices`, for one scanned type. */
  method RegisterType(services: DI.ServiceCollection, t: ScannedType)
    modifies services
    ensures services.descriptors == old(services.descriptors) + TypeEntries(t)
  {
    var attribute := GetCustomAttribute(t, true);
    if attribute.None? {
      return;
    }
    var interfaces := t.interfaces;
    if |interfaces| == 0 {
      Register(services, t.id, t.id, attribute.value.lifeCycle);
    } else {
      var interfacesToRegister := if attribute.value.strategy == FirstOnly then [interfaces[0]] else interfaces;
      for j := 0 to |interfacesToRegister|
        invariant services.descriptors
               == old(services.descriptors) + RegisterEach(interfacesToRegister[..j], t.id, attribute.value.lifeCycle)
      {
        Register(services, interfacesToRegister[j], t.id, attribute.value.lifeCycle);
        RegisterEachStep(old(services.descriptors), interfacesToRegister, j, t.id, attribute.value.lifeCycle);
      }
      assert interfacesToRegister[..|interfacesToRegister|] == interfacesToRegister;
    }
  }

  /** The loop over a concatenation of type lists appends the two loops' entries in order. */
  lemma {:induction false} EntriesOfAppend(xs: seq<ScannedType>, ys: seq<ScannedType>)
    ensures EntriesOf(xs + ys) == EntriesOf(xs) + EntriesOf(ys)
    decreases |ys|
  {
    if ys == [] {
      assert xs + ys == xs;
    } else {
      var ys', last := ys[..|ys| - 1], ys[|ys| - 1];
      assert (xs + ys)[..|xs + ys| - 1] == xs + ys';
      var front, middle, back := EntriesOf(xs), EntriesOf(ys'), TypeEntries(last);
      calc {
        EntriesOf(xs + ys);
        EntriesOf(xs + ys') + back;
        { EntriesOfAppend(xs, ys'); }
        (front + middle) + back;
        front + (middle + back);
        front + EntriesOf(ys);
      }
    }
  }

  /**
   * Registration is assembly-major: the pass over two assembly lists appends the
   * entries of the first list, then those of the second.
   */
  lemma ServiceRegistrationsAppend(xs: seq<Assembly>, ys: seq<Assembly>)
    ensures ServiceRegistrations(xs + ys) == ServiceRegistrations(xs) + ServiceRegistrations(ys)
  {
    DefinedTypesAppend(xs, ys);
    WhereDefinedAppend(DefinedTypes(xs), DefinedTypes(ys), RegisterServiceKind, false);
    EntriesOfAppend(GetTypesWithAttribute(xs, RegisterServiceKind), GetTypesWithAttribute(ys, RegisterServiceKind));
  }

  /** Every entry the loop makes comes from one of its types that carries the attribute. */
  lemma {:induction false} EntriesOfProvenance(types: seq<ScannedType>)
    ensures forall d :: d in EntriesOf(types) ==>
      exists t :: t in types && t.service.Some? && d in TypeRegistrations(t, t.service.value)
    decreases |types|
  {
    if types != [] {
      var prefix := types[..|types| - 1];
      EntriesOfProvenance(prefix);
      assert forall t :: t in prefix ==> t in types;
    }
  }

  /** The loop makes every entry of every annotated type it visits. */
  lemma {:induction false} EntriesOfCoverage(types: seq<ScannedType>, t: ScannedType)
    requires t in types && t.service.Some?
    ensures forall d :: d in TypeRegistrations(t, t.service.value) ==> d in EntriesOf(types)
    decreases |types|
  {
    var prefix := types[..|types| - 1];
    assert types == prefix + [types[|types| - 1]];
    if t != types[|types| - 1] {
      EntriesOfCoverage(prefix, t);
    }
  }

  /**
   * Only types that declare `[RegisterService]` themselves produce entries; each entry
   * is keyed by one of that type's contract keys and carries its lifecycle.
   */
  lemma OnlyAnnotatedTypesRegister(assemblies: seq<Assembly>)
    ensures forall d :: d in ServiceRegistrations(assemblies) ==>
      exists a, t :: a in assemblies && t in a.definedTypes && t.service.Some?
        && d.Service?
        && d.implementationType == t.id
        && d.serviceType in ContractKeys(t, t.service.value)
        && Bound(t.service.value.lifeCycle) == Some(d.lifetime)
  {
    var types := GetTypesWithAttribute(assemblies, RegisterServiceKind);
    EntriesOfProvenance(types);
    forall d | d in ServiceRegistrations(assemblies)
      ensures exists a, t :: (a in assemblies && t in a.definedTypes && t.service.Some?
        && d.Service?
        && d.implementationType == t.id
        && d.serviceType in ContractKeys(t, t.service.value)
        && Bound(t.service.value.lifeCycle) == Some(d.lifetime))
    {
      var t :| t in types && t.service.Some? && d in TypeRegistrations(t, t.service.value);
      TypeRegistrationsMembers(t, t.service.value);
      var a :| a in assemblies && t in a.definedTypes;
    }
  }

  /** Every type that declares `[RegisterService]` has all its entries made by the pass. */
  lemma AnnotatedTypesRegister(assemblies: seq<Assembly>, a: Assembly, t: ScannedType)
    requires a in assemblies && t in a.definedTypes && t.service.Some?
    ensures forall d :: d in TypeRegistrations(t, t.service.value) ==> d in ServiceRegistrations(assemblies)
  {
    EntriesOfCoverage(GetTypesWithAttribute(assemblies, RegisterServiceKind), t);
  }

  /** A pass over one assembly holding one type makes exactly that type's entries. */
  lemma SingleTypeRegistrations(t: ScannedType)
    ensures ServiceRegistrations([Assembly([t])])
         == if t.service.Some? then TypeRegistrations(t, t.service.value) else []
  {
    var assemblies := [Assembly([t])];
    assert assemblies[..0] == [];
    assert DefinedTypes(assemblies) == [t];
    var types := GetTypesWithAttribute(assemblies, RegisterServiceKind);
    assert [t][..0] == [];
    assert types == if t.service.Some? then [t] else [];
    if t.service.Some? {
      assert types[..0] == [];
      assert EntriesOf(types) == EntriesOf([]) + TypeEntries(t);
    }
  }

  // ---------------------------------------------------------------------------
  // The DbContext pass.

  /** The reflected view of one method of the EF Core service-collection extension class. */
  datatype MethodDescriptor = MethodDescriptor(
    name: string,
    isPublic: bool,
    isStatic: bool,
    isGenericMethodDefinition: bool,
    genericArgumentCount: nat,
    parameterTypes: seq<DI.TypeId>)

  const IServiceCollectionType: DI.TypeId := "Microsoft.Extensions.DependencyInjection.IServiceCollection"

  /** The runtime types of the options callback and of the two lifetimes the pass hands to `Invoke`. */
  const OptionsActionType: DI.TypeId := "System.Action`1[Microsoft.EntityFrameworkCore.DbContextOptionsBuilder]"
  const ServiceLifetimeType: DI.TypeId := "Microsoft.Extensions.DependencyInjection.ServiceLifetime"

  /**
   * The exceptions of the DbContext pass: the two `InvalidOperationException`s that
   * LINQ's `First` throws, then the `TargetParameterCountException` and the
   * `ArgumentException` that `MethodBase.Invoke` throws when the argument array does
   * not fit the invoked method's parameter list.
   */
  datatype Exception =
    | SequenceContainsNoElements
    | SequenceContainsNoMatchingElement
    | ParameterCountMismatch
    | ArgumentTypeMismatch

  /** `GetMethods(BindingFlags.Public | BindingFlags.Static)`, in reflection order. */
  function PublicStaticMethods(methods: seq<MethodDescriptor>): (r: seq<MethodDescriptor>)
    ensures forall m :: m in r <==> m in methods && m.isPublic && m.isStatic
  {
    if methods == [] then []
    else
      var rest := PublicStaticMethods(methods[1..]);
      assert methods == [methods[0]] + methods[1..];
      if methods[0].isPublic && methods[0].isStatic then [methods[0]] + rest else rest
  }

  /**
   * The overload the pass looks for: `AddDbContext`, an open generic method with one
   * type parameter, whose first parameter is the service collection.
   */
  predicate IsAddDbContextOverload(m: MethodDescriptor)
  {
    && m.name == "AddDbContext"
    && m.isGenericMethodDefinition
    && m.genericArgumentCount == 1
    && |m.parameterTypes| > 0
    && m.parameterTypes[0] == IServiceCollectionType
  }

  /**
   * The selector lambda, evaluated with `&&` short-circuiting from left to right:
   * `GetParameters().First()` throws on a parameterless candidate that passed the
   * first three tests.
   */
  function Selector(m: MethodDescriptor): (r: Result<bool, Exception>)
    ensures r == Ok(true) <==> IsAddDbContextOverload(m)
    ensures r.Err? <==>
      (m.name == "AddDbContext" && m.isGenericMethodDefinition && m.genericArgumentCount == 1 && |m.parameterTypes| == 0)
    ensures r.Err? ==> r.error == SequenceContainsNoElements
  {
    if !(m.name == "AddDbContext" && m.isGenericMethodDefinition && m.genericArgumentCount == 1) then Ok(false)
    else if |m.parameterTypes| == 0 then Err(SequenceContainsNoElements)
    else Ok(m.parameterTypes[0] == IServiceCollectionType)
  }

  /**
   * `methods.First(Selector)`: the first method the selector accepts; the selector's
   * own exception if it throws first; `SequenceContainsNoMatchingElement` when it
   * rejects every method.
   */
  function FirstMatching(methods: seq<MethodDescriptor>): (r: Result<MethodDescriptor, Exception>)
    ensures r.Err? ==> r.error == SequenceContainsNoElements || r.error == SequenceContainsNoMatchingElement
    ensures r.Ok? ==> IsAddDbContextOverload(r.value)
    ensures r.Ok? ==> exists k :: 0 <= k < |methods| && methods[k] == r.value
                                 && forall j :: 0 <= j < k ==> Selector(methods[j]) == Ok(false)
    ensures r == Err(SequenceContainsNoMatchingElement) <==> forall m :: m in methods ==> Selector(m) == Ok(false)
    ensures r == Err(SequenceContainsNoElements) ==> exists k :: 0 <= k < |methods| && Selector(methods[k]).Err?
                                                                && forall j :: 0 <= j < k ==> Selector(methods[j]) == Ok(false)
  {
    if methods == [] then Err(SequenceContainsNoMatchingElement)
    else
      match Selector(methods[0])
      case Err(e) => Err(e)
      case Ok(true) => Ok(methods[0])
      case Ok(false) =>
        var r := FirstMatching(methods[1..]);
        assert forall m :: m in methods ==> m == methods[0] || m in methods[1..];
        assert r.Ok? ==> exists k :: 0 <= k < |methods| && methods[k] == r.value
                                   && forall j :: 0 <= j < k ==> Selector(methods[j]) == Ok(false)
          by {
            if r.Ok? {
              var k :| 0 <= k < |methods[1..]| && methods[1..][k] == r.value
                       && forall j :: 0 <= j < k ==> Selector(methods[1..][j]) == Ok(false);
              RejectedPrefixShift(methods, k);
            }
          }
        assert r == Err(SequenceContainsNoElements) ==>
            exists k :: 0 <= k < |methods| && Selector(methods[k]).Err?
                        && forall j :: 0 <= j < k ==> Selector(methods[j]) == Ok(false)
          by {
            if r == Err(SequenceContainsNoElements) {
              var k :| 0 <= k < |methods[1..]| && Selector(methods[1..][k]).Err?
                       && forall j :: 0 <= j < k ==> Selector(methods[1..][j]) == Ok(false);
              RejectedPrefixShift(methods, k);
            }
          }
        r
  }

  /** A rejected head followed by `k` rejected candidates of the tail is a rejected prefix of length `k + 1`. */
  lemma RejectedPrefixShift(methods: seq<MethodDescriptor>, k: nat)
    requires k < |methods| - 1 && Selector(methods[0]) == Ok(false)
    requires forall j :: 0 <= j < k ==> Selector(methods[1..][j]) == Ok(false)
    ensures methods[k + 1] == methods[1..][k]
    ensures forall j :: 0 <= j < k + 1 ==> Selector(methods[j]) == Ok(false)
  {
    forall j | 0 <= j < k + 1 ensures Selector(methods[j]) == Ok(false) {
      if j > 0 { assert methods[j] == methods[1..][j - 1]; }
    }
  }

  /** The method the DbContext pass specialises and invokes once per marked type. */
  function SelectAddDbContext(efMethods: seq<MethodDescriptor>): Result<MethodDescriptor, Exception>
  {
    FirstMatching(PublicStaticMethods(efMethods))
  }

  /** What the loop of `HandleRegisterDbContexts` appends: one scoped `AddDbContext` per type. */
  function ContextEntries(contextTypes: seq<ScannedType>): (added: seq<DI.ServiceDescriptor>)
    ensures |added| == |contextTypes|
    ensures forall n :: 0 <= n < |contextTypes| ==> added[n] == DI.DbContext(contextTypes[n].id, DI.Scoped, DI.Scoped)
  {
    if contextTypes == [] then []
    else
      ContextEntries(contextTypes[..|contextTypes| - 1])
        + [DI.DbContext(contextTypes[|contextTypes| - 1].id, DI.Scoped, DI.Scoped)]
  }

  /** One more iteration of the loop in `HandleRegisterDbContexts` appends one more entry. */
  lemma ContextEntriesStep(before: seq<DI.ServiceDescriptor>, contextTypes: seq<ScannedType>, i: nat)
    requires i < |contextTypes|
    ensures before + ContextEntries(contextTypes[..i]) + [DI.DbContext(contextTypes[i].id, DI.Scoped, DI.Scoped)]
         == before + ContextEntries(contextTypes[..i + 1])
  {
    var prefix := contextTypes[..i + 1];
    assert prefix[..i] == contextTypes[..i] && prefix[i] == contextTypes[i];
    assert ContextEntries(prefix) == ContextEntries(contextTypes[..i]) + [DI.DbContext(contextTypes[i].id, DI.Scoped, DI.Scoped)];
  }

  /** Everything a successful DbContext pass appends. */
  function DbContextRegistrations(assemblies: seq<Assembly>): seq<DI.ServiceDescriptor>
  {
    ContextEntries(GetTypesWithAttribute(assemblies, RegisterDbContextKind))
  }

  /**
   * `Invoke(null, [services, options callback, Scoped, Scoped])` on a specialisation of
   * `m`: the four arguments must match the parameter list in number, then in type. The
   * first argument always fits, since the selector checked the first parameter.
   */
  function InvokeArguments(m: MethodDescriptor): (r: Outcome<Exception>)
    ensures r.Pass? <==> |m.parameterTypes| == 4
                         && m.parameterTypes[1..] == [OptionsActionType, ServiceLifetimeType, ServiceLifetimeType]
    ensures r == Fail(ParameterCountMismatch) <==> |m.parameterTypes| != 4
    ensures r.Fail? ==> r.error in {ParameterCountMismatch, ArgumentTypeMismatch}
  {
    if |m.parameterTypes| != 4 then Fail(ParameterCountMismatch)
    else if m.parameterTypes[1..] != [OptionsActionType, ServiceLifetimeType, ServiceLifetimeType] then Fail(ArgumentTypeMismatch)
    else Pass
  }

  /**
   * What one DbContext pass does: the exception it throws, or the entries it appends.
   * Selection happens once, before the loop; an argument mismatch throws at the first
   * marked type, before any entry is made.
   */
  function DbContextPass(efMethods: seq<MethodDescriptor>, assemblies: seq<Assembly>): (r: Result<seq<DI.ServiceDescriptor>, Exception>)
    ensures r.Ok? ==> r.value == DbContextRegistrations(assemblies)
    ensures SelectAddDbContext(efMethods).Err? ==> r == Err(SelectAddDbContext(efMethods).error)
    ensures r.Err? && SelectAddDbContext(efMethods).Ok? ==>
      && GetTypesWithAttribute(assemblies, RegisterDbContextKind) != []
      && InvokeArguments(SelectAddDbContext(efMethods).value).Fail?
      && r.error == InvokeArguments(SelectAddDbContext(efMethods).value).error
    ensures GetTypesWithAttribute(assemblies, RegisterDbContextKind) == [] ==> (r.Ok? <==> SelectAddDbContext(efMethods).Ok?)
    ensures && SelectAddDbContext(efMethods).Ok?
            && GetTypesWithAttribute(assemblies, RegisterDbContextKind) != []
            && InvokeArguments(SelectAddDbContext(efMethods).value).Fail?
            ==> r == Err(InvokeArguments(SelectAddDbContext(efMethods).value).error)
  {
    match SelectAddDbContext(efMethods)
    case Err(e) => Err(e)
    case Ok(m) =>
      if GetTypesWithAttribute(assemblies, RegisterDbContextKind) != [] && InvokeArguments(m).Fail? then
        Err(InvokeArguments(m).error)
      else
        Ok(DbContextRegistrations(assemblies))
  }

  /**
   * `HandleRegisterDbContexts`: the overload is selected first and then invoked once per
   * type that declares `[RegisterDbContext]`, in scan order, with Scoped context and
   * options lifetimes. Every failure this model covers happens before the first entry
   * is made, so a failing pass leaves the collection as it was.
   */
  method HandleRegisterDbContexts(services: DI.ServiceCollection, efMethods: seq<MethodDescriptor>, assemblies: seq<Assembly>)
    returns (outcome: Outcome<Exception>)
    modifies services
    ensures outcome.Fail? <==> DbContextPass(efMethods, assemblies).Err?
    ensures outcome.Fail? ==> outcome.error == DbContextPass(efMethods, assemblies).error
    ensures outcome.Fail? ==> services.descriptors == old(services.descriptors)
    ensures outcome.Pass? ==> services.descriptors == old(services.descriptors) + DbContextPass(efMethods, assemblies).value
  {
    var addDbContextMethod := FirstMatching(PublicStaticMethods(efMethods));
    if addDbContextMethod.Err? {
      return Fail(addDbContextMethod.error);
    }
    var contextTypes := GetTypesWithAttribute(assemblies, RegisterDbContextKind);
    for i := 0 to |contextTypes|
      invariant 0 < i ==> InvokeArguments(addDbContextMethod.value).Pass?
      invariant services.descriptors == old(services.descriptors) + ContextEntries(contextTypes[..i])
    {
      var invoked := InvokeArguments(addDbContextMethod.value);
      if invoked.Fail? {
        assert contextTypes[..i] == [];
        return Fail(invoked.error);
      }
      services.AddDbContext(contextTypes[i].id, DI.Scoped, DI.Scoped);
      ContextEntriesStep(old(services.descriptors), contextTypes, i);
    }
    assert contextTypes[..|contextTypes|] == contextTypes;
    return Pass;
  }

  /**
   * EF Core's `AddDbContext<TContext>(IServiceCollection, Action<DbContextOptionsBuilder>,
   * ServiceLifetime, ServiceLifetime)` passes the selector and takes the pass's
   * arguments, so when it is the first candidate the pass registers every marked type.
   */
  lemma OptionsOverloadRegisters(assemblies: seq<Assembly>, others: seq<MethodDescriptor>)
    ensures var m := MethodDescriptor("AddDbContext", true, true, true, 1,
                                      [IServiceCollectionType, OptionsActionType, ServiceLifetimeType, ServiceLifetimeType]);
      DbContextPass([m] + others, assemblies) == Ok(DbContextRegistrations(assemblies))
  {
    var m := MethodDescriptor("AddDbContext", true, true, true, 1,
                              [IServiceCollectionType, OptionsActionType, ServiceLifetimeType, ServiceLifetimeType]);
    assert PublicStaticMethods([m] + others)[0] == m;
    assert Selector(m) == Ok(true);
    assert m.parameterTypes[1..] == [OptionsActionType, ServiceLifetimeType, ServiceLifetimeType];
  }

  /**
   * The selector checks only the first parameter, so an overload such as
   * `AddDbContext<TContext>(IServiceCollection, ServiceLifetime, ServiceLifetime)` passes
   * it; taken first, it makes the pass throw as soon as one type is marked.
   */
  lemma LifetimeOverloadThrows(assemblies: seq<Assembly>, others: seq<MethodDescriptor>)
    requires GetTypesWithAttribute(assemblies, RegisterDbContextKind) != []
    ensures var m := MethodDescriptor("AddDbContext", true, true, true, 1,
                                      [IServiceCollectionType, ServiceLifetimeType, ServiceLifetimeType]);
      IsAddDbContextOverload(m) && DbContextPass([m] + others, assemblies) == Err(ParameterCountMismatch)
  {
    var m := MethodDescriptor("AddDbContext", true, true, true, 1,
                              [IServiceCollectionType, ServiceLifetimeType, ServiceLifetimeType]);
    assert PublicStaticMethods([m] + others)[0] == m;
    assert Selector(m) == Ok(true);
  }

  /**
   * The DbContext pass makes exactly one entry per type that declares the marker,
   * always with Scoped context and options lifetimes, and none for any other type.
   */
  lemma DbContextRegistrationsExact(assemblies: seq<Assembly>)
    ensures forall d :: d in DbContextRegistrations(assemblies) ==>
      && d.DbContext?
      && d.contextLifetime == DI.Scoped
      && d.optionsLifetime == DI.Scoped
      && exists a, t :: a in assemblies && t in a.definedTypes && t.dbContext && d.contextType == t.id
    ensures forall a, t :: a in assemblies && t in a.definedTypes && t.dbContext ==>
      DI.DbContext(t.id, DI.Scoped, DI.Scoped) in DbContextRegistrations(assemblies)
    ensures |DbContextRegistrations(assemblies)| == |GetTypesWithAttribute(assemblies, RegisterDbContextKind)|
  {
    var types := GetTypesWithAttribute(assemblies, RegisterDbContextKind);
    var added := DbContextRegistrations(assemblies);
    forall d | d in added
      ensures && d.DbContext? && d.contextLifetime == DI.Scoped && d.optionsLifetime == DI.Scoped
              && exists a, t :: a in assemblies && t in a.definedTypes && t.dbContext && d.contextType == t.id
    {
      var n :| 0 <= n < |added| && added[n] == d;
      assert types[n] in types;
    }
    forall a, t | a in assemblies && t in a.definedTypes && t.dbContext
      ensures DI.DbContext(t.id, DI.Scoped, DI.Scoped) in added
    {
      assert IsDefined(t, RegisterDbContextKind, false);
      assert t in types;
      var n :| 0 <= n < |types| && types[n] == t;
      assert added[n] == DI.DbContext(t.id, DI.Scoped, DI.Scoped);
    }
  }
}
