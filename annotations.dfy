/**
 * The declarative annotations a type can carry, and the enumerations they use.
 * Every attribute property is get-only and set once by a constructor, so each
 * attribute is an immutable datatype value.
 */
module Annotations {
  import opened Wrappers
  import DI = DependencyInjection

  /**
   * The helper's own lifecycle enumeration. A C# enum variable can hold any value
   * of its underlying integer type; `Undeclared` stands for one that names none of
   * the three declared members.
   */
  datatype ServiceLifeCycle = Transient | Scoped | Singleton | Undeclared(raw: OutOfRangeLifeCycle)

  /** A 32-bit enum value other than 0, 1 and 2, the values of Transient, Scoped and Singleton. */
  type OutOfRangeLifeCycle = x: int | -0x8000_0000 <= x < 0x8000_0000 && !(0 <= x <= 2) witness 3

  /** Which implemented interfaces a type is registered under. `Undeclared` as above. */
  datatype InterfaceRegistrationStrategy = FirstOnly | AllInterfaces | UndeclaredStrategy(raw: OutOfRangeStrategy)

  /** A 32-bit enum value other than 0 and 1, the values of FirstOnly and AllInterfaces. */
  type OutOfRangeStrategy = x: int | -0x8000_0000 <= x < 0x8000_0000 && !(0 <= x <= 1) witness 2

  /**
   * `[RegisterService(lifeTime, strategy)]`: both constructor parameters are optional,
   * with defaults Transient and FirstOnly.
   */
  datatype RegisterServiceAttribute = RegisterServiceAttribute(
    lifeCycle: ServiceLifeCycle := Transient,
    strategy: InterfaceRegistrationStrategy := FirstOnly)

  /** The constructor keeps both arguments verbatim and defaults to Transient / FirstOnly. */
  lemma RegisterServiceConstructor(lifeTime: ServiceLifeCycle, strategy: InterfaceRegistrationStrategy)
    ensures RegisterServiceAttribute().lifeCycle == Transient
    ensures RegisterServiceAttribute().strategy == FirstOnly
    ensures RegisterServiceAttribute(lifeTime).lifeCycle == lifeTime
    ensures RegisterServiceAttribute(lifeTime).strategy == FirstOnly
    ensures RegisterServiceAttribute(lifeTime, strategy).lifeCycle == lifeTime
    ensures RegisterServiceAttribute(lifeTime, strategy).strategy == strategy
  {
  }

  /**
   * `[Service]`: a lifecycle and an optional (nullable) array of explicit contract
   * types. The datatype constructor is the two-argument C# constructor.
   */
  datatype ServiceAttribute = ServiceAttribute(lifeCycle: ServiceLifeCycle, implementedTypes: Option<seq<DI.TypeId>>)

  /** The parameterless constructor. */
  function NewService(): (a: ServiceAttribute)
    ensures a.lifeCycle == Transient && a.implementedTypes == None
  {
    ServiceAttribute(Transient, None)
  }

  /** The lifecycle-only constructor. */
  function NewServiceWithLifeCycle(lifeCycle: ServiceLifeCycle): (a: ServiceAttribute)
    ensures a.lifeCycle == lifeCycle && a.implementedTypes == None
  {
    ServiceAttribute(lifeCycle, None)
  }

  /** The types-only constructor; its parameter is declared non-nullable. */
  function NewServiceWithTypes(implementedTypes: seq<DI.TypeId>): (a: ServiceAttribute)
    ensures a.lifeCycle == Transient && a.implementedTypes == Some(implementedTypes)
  {
    ServiceAttribute(Transient, Some(implementedTypes))
  }

  /**
   * The two-argument constructor stores both arguments verbatim, null included, and
   * each shorter constructor is the two-argument one with Transient and null filled in.
   */
  lemma ServiceConstructors(lifeCycle: ServiceLifeCycle, implementedTypes: Option<seq<DI.TypeId>>, types: seq<DI.TypeId>)
    ensures ServiceAttribute(lifeCycle, implementedTypes).lifeCycle == lifeCycle
    ensures ServiceAttribute(lifeCycle, implementedTypes).implementedTypes == implementedTypes
    ensures NewService() == ServiceAttribute(Transient, None)
    ensures NewServiceWithLifeCycle(lifeCycle) == ServiceAttribute(lifeCycle, None)
    ensures NewServiceWithTypes(types) == ServiceAttribute(Transient, Some(types))
  {
  }

  /** The attribute classes a scanner looks for on a type. */
  datatype AttributeKind = RegisterServiceKind | RegisterDbContextKind

  /** The `[AttributeUsage]` declared on an attribute class. */
  datatype AttributeUsage = AttributeUsage(classesOnly: bool, allowMultiple: bool, inherited: bool)

  /**
   * `[RegisterService]` and `[RegisterDbContext]` apply to classes only, at most once
   * per class, and are not inherited by subclasses.
   */
  function Usage(kind: AttributeKind): (u: AttributeUsage)
    ensures u.classesOnly && !u.allowMultiple && !u.inherited
  {
    match kind
    case RegisterServiceKind => AttributeUsage(classesOnly := true, allowMultiple := false, inherited := false)
    case RegisterDbContextKind => AttributeUsage(classesOnly := true, allowMultiple := false, inherited := false)
  }

  /**
   * `[Service]` applies to classes only and is not inherited; `AllowMultiple` is left
   * at its default, false.
   */
  function ServiceUsage(): (u: AttributeUsage)
    ensures u.classesOnly && !u.allowMultiple && !u.inherited
  {
    AttributeUsage(classesOnly := true, allowMultiple := false, inherited := false)
  }
}
