/**
 * The reflection surface the scanners use, replaced by plain data: an assembly is
 * a sequence of type definitions, and each type records its implemented interfaces
 * and the annotations declared on it and on its nearest annotated base class.
 */
module Reflection {
  import opened Wrappers
  import opened Annotations
  import DI = DependencyInjection

  /**
   * A type definition found in an assembly. The annotation fields are options because
   * `AllowMultiple = false` admits at most one annotation of each kind per class.
   */
  datatype ScannedType = ScannedType(
    id: DI.TypeId,
    /** `ImplementedInterfaces`, in the order reflection reports them. */
    interfaces: seq<DI.TypeId>,
    /** `[RegisterService]` declared on this class itself. */
    service: Option<RegisterServiceAttribute>,
    /** `[RegisterDbContext]` declared on this class itself. */
    dbContext: bool,
    /** `[RegisterService]` declared on the nearest base class that has one. */
    baseService: Option<RegisterServiceAttribute>,
    /** Whether some base class declares `[RegisterDbContext]`. */
    baseDbContext: bool)

  /** A loaded assembly: its `DefinedTypes`, in declaration order. */
  datatype Assembly = Assembly(definedTypes: seq<ScannedType>)

  /**
   * `MemberInfo.IsDefined(attributeType, inherit)`: an annotation on a base class is
   * seen only when asked for AND the attribute's usage lets subclasses inherit it.
   */
  predicate IsDefined(t: ScannedType, kind: AttributeKind, inherit: bool)
  {
    match kind
    case RegisterServiceKind => t.service.Some? || (inherit && Usage(kind).inherited && t.baseService.Some?)
    case RegisterDbContextKind => t.dbContext || (inherit && Usage(kind).inherited && t.baseDbContext)
  }

  /** `GetCustomAttribute<RegisterServiceAttribute>(inherit)`, null when there is none. */
  function GetCustomAttribute(t: ScannedType, inherit: bool): Option<RegisterServiceAttribute>
  {
    if t.service.Some? then t.service
    else if inherit && Usage(RegisterServiceKind).inherited then t.baseService
    else None
  }

  /**
   * Because no scanned attribute is inheritable, the `inherit` flag changes nothing:
   * a subclass of an annotated class is not itself annotated, and the attribute read
   * is always the one declared on the class itself.
   */
  lemma InheritFlagIrrelevant(t: ScannedType, kind: AttributeKind)
    ensures IsDefined(t, kind, true) == IsDefined(t, kind, false)
    ensures GetCustomAttribute(t, true) == GetCustomAttribute(t, false) == t.service
    ensures t.service.None? && t.baseService.Some? ==> !IsDefined(t, RegisterServiceKind, true)
    ensures GetCustomAttribute(t, true).Some? <==> IsDefined(t, RegisterServiceKind, true)
  {
  }

  /** `assemblies.SelectMany(a => a.DefinedTypes)`: all types, assembly by assembly. */
  function DefinedTypes(assemblies: seq<Assembly>): (types: seq<ScannedType>)
    ensures forall a, t :: a in assemblies && t in a.definedTypes ==> t in types
    ensures forall t :: t in types ==> exists a :: a in assemblies && t in a.definedTypes
  {
    if assemblies == [] then []
    else
      var prefix := assemblies[..|assemblies| - 1];
      assert forall a :: a in assemblies ==> a in prefix || a == assemblies[|assemblies| - 1];
      DefinedTypes(prefix) + assemblies[|assemblies| - 1].definedTypes
  }

  /** `types.Where(t => t.IsDefined(kind, inherit))`, keeping the original order. */
  function WhereDefined(types: seq<ScannedType>, kind: AttributeKind, inherit: bool): (kept: seq<ScannedType>)
    ensures forall t :: t in kept <==> t in types && IsDefined(t, kind, inherit)
    ensures |kept| <= |types|
  {
    if types == [] then []
    else
      var prefix := WhereDefined(types[..|types| - 1], kind, inherit);
      var last := types[|types| - 1];
      assert types == types[..|types| - 1] + [last];
      if IsDefined(last, kind, inherit) then prefix + [last] else prefix
  }

  /** SelectMany over a concatenation of assembly lists is the concatenation of the results. */
  lemma {:induction false} DefinedTypesAppend(xs: seq<Assembly>, ys: seq<Assembly>)
    ensures DefinedTypes(xs + ys) == DefinedTypes(xs) + DefinedTypes(ys)
    decreases |ys|
  {
    if ys != [] {
      var ys', last := ys[..|ys| - 1], ys[|ys| - 1];
      assert (xs + ys)[..|xs + ys| - 1] == xs + ys' && (xs + ys)[|xs + ys| - 1] == last;
      var front, middle := DefinedTypes(xs), DefinedTypes(ys');
      calc {
        DefinedTypes(xs + ys);
        DefinedTypes(xs + ys') + last.definedTypes;
        { DefinedTypesAppend(xs, ys'); }
        (front + middle) + last.definedTypes;
        front + (middle + last.definedTypes);
        front + DefinedTypes(ys);
      }
    } else {
      assert xs + ys == xs;
    }
  }

  /** Filtering a concatenation is the concatenation of the filtered parts, in order. */
  lemma {:induction false} WhereDefinedAppend(xs: seq<ScannedType>, ys: seq<ScannedType>, kind: AttributeKind, inherit: bool)
    ensures WhereDefined(xs + ys, kind, inherit) == WhereDefined(xs, kind, inherit) + WhereDefined(ys, kind, inherit)
    decreases |ys|
  {
    if ys != [] {
      var ys', last := ys[..|ys| - 1], ys[|ys| - 1];
      assert (xs + ys)[..|xs + ys| - 1] == xs + ys' && (xs + ys)[|xs + ys| - 1] == last;
      var front, middle := WhereDefined(xs, kind, inherit), WhereDefined(ys', kind, inherit);
      var back := if IsDefined(last, kind, inherit) then [last] else [];
      calc {
        WhereDefined(xs + ys, kind, inherit);
        WhereDefined(xs + ys', kind, inherit) + back;
        { WhereDefinedAppend(xs, ys', kind, inherit); }
        (front + middle) + back;
        front + (middle + back);
        front + WhereDefined(ys, kind, inherit);
      }
    } else {
      assert xs + ys == xs;
    }
  }

  /** The scanners that pass `inherit: true` and `inherit: false` keep the same types. */
  lemma {:induction false} WhereDefinedInheritIrrelevant(types: seq<ScannedType>, kind: AttributeKind)
    ensures WhereDefined(types, kind, true) == WhereDefined(types, kind, false)
    decreases |types|
  {
    if types != [] {
      WhereDefinedInheritIrrelevant(types[..|types| - 1], kind);
      InheritFlagIrrelevant(types[|types| - 1], kind);
    }
  }
}
