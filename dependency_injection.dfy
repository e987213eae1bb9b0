/**
 * The part of the host container's registration surface that the helper calls:
 * an append-only list of service descriptors. Resolution, duplicate handling and
 * disposal belong to the container and are not modelled.
 */
module DependencyInjection {

  /** A reflected type handle, identified by its full name. */
  type TypeId = string

  /** The container's own lifetime enumeration. */
  datatype ServiceLifetime = Singleton | Scoped | Transient

  /** One registration recorded in the service collection. */
  datatype ServiceDescriptor =
    | Service(serviceType: TypeId, implementationType: TypeId, lifetime: ServiceLifetime)
      /** A call of the generic `AddDbContext<T>` with a no-op options callback. */
    | DbContext(contextType: TypeId, contextLifetime: ServiceLifetime, optionsLifetime: ServiceLifetime)

  /** The service collection: every registration call appends one descriptor. */
  class ServiceCollection {
    var descriptors: seq<ServiceDescriptor>

    constructor ()
      ensures descriptors == []
    {
      descriptors := [];
    }

    method AddTransient(serviceType: TypeId, implementationType: TypeId)
      modifies this
      ensures descriptors == old(descriptors) + [Service(serviceType, implementationType, Transient)]
    {
      descriptors := descriptors + [Service(serviceType, implementationType, Transient)];
    }

    method AddScoped(serviceType: TypeId, implementationType: TypeId)
      modifies this
      ensures descriptors == old(descriptors) + [Service(serviceType, implementationType, Scoped)]
    {
      descriptors := descriptors + [Service(serviceType, implementationType, Scoped)];
    }

    method AddSingleton(serviceType: TypeId, implementationType: TypeId)
      modifies this
      ensures descriptors == old(descriptors) + [Service(serviceType, implementationType, Singleton)]
    {
      descriptors := descriptors + [Service(serviceType, implementationType, Singleton)];
    }

    method AddDbContext(contextType: TypeId, contextLifetime: ServiceLifetime, optionsLifetime: ServiceLifetime)
      modifies this
      ensures descriptors == old(descriptors) + [DbContext(contextType, contextLifetime, optionsLifetime)]
    {
      descriptors := descriptors + [DbContext(contextType, contextLifetime, optionsLifetime)];
    }
  }
}
