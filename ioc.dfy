/** The container and its instance resolver as objects with state, as in the PHP
    namespace tinywan\ioc: Container owns the binding registry and updates it in place;
    ClassResolver rewrites its own fields while it resolves one identifier; Process holds
    the static slot behind Container::instance(). The pure definitions they are proved
    against are in Resolution and MethodResolution. */
module Ioc {
  import opened Types
  import opened Resolution
  import MethodResolution

  class Container {
    /** Identifier => class name (from bind) or object (from singleton). */
    var bindings: Registry

    constructor ()
      ensures bindings == map[]
    {
      bindings := map[];
    }

    /** has(): an entry exists for `id`, whatever is stored there; no indirection is
        followed and nothing is constructed. */
    predicate Has(id: string)
      reads this
      ensures Has(id) <==> id in bindings.Keys
    {
      id in bindings
    }

    /** get(): the raw stored entry, or the not-found error for an absent identifier.
        As a function it cannot change the registry, on success or on failure. */
    function Get(id: string): (r: Result<Binding>)
      reads this
      ensures r.Ok? <==> Has(id)
      ensures r.Ok? ==> r.value == bindings[id]
      ensures r.Err? ==> r.error == NotFound(id)
    {
      if Has(id) then Ok(bindings[id]) else Err(NotFound(id))
    }

    /** bind(): `id` now names the class `ns`, replacing any earlier entry for `id`;
        every other entry is kept; the container itself is returned for chaining. */
    method Bind(id: string, ns: string) returns (self: Container)
      modifies this
      ensures bindings == old(bindings)[id := Name(ns)]
      ensures Has(id) && Get(id) == Ok(Name(ns))
      ensures forall k | k != id :: Get(k) == old(Get(k))
      ensures self == this
    {
      bindings := bindings[id := Name(ns)];
      self := this;
    }

    /** singleton(): `id` now holds the object `obj` itself, replacing any earlier entry
        for `id`; every other entry is kept; the container itself is returned. */
    method Singleton(id: string, obj: Obj) returns (self: Container)
      modifies this
      ensures bindings == old(bindings)[id := Inst(obj)]
      ensures Has(id) && Get(id) == Ok(Inst(obj))
      ensures forall k | k != id :: Get(k) == old(Get(k))
      ensures self == this
    {
      bindings := bindings[id := Inst(obj)];
      self := this;
    }

    /** resolve(): exactly what a fresh ClassResolver for (`ns`, `args`) yields on this
        container, which it leaves unchanged. */
    method Resolve(env: Reflection, ns: string, args: ArgArray, depth: nat) returns (r: Result<Obj>)
      ensures r == Instance(env, bindings, ns, args, depth)
    {
      var resolver := new ClassResolver(this, ns, args);
      r := resolver.GetInstance(env, depth);
    }

    /** resolveMethod(): exactly what MethodResolver::getValue yields on this container. */
    method ResolveMethod(env: Reflection, obj: Obj, name: string, args: ArgArray, depth: nat)
      returns (r: Result<Value>)
      ensures r == MethodResolution.GetValue(env, bindings, obj, name, args, depth)
    {
      r := MethodResolution.GetValue(env, bindings, obj, name, args, depth);
    }
  }

  class ClassResolver {
    const container: Container
    /** The identifier to resolve, replaced by the bound class name after one hop. */
    var namespace: string
    /** The explicit arguments, replaced by the resolved constructor arguments. */
    var args: ArgArray

    constructor (container: Container, namespace: string, args: ArgArray)
      ensures this.container == container && this.namespace == namespace && this.args == args
    {
      this.container := container;
      this.namespace := namespace;
      this.args := args;
    }

    /** getInstance(): the result is Instance for the identifier and arguments the
        resolver was given, computed against the registry, which is only read. Afterwards
        `namespace` holds the class reflected (unchanged on a short-circuit) and `args`
        holds the constructor's resolved argument list when there was one to resolve. */
    method GetInstance(env: Reflection, depth: nat) returns (r: Result<Obj>)
      modifies this
      ensures r == Instance(env, container.bindings, old(namespace), old(args), depth)
      ensures unchanged(container)
      ensures namespace ==
              if IsSingleton(container.bindings, old(namespace)) then old(namespace)
              else Target(container.bindings, old(namespace))
      ensures args ==
              if !IsSingleton(container.bindings, old(namespace)) && InjectsCtor(env, namespace)
                 && Arguments(env, container.bindings, env.classes[namespace].ctor.value.params, old(args), depth).Ok?
              then ArgArray(Arguments(env, container.bindings, env.classes[namespace].ctor.value.params, old(args), depth).value, map[])
              else old(args)
    {
      if container.Has(namespace) {
        var binding := container.Get(namespace).value;
        if binding.Inst? {
          return Ok(binding.obj);
        }
        namespace := binding.ns;
      }
      if namespace !in env.classes {
        return Err(UnknownClass(namespace));
      }
      var info := env.classes[namespace];
      if info.ctor.Some? && info.ctor.value.isPublic {
        if |info.ctor.value.params| > 0 {
          var resolved := Arguments(env, container.bindings, info.ctor.value.params, args, depth);
          if resolved.Err? {
            return Err(resolved.error);
          }
          args := ArgArray(resolved.value, map[]);
        }
        return NewInstance(namespace, info, Some(args));
      }
      return NewInstance(namespace, info, None);
    }
  }

  /** The process-wide storage behind the static local `$instance` of
      Container::instance(). */
  class Process {
    var instance: Container?

    constructor ()
      ensures instance == null
    {
      instance := null;
    }

    /** instance(): the first call creates an empty container; every later call returns
        that same container. */
    method Instance() returns (c: Container)
      modifies this
      ensures old(instance) != null ==> c == old(instance)
      ensures old(instance) == null ==> fresh(c) && c.bindings == map[]
      ensures instance == c
    {
      if instance == null {
        instance := new Container();
      }
      c := instance;
    }
  }
}
