/** Method invocation (MethodResolver::getValue): look the method up on the receiver's
    runtime class, resolve its parameters exactly as a constructor's, and call it. */
module MethodResolution {
  import opened Types
  import opened Resolution

  /** MethodResolver::getValue for the receiver `obj`, the method name `name` and the
      explicit arguments `args`. */
  function GetValue(env: Reflection, reg: Registry, obj: Obj, name: string, args: ArgArray, depth: nat)
    : Result<Value>
  {
    if (obj.cls, name) !in env.methods then Err(UnknownMethod(obj.cls, name))
    else
      var m := env.methods[(obj.cls, name)];
      match Arguments(env, reg, m.params, args, depth)
      case Err(e) => Err(e)
      case Ok(vs) => Ok(m.body(obj, vs))
  }

  /** A method the receiver's class does not declare is a reflection error, raised before
      any argument is looked at. */
  lemma UnknownMethodFailsFirst(env: Reflection, reg: Registry, obj: Obj, name: string, args: ArgArray, depth: nat)
    requires (obj.cls, name) !in env.methods
    ensures GetValue(env, reg, obj, name, args, depth) == Err(UnknownMethod(obj.cls, name))
  {
  }

  /** The method is invoked exactly when all of its parameters resolve, on the given
      receiver, with one argument per declared parameter in declared order, and its
      return value comes back unchanged; otherwise the first resolution error comes back
      and the method is never invoked. */
  lemma InvokesWithResolvedArgs(env: Reflection, reg: Registry, obj: Obj, name: string, args: ArgArray, depth: nat)
    requires (obj.cls, name) in env.methods
    ensures var m := env.methods[(obj.cls, name)];
            var r := GetValue(env, reg, obj, name, args, depth);
            && (r.Ok? <==> forall i | 0 <= i < |m.params| :: Argument(env, reg, m.params[i], args, depth).Ok?)
            && (r.Ok? ==> exists vs: seq<Value> ::
                  && |vs| == |m.params|
                  && (forall i | 0 <= i < |m.params| :: Argument(env, reg, m.params[i], args, depth) == Ok(vs[i]))
                  && r.value == m.body(obj, vs))
            && (r.Err? ==> r == Err(Arguments(env, reg, m.params, args, depth).error))
  {
    var m := env.methods[(obj.cls, name)];
    ArgumentsEach(env, reg, m.params, args, depth);
    if GetValue(env, reg, obj, name, args, depth).Ok? {
      var vs := Arguments(env, reg, m.params, args, depth).value;
      assert GetValue(env, reg, obj, name, args, depth).value == m.body(obj, vs);
    }
  }

  /** Method injection fills parameters the same way as constructor injection: when a
      method declares the same parameters as a class's public constructor, the method
      receives exactly the list that the constructor received for the same explicit
      arguments. */
  lemma SameAsCtorInjection(env: Reflection, reg: Registry, ns: string, obj: Obj, name: string,
                            args: ArgArray, depth: nat)
    requires !IsSingleton(reg, ns) && InjectsCtor(env, Target(reg, ns))
    requires (obj.cls, name) in env.methods
    requires env.methods[(obj.cls, name)].params == env.classes[Target(reg, ns)].ctor.value.params
    requires Instance(env, reg, ns, args, depth).Ok?
    ensures Instance(env, reg, ns, args, depth).value.ctorArgs.Some?
    ensures GetValue(env, reg, obj, name, args, depth) ==
            Ok(env.methods[(obj.cls, name)].body(obj, Instance(env, reg, ns, args, depth).value.ctorArgs.value.positional))
  {
  }

  /** Unlike a constructor without parameters, which receives the explicit arguments as
      given, a method without parameters is always called with no arguments. */
  lemma ZeroParamMethodIgnoresArgs(env: Reflection, reg: Registry, obj: Obj, name: string, args: ArgArray, depth: nat)
    requires (obj.cls, name) in env.methods && env.methods[(obj.cls, name)].params == []
    ensures GetValue(env, reg, obj, name, args, depth) == Ok(env.methods[(obj.cls, name)].body(obj, []))
  {
  }

  /** A method call that does not run out of depth gives the same result with any larger
      depth. */
  lemma GetValueDepthMono(env: Reflection, reg: Registry, obj: Obj, name: string, args: ArgArray, d: nat, d': nat)
    requires d <= d' && GetValue(env, reg, obj, name, args, d) != Err(TooDeep)
    ensures GetValue(env, reg, obj, name, args, d') == GetValue(env, reg, obj, name, args, d)
  {
    if (obj.cls, name) in env.methods {
      ArgumentsDepthMono(env, reg, env.methods[(obj.cls, name)].params, args, d, d');
    }
  }
}
