/** Instance resolution (ClassResolver::getInstance) and parameter resolution
    (ParametersResolver::getArguments, getClassInstance) as functions over a snapshot of
    the registry. The two resolvers call each other, so they live in one module.

    PHP recursion has no bound: a class that needs itself loops until the stack runs out.
    Here every nested resolution costs one unit of `depth`, and running out of depth is
    the error `TooDeep`. */
module Resolution {
  import opened Types

  /** The class name that getInstance reflects when the registry does not short-circuit:
      the bound name if `ns` is bound to a name (one hop, never chased further), else
      `ns` itself. */
  function Target(reg: Registry, ns: string): string {
    if ns in reg && reg[ns].Name? then reg[ns].ns else ns
  }

  /** True when `ns` is bound to an object, so that getInstance returns it unchanged. */
  predicate IsSingleton(reg: Registry, ns: string) {
    ns in reg && reg[ns].Inst?
  }

  /** True when the class has a public constructor with at least one parameter: the only
      case in which getInstance resolves arguments. */
  predicate InjectsCtor(env: Reflection, cls: string) {
    cls in env.classes && env.classes[cls].ctor.Some? &&
    env.classes[cls].ctor.value.isPublic && |env.classes[cls].ctor.value.params| > 0
  }

  /** newInstanceArgs / newInstanceWithoutConstructor: both refuse an interface or an
      abstract class; otherwise the result records how the object was initialised. */
  function NewInstance(cls: string, info: ClassInfo, ctorArgs: Option<ArgArray>): Result<Obj>
  {
    if info.instantiable then Ok(Built(cls, ctorArgs)) else Err(NotInstantiable(cls))
  }

  /** ClassResolver::getInstance for the identifier `ns` and the explicit arguments
      `args`, with the registry `reg`. */
  function Instance(env: Reflection, reg: Registry, ns: string, args: ArgArray, depth: nat): Result<Obj>
    decreases depth, 3
  {
    if IsSingleton(reg, ns) then Ok(reg[ns].obj)
    else
      var cls := Target(reg, ns);
      if cls !in env.classes then Err(UnknownClass(cls))
      else
        var info := env.classes[cls];
        if info.ctor.Some? && info.ctor.value.isPublic then
          if |info.ctor.value.params| > 0 then
            match Arguments(env, reg, info.ctor.value.params, args, depth)
            case Err(e) => Err(e)
            case Ok(vs) => NewInstance(cls, info, Some(ArgArray(vs, map[])))
          else
            NewInstance(cls, info, Some(args))
        else
          NewInstance(cls, info, None)
  }

  /** ParametersResolver::getArguments: the closure applied to every parameter in
      declared order; the first parameter that fails makes the whole list fail. */
  function Arguments(env: Reflection, reg: Registry, params: seq<Param>, args: ArgArray, depth: nat)
    : (r: Result<seq<Value>>)
    decreases depth, 2, |params|
    ensures r.Ok? ==> |r.value| == |params|
  {
    if params == [] then Ok([])
    else
      match Argument(env, reg, params[0], args, depth)
      case Err(e) => Err(e)
      case Ok(v) =>
        match Arguments(env, reg, params[1..], args, depth)
        case Err(e) => Err(e)
        case Ok(vs) => Ok([v] + vs)
  }

  /** The closure of getArguments for one parameter: a named explicit argument wins;
      else a class-typed parameter is injected; else the default value is used. */
  function Argument(env: Reflection, reg: Registry, p: Param, args: ArgArray, depth: nat): Result<Value>
    decreases depth, 1
  {
    if p.name in args.named then Ok(args.named[p.name])
    else if p.ty.ClassType? then
      match ClassInstance(env, reg, p.ty.typeName, depth)
      case Err(e) => Err(e)
      case Ok(o) => Ok(Object(o))
    else if p.default.Some? then Ok(p.default.value)
    else Err(NoDefault(p.name))
  }

  /** ParametersResolver::getClassInstance: a fresh resolver for `ns` with no explicit
      arguments, one level deeper. */
  function ClassInstance(env: Reflection, reg: Registry, ns: string, depth: nat): Result<Obj>
    decreases depth, 0
  {
    if depth == 0 then Err(TooDeep) else Instance(env, reg, ns, NoArgs, depth - 1)
  }

  // ---------------------------------------------------------------------------------
  // Instance resolution

  /** What getInstance can return: the bound object itself, or a fresh object of the
      reflected class (one hop from `ns`), which is declared and instantiable. An
      undeclared target is a reflection error. */
  lemma InstanceOutcome(env: Reflection, reg: Registry, ns: string, args: ArgArray, depth: nat)
    ensures IsSingleton(reg, ns) ==> Instance(env, reg, ns, args, depth) == Ok(reg[ns].obj)
    ensures !IsSingleton(reg, ns) && Target(reg, ns) !in env.classes ==>
              Instance(env, reg, ns, args, depth) == Err(UnknownClass(Target(reg, ns)))
    ensures !IsSingleton(reg, ns) && Instance(env, reg, ns, args, depth).Ok? ==>
              var o := Instance(env, reg, ns, args, depth).value;
              && o.Built? && o.cls == Target(reg, ns)
              && o.cls in env.classes && env.classes[o.cls].instantiable
  {
  }

  /** Indirection is exactly one hop: with `a` bound to the name `b` and `b` bound to a
      user-made object, resolving `a` builds a new `b` and never returns that object. */
  lemma SingleHop(env: Reflection, reg: Registry, a: string, b: string, args: ArgArray, depth: nat)
    requires a in reg && reg[a] == Name(b)
    requires b in reg && reg[b].Inst? && reg[b].obj.Existing?
    ensures Instance(env, reg, a, args, depth) != Ok(reg[b].obj)
    ensures Instance(env, reg, a, args, depth).Ok? ==>
              Instance(env, reg, a, args, depth).value == Built(b, Instance(env, reg, a, args, depth).value.ctorArgs)
  {
    InstanceOutcome(env, reg, a, args, depth);
  }

  /** Without a constructor, or with one that is not public, the object is created without
      running any constructor, and the explicit arguments play no part. */
  lemma NoPublicCtorIgnoresArgs(env: Reflection, reg: Registry, ns: string, a1: ArgArray, a2: ArgArray, depth: nat)
    requires !IsSingleton(reg, ns)
    requires Target(reg, ns) in env.classes
    requires env.classes[Target(reg, ns)].instantiable
    requires env.classes[Target(reg, ns)].ctor.None? || !env.classes[Target(reg, ns)].ctor.value.isPublic
    ensures Instance(env, reg, ns, a1, depth) == Ok(Built(Target(reg, ns), None))
    ensures Instance(env, reg, ns, a1, depth) == Instance(env, reg, ns, a2, depth)
  {
  }

  /** A public constructor without parameters receives the explicit argument array
      exactly as the caller gave it; nothing is resolved. */
  lemma ZeroParamCtorPassesArgs(env: Reflection, reg: Registry, ns: string, args: ArgArray, depth: nat)
    requires !IsSingleton(reg, ns)
    requires Target(reg, ns) in env.classes
    requires env.classes[Target(reg, ns)].instantiable
    requires env.classes[Target(reg, ns)].ctor == Some(Ctor(true, []))
    ensures Instance(env, reg, ns, args, depth) == Ok(Built(Target(reg, ns), Some(args)))
  {
  }

  /** With a public constructor that has parameters, the constructor receives, in declared
      order, one value per parameter, each being what the parameter resolves to; and an
      explicit argument named like a parameter is what the resolver passes for that
      parameter, unchanged, whatever its declared type and whatever the binding chain
      (PHP's own type check at construction is not part of the model). */
  lemma {:induction false} InjectedCtorArgs(env: Reflection, reg: Registry, ns: string, args: ArgArray, depth: nat)
    requires !IsSingleton(reg, ns) && InjectsCtor(env, Target(reg, ns))
    requires Instance(env, reg, ns, args, depth).Ok?
    ensures var o := Instance(env, reg, ns, args, depth).value;
            var params := env.classes[Target(reg, ns)].ctor.value.params;
            && o.Built? && o.cls == Target(reg, ns) && o.ctorArgs.Some?
            && o.ctorArgs.value.named == map[]
            && |o.ctorArgs.value.positional| == |params|
            && (forall i | 0 <= i < |params| ::
                  Argument(env, reg, params[i], args, depth) == Ok(o.ctorArgs.value.positional[i]))
            && (forall i | 0 <= i < |params| && params[i].name in args.named ::
                  o.ctorArgs.value.positional[i] == args.named[params[i].name])
  {
    var params := env.classes[Target(reg, ns)].ctor.value.params;
    ArgumentsEach(env, reg, params, args, depth);
    forall i | 0 <= i < |params| && params[i].name in args.named
      ensures Argument(env, reg, params[i], args, depth) == Ok(args.named[params[i].name])
    {
      ArgumentPrecedence(env, reg, params[i], args, depth);
    }
  }

  /** Explicit arguments matter to a constructor with parameters only through the names
      of those parameters: two argument arrays that agree on every parameter name give
      the same object. */
  lemma InstanceIgnoresUnmatched(env: Reflection, reg: Registry, ns: string, a1: ArgArray, a2: ArgArray, depth: nat)
    requires !IsSingleton(reg, ns) && InjectsCtor(env, Target(reg, ns))
    requires var params := env.classes[Target(reg, ns)].ctor.value.params;
             forall i | 0 <= i < |params| :: AgreeOn(a1, a2, params[i].name)
    ensures Instance(env, reg, ns, a1, depth) == Instance(env, reg, ns, a2, depth)
  {
    ArgumentsIgnoreUnmatched(env, reg, env.classes[Target(reg, ns)].ctor.value.params, a1, a2, depth);
  }

  /** A class-typed parameter whose type is bound to an object, and that has no explicit
      argument, receives that very object. */
  lemma InjectedSingleton(env: Reflection, reg: Registry, p: Param, args: ArgArray, depth: nat)
    requires p.name !in args.named && p.ty.ClassType? && IsSingleton(reg, p.ty.typeName)
    requires depth > 0
    ensures Argument(env, reg, p, args, depth) == Ok(Object(reg[p.ty.typeName].obj))
  {
    assert ClassInstance(env, reg, p.ty.typeName, depth) == Ok(reg[p.ty.typeName].obj);
  }

  /** Constructor injection at any position: when a class-typed constructor parameter
      gets no explicit argument and its type is not bound to an object, the constructor
      receives at that position a new object of the class one hop from the type (the
      bound class when the type is bound to a name), which is declared and instantiable,
      whatever that class's own constructor needs. */
  lemma {:induction false} InjectedParamBuilt(env: Reflection, reg: Registry, ns: string, args: ArgArray,
                                              depth: nat, i: nat)
    requires !IsSingleton(reg, ns) && InjectsCtor(env, Target(reg, ns))
    requires Instance(env, reg, ns, args, depth).Ok?
    requires var params := env.classes[Target(reg, ns)].ctor.value.params;
             && i < |params| && params[i].ty.ClassType? && params[i].name !in args.named
             && !IsSingleton(reg, params[i].ty.typeName)
    ensures var o := Instance(env, reg, ns, args, depth).value;
            var ty := env.classes[Target(reg, ns)].ctor.value.params[i].ty.typeName;
            && o.ctorArgs.Some? && i < |o.ctorArgs.value.positional|
            && var a := o.ctorArgs.value.positional[i];
            && a.Object? && a.obj.Built? && a.obj.cls == Target(reg, ty)
            && a.obj.cls in env.classes && env.classes[a.obj.cls].instantiable
  {
    var params := env.classes[Target(reg, ns)].ctor.value.params;
    InjectedCtorArgs(env, reg, ns, args, depth);
    ArgumentPrecedence(env, reg, params[i], args, depth);
    if depth > 0 {
      InstanceOutcome(env, reg, params[i].ty.typeName, NoArgs, depth - 1);
    }
  }

  /** The binding case of InjectedParamBuilt: a parameter typed by `iface`, with `iface`
      bound to the name `impl`, receives a new `impl`. */
  lemma BoundInterfaceInjected(env: Reflection, reg: Registry, ns: string, args: ArgArray,
                               depth: nat, i: nat, iface: string, impl: string)
    requires !IsSingleton(reg, ns) && InjectsCtor(env, Target(reg, ns))
    requires Instance(env, reg, ns, args, depth).Ok?
    requires var params := env.classes[Target(reg, ns)].ctor.value.params;
             i < |params| && params[i].ty == ClassType(iface) && params[i].name !in args.named
    requires iface in reg && reg[iface] == Name(impl)
    ensures var o := Instance(env, reg, ns, args, depth).value;
            && o.ctorArgs.Some? && i < |o.ctorArgs.value.positional|
            && var a := o.ctorArgs.value.positional[i];
            && a.Object? && a.obj.Built? && a.obj.cls == impl
            && impl in env.classes && env.classes[impl].instantiable
  {
    InjectedParamBuilt(env, reg, ns, args, depth, i);
  }

  /** A fully determined special case of BoundInterfaceInjected: an unbound class `t`
      whose public constructor takes one parameter typed `iface`, with `iface` bound to a
      class `impl` that has no constructor, resolves to a `t` built with a fresh `impl`
      and nothing else. */
  lemma TransitiveInjection(env: Reflection, reg: Registry, t: string, x: string, iface: string, impl: string,
                            dflt: Option<Value>, depth: nat)
    requires t !in reg && t in env.classes
    requires env.classes[t] == ClassInfo(true, Some(Ctor(true, [Param(x, ClassType(iface), dflt)])))
    requires iface in reg && reg[iface] == Name(impl)
    requires impl in env.classes && env.classes[impl] == ClassInfo(true, None)
    requires depth >= 1
    ensures Instance(env, reg, t, NoArgs, depth) ==
            Ok(Built(t, Some(ArgArray([Object(Built(impl, None))], map[]))))
  {
    var p := Param(x, ClassType(iface), dflt);
    assert ClassInstance(env, reg, iface, depth) == Ok(Built(impl, None));
    assert Argument(env, reg, p, NoArgs, depth) == Ok(Object(Built(impl, None)));
    ArgumentsEach(env, reg, [p], NoArgs, depth);
    assert Arguments(env, reg, [p], NoArgs, depth).value == [Object(Built(impl, None))];
  }

  // ---------------------------------------------------------------------------------
  // Parameter resolution

  /** The precedence of the getArguments closure: a named explicit argument is used
      verbatim by the resolver (even `Null`, whatever the declared type); otherwise a class-typed parameter
      is injected with no explicit arguments, even if it has a default; otherwise the
      default is used, and a parameter without one cannot be resolved. */
  lemma ArgumentPrecedence(env: Reflection, reg: Registry, p: Param, args: ArgArray, depth: nat)
    ensures p.name in args.named ==> Argument(env, reg, p, args, depth) == Ok(args.named[p.name])
    ensures p.name !in args.named && p.ty.ClassType? ==>
              Argument(env, reg, p, args, depth) ==
              (if depth == 0 then Err(TooDeep)
               else match Instance(env, reg, p.ty.typeName, NoArgs, depth - 1)
                    case Ok(o) => Ok(Object(o))
                    case Err(e) => Err(e))
    ensures p.name !in args.named && !p.ty.ClassType? ==>
              Argument(env, reg, p, args, depth) ==
              (if p.default.Some? then Ok(p.default.value) else Err(NoDefault(p.name)))
  {
  }

  /** getArguments yields a list exactly when every parameter resolves, and then the list
      holds, in declared order, one value per parameter: the value that parameter
      resolves to on its own. */
  lemma {:induction false} ArgumentsEach(env: Reflection, reg: Registry, params: seq<Param>, args: ArgArray, depth: nat)
    ensures Arguments(env, reg, params, args, depth).Ok? <==>
            (forall i | 0 <= i < |params| :: Argument(env, reg, params[i], args, depth).Ok?)
    ensures Arguments(env, reg, params, args, depth).Ok? ==>
            (forall i | 0 <= i < |params| ::
               Argument(env, reg, params[i], args, depth) == Ok(Arguments(env, reg, params, args, depth).value[i]))
    decreases |params|
  {
    if params != [] {
      ArgumentsEach(env, reg, params[1..], args, depth);
      assert forall i | 1 <= i < |params| :: params[i] == params[1..][i - 1];
    }
  }

  /** When getArguments fails, it fails with the error of the first parameter that cannot
      be resolved; every parameter before it resolves. */
  lemma {:induction false} ArgumentsFirstError(env: Reflection, reg: Registry, params: seq<Param>, args: ArgArray, depth: nat)
    returns (k: nat)
    requires Arguments(env, reg, params, args, depth).Err?
    ensures k < |params|
    ensures Argument(env, reg, params[k], args, depth) == Err(Arguments(env, reg, params, args, depth).error)
    ensures forall j | 0 <= j < k :: Argument(env, reg, params[j], args, depth).Ok?
    decreases |params|
  {
    if Argument(env, reg, params[0], args, depth).Err? {
      k := 0;
    } else {
      var k' := ArgumentsFirstError(env, reg, params[1..], args, depth);
      k := k' + 1;
      assert forall j | 1 <= j < |params| :: params[j] == params[1..][j - 1];
    }
  }

  /** Two explicit argument arrays agree on a parameter name. */
  predicate AgreeOn(a1: ArgArray, a2: ArgArray, name: string) {
    (name in a1.named <==> name in a2.named) &&
    (name in a1.named ==> a1.named[name] == a2.named[name])
  }

  /** Only the named entries that match a parameter matter: explicit arguments whose keys
      name no parameter, and the positional part, have no effect on the result. */
  lemma {:induction false} ArgumentsIgnoreUnmatched(env: Reflection, reg: Registry, params: seq<Param>,
                                                   a1: ArgArray, a2: ArgArray, depth: nat)
    requires forall i | 0 <= i < |params| :: AgreeOn(a1, a2, params[i].name)
    ensures Arguments(env, reg, params, a1, depth) == Arguments(env, reg, params, a2, depth)
    decreases |params|
  {
    if params != [] {
      assert AgreeOn(a1, a2, params[0].name);
      assert Argument(env, reg, params[0], a1, depth) == Argument(env, reg, params[0], a2, depth);
      assert forall i | 0 <= i < |params[1..]| :: params[1..][i] == params[i + 1];
      ArgumentsIgnoreUnmatched(env, reg, params[1..], a1, a2, depth);
    }
  }

  // ---------------------------------------------------------------------------------
  // The depth bound

  /** A resolution that does not run out of depth gives the same result with any larger
      depth: the bound only cuts off runaway recursion and never changes an answer. */
  lemma {:induction false} InstanceDepthMono(env: Reflection, reg: Registry, ns: string, args: ArgArray, d: nat, d': nat)
    requires d <= d' && Instance(env, reg, ns, args, d) != Err(TooDeep)
    ensures Instance(env, reg, ns, args, d') == Instance(env, reg, ns, args, d)
    decreases d, 3
  {
    if !IsSingleton(reg, ns) && Target(reg, ns) in env.classes {
      var info := env.classes[Target(reg, ns)];
      if info.ctor.Some? && info.ctor.value.isPublic && |info.ctor.value.params| > 0 {
        ArgumentsDepthMono(env, reg, info.ctor.value.params, args, d, d');
      }
    }
  }

  lemma {:induction false} ArgumentsDepthMono(env: Reflection, reg: Registry, params: seq<Param>, args: ArgArray, d: nat, d': nat)
    requires d <= d' && Arguments(env, reg, params, args, d) != Err(TooDeep)
    ensures Arguments(env, reg, params, args, d') == Arguments(env, reg, params, args, d)
    decreases d, 2, |params|
  {
    if params != [] {
      ArgumentDepthMono(env, reg, params[0], args, d, d');
      if Argument(env, reg, params[0], args, d).Ok? {
        ArgumentsDepthMono(env, reg, params[1..], args, d, d');
      }
    }
  }

  lemma {:induction false} ArgumentDepthMono(env: Reflection, reg: Registry, p: Param, args: ArgArray, d: nat, d': nat)
    requires d <= d' && Argument(env, reg, p, args, d) != Err(TooDeep)
    ensures Argument(env, reg, p, args, d') == Argument(env, reg, p, args, d)
    decreases d, 1
  {
    if p.name !in args.named && p.ty.ClassType? {
      ClassInstanceDepthMono(env, reg, p.ty.typeName, d, d');
    }
  }

  lemma {:induction false} ClassInstanceDepthMono(env: Reflection, reg: Registry, ns: string, d: nat, d': nat)
    requires d <= d' && ClassInstance(env, reg, ns, d) != Err(TooDeep)
    ensures ClassInstance(env, reg, ns, d') == ClassInstance(env, reg, ns, d)
    decreases d, 0
  {
    InstanceDepthMono(env, reg, ns, NoArgs, d - 1, d' - 1);
  }
}
