# php-ioc in Dafny

This is a model of php-ioc, a small dependency-injection container written in PHP. It has
four parts:

- **Container**: a registry that maps string identifiers to either a class name (`bind`)
  or a live object (`singleton`). It is reached through a process-wide `instance()`.
- **ClassResolver**: turns an identifier into an object. It follows at most one registry
  hop and returns a bound object as it is. Otherwise it reflects the class and either
  creates it without a constructor or calls its public constructor.
- **ParametersResolver**: builds a constructor's or a method's argument list, one entry
  per declared parameter. Each entry comes from the first source that applies: a named
  explicit argument, then recursive injection of a class-typed parameter, then the
  declared default.
- **MethodResolver**: looks a method up on an object's class, resolves its parameters
  the same way and calls it.

PHP reflection becomes an input table, `Types.Reflection`. It lists the declared classes
(whether each can be instantiated, and its constructor's visibility and parameters) and
the declared methods (parameters and an opaque body). A constructed object is a record
`Built(cls, ctorArgs)`: `ctorArgs` is `None` when no constructor ran, or else the
argument array the constructor received. An object made by user code is
`Existing(id, cls)`.

Modules:

- `Types`: values, objects, argument arrays (`ArgArray`, which holds a positional part
  and a named part, like a PHP array), bindings, parameters, the reflection table and
  the errors.
- `Resolution`: pure definitions of getInstance (`Instance`), of the getArguments closure
  (`Arguments`, `Argument`) and of getClassInstance (`ClassInstance`). They call each
  other, and every nesting level costs one unit of `depth`. Running out of depth gives
  `TooDeep`, which stands for the stack exhaustion that PHP hits on a cyclic dependency.
  The module also holds the lemmas about these definitions.
- `MethodResolution`: getValue (`GetValue`) and its lemmas.
- `Ioc`: `Container`, whose `bindings` map is updated in place by `Bind` and
  `Singleton`. `ClassResolver`, whose `GetInstance` rewrites the `namespace` and `args`
  fields step by step and is proved equal to `Resolution.Instance`. `Process`, the
  static slot behind `Container::instance()`.
- `Scenario`: the demonstration script `index.php` replayed on the model.

Indirection is single-hop, as the code does it. If `A` is bound to the name `B` and `B`
is bound to an object, resolving `A` builds a new `B` (`Resolution.SingleHop`). The demo
script `index.php` is consistent with this but does not distinguish it from a resolver
that follows the chain further. Its checks only compare class names, and its PHPConfig
singleton is itself a PHPConfig. The model fixes the single-hop answer: App1 receives a
newly built PHPConfig, not the singleton (`Scenario.App1Resolves`).

In `Scenario`, `App1::handle` has a stand-in body that returns the argument it received,
so that the injected value can be inspected. In PHP `handle()` stores the argument on
the object and returns nothing, so `resolveMethod` returns null there. The `handled`
result of `Scenario.IndexScript` is therefore the stand-in's value, not PHP's return
value.

A public constructor without parameters receives the caller's explicit argument array
unchanged. A method without parameters is always called with an empty list. The model
keeps this asymmetry from the code (`Resolution.ZeroParamCtorPassesArgs`,
`MethodResolution.ZeroParamMethodIgnoresArgs`).

The code and the PSR-11 container interface disagree in one place, and the model
follows the code. PSR-11 asks `get` on a missing entry to throw a
`NotFoundExceptionInterface`. The code throws a plain `Exception`, modelled as the
tagged error `NotFound(id)`.

## Model

| member | source | states |
|---|---|---|
| `Resolution.Arguments` | src/ParametersResolver.php:40-56 | a successful argument list has exactly one entry per declared parameter |
| `Resolution.ArgumentsEach` | src/ParametersResolver.php:43-55 | the list succeeds iff every parameter resolves; then entry i is what parameter i resolves to, in declared order |
| `Resolution.ArgumentsFirstError` | src/ParametersResolver.php:43-55 | a failing list fails with the error of the first unresolvable parameter; every parameter before it resolves |
| `Resolution.ArgumentPrecedence` | src/ParametersResolver.php:44-53 | a named explicit argument is used verbatim, whatever the type; otherwise a class-typed parameter is injected with no explicit arguments, even if it has a default; otherwise the default is used, and a parameter without one fails with NoDefault |
| `Resolution.ArgumentsIgnoreUnmatched` | src/ParametersResolver.php:46-48 | explicit arguments whose names match no parameter, and positional ones, do not change the result |
| `Resolution.ClassInstanceDepthMono` | src/ParametersResolver.php:64-67 | nested resolution (no explicit args, one level deeper) gives the same answer at any larger depth once it does not run out |
| `Resolution.ArgumentDepthMono` | src/ParametersResolver.php:44-53 | resolving one parameter gives the same answer at any larger depth once it does not run out |
| `Resolution.ArgumentsDepthMono` | src/ParametersResolver.php:40-56 | the argument list is the same at any larger depth once it does not run out |
| `Resolution.InstanceDepthMono` | src/ClassResolver.php:55-91 | instance resolution is the same at any larger depth once it does not run out: the bound never changes an answer |
| `Resolution.InstanceOutcome` | src/ClassResolver.php:58-72 | a name bound to an object yields that object; otherwise the result is a new object of the class one hop away, declared and instantiable; an undeclared class is a reflection error |
| `Resolution.SingleHop` | src/ClassResolver.php:58-69 | with A bound to the name B and B bound to an object, resolving A never returns that object, only a new B |
| `Resolution.NoPublicCtorIgnoresArgs` | src/ClassResolver.php:72-90 | without a public constructor the object is created without one, and explicit arguments are ignored |
| `Resolution.ZeroParamCtorPassesArgs` | src/ClassResolver.php:75-87 | a public constructor without parameters receives the explicit argument array unchanged |
| `Resolution.InjectedCtorArgs` | src/ClassResolver.php:75-87 | a public constructor with parameters receives, in order, exactly what each parameter resolves to; a named explicit argument reaches its parameter unchanged |
| `Resolution.InstanceIgnoresUnmatched` | src/ClassResolver.php:77-84 | two explicit argument arrays that agree on every constructor parameter name give the same object |
| `Resolution.InjectedSingleton` | src/ParametersResolver.php:50-51 | a class-typed parameter without an explicit argument, whose type is bound to an object, receives that very object |
| `Resolution.InjectedParamBuilt` | src/ParametersResolver.php:50-67 | at any position of any injected constructor, a class-typed parameter without an explicit argument whose type is not bound to an object receives a new object of the class one hop from its type, declared and instantiable, whatever that class's own constructor needs |
| `Resolution.BoundInterfaceInjected` | src/ParametersResolver.php:50-67 | a constructor parameter typed by an interface bound to the name impl receives a new impl, at any position of any injected constructor |
| `Resolution.TransitiveInjection` | src/ParametersResolver.php:50-67 | special case with the whole result fixed: a one-parameter constructor typed by a bound interface whose class has no constructor gives exactly a t built with a new impl |
| `MethodResolution.UnknownMethodFailsFirst` | src/MethodResolver.php:54-57 | a method the class does not declare is a reflection error, whatever the arguments |
| `MethodResolution.InvokesWithResolvedArgs` | src/MethodResolver.php:59-68 | the method runs iff all parameters resolve, on the given object with one value per parameter in order, and its result is returned unchanged; otherwise the resolution error is returned and the method never runs |
| `MethodResolution.SameAsCtorInjection` | src/MethodResolver.php:59-63 | a method with the same parameters as a constructor receives exactly the list that the constructor received |
| `MethodResolution.ZeroParamMethodIgnoresArgs` | src/MethodResolver.php:59-68 | a method without parameters is called with no arguments, whatever explicit arguments are given |
| `MethodResolution.GetValueDepthMono` | src/MethodResolver.php:51-69 | a method call gives the same answer at any larger depth once it does not run out |
| `Ioc.Container.constructor` | src/Container.php:24 | a new container has an empty registry |
| `Ioc.Container.Has` | src/Container.php:86-89 | true exactly when the identifier is a key, whatever is stored; nothing is followed or built |
| `Ioc.Container.Get` | src/Container.php:73-79 | the stored entry when present, otherwise the NotFound error; the registry is only read |
| `Ioc.Container.Bind` | src/Container.php:47-51 | afterwards the identifier holds the class name (last write wins), every other entry is unchanged, and the same container is returned |
| `Ioc.Container.Singleton` | src/Container.php:60-64 | afterwards the identifier holds that very object, replacing any name, every other entry is unchanged, and the same container is returned |
| `Ioc.Container.Resolve` | src/Container.php:101-104 | the result is what a fresh resolver for the identifier and arguments yields on this registry |
| `Ioc.Container.ResolveMethod` | src/Container.php:115-118 | the result is what method resolution yields on this registry |
| `Ioc.ClassResolver.constructor` | src/ClassResolver.php:33-38 | the resolver holds the container, the identifier and the explicit arguments |
| `Ioc.ClassResolver.GetInstance` | src/ClassResolver.php:55-91 | the result equals Instance; the container is left unchanged; afterwards namespace is the reflected class and args the resolved constructor list when one was resolved |
| `Ioc.Process.constructor` | src/Container.php:33 | before the first call there is no container |
| `Ioc.Process.Instance` | src/Container.php:31-38 | the first call creates an empty container and every later call returns that same container |
| `Scenario.DemoReflection` | index.php:16-105 | the demo's interface cannot be instantiated; both application classes have injected constructors |
| `Scenario.App1Resolves` | index.php:78-84 | App1 receives a new PHPConfig through the interface binding, not the PHPConfig singleton |
| `Scenario.HandleInjects` | index.php:86-90 | handle() receives an equal, freshly built PHPConfig (in PHP a second object, distinct from App1's) |
| `Scenario.App2Resolves` | index.php:107-116 | App2 receives the injected config followed by the two explicit strings |
| `Scenario.IndexScript` | index.php:30-116 | the whole script: one container, bind and rebind seen by get, the singleton stored as is, and the three resolutions above |

## Left out

- PHP reflection itself is not modelled. `new ReflectionClass`, `getConstructor`,
  `getParameters`, `getType()->isBuiltin()`, `getDefaultValue`, `new ReflectionMethod`,
  `newInstanceArgs`, `newInstanceWithoutConstructor` and `invokeArgs` become lookups in
  the input reflection table and the `Built` construction record.
- PHP's named-argument rules at construction are not modelled. PHP rejects an
  associative array whose keys name no parameter, or positional entries after named
  ones. The model records the array the constructor receives and does not decide
  whether PHP would accept it.
- `Resolution.InjectedCtorArgs`, `Resolution.Instance` and `MethodResolution.GetValue`
  do not model PHP's type check on arguments (a TypeError). `newInstanceArgs` and
  `invokeArgs` raise it when a value does not match the declared parameter type. This
  happens for an explicit `['config' => 'x']` given to a `ConfigInterface $config`
  parameter, or for an interface bound to a class that does not implement it. The
  model returns the object or value built with the mismatched argument.
- Constructor and method bodies are foreign code. Their side effects and exceptions are
  left out, and a method's result is whatever the opaque `body` in the table returns.
- Each construction makes a new object in PHP. In the model, two objects built the same
  way are equal values, so identity is tracked only for `Existing` objects and for the
  exact value stored by `singleton`.
- PHP class and method names are case-insensitive, and a class name may have a leading
  backslash. The model compares names as exact strings.
- Union, intersection, variadic and by-reference parameters are not modelled. Nor are
  `self`/`static` types: a `ClassType` names a class directly.
- Values are null, booleans, integers, strings and objects. Floats, arrays and resources
  are not represented, so an explicit argument holding one cannot be expressed.
- Termination on cyclic dependencies is not claimed. The `depth` argument of
  `Container.Resolve`, `Container.ResolveMethod` and `ClassResolver.GetInstance` has no
  PHP counterpart. It replaces the call stack, and `TooDeep` replaces the stack
  overflow. The depth lemmas show that the bound never changes an answer that does not
  run out.
- The PSR exception hierarchy is reduced to the tagged `Error` datatype.
- Concurrency: the code has none.
