/** Values, objects, bindings and the reflection tables that the container works on.
    PHP reflection is replaced by two input tables: the declared classes (with their
    constructors) and the declared methods, keyed by class and method name. */
module Types {

  /** A PHP value as far as the container cares: scalars are passed through untouched,
      objects are what resolution produces or what the caller hands in. */
  datatype Value =
    | Null
    | Bool(b: bool)
    | Int(i: int)
    | Str(s: string)
    | Object(obj: Obj)

  /** An object. `Existing` is an object created by user code (`new PHPConfig()`),
      known only by an identity and its runtime class. `Built` is an object created by
      resolution: `ctorArgs` is `None` when it was created without running a constructor
      and `Some(a)` when the constructor ran with the argument array `a`. */
  datatype Obj =
    | Existing(id: nat, cls: string)
    | Built(cls: string, ctorArgs: Option<ArgArray>)

  /** A PHP argument array: its integer-keyed (positional) part, in order, and its
      string-keyed (named) part. */
  datatype ArgArray = ArgArray(positional: seq<Value>, named: map<string, Value>)

  /** The empty array `[]`. */
  const NoArgs: ArgArray := ArgArray([], map[])

  /** One registry entry: `bind` stores a class name, `singleton` stores an object. */
  datatype Binding = Name(ns: string) | Inst(obj: Obj)

  type Registry = map<string, Binding>

  /** The declared type of a parameter as reflection reports it. */
  datatype ParamType =
    | Untyped
    | Builtin(typeName: string)
    | ClassType(typeName: string)

  /** A declared parameter: its name, its type and its default value, if any. */
  datatype Param = Param(name: string, ty: ParamType, default: Option<Value>)

  datatype Ctor = Ctor(isPublic: bool, params: seq<Param>)

  /** A declared class, interface or trait. `instantiable` is false for interfaces and
      abstract classes, which reflection can describe but never instantiate. */
  datatype ClassInfo = ClassInfo(instantiable: bool, ctor: Option<Ctor>)

  /** A declared method: its parameters, and its body as an opaque function from the
      receiver and the positional arguments to the returned value. */
  datatype MethodInfo = MethodInfo(params: seq<Param>, body: (Obj, seq<Value>) -> Value)

  /** What reflection can see of the running program. */
  datatype Reflection = Reflection(
    classes: map<string, ClassInfo>,
    methods: map<(string, string), MethodInfo>)

  datatype Error =
    | NotFound(id: string)                    // get() on an identifier with no entry
    | UnknownClass(name: string)              // new ReflectionClass on an undeclared name
    | NotInstantiable(name: string)           // an interface or abstract class
    | UnknownMethod(cls: string, name: string) // new ReflectionMethod on a missing method
    | NoDefault(param: string)                // getDefaultValue on a required parameter
    | TooDeep                                 // nesting beyond the depth bound (stack exhaustion)

  datatype Option<+T> = None | Some(value: T)

  datatype Result<+T> = Ok(value: T) | Err(error: Error)
}
