/** The demonstration script index.php replayed on the model: the classes it declares
    as a reflection table, and its sequence of calls with the checks it makes. */
module Scenario {
  import opened Types
  import opened Resolution
  import MethodResolution
  import opened Ioc

  /** The reflection table of index.php: an interface, two implementations without
      constructors, and two application classes with injected constructors. */
  function DemoReflection(): (env: Reflection)
    ensures "ConfigInterface" in env.classes && !env.classes["ConfigInterface"].instantiable
    ensures InjectsCtor(env, "App1") && InjectsCtor(env, "App2")
  {
    var config := Param("config", ClassType("ConfigInterface"), None);
    Reflection(
      map[
        "ConfigInterface" := ClassInfo(false, None),
        "PHPConfig" := ClassInfo(true, None),
        "YAMLConfig" := ClassInfo(true, None),
        "App1" := ClassInfo(true, Some(Ctor(true, [config]))),
        "App2" := ClassInfo(true, Some(Ctor(true, [config,
                                                   Param("arg1", Builtin("string"), None),
                                                   Param("arg2", Builtin("string"), None)])))
      ],
      // App1::handle stores its argument on the object and returns null; this stand-in
      // hands the argument back instead, so that the script can look at what was injected.
      map[("App1", "handle") := MethodInfo([config], (o: Obj, vs: seq<Value>) => if |vs| == 1 then vs[0] else Null)])
  }

  /** The registry as the script leaves it before resolving: the interface bound to
      PHPConfig, and PHPConfig bound to a user-made PHPConfig object. */
  function DemoRegistry(): Registry {
    map["ConfigInterface" := Name("PHPConfig"), "PHPConfig" := Inst(Existing(1, "PHPConfig"))]
  }

  /** index.php:78-84: App1 gets a fresh PHPConfig through the interface binding; the
      PHPConfig singleton is one hop further and is not reached. */
  lemma App1Resolves()
    ensures Instance(DemoReflection(), DemoRegistry(), "App1", NoArgs, 2) ==
            Ok(Built("App1", Some(ArgArray([Object(Built("PHPConfig", None))], map[]))))
  {
    TransitiveInjection(DemoReflection(), DemoRegistry(), "App1", "config", "ConfigInterface", "PHPConfig", None, 2);
  }

  /** index.php:86-90: handle() receives a PHPConfig injected the same way. In PHP it is
      a second, freshly built object; here the two are equal values. */
  lemma HandleInjects()
    ensures MethodResolution.GetValue(DemoReflection(), DemoRegistry(),
              Built("App1", Some(ArgArray([Object(Built("PHPConfig", None))], map[]))), "handle", NoArgs, 2)
            == Ok(Object(Built("PHPConfig", None)))
  {
    App1Resolves();
    MethodResolution.SameAsCtorInjection(DemoReflection(), DemoRegistry(), "App1",
      Built("App1", Some(ArgArray([Object(Built("PHPConfig", None))], map[]))), "handle", NoArgs, 2);
  }

  /** index.php:107-116: App2's string parameters come from the explicit arguments. */
  lemma App2Resolves()
    ensures Instance(DemoReflection(), DemoRegistry(), "App2", DemoArgs(), 2) ==
            Ok(Built("App2", Some(ArgArray([Object(Built("PHPConfig", None)), Str("value1"), Str("value2")], map[]))))
  {
    var env, reg, args := DemoReflection(), DemoRegistry(), DemoArgs();
    var params := env.classes["App2"].ctor.value.params;
    assert Argument(env, reg, params[0], args, 2) == Ok(Object(Built("PHPConfig", None)));
    assert Argument(env, reg, params[1], args, 2) == Ok(Str("value1"));
    assert Argument(env, reg, params[2], args, 2) == Ok(Str("value2"));
    ArgumentsEach(env, reg, params, args, 2);
    assert Arguments(env, reg, params, args, 2).value == [Object(Built("PHPConfig", None)), Str("value1"), Str("value2")];
  }

  function DemoArgs(): ArgArray {
    ArgArray([], map["arg1" := Str("value1"), "arg2" := Str("value2")])
  }

  /** The script: the container is one object however often it is asked for; bind and
      rebinding are seen by get; singleton stores the object itself; then App1, handle()
      and App2 are resolved as the lemmas above describe. */
  method IndexScript() returns (app1: Result<Obj>, handled: Result<Value>, app2: Result<Obj>)
    ensures app1 == Ok(Built("App1", Some(ArgArray([Object(Built("PHPConfig", None))], map[]))))
    ensures handled == Ok(Object(Built("PHPConfig", None)))
    ensures app2 == Ok(Built("App2", Some(ArgArray([Object(Built("PHPConfig", None)), Str("value1"), Str("value2")], map[]))))
  {
    var env := DemoReflection();
    var process := new Process();
    var container := process.Instance();
    var again := process.Instance();
    assert again == container;

    var self := container.Bind("ConfigInterface", "PHPConfig");
    assert container.Get("ConfigInterface") == Ok(Name("PHPConfig"));
    self := container.Bind("ConfigInterface", "YAMLConfig");
    assert container.Get("ConfigInterface") == Ok(Name("YAMLConfig"));
    self := container.Bind("PHPConfig", "YAMLConfig");
    assert container.Get("PHPConfig") == Ok(Name("YAMLConfig"));
    var config := Existing(1, "PHPConfig");
    self := container.Singleton("PHPConfig", config);
    assert container.Get("PHPConfig") == Ok(Inst(config));
    self := container.Bind("ConfigInterface", "PHPConfig");
    assert container.bindings == DemoRegistry();

    App1Resolves();
    app1 := container.Resolve(env, "App1", NoArgs, 2);
    HandleInjects();
    handled := container.ResolveMethod(env, app1.value, "handle", NoArgs, 2);
    App2Resolves();
    app2 := container.Resolve(env, "App2", DemoArgs(), 2);
  }
}
