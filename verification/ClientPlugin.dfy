/** The client plugin: its three middlewares, registered and built into a pipeline. C stands for
    the configuration of one middleware. */
module ClientPlugin {
  import opened Wrappers
  import opened PipelineBuild
  import opened MiddlewareRegistry
  import opened Pipeline
  import ErrorHandler

  /** The makers; they panic on a configuration that they cannot use, and otherwise accept. */
  function Makers<C>(errorConfig: Option<C> -> ErrorHandler.Config): (ms: seq<Available<Handler, C>>)
    ensures |ms| == 3
  {
    [Available("error-handler", (next, c) => Made(Wrap(ErrorLayer(errorConfig(c)), next))),
     Available("redis-rate-limit", (next, c) => Made(Wrap(RateLayer, next))),
     Available("member-auth", (next, c) => Made(Wrap(AuthLayer, next)))]
  }

  /** What each name of the list stands for. */
  ghost predicate Stands<C>(name: string, config: map<string, C>, errorConfig: Option<C> -> ErrorHandler.Config, layer: Layer) {
    match layer
    case ErrorLayer(cfg) => name == "error-handler" && cfg == errorConfig(if name in config then Some(config[name]) else None)
    case RateLayer => name == "redis-rate-limit"
    case AuthLayer => name == "member-auth"
  }

  lemma NamesDiffer()
    ensures "error-handler" != "redis-rate-limit" && "error-handler" != "member-auth" && "redis-rate-limit" != "member-auth"
  {
    assert |"error-handler"| == 13 && |"redis-rate-limit"| == 16 && |"member-auth"| == 11;
  }

  /** A table with the three names, in which each wraps in its layer. */
  ghost predicate ClientTable<C(!new)>(table: map<string, Maker<Handler, C>>, errorConfig: Option<C> -> ErrorHandler.Config) {
    && table.Keys == {"error-handler", "redis-rate-limit", "member-auth"}
    && forall name, next: Handler, c: Option<C> :: name in table ==> table[name](next, c) == Made(Wrap(LayerOf(name, errorConfig(c)), next))
  }

  function LayerOf(name: string, cfg: ErrorHandler.Config): Layer {
    if name == "error-handler" then ErrorLayer(cfg) else if name == "redis-rate-limit" then RateLayer else AuthLayer
  }

  /** What the registry holds after the plugin has started. */
  lemma Registered<C(!new)>(table: map<string, Maker<Handler, C>>, errorConfig: Option<C> -> ErrorHandler.Config)
    requires forall name :: Lookup(table, name) == LastMaker(Makers(errorConfig), name, None)
    ensures ClientTable(table, errorConfig)
  {
    var ms := Makers(errorConfig);
    NamesDiffer();
    LastMakerStays(ms, "error-handler", None, 0);
    LastMakerStays(ms, "redis-rate-limit", None, 1);
    LastMakerStays(ms, "member-auth", None, 2);
    assert Lookup(table, "error-handler") == Some(ms[0].maker);
    assert Lookup(table, "redis-rate-limit") == Some(ms[1].maker);
    assert Lookup(table, "member-auth") == Some(ms[2].maker);
    forall name | name in table ensures name in {"error-handler", "redis-rate-limit", "member-auth"} {
      if name !in {"error-handler", "redis-rate-limit", "member-auth"} {
        OtherMakersStay(ms, name, None);
      }
    }
  }

  lemma {:induction false} ChainIsNest<C(!new)>(table: map<string, Maker<Handler, C>>, config: map<string, C>, errorConfig: Option<C> -> ErrorHandler.Config,
                                         names: seq<string>, hs: seq<Handler>, layers: seq<Layer>)
    requires Chain(table, config, names, Backend, hs) && |layers| == |names|
    requires forall i :: 0 <= i < |names| ==> Stands(names[i], config, errorConfig, layers[i])
    requires ClientTable(table, errorConfig)
    ensures hs[0] == Nest(layers)
  {
    if names != [] {
      ChainIsNest(table, config, errorConfig, names[1..], hs[1..], layers[1..]);
      NamesDiffer();
      assert Stands(names[0], config, errorConfig, layers[0]);
      assert hs[1] == Nest(layers[1..]);
    }
  }

  /** The plugin as a whole: for any list of the three names, the build succeeds and gives the layers
      that the names stand for, nested around the backend in the order of the list. */
  method BuildPipeline<C(!new)>(names: seq<string>, config: map<string, C>, errorConfig: Option<C> -> ErrorHandler.Config,
                          ghost layers: seq<Layer>) returns (r: Built<Handler>)
    requires |layers| == |names| && forall i :: 0 <= i < |names| ==> Stands(names[i], config, errorConfig, layers[i])
    ensures r == Ok(Nest(layers))
  {
    var registry := new Registry<Handler, C>();
    registry.RegisterAvailable(Makers(errorConfig));
    Registered(registry.middlewares, errorConfig);
    forall name | name in names ensures name in registry.middlewares {
      var i :| 0 <= i < |names| && names[i] == name;
      assert Stands(names[i], config, errorConfig, layers[i]);
    }
    RegisteredNamesNeverPanic(registry.middlewares, config, names, Backend);
    r := registry.BuildClient(names, config, Backend);
    NothingBreaks(registry.middlewares, config, names, r, errorConfig);
    ghost var hs :| Chain(registry.middlewares, config, names, Backend, hs) && hs[0] == r.handler;
    ChainIsNest(registry.middlewares, config, errorConfig, names, hs, layers);
  }

  lemma NothingBreaks<C(!new)>(table: map<string, Maker<Handler, C>>, config: map<string, C>, names: seq<string>, r: Built<Handler>,
                               errorConfig: Option<C> -> ErrorHandler.Config)
    requires ClientTable(table, errorConfig)
    requires forall name <- names :: name in table
    requires Builds(table, config, names, Backend, r)
    ensures r.Ok?
  {
  }
}
