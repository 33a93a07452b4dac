/** The middlewares of the client and the server plugin: a table of makers by name, and the
    builds over a list of names. H stands for handlers and C for the configuration of one entry. */
module MiddlewareRegistry {
  import opened Wrappers
  import opened PipelineBuild

  /** What a maker returns. */
  datatype Result<+H> = Made(handler: H) | Refused(message: string)

  type Maker<!H, !C> = (H, Option<C>) -> Result<H>

  datatype Available<!H, !C> = Available(name: string, maker: Maker<H, C>)

  function Lookup<C>(config: map<string, C>, name: string): Option<C> {
    if name in config then Some(config[name]) else None
  }

  /** One entry of the list, around what has been built so far. */
  function Entry<H, C>(table: map<string, Maker<H, C>>, config: map<string, C>, name: string, h: H): Built<H> {
    if name !in table then Err(NotRegistered(name))
    else match table[name](h, Lookup(config, name))
      case Made(handler) => Ok(handler)
      case Refused(message) => Err(Failed(message))
  }

  function Step<H, C>(table: map<string, Maker<H, C>>, config: map<string, C>): (string, H) -> Built<H> {
    (name, h) => Entry(table, config, name, h)
  }

  /** The maker of a name after a list of registrations, when it had `before`. */
  ghost function LastMaker<H, C>(ms: seq<Available<H, C>>, name: string, before: Option<Maker<H, C>>): Option<Maker<H, C>> {
    if ms == [] then before
    else if ms[|ms| - 1].name == name then Some(ms[|ms| - 1].maker)
    else LastMaker(ms[..|ms| - 1], name, before)
  }

  /** It is the maker of the last registration under that name. */
  lemma {:induction false} LastMakerStays<H, C>(ms: seq<Available<H, C>>, name: string, before: Option<Maker<H, C>>, i: nat)
    requires i < |ms| && ms[i].name == name && forall j :: i < j < |ms| ==> ms[j].name != name
    ensures LastMaker(ms, name, before) == Some(ms[i].maker)
  {
    if i < |ms| - 1 {
      LastMakerStays(ms[..|ms| - 1], name, before, i);
    }
  }

  /** Without such a registration it is the one before. */
  lemma {:induction false} OtherMakersStay<H, C>(ms: seq<Available<H, C>>, name: string, before: Option<Maker<H, C>>)
    requires forall j :: 0 <= j < |ms| ==> ms[j].name != name
    ensures LastMaker(ms, name, before) == before
  {
    if ms != [] {
      OtherMakersStay(ms[..|ms| - 1], name, before);
    }
  }

  /** The handlers hs, the last of which is `next`: each of the others is what the maker of its name
      made around the one after it. */
  ghost predicate Chain<H, C>(table: map<string, Maker<H, C>>, config: map<string, C>, names: seq<string>, next: H, hs: seq<H>) {
    && |hs| == |names| + 1 && hs[|names|] == next
    && forall i :: 0 <= i < |names| ==>
         && names[i] in table
         && table[names[i]](hs[i + 1], if names[i] in config then Some(config[names[i]]) else None) == Made(hs[i])
  }

  /** Chain reaches from the end to just behind name i, which is not registered or refuses to wrap it. */
  ghost predicate BreaksAt<H, C>(table: map<string, Maker<H, C>>, config: map<string, C>, names: seq<string>, next: H,
                                 i: nat, hs: seq<H>, e: BuildError) {
    && i < |names| && Chain(table, config, names[i + 1..], next, hs)
    && (names[i] !in table ==> e == NotRegistered(names[i]))
    && (names[i] in table ==>
          var made := table[names[i]](hs[0], if names[i] in config then Some(config[names[i]]) else None);
          made.Refused? && e == Failed(made.message))
  }

  /** What a build is to return: the outermost handler of the chain, or what broke it. */
  ghost predicate Builds<H(!new), C>(table: map<string, Maker<H, C>>, config: map<string, C>, names: seq<string>, next: H, r: Built<H>) {
    match r
    case Ok(h) => exists hs :: Chain(table, config, names, next, hs) && hs[0] == h
    case Err(e) => exists i: nat, hs :: BreaksAt(table, config, names, next, i, hs, e)
  }

  lemma {:induction false} ChainBuilds<H, C>(table: map<string, Maker<H, C>>, config: map<string, C>, names: seq<string>, next: H, hs: seq<H>)
    requires Chain(table, config, names, next, hs)
    ensures FoldR(Step(table, config), names, next) == Ok(hs[0])
  {
    if names != [] {
      ChainBuilds(table, config, names[1..], next, hs[1..]);
    }
  }

  lemma {:induction false} BuildHasChain<H, C>(table: map<string, Maker<H, C>>, config: map<string, C>, names: seq<string>, next: H) returns (hs: seq<H>)
    requires FoldR(Step(table, config), names, next).Ok?
    ensures Chain(table, config, names, next, hs) && hs[0] == FoldR(Step(table, config), names, next).handler
  {
    if names == [] {
      hs := [next];
    } else {
      var rest := BuildHasChain(table, config, names[1..], next);
      hs := [FoldR(Step(table, config), names, next).handler] + rest;
      forall i | 0 <= i < |names|
        ensures names[i] in table
        ensures table[names[i]](hs[i + 1], if names[i] in config then Some(config[names[i]]) else None) == Made(hs[i])
      {
        if i > 0 {
          assert names[i] == names[1..][i - 1] && hs[i] == rest[i - 1] && hs[i + 1] == rest[i];
        }
      }
    }
  }

  /** The fold builds what is to be built. */
  lemma FoldBuilds<H(!new), C>(table: map<string, Maker<H, C>>, config: map<string, C>, names: seq<string>, next: H)
    ensures Builds(table, config, names, next, FoldR(Step(table, config), names, next))
  {
    var step := Step(table, config);
    match FoldR(step, names, next)
    case Ok(_) => var hs := BuildHasChain(table, config, names, next);
    case Err(e) =>
      var i := FailingEntry(step, names, next);
      var hs := BuildHasChain(table, config, names[i + 1..], next);
      assert BreaksAt(table, config, names, next, i, hs, e);
  }

  /** Nothing else fits: the result of a build is determined. */
  lemma BuildIsUnique<H(!new), C>(table: map<string, Maker<H, C>>, config: map<string, C>, names: seq<string>, next: H, r: Built<H>)
    requires Builds(table, config, names, next, r)
    ensures r == FoldR(Step(table, config), names, next)
  {
    var step := Step(table, config);
    match r
    case Ok(h) =>
      var hs :| Chain(table, config, names, next, hs) && hs[0] == h;
      ChainBuilds(table, config, names, next, hs);
    case Err(e) =>
      var i: nat, hs :| BreaksAt(table, config, names, next, i, hs, e);
      ChainBuilds(table, config, names[i + 1..], next, hs);
      StopsAt(step, names, next, i, e);
  }

  class Registry<!H(!new), !C> {
    var middlewares: map<string, Maker<H, C>>

    constructor ()
      ensures middlewares == map[]
    {
      middlewares := map[];
    }

    /** Each name gets the last maker registered for it, or keeps the one it had. */
    method RegisterAvailable(ms: seq<Available<H, C>>)
      modifies this
      ensures forall name :: Lookup(middlewares, name) == LastMaker(ms, name, Lookup(old(middlewares), name))
    {
      for k := 0 to |ms|
        invariant forall name :: Lookup(middlewares, name) == LastMaker(ms[..k], name, Lookup(old(middlewares), name))
      {
        assert ms[..k + 1][..k] == ms[..k];
        middlewares := middlewares[ms[k].name := ms[k].maker];
      }
      assert ms[..|ms|] == ms;
    }

    /** The server plugin's build: an unknown name is an error. */
    method BuildServer(names: seq<string>, config: map<string, C>, next: H) returns (r: Built<H>)
      ensures Builds(middlewares, config, names, next, r)
      ensures r == FoldR(Step(middlewares, config), names, next)
    {
      FoldBuilds(middlewares, config, names, next);
      ghost var step := Step(middlewares, config);
      var handler := next;
      for i := |names| downto 0
        invariant FoldR(step, names[i..], next) == Ok(handler)
      {
        var name := names[i];
        assert names[i..][1..] == names[i + 1..];
        if name !in middlewares {
          StopsAt(step, names, next, i, NotRegistered(name));
          return Err(NotRegistered(name));
        }
        match middlewares[name](handler, Lookup(config, name)) {
          case Refused(message) =>
            StopsAt(step, names, next, i, Failed(message));
            return Err(Failed(message));
          case Made(h) =>
            handler := h;
        }
      }
      return Ok(handler);
    }

    /** The client plugin's build. It panics when it reaches a name that is not registered, which
        an entry to the right that fails can still prevent. */
    method BuildClient(names: seq<string>, config: map<string, C>, backend: H) returns (r: Built<H>)
      requires NeverReachesUnknown(Step(middlewares, config), names, backend)
      ensures Builds(middlewares, config, names, backend, r)
      ensures r == FoldR(Step(middlewares, config), names, backend)
    {
      FoldBuilds(middlewares, config, names, backend);
      ghost var step := Step(middlewares, config);
      var next := backend;
      for i := |names| downto 0
        invariant FoldR(step, names[i..], backend) == Ok(next)
      {
        assert names[i..][1..] == names[i + 1..];
        if names[i] !in middlewares {
          StopsAt(step, names, backend, i, NotRegistered(names[i]));
          assert false;
        }
        match middlewares[names[i]](next, Lookup(config, names[i])) {
          case Refused(message) =>
            StopsAt(step, names, backend, i, Failed(message));
            return Err(Failed(message));
          case Made(h) =>
            next := h;
        }
      }
      return Ok(next);
    }
  }

  predicate NeverReachesUnknown<H>(step: (string, H) -> Built<H>, names: seq<string>, next: H) {
    var r := FoldR(step, names, next);
    r.Err? ==> r.error.Failed?
  }

  /** With all names registered the client's build never panics. */
  lemma RegisteredNamesNeverPanic<H, C>(table: map<string, Maker<H, C>>, config: map<string, C>, names: seq<string>, backend: H)
    requires forall name <- names :: name in table
    ensures NeverReachesUnknown(Step(table, config), names, backend)
  {
    if FoldR(Step(table, config), names, backend).Err? {
      var i := FailingEntry(Step(table, config), names, backend);
      assert names[i] in names;
    }
  }

  lemma StopsAt<H>(step: (string, H) -> Built<H>, names: seq<string>, next: H, i: nat, e: BuildError)
    requires FailsAt(step, names, next, i, e)
    ensures FoldR(step, names, next) == Err(e)
  {
    FailureHasAnEntry(step, names, next, e);
  }

  /** With makers that refuse or not whatever they wrap, the server's build succeeds exactly when
      every name is registered and every maker accepts its configuration. Otherwise it reports
      the last name in the list for which this is not so. */
  lemma {:induction false} ServerBuildReports<H, C>(table: map<string, Maker<H, C>>, config: map<string, C>, names: seq<string>, next: H,
                                 refusal: string -> Option<string>)
    requires forall name <- table, h ::
               match table[name](h, Lookup(config, name))
               case Made(_) => refusal(name) == None
               case Refused(m) => refusal(name) == Some(m)
    ensures FoldR(Step(table, config), names, next).Ok? <==> forall name <- names :: name in table && refusal(name) == None
    ensures forall i ::
              (&& 0 <= i < |names| && (names[i] !in table || refusal(names[i]).Some?)
               && forall j :: i < j < |names| ==> names[j] in table && refusal(names[j]) == None)
              ==> FoldR(Step(table, config), names, next) ==
                  Err(if names[i] !in table then NotRegistered(names[i]) else Failed(refusal(names[i]).value))
  {
    var error := (name: string) =>
      if name !in table then Some(NotRegistered(name))
      else match refusal(name) case Some(m) => Some(Failed(m)) case None => None;
    ReportsTheLastFailingEntry(Step(table, config), names, next, error);
  }
}
