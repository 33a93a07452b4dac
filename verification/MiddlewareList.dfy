/** The package-level list of middlewares, filled from configured names and run from the left.
    A is the application's configuration, E the endpoint's. */
module MiddlewareList {
  import opened Wrappers
  import opened PipelineBuild

  datatype Middleware<A> = MemberAuth(cfg: A) | RedisRateLimit(cfg: A)

  function Known<A>(name: string, cfg: A): Option<Middleware<A>> {
    if name == "member_auth" then Some(MemberAuth(cfg))
    else if name == "redis_rate_limit" then Some(RedisRateLimit(cfg))
    else None
  }

  /** The middlewares of the known names, in order; unknown names are passed over. */
  function Selected<A>(names: seq<string>, cfg: A): seq<Middleware<A>> {
    if names == [] then []
    else match Known(names[0], cfg)
      case Some(m) => [m] + Selected(names[1..], cfg)
      case None => Selected(names[1..], cfg)
  }

  function Run<A, H, E>(run: (Middleware<A>, H, E) -> Built<H>, endpoint: E): (Middleware<A>, H) -> Built<H> {
    (m, h) => run(m, h, endpoint)
  }

  /** The handlers hs, the first of which is `last`: each of the others is what its middleware made
      around the one before. */
  ghost predicate Chain<A, H, E>(list: seq<Middleware<A>>, run: (Middleware<A>, H, E) -> Built<H>, endpoint: E, last: H, hs: seq<H>) {
    && |hs| == |list| + 1 && hs[0] == last
    && forall i :: 0 <= i < |list| ==> run(list[i], hs[i], endpoint) == Ok(hs[i + 1])
  }

  class Middlewares<A> {
    var list: seq<Middleware<A>>

    constructor ()
      ensures list == []
    {
      list := [];
    }

    method Register(names: seq<string>, cfg: A)
      modifies this
      ensures list == old(list) + Selected(names, cfg)
    {
      for i := 0 to |names|
        invariant list == old(list) + Selected(names[..i], cfg)
      {
        assert names[..i + 1] == names[..i] + [names[i]];
        SelectedConcat(names[..i], [names[i]], cfg);
        if names[i] == "member_auth" {
          list := list + [MemberAuth(cfg)];
        } else if names[i] == "redis_rate_limit" {
          list := list + [RedisRateLimit(cfg)];
        }
      }
      assert names[..|names|] == names;
    }

    /** `run` stands for what the middlewares' own Run methods do. */
    method RunAll<H, E>(run: (Middleware<A>, H, E) -> Built<H>, last: H, endpoint: E) returns (r: Built<H>)
      ensures r.Ok? ==> exists hs :: Chain(list, run, endpoint, last, hs) && hs[|list|] == r.handler
      ensures r.Err? ==> exists i: nat, hs :: i < |list| && Chain(list[..i], run, endpoint, last, hs) && run(list[i], hs[i], endpoint) == r
      ensures r == FoldL(Run(run, endpoint), list, last)
    {
      ghost var step := Run(run, endpoint);
      var next := last;
      ghost var hs := [last];
      for i := 0 to |list|
        invariant FoldL(step, list[..i], last) == Ok(next)
        invariant Chain(list[..i], run, endpoint, last, hs) && hs[i] == next
      {
        assert list[..i + 1][..i] == list[..i];
        var n := run(list[i], next, endpoint);
        if n.Err? {
          FirstFailureStops(step, list, last, i + 1);
          return n;
        }
        next := n.handler;
        hs := hs + [next];
      }
      assert list[..|list|] == list;
      return Ok(next);
    }
  }

  lemma {:induction false} FirstFailureStops<N, H>(step: (N, H) -> Built<H>, entries: seq<N>, next: H, i: nat)
    requires i <= |entries| && FoldL(step, entries[..i], next).Err?
    ensures FoldL(step, entries, next) == FoldL(step, entries[..i], next)
  {
    if i < |entries| {
      assert entries[..|entries| - 1][..i] == entries[..i];
      FirstFailureStops(step, entries[..|entries| - 1], next, i);
    } else {
      assert entries[..i] == entries;
    }
  }

  /** Registering two lists of names one after the other is registering their concatenation. */
  lemma {:induction false} SelectedConcat<A>(xs: seq<string>, ys: seq<string>, cfg: A)
    ensures Selected(xs + ys, cfg) == Selected(xs, cfg) + Selected(ys, cfg)
  {
    if xs == [] {
      assert xs + ys == ys;
    } else {
      assert (xs + ys)[1..] == xs[1..] + ys;
      SelectedConcat(xs[1..], ys, cfg);
    }
  }

  /** The names that select something. */
  function KnownNames(names: seq<string>): seq<string> {
    if names == [] then []
    else (if names[0] == "member_auth" || names[0] == "redis_rate_limit" then [names[0]] else []) + KnownNames(names[1..])
  }

  /** The step of a build over names, were unknown names to be errors. */
  function ByName<A, H>(step: (Middleware<A>, H) -> Built<H>, cfg: A): (string, H) -> Built<H> {
    (name, h) => match Known(name, cfg)
                 case Some(m) => step(m, h)
                 case None => Err(NotRegistered(name))
  }

  /** Running what was registered from an empty list is the right-to-left build of the reversed
      list of known names: the last configured middleware is entered first, and unknown names
      never make the build fail. */
  lemma RunIsReversedBuild<A, H>(step: (Middleware<A>, H) -> Built<H>, names: seq<string>, cfg: A, last: H)
    ensures FoldL(step, Selected(names, cfg), last) == FoldR(ByName(step, cfg), Reverse(KnownNames(names)), last)
  {
    LeftBuildIsReversed(ByName(step, cfg), KnownNames(names), last);
    SelectedIsKnownNames(names, cfg);
    SameLeftBuild(step, Selected(names, cfg), KnownNames(names), cfg, last);
  }

  lemma {:induction false} SelectedIsKnownNames<A>(names: seq<string>, cfg: A)
    ensures |Selected(names, cfg)| == |KnownNames(names)|
    ensures forall i :: 0 <= i < |KnownNames(names)| ==> Known(KnownNames(names)[i], cfg) == Some(Selected(names, cfg)[i])
  {
    if names != [] {
      SelectedIsKnownNames(names[1..], cfg);
    }
  }

  /** Which middleware each known name selects. */
  lemma SelectedAre<A>(names: seq<string>, cfg: A)
    ensures |Selected(names, cfg)| == |KnownNames(names)|
    ensures forall i :: 0 <= i < |KnownNames(names)| ==>
              || (KnownNames(names)[i] == "member_auth" && Selected(names, cfg)[i] == MemberAuth(cfg))
              || (KnownNames(names)[i] == "redis_rate_limit" && Selected(names, cfg)[i] == RedisRateLimit(cfg))
    ensures forall name :: name in KnownNames(names) <==> name in names && (name == "member_auth" || name == "redis_rate_limit")
  {
    SelectedIsKnownNames(names, cfg);
    KnownNamesAre(names);
    forall i | 0 <= i < |KnownNames(names)|
      ensures || (KnownNames(names)[i] == "member_auth" && Selected(names, cfg)[i] == MemberAuth(cfg))
              || (KnownNames(names)[i] == "redis_rate_limit" && Selected(names, cfg)[i] == RedisRateLimit(cfg))
    {
      KnownIs(KnownNames(names)[i], cfg);
    }
  }

  lemma KnownIs<A>(name: string, cfg: A)
    ensures Known(name, cfg) == Some(MemberAuth(cfg)) <==> name == "member_auth"
    ensures Known(name, cfg) == Some(RedisRateLimit(cfg)) <==> name == "redis_rate_limit"
  {
    assert |"member_auth"| != |"redis_rate_limit"|;
  }

  lemma {:induction false} KnownNamesAre(names: seq<string>)
    ensures forall name :: name in KnownNames(names) <==> name in names && (name == "member_auth" || name == "redis_rate_limit")
  {
    if names != [] {
      KnownNamesAre(names[1..]);
      assert forall name :: name in names <==> name == names[0] || name in names[1..];
    }
  }

  lemma {:induction false} SameLeftBuild<A, H>(step: (Middleware<A>, H) -> Built<H>, ms: seq<Middleware<A>>, names: seq<string>, cfg: A, last: H)
    requires |ms| == |names| && forall i :: 0 <= i < |ms| ==> Known(names[i], cfg) == Some(ms[i])
    ensures FoldL(step, ms, last) == FoldL(ByName(step, cfg), names, last)
  {
    if ms != [] {
      SameLeftBuild(step, ms[..|ms| - 1], names[..|ms| - 1], cfg, last);
    }
  }
}
