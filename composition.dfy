/**
  How the package manager factory picks the source repository of a package
  manager, and how it builds the fallback repository whose dependency resolver
  aggregates every configured source.
 */
module Composition {
  import opened Wrappers
  import opened Repositories

  /** A configured package source: a real feed, or the "aggregate of all sources" entry. */
  datatype Source = Real(name: string) | AggregateSentinel

  /**
    The factory's collaborators: the configured source list, in configured
    order, and the repository factory, which resolves a source name to a
    repository and may fail (`None`).
   */
  datatype Config = Config(sources: seq<Source>, factory: string -> Option<Repo>)

  /** A package manager, reduced to the repository it installs from. */
  datatype PackageManager = PackageManager(sourceRepository: Repo)

  /** The names of the real sources, in configured order; the sentinel is dropped. */
  function RealSources(srcs: seq<Source>): (names: seq<string>)
    ensures |names| <= |srcs|
    ensures AggregateSentinel !in srcs ==> |names| == |srcs|
  {
    if srcs == [] then []
    else (if srcs[0].Real? then [srcs[0].name] else []) + RealSources(srcs[1..])
  }

  /**
    Exactly the real sources' names survive, and the list shrinks by the
    number of sentinel entries.
   */
  lemma {:induction false} RealSourcesDropsSentinel(srcs: seq<Source>)
    ensures forall n :: n in RealSources(srcs) <==> Real(n) in srcs
    ensures |RealSources(srcs)| == |srcs| - multiset(srcs)[AggregateSentinel]
  {
    if srcs != [] {
      assert srcs == [srcs[0]] + srcs[1..];
      RealSourcesDropsSentinel(srcs[1..]);
    }
  }

  /**
    Resolves each name through the factory, in order, skipping every name
    whose resolution fails.
   */
  function ResolveAll(names: seq<string>, factory: string -> Option<Repo>): (rs: seq<Repo>)
    ensures |rs| <= |names|
  {
    if names == [] then []
    else
      match factory(names[0])
      case Some(r) => [r] + ResolveAll(names[1..], factory)
      case None => ResolveAll(names[1..], factory)
  }

  /** A repository is resolved exactly when the factory makes it of one of the names. */
  lemma {:induction false} ResolveAllMembership(names: seq<string>, factory: string -> Option<Repo>, r: Repo)
    ensures r in ResolveAll(names, factory) <==> exists k :: 0 <= k < |names| && factory(names[k]) == Some(r)
  {
    if names != [] {
      ResolveAllMembership(names[1..], factory, r);
      if r in ResolveAll(names[1..], factory) {
        var k :| 0 <= k < |names| - 1 && factory(names[1..][k]) == Some(r);
        assert factory(names[k + 1]) == Some(r);
      }
      if exists k :: 0 <= k < |names| && factory(names[k]) == Some(r) {
        var k :| 0 <= k < |names| && factory(names[k]) == Some(r);
        if k > 0 {
          assert factory(names[1..][k - 1]) == Some(r);
        }
      }
    }
  }

  /** The repositories of `rs` other than `primary`, in their order. */
  function ExcludePrimary(rs: seq<Repo>, primary: Repo): (kept: seq<Repo>)
    ensures |kept| <= |rs|
    ensures primary !in kept
  {
    if rs == [] then []
    else (if rs[0] != primary then [rs[0]] else []) + ExcludePrimary(rs[1..], primary)
  }

  /**
    Excluding the primary keeps exactly the other repositories, every
    occurrence of them, and leaves no occurrence of the primary; a list
    without the primary is left as it is.
   */
  lemma {:induction false} ExcludePrimaryKeepsOthers(rs: seq<Repo>, primary: Repo)
    ensures forall r :: r in ExcludePrimary(rs, primary) <==> r in rs && r != primary
    ensures |ExcludePrimary(rs, primary)| == |rs| - multiset(rs)[primary]
    ensures multiset(ExcludePrimary(rs, primary))[primary] == 0
    ensures primary !in rs ==> ExcludePrimary(rs, primary) == rs
  {
    if rs != [] {
      assert rs == [rs[0]] + rs[1..];
      ExcludePrimaryKeepsOthers(rs[1..], primary);
    }
  }

  /** `r` is what the factory makes of some real configured source. */
  ghost predicate Resolves(config: Config, r: Repo)
  {
    exists n :: config.factory(n) == Some(r) && Real(n) in config.sources
  }

  /**
    The members of the dependency resolver: the primary first, then the
    resolved real sources in configured order, without the primary again.
   */
  function DependencyMembers(primary: Repo, config: Config): (ms: seq<Repo>)
    ensures |ms| >= 1 && ms[0] == primary
  {
    [primary] + OtherMembers(primary, config.sources, config.factory)
  }

  /** What the sources `srcs` add after the primary: resolved, in order, the primary left out. */
  function OtherMembers(primary: Repo, srcs: seq<Source>, factory: string -> Option<Repo>): (rest: seq<Repo>)
    ensures |rest| <= |srcs|
    ensures primary !in rest
  {
    ExcludePrimary(ResolveAll(RealSources(srcs), factory), primary)
  }

  /** A repository is resolved from the configuration exactly when some real source resolves to it. */
  lemma ResolvedFromSources(config: Config, r: Repo)
    ensures r in ResolveAll(RealSources(config.sources), config.factory) <==> Resolves(config, r)
  {
    var names := RealSources(config.sources);
    RealSourcesDropsSentinel(config.sources);
    ResolveAllMembership(names, config.factory, r);
    if r in ResolveAll(names, config.factory) {
      var k :| 0 <= k < |names| && config.factory(names[k]) == Some(r);
      assert names[k] in names;
    }
    if Resolves(config, r) {
      var n :| config.factory(n) == Some(r) && Real(n) in config.sources;
      assert n in names;
      var k :| 0 <= k < |names| && names[k] == n;
    }
  }

  /**
    The primary is a member exactly once, at position 0, and the other
    members are exactly the other repositories the real sources resolve to.
   */
  lemma MembersAreResolvedSources(primary: Repo, config: Config)
    ensures multiset(DependencyMembers(primary, config))[primary] == 1
    ensures forall r :: r in DependencyMembers(primary, config)[1..] <==> r != primary && Resolves(config, r)
  {
    var resolved := ResolveAll(RealSources(config.sources), config.factory);
    var rest := OtherMembers(primary, config.sources, config.factory);
    ExcludePrimaryKeepsOthers(resolved, primary);
    assert DependencyMembers(primary, config) == [primary] + rest;
    assert ([primary] + rest)[1..] == rest;
    forall r
      ensures r in rest <==> r != primary && Resolves(config, r)
    {
      ResolvedFromSources(config, r);
    }
  }

  /**
    The fallback repository for `primary`: an aggregate primary is returned as
    it is; any other primary is wrapped in a fallback repository that
    enumerates from it and resolves dependencies through an aggregate of
    DependencyMembers.
   */
  function CreateFallbackRepository(primary: Repo, config: Config): (r: Repo)
    ensures primary.Aggregate? ==> r == primary
    ensures !primary.Aggregate? ==>
      r.Fallback? && r.primary == primary && r.resolver.Aggregate?
      && r.resolver.members == DependencyMembers(primary, config)
  {
    if primary.Aggregate? then primary
    else Fallback(primary, Aggregate(DependencyMembers(primary, config)))
  }

  /**
    The package manager for `primary`: without fallback it installs from
    `primary` itself; with fallback, from CreateFallbackRepository(primary).
    Either way it enumerates exactly the packages `primary` enumerates.
   */
  function CreatePackageManager(primary: Repo, useFallback: bool, config: Config): (pm: PackageManager)
    ensures !useFallback ==> pm.sourceRepository == primary
    ensures useFallback ==> pm.sourceRepository == CreateFallbackRepository(primary, config)
    ensures GetPackages(pm.sourceRepository) == GetPackages(primary)
  {
    if useFallback then PackageManager(CreateFallbackRepository(primary, config))
    else PackageManager(primary)
  }

  /** Dropping the sentinel from a list with head `x`. */
  lemma RealSourcesCons(x: Source, t: seq<Source>)
    ensures RealSources([x] + t) == (if x.Real? then [x.name] else []) + RealSources(t)
  {
    assert ([x] + t)[0] == x && ([x] + t)[1..] == t;
  }

  /** Dropping the sentinel commutes with splitting the source list. */
  lemma {:induction false} RealSourcesAppend(a: seq<Source>, b: seq<Source>)
    ensures RealSources(a + b) == RealSources(a) + RealSources(b)
  {
    if a == [] {
      assert a + b == b;
    } else {
      var x, t := a[0], a[1..];
      assert a == [x] + t;
      assert a + b == [x] + (t + b);
      RealSourcesCons(x, t + b);
      RealSourcesCons(x, t);
      RealSourcesAppend(t, b);
    }
  }

  /** Resolution commutes with splitting the name list: configured order is kept. */
  lemma {:induction false} ResolveAllAppend(a: seq<string>, b: seq<string>, factory: string -> Option<Repo>)
    ensures ResolveAll(a + b, factory) == ResolveAll(a, factory) + ResolveAll(b, factory)
  {
    if a == [] {
      assert a + b == b;
    } else {
      assert (a + b)[0] == a[0] && (a + b)[1..] == a[1..] + b;
      ResolveAllAppend(a[1..], b, factory);
      match factory(a[0])
      case Some(r) =>
        assert ResolveAll(a + b, factory) == [r] + ResolveAll(a[1..] + b, factory);
      case None =>
        assert ResolveAll(a + b, factory) == ResolveAll(a[1..] + b, factory);
    }
  }

  /** Excluding the primary from a list with head `x`. */
  lemma ExcludePrimaryCons(x: Repo, t: seq<Repo>, primary: Repo)
    ensures ExcludePrimary([x] + t, primary) == (if x != primary then [x] else []) + ExcludePrimary(t, primary)
  {
    assert ([x] + t)[0] == x && ([x] + t)[1..] == t;
  }

  /** Excluding the primary commutes with splitting the repository list. */
  lemma {:induction false} ExcludePrimaryAppend(a: seq<Repo>, b: seq<Repo>, primary: Repo)
    ensures ExcludePrimary(a + b, primary) == ExcludePrimary(a, primary) + ExcludePrimary(b, primary)
  {
    if a == [] {
      assert a + b == b;
    } else {
      var x, t := a[0], a[1..];
      assert a == [x] + t;
      assert a + b == [x] + (t + b);
      ExcludePrimaryCons(x, t + b, primary);
      ExcludePrimaryCons(x, t, primary);
      ExcludePrimaryAppend(t, b, primary);
    }
  }

  /** The other members of a split source list are those of its two parts, in order. */
  lemma OtherMembersAppend(primary: Repo, a: seq<Source>, b: seq<Source>, factory: string -> Option<Repo>)
    ensures OtherMembers(primary, a + b, factory) == OtherMembers(primary, a, factory) + OtherMembers(primary, b, factory)
  {
    RealSourcesAppend(a, b);
    var na, nb := RealSources(a), RealSources(b);
    ResolveAllAppend(na, nb, factory);
    ExcludePrimaryAppend(ResolveAll(na, factory), ResolveAll(nb, factory), primary);
  }

  /**
    What one configured source adds: nothing for the sentinel, for a failed
    resolution or for a resolution to the primary; otherwise the repository
    it resolves to.
   */
  lemma OtherMembersOfOne(primary: Repo, s: Source, factory: string -> Option<Repo>)
    ensures s == AggregateSentinel ==> OtherMembers(primary, [s], factory) == []
    ensures s.Real? && factory(s.name) == None ==> OtherMembers(primary, [s], factory) == []
    ensures s.Real? && factory(s.name) == Some(primary) ==> OtherMembers(primary, [s], factory) == []
    ensures s.Real? && factory(s.name).Some? && factory(s.name).value != primary ==>
      OtherMembers(primary, [s], factory) == [factory(s.name).value]
  {
    assert [s][1..] == [];
    var names := RealSources([s]);
    assert names == (if s.Real? then [s.name] else []) + RealSources([]);
    if s.Real? {
      assert [s.name][1..] == [];
      var resolved := ResolveAll(names, factory);
      assert resolved == if factory(s.name).Some? then [factory(s.name).value] else [];
      if factory(s.name).Some? {
        var r := factory(s.name).value;
        assert [r][1..] == [];
        assert ExcludePrimary([r], primary) == (if r != primary then [r] else []) + ExcludePrimary([], primary);
      }
    }
  }

  /** The members for a split source list: the primary, then each part's other members. */
  lemma DependencyMembersAppend(primary: Repo, a: seq<Source>, b: seq<Source>, factory: string -> Option<Repo>)
    ensures DependencyMembers(primary, Config(a + b, factory))
         == [primary] + OtherMembers(primary, a, factory) + OtherMembers(primary, b, factory)
  {
    OtherMembersAppend(primary, a, b, factory);
  }

  /** The members when source `s` stands between `a` and `b`. */
  lemma MembersAround(primary: Repo, a: seq<Source>, s: Source, b: seq<Source>, factory: string -> Option<Repo>)
    ensures DependencyMembers(primary, Config(a + [s] + b, factory))
         == [primary] + OtherMembers(primary, a, factory) + OtherMembers(primary, [s], factory)
          + OtherMembers(primary, b, factory)
  {
    DependencyMembersAppend(primary, a + [s], b, factory);
    OtherMembersAppend(primary, a, [s], factory);
  }

  /** The "aggregate of all sources" entry contributes no member, wherever it is listed. */
  lemma SentinelContributesNothing(primary: Repo, a: seq<Source>, b: seq<Source>, factory: string -> Option<Repo>)
    ensures DependencyMembers(primary, Config(a + [AggregateSentinel] + b, factory))
         == DependencyMembers(primary, Config(a + b, factory))
  {
    MembersAround(primary, a, AggregateSentinel, b, factory);
    DependencyMembersAppend(primary, a, b, factory);
    OtherMembersOfOne(primary, AggregateSentinel, factory);
  }

  /** A source whose resolution fails is skipped; the other sources are kept as they were. */
  lemma FailedSourceSkipped(primary: Repo, a: seq<Source>, n: string, b: seq<Source>, factory: string -> Option<Repo>)
    requires factory(n) == None
    ensures DependencyMembers(primary, Config(a + [Real(n)] + b, factory))
         == DependencyMembers(primary, Config(a + b, factory))
  {
    MembersAround(primary, a, Real(n), b, factory);
    DependencyMembersAppend(primary, a, b, factory);
    OtherMembersOfOne(primary, Real(n), factory);
  }

  /**
    A source that resolves to the primary repository adds nothing, whatever
    its configured name and whatever source the primary reports.
   */
  lemma PrimarySourceNotAddedAgain(primary: Repo, a: seq<Source>, n: string, b: seq<Source>, factory: string -> Option<Repo>)
    requires factory(n) == Some(primary)
    ensures DependencyMembers(primary, Config(a + [Real(n)] + b, factory))
         == DependencyMembers(primary, Config(a + b, factory))
  {
    MembersAround(primary, a, Real(n), b, factory);
    DependencyMembersAppend(primary, a, b, factory);
    OtherMembersOfOne(primary, Real(n), factory);
  }

  /** A source that resolves to another repository adds that repository, at its configured place. */
  lemma OtherSourceAdded(primary: Repo, a: seq<Source>, n: string, b: seq<Source>, factory: string -> Option<Repo>, r: Repo)
    requires factory(n) == Some(r) && r != primary
    ensures DependencyMembers(primary, Config(a + [Real(n)] + b, factory))
         == DependencyMembers(primary, Config(a, factory)) + [r] + OtherMembers(primary, b, factory)
  {
    MembersAround(primary, a, Real(n), b, factory);
    OtherMembersOfOne(primary, Real(n), factory);
  }

  /**
    With N real sources, each resolving to a repository other than the
    primary, the members are the primary followed by those N repositories in
    configured order.
   */
  lemma {:induction false} MembersInConfiguredOrder(primary: Repo, config: Config)
    requires forall k :: 0 <= k < |config.sources| ==> config.sources[k].Real?
    requires forall k :: 0 <= k < |config.sources| ==>
      config.factory(config.sources[k].name).Some? && config.factory(config.sources[k].name).value != primary
    ensures |DependencyMembers(primary, config)| == |config.sources| + 1
    ensures forall k :: 0 <= k < |config.sources| ==>
      DependencyMembers(primary, config)[k + 1] == config.factory(config.sources[k].name).value
    decreases |config.sources|
  {
    var srcs := config.sources;
    if srcs != [] {
      var init, last := srcs[..|srcs| - 1], srcs[|srcs| - 1];
      assert srcs == init + [last] + [];
      var smaller := Config(init, config.factory);
      MembersInConfiguredOrder(primary, smaller);
      var r := config.factory(last.name).value;
      OtherSourceAdded(primary, init, last.name, [], config.factory, r);
      assert OtherMembers(primary, [], config.factory) == [];
      assert DependencyMembers(primary, config) == DependencyMembers(primary, smaller) + [r];
    }
  }

  /**
    A dependency lookup through the fallback repository returns the primary's
    matches followed by the other members' matches, in member order.
   */
  lemma FallbackDependencies(primary: Repo, config: Config, id: string)
    requires !primary.Aggregate?
    ensures GetDependencies(CreateFallbackRepository(primary, config), id)
         == Some(FindById(primary, id) + FindInAll(DependencyMembers(primary, config)[1..], id))
  {
    var ms := DependencyMembers(primary, config);
    assert GetDependencies(CreateFallbackRepository(primary, config), id) == Some(FindById(Aggregate(ms), id));
    assert FindById(Aggregate(ms), id) == FindInAll(ms, id);
    assert FindInAll(ms, id) == FindById(ms[0], id) + FindInAll(ms[1..], id);
  }

  /**
    Every package with the requested id that the primary or any resolved
    configured source holds is returned by the fallback's dependency lookup.
   */
  lemma DependenciesReachEveryFeed(primary: Repo, config: Config, id: string, r: Repo, q: Package)
    requires !primary.Aggregate?
    requires r == primary || Resolves(config, r)
    requires q in GetPackages(r) && q.id == id
    ensures q in GetDependencies(CreateFallbackRepository(primary, config), id).value
  {
    var ms := DependencyMembers(primary, config);
    MembersAreResolvedSources(primary, config);
    if r != primary {
      assert r in ms[1..];
    }
    assert r in ms;
    FindByIdMembership(r, id, q);
    FindInAllHasMember(ms, r, id, q);
    assert GetDependencies(CreateFallbackRepository(primary, config), id).value == FindInAll(ms, id);
  }

  /**
    Everything the fallback's dependency lookup returns has the requested id
    and is held by the primary or by a resolved configured source.
   */
  lemma DependenciesComeFromFeeds(primary: Repo, config: Config, id: string, q: Package)
    requires !primary.Aggregate?
    requires q in GetDependencies(CreateFallbackRepository(primary, config), id).value
    ensures q.id == id
    ensures exists r :: (r == primary || Resolves(config, r)) && q in GetPackages(r)
  {
    var ms := DependencyMembers(primary, config);
    assert GetDependencies(CreateFallbackRepository(primary, config), id).value == FindInAll(ms, id);
    FindInAllFromMember(ms, id, q);
    var m :| m in ms && q in FindById(m, id);
    FindByIdMembership(m, id, q);
    MembersAreResolvedSources(primary, config);
    if m != primary {
      assert m in ms[1..] by { assert ms == [ms[0]] + ms[1..]; }
    }
  }

  /**
    When no configured source resolves to a repository other than the
    primary, the fallback looks dependencies up in the primary alone.
   */
  lemma NoOtherFeedDegradesToPrimary(primary: Repo, config: Config, id: string)
    requires !primary.Aggregate?
    requires forall n :: Real(n) in config.sources ==> config.factory(n) == None || config.factory(n) == Some(primary)
    ensures GetDependencies(CreateFallbackRepository(primary, config), id) == Some(FindById(primary, id))
  {
    var ms := DependencyMembers(primary, config);
    if |ms| > 1 {
      assert ms[1] in ms[1..];
      MembersAreResolvedSources(primary, config);
      assert false;
    }
    assert ms[1..] == [];
    assert FindInAll(ms[1..], id) == [];
    FallbackDependencies(primary, config, id);
    assert FindById(primary, id) + FindInAll(ms[1..], id) == FindById(primary, id);
  }
}
