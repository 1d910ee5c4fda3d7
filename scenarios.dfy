/**
  The fallback-repository test scenarios, each restated over concrete
  repositories and sources. Every mock repository gets its own key, so two
  mocks are distinct repositories even when they report the same source.
 */
module Scenarios {
  import opened Wrappers
  import opened Repositories
  import opened Composition

  const A10: Package := Package("A", "1.0")
  const A12: Package := Package("A", "1.2")

  /**
    The source given to the mocks built with the default constructor. Its
    value is an assumption of the model (the mock's constructor is not part of
    it); every scenario holds whatever the default mocks report, since they
    are told apart by key.
   */
  const DefaultSource: string := ""

  const Source1: Source := Real("Source1")
  const Source2: Source := Real("Source2")
  const SourceBad: Source := Real("SourceBad")

  /** A factory that resolves "Source1" and "Source2" and fails on any other name. */
  function MockFactory(repo1: Repo, repo2: Repo): (factory: string -> Option<Repo>)
  {
    n => if n == "Source1" then Some(repo1) else if n == "Source2" then Some(repo2) else None
  }

  /** Two default-constructed mocks holding A 1.0 and A 1.2. */
  const Repo1: Repo := Plain(1, DefaultSource, [A10])
  const Repo2: Repo := Plain(2, DefaultSource, [A12])

  /** Sources "Source1" and "Source2", resolved to Repo1 and Repo2. */
  function TwoSources(): (config: Config)
  {
    Config([Source1, Source2], MockFactory(Repo1, Repo2))
  }

  /** The members when "Source1" resolves to the primary and "Source2" to `other`. */
  lemma PrimaryThenOther(primary: Repo, other: Repo, factory: string -> Option<Repo>)
    requires factory("Source1") == Some(primary) && factory("Source2") == Some(other)
    requires other != primary
    ensures DependencyMembers(primary, Config([Source1, Source2], factory)) == [primary, other]
  {
    assert [Source1, Source2] == [] + [Real("Source1")] + [Source2];
    PrimarySourceNotAddedAgain(primary, [], "Source1", [Source2], factory);
    assert [] + [Source2] == [Source2];
    MembersInConfiguredOrder(primary, Config([Source2], factory));
  }

  /** The members when "Source1" resolves to `other` and "Source2" to the primary. */
  lemma OtherThenPrimary(primary: Repo, other: Repo, factory: string -> Option<Repo>)
    requires factory("Source1") == Some(other) && factory("Source2") == Some(primary)
    requires other != primary
    ensures DependencyMembers(primary, Config([Source1, Source2], factory)) == [primary, other]
  {
    assert [Source1, Source2] == [Source1] + [Real("Source2")] + [];
    PrimarySourceNotAddedAgain(primary, [Source1], "Source2", [], factory);
    assert [Source1] + [] == [Source1];
    MembersInConfiguredOrder(primary, Config([Source1], factory));
  }

  /** Without fallback, the package manager installs from the primary itself (FallbackRepositoryTest.cs:14-46). */
  lemma UsesPrimaryIfUseFallbackIsFalse()
    ensures CreatePackageManager(Repo1, false, TwoSources()).sourceRepository == Repo1
  {
  }

  /**
    With fallback, the source repository is a fallback repository whose
    resolver aggregates Repo1 then Repo2 (FallbackRepositoryTest.cs:49-88).
   */
  lemma UsesFallbackIfUseFallbackIsTrue()
    ensures var sr := CreatePackageManager(Repo1, true, TwoSources()).sourceRepository;
      && sr.Fallback? && sr.resolver.Aggregate?
      && |sr.resolver.members| == 2
      && sr.resolver.members[0] == Repo1
      && sr.resolver.members[|sr.resolver.members| - 1] == Repo2
  {
    PrimaryThenOther(Repo1, Repo2, MockFactory(Repo1, Repo2));
  }

  /**
    Dependencies come from both feeds, in member order, while plain
    enumeration sees the primary's one package (FallbackRepositoryTest.cs:92-135).
   */
  lemma GetDependenciesReturnsPackagesFromAggregateSources()
    ensures GetDependencies(CreateFallbackRepository(Repo1, TwoSources()), "A") == Some([A10, A12])
    ensures |GetPackages(CreateFallbackRepository(Repo1, TwoSources()))| == 1
  {
    PrimaryThenOther(Repo1, Repo2, MockFactory(Repo1, Repo2));
    FallbackDependencies(Repo1, TwoSources(), "A");
    assert [Repo1, Repo2][1..] == [Repo2];
    assert FindInAll([Repo2], "A") == FindById(Repo2, "A") + FindInAll([], "A");
    assert FindById(Repo1, "A") == [A10];
    assert FindById(Repo2, "A") == [A12];
    assert FindById(Repo1, "A") + FindInAll([Repo1, Repo2][1..], "A") == [A10, A12];
  }

  /** An aggregate primary is returned as it is (FallbackRepositoryTest.cs:138-169). */
  lemma ReturnsCurrentIfCurrentIsAggregateRepository()
    ensures var aggregateRepo := Aggregate([Repo1, Repo2]);
      CreateFallbackRepository(aggregateRepo, Config([Source1, Source2, AggregateSentinel], MockFactory(Repo1, Repo2)))
        == aggregateRepo
  {
  }

  /**
    A primary reporting "http://redirected" and configured as "Source2" is
    still recognised and not listed twice; the sentinel adds nothing
    (FallbackRepositoryTest.cs:172-204).
   */
  lemma UsesResolvedSourceNameWhenEnsuringRepositoryIsNotAlreadyListed()
    ensures var repo1 := Plain(1, DefaultSource, [A10]);
      var repo2 := Plain(2, "http://redirected", [A12]);
      var r := CreateFallbackRepository(repo2, Config([Source1, Source2, AggregateSentinel], MockFactory(repo1, repo2)));
      r.Fallback? && r.resolver.Aggregate? && r.resolver.members == [repo2, repo1]
      && |r.resolver.members| == 2
  {
    var repo1 := Plain(1, DefaultSource, [A10]);
    var repo2 := Plain(2, "http://redirected", [A12]);
    var factory := MockFactory(repo1, repo2);
    assert [Source1, Source2, AggregateSentinel] == [Source1, Source2] + [AggregateSentinel] + [];
    SentinelContributesNothing(repo2, [Source1, Source2], [], factory);
    assert [Source1, Source2] + [] == [Source1, Source2];
    OtherThenPrimary(repo2, repo1, factory);
  }

  /**
    A source whose resolution throws is skipped and composition still
    succeeds with the two good feeds (FallbackRepositoryTest.cs:207-237).
   */
  lemma DoesNotThrowWhenIteratingOverFailingRepositories()
    ensures var repo1 := Plain(1, DefaultSource, []);
      var repo2 := Plain(2, "http://redirected", []);
      var r := CreateFallbackRepository(repo2, Config([Source1, SourceBad, Source2, AggregateSentinel], MockFactory(repo1, repo2)));
      r.Fallback? && r.resolver.Aggregate? && r.resolver.members == [repo2, repo1]
      && |r.resolver.members| == 2
  {
    var repo1 := Plain(1, DefaultSource, []);
    var repo2 := Plain(2, "http://redirected", []);
    var factory := MockFactory(repo1, repo2);
    assert [Source1, SourceBad, Source2, AggregateSentinel] == [Source1, SourceBad, Source2] + [AggregateSentinel] + [];
    SentinelContributesNothing(repo2, [Source1, SourceBad, Source2], [], factory);
    assert [Source1, SourceBad, Source2] + [] == [Source1] + [Real("SourceBad")] + [Source2];
    FailedSourceSkipped(repo2, [Source1], "SourceBad", [Source2], factory);
    assert [Source1] + [Source2] == [Source1, Source2];
    OtherThenPrimary(repo2, repo1, factory);
  }

  /**
    Feeds whose reported sources equal their configured names: the primary
    is listed once, first, and the other feed last (FallbackRepositoryTest.cs:240-273).
   */
  lemma IncludesRepositoryOnceInAggregateDependencyResolver()
    ensures var repo1 := Plain(1, "Source1", [A10]);
      var repo2 := Plain(2, "Source2", [A12]);
      var r := CreateFallbackRepository(repo1, Config([Source1, Source2], MockFactory(repo1, repo2)));
      r.Fallback? && r.resolver.Aggregate?
      && |r.resolver.members| == 2
      && r.resolver.members[0] == repo1
      && r.resolver.members[|r.resolver.members| - 1] == repo2
  {
    var repo1 := Plain(1, "Source1", [A10]);
    var repo2 := Plain(2, "Source2", [A12]);
    PrimaryThenOther(repo1, repo2, MockFactory(repo1, repo2));
  }
}
