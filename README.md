# Fallback repositories for dependency resolution (NuGet Visual Studio package manager factory)

This project models how NuGet's Visual Studio package manager factory picks the
repository that a package manager installs from:

- `CreatePackageManager(primary, useFallback)` installs from `primary` itself,
  or from `CreateFallbackRepository(primary)` when fallback is requested.
- `CreateFallbackRepository(primary)` returns an aggregate primary unchanged.
  Otherwise it builds a dependency resolver from the configured sources:
  - drops the "aggregate of all sources" entry;
  - resolves each remaining source through the repository factory, skipping
    sources whose resolution fails;
  - leaves out resolved repositories that are the primary;
  - aggregates `[primary] + the rest`, in configured order;
  - wraps primary and resolver in a fallback repository.
- The fallback repository enumerates packages from the primary only. It
  answers dependency lookups (`GetDependencies(id)`) from the aggregate.
- The aggregate answers a lookup by id with each member's matches,
  concatenated in member order. Duplicates are kept.

The behaviour is pinned down by the seven scenarios of
`test/VisualStudio.Test/FallbackRepositoryTest.cs`. Each scenario is restated
as a lemma in module `Scenarios`, over concrete repositories and sources.

Files:
- `wrappers.dfy`: `Option`, whose `None` stands for a failed collaborator call.
- `repositories.dfy`: packages, repositories (a plain feed, an aggregate, a
  fallback), enumeration, lookup by id and dependency lookup.
- `composition.dfy`: configured sources, the factory's collaborators and the
  composition steps, with the lemmas relating them.
- `scenarios.dfy`: the seven test scenarios.

Everything is modelled with pure functions and lemmas. In every test the
packages are added to the mock repositories before anything is read, so each
repository is a value: a key, a reported source and a list of packages.

**Repository identity.** A plain repository carries a `key`: one key per
repository object. A resolved repository is left out as "the primary" when it
equals the primary as a value, so two distinct repository objects are never
confused, whatever sources they report. Every scenario agrees with this rule:

- at lines 55-56 two mocks are built with the default constructor, and at
  lines 84-86 both are expected among the members;
- at lines 172-204 the primary reports "http://redirected" but is configured
  as "Source2", and it is still recognised and not listed twice.

The source that default-constructed mocks report is not visible in the test.
The scenarios give them the same reported source, `""`; as an assumption,
this changes nothing, because the mocks are told apart by key.

## Model

| member | source | states |
|---|---|---|
| `Repositories.Matching` | test/VisualStudio.Test/FallbackRepositoryTest.cs:121-134 | a package is kept exactly when it is in the list and has the requested id; the result is never longer than the list |
| `Repositories.GetPackages` | test/VisualStudio.Test/FallbackRepositoryTest.cs:122-125 | a fallback repository enumerates exactly what its primary enumerates, whatever its resolver; an aggregate's enumeration starts with its first member's packages |
| `Repositories.GetAllPackages` | test/VisualStudio.Test/FallbackRepositoryTest.cs:122-125 | the aggregate's enumeration starts with its first member's packages and is at least as long as any member's enumeration (member order in full is GetAllPackagesAppend) |
| `Repositories.GetAllPackagesAppend` | test/VisualStudio.Test/FallbackRepositoryTest.cs:122-125 | over a split member list, the aggregate's enumeration is the two enumerations concatenated: members' packages come in member order |
| `Repositories.GetAllPackagesMembership` | test/VisualStudio.Test/FallbackRepositoryTest.cs:122-125 | a package is enumerated by an aggregate if and only if some member enumerates it |
| `Repositories.FindById` | test/VisualStudio.Test/FallbackRepositoryTest.cs:121-134 | every package returned by a lookup has the requested id |
| `Repositories.FindInAll` | test/VisualStudio.Test/FallbackRepositoryTest.cs:129-134 | every package the aggregate's lookup returns has the requested id |
| `Repositories.GetDependencies` | test/VisualStudio.Test/FallbackRepositoryTest.cs:120-121 | a fallback repository answers dependency lookups, from its resolver; every dependency returned has the requested id. That no other kind of repository is a dependency provider is the model's choice: the test asks only fallback repositories (line 120) |
| `Repositories.MatchingAppend` | test/VisualStudio.Test/FallbackRepositoryTest.cs:129-134 | filtering by id distributes over concatenation |
| `Repositories.FindByIdIsFilter` | test/VisualStudio.Test/FallbackRepositoryTest.cs:121-134 | for every repository, lookup by id returns exactly its enumerated packages with that id, in enumeration order |
| `Repositories.FindInAllIsFilter` | test/VisualStudio.Test/FallbackRepositoryTest.cs:129-134 | the aggregate's lookup is the id filter of its members' enumerations concatenated in member order |
| `Repositories.FindByIdMembership` | test/VisualStudio.Test/FallbackRepositoryTest.cs:126-134 | a package is found by id if and only if the repository enumerates it and it has that id |
| `Repositories.FindInAllAppend` | test/VisualStudio.Test/FallbackRepositoryTest.cs:129-134 | the aggregate's lookup over a split member list is the two lookups concatenated, in member order |
| `Repositories.FindInAllHasMember` | test/VisualStudio.Test/FallbackRepositoryTest.cs:129-134 | any match of any member is in the aggregate's lookup result |
| `Repositories.FindInAllFromMember` | test/VisualStudio.Test/FallbackRepositoryTest.cs:129-134 | every package in the aggregate's lookup result was found by some member |
| `Composition.RealSources` | test/VisualStudio.Test/FallbackRepositoryTest.cs:188-203 | dropping the sentinel never lengthens the list, and a list without the sentinel keeps every entry |
| `Composition.RealSourcesDropsSentinel` | test/VisualStudio.Test/FallbackRepositoryTest.cs:188-203 | a name survives if and only if it is a real configured source; the list shrinks by exactly the number of sentinel entries |
| `Composition.ResolveAll` | test/VisualStudio.Test/FallbackRepositoryTest.cs:220-236 | failed resolutions only shrink the list: at most one repository per name |
| `Composition.ResolveAllMembership` | test/VisualStudio.Test/FallbackRepositoryTest.cs:220-236 | a repository is resolved if and only if the factory makes it from one of the names |
| `Composition.ExcludePrimary` | test/VisualStudio.Test/FallbackRepositoryTest.cs:265-272 | the result is never longer than the input and never contains the primary |
| `Composition.ExcludePrimaryKeepsOthers` | test/VisualStudio.Test/FallbackRepositoryTest.cs:265-272 | after excluding the primary, a repository remains if and only if it was there and is not the primary; the length drops by the number of occurrences of the primary, and none remains; a list without the primary is returned as it is |
| `Composition.DependencyMembers` | test/VisualStudio.Test/FallbackRepositoryTest.cs:82-86 | the resolver has at least one member, and its first member is the primary |
| `Composition.OtherMembers` | test/VisualStudio.Test/FallbackRepositoryTest.cs:188-236 | the repositories the configured sources add after the primary number at most one per configured entry, and the primary is not among them |
| `Composition.ResolvedFromSources` | test/VisualStudio.Test/FallbackRepositoryTest.cs:188-236 | a repository is resolved from the configuration if and only if some real configured source resolves to it |
| `Composition.MembersAreResolvedSources` | test/VisualStudio.Test/FallbackRepositoryTest.cs:265-272 | the primary occurs exactly once among the members; the members after it are exactly the other repositories that real configured sources resolve to |
| `Composition.CreateFallbackRepository` | test/VisualStudio.Test/FallbackRepositoryTest.cs:165-203 | an aggregate primary comes back unchanged; any other primary comes back as a fallback repository over it, whose resolver is an aggregate of DependencyMembers |
| `Composition.CreatePackageManager` | test/VisualStudio.Test/FallbackRepositoryTest.cs:42-86 | without fallback the source repository is the primary itself; with fallback it is CreateFallbackRepository(primary); either way it enumerates exactly the primary's packages |
| `Composition.RealSourcesAppend` | test/VisualStudio.Test/FallbackRepositoryTest.cs:220 | dropping the sentinel keeps configured order: it commutes with splitting the source list |
| `Composition.ResolveAllAppend` | test/VisualStudio.Test/FallbackRepositoryTest.cs:220-236 | resolution keeps configured order: it commutes with splitting the name list |
| `Composition.RealSourcesCons` | test/VisualStudio.Test/FallbackRepositoryTest.cs:188-203 | helper for RealSourcesAppend: dropping the sentinel from a list keeps its head exactly when the head is a real source |
| `Composition.ExcludePrimaryCons` | test/VisualStudio.Test/FallbackRepositoryTest.cs:265-272 | helper for ExcludePrimaryAppend: excluding the primary from a list drops its head exactly when the head is the primary |
| `Composition.ExcludePrimaryAppend` | test/VisualStudio.Test/FallbackRepositoryTest.cs:265-272 | excluding the primary keeps order: it commutes with splitting the repository list |
| `Composition.OtherMembersAppend` | test/VisualStudio.Test/FallbackRepositoryTest.cs:220-236 | the members a split source list adds after the primary are those of its first part followed by those of its second |
| `Composition.OtherMembersOfOne` | test/VisualStudio.Test/FallbackRepositoryTest.cs:188-272 | one source adds nothing if it is the sentinel, its resolution fails or it resolves to the primary; otherwise it adds exactly the repository it resolves to |
| `Composition.DependencyMembersAppend` | test/VisualStudio.Test/FallbackRepositoryTest.cs:77-86 | the members for a split source list are the primary, then each part's additions in order |
| `Composition.MembersAround` | test/VisualStudio.Test/FallbackRepositoryTest.cs:220-236 | the members for a source list with one source singled out are the primary, the additions before it, its own addition and the additions after it |
| `Composition.SentinelContributesNothing` | test/VisualStudio.Test/FallbackRepositoryTest.cs:188-203 | inserting the sentinel anywhere in the source list leaves the members unchanged |
| `Composition.FailedSourceSkipped` | test/VisualStudio.Test/FallbackRepositoryTest.cs:220-236 | inserting a source whose resolution fails anywhere leaves the members unchanged, with every other source still included |
| `Composition.PrimarySourceNotAddedAgain` | test/VisualStudio.Test/FallbackRepositoryTest.cs:178-203 | inserting a source that resolves to the primary leaves the members unchanged, whatever its configured name and the primary's reported source |
| `Composition.OtherSourceAdded` | test/VisualStudio.Test/FallbackRepositoryTest.cs:77-86 | a source resolving to a repository other than the primary adds that repository at its configured position |
| `Composition.MembersInConfiguredOrder` | test/VisualStudio.Test/FallbackRepositoryTest.cs:77-86 | with N real sources, each resolving to a repository that is not the primary, the members are the primary followed by those N repositories in configured order (N + 1 in all) |
| `Composition.FallbackDependencies` | test/VisualStudio.Test/FallbackRepositoryTest.cs:117-134 | a dependency lookup through the fallback returns the primary's matches, then the other members' matches, in member order |
| `Composition.DependenciesReachEveryFeed` | test/VisualStudio.Test/FallbackRepositoryTest.cs:117-134 | a package with the requested id held by the primary or by any resolved configured source is a dependency result |
| `Composition.DependenciesComeFromFeeds` | test/VisualStudio.Test/FallbackRepositoryTest.cs:117-134 | every dependency result has the requested id and is held by the primary or by a resolved configured source |
| `Composition.NoOtherFeedDegradesToPrimary` | test/VisualStudio.Test/FallbackRepositoryTest.cs:117-134 | when no source resolves to a repository other than the primary, dependency lookup returns exactly the primary's matches |
| `Scenarios.PrimaryThenOther` | test/VisualStudio.Test/FallbackRepositoryTest.cs:254-272 | sources "Source1" (the primary) and "Source2" (another repository) give members [primary, other] |
| `Scenarios.OtherThenPrimary` | test/VisualStudio.Test/FallbackRepositoryTest.cs:188-203 | sources "Source1" (another repository) and "Source2" (the primary) give members [primary, other] |
| `Scenarios.UsesPrimaryIfUseFallbackIsFalse` | test/VisualStudio.Test/FallbackRepositoryTest.cs:14-46 | without fallback the package manager's source repository is the primary |
| `Scenarios.UsesFallbackIfUseFallbackIsTrue` | test/VisualStudio.Test/FallbackRepositoryTest.cs:49-88 | with fallback the source repository is a fallback whose resolver is an aggregate of 2 members, first the primary, last the second feed |
| `Scenarios.GetDependenciesReturnsPackagesFromAggregateSources` | test/VisualStudio.Test/FallbackRepositoryTest.cs:92-135 | dependencies for "A" are [A 1.0, A 1.2] in that order, while enumeration yields 1 package |
| `Scenarios.ReturnsCurrentIfCurrentIsAggregateRepository` | test/VisualStudio.Test/FallbackRepositoryTest.cs:138-169 | an aggregate primary is returned unchanged |
| `Scenarios.UsesResolvedSourceNameWhenEnsuringRepositoryIsNotAlreadyListed` | test/VisualStudio.Test/FallbackRepositoryTest.cs:172-204 | with three configured entries, one the sentinel, the resolver holds exactly 2 members: the redirected primary, then the other feed |
| `Scenarios.DoesNotThrowWhenIteratingOverFailingRepositories` | test/VisualStudio.Test/FallbackRepositoryTest.cs:207-237 | with a failing source among four entries, composition gives the resolver exactly 2 members: the primary, then the other good feed |
| `Scenarios.IncludesRepositoryOnceInAggregateDependencyResolver` | test/VisualStudio.Test/FallbackRepositoryTest.cs:240-273 | the primary appears once: 2 members, first the primary, last the other feed |

## Left out

- The production classes are not part of this model. `VsPackageManagerFactory`, `FallbackRepository` and `AggregateRepository` are modelled from what the test asserts about them.
- The package manager's other parts are not modelled. This covers the solution manager, file-system provider, repository settings and local repository: the test constructs them but asserts nothing about them.
- Repository back-ends are not modelled. Network feeds and HTTP redirects become a plain repository: a key, a reported source and a package list.
- Version semantics are not modelled. A version is an opaque string compared only for equality.
- Package ids are compared exactly. NuGet compares ids without regard to case; this model does no case folding.
- Failure inside a member's query is not modelled. AggregateRepository is meant to tolerate a member that fails while enumerating or looking up, treating it as returning nothing. No test exercises this, and AggregateRepository's code is not part of this model.
- A factory that returns null and a factory that throws are one case (`None`, the source is skipped). In every scenario the factory's null arm is only reachable through the sentinel, which is dropped before resolution.
- Deduplication by reported source is not modelled: only value identity (the `key`) decides whether a resolved repository is the primary. A second repository object for the primary's own feed, with another key but the same reported source, is kept as a member, and every package it holds then appears twice in dependency results.
- Only the primary is removed from the resolved repositories. Two configured sources that resolve to the same non-primary repository both stay. The tests only pin down removing the primary.
- Evaluation order and laziness are not modelled. The model computes the source list, resolutions and lookups eagerly, in list order.
- A null primary is not modelled, since the model has no null.
- The aggregate built at line 179 of the test, and never used there, is not modelled.
- `Repositories.FindById`: on a fallback repository, lookup by id goes to the primary, like its enumeration. The FallbackRepository code that would confirm this is not part of this model.
