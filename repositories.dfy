/**
  Package repositories as this layer sees them: a single feed, an aggregate of
  several repositories queried in member order, and a fallback repository that
  enumerates from a primary but looks dependencies up in a separate resolver.
 */
module Repositories {
  import opened Wrappers

  /** A package: an id and an opaque version, compared only for equality. */
  datatype Package = Package(id: string, version: string)

  /**
    The identity of one repository object. Two repositories built separately
    carry different keys, even when they report the same source. One key
    stands for one object, so it always comes with the same reported source
    and packages; deciding "is the primary" by comparing whole values then
    agrees with comparing keys.
   */
  type RepoKey = nat

  datatype Repo =
      /**
        One feed: its identity, the source it reports, the packages it holds.
        No operation reads `source`; it is kept so that the scenarios can
        show that recognising a repository does not depend on it.
       */
    | Plain(key: RepoKey, source: string, packages: seq<Package>)
      /** An aggregate repository over an ordered list of members. */
    | Aggregate(members: seq<Repo>)
      /** A fallback repository: enumeration from `primary`, dependencies from `resolver`. */
    | Fallback(primary: Repo, resolver: Repo)

  /** The packages of `pkgs` whose id is `id`, in their original order. */
  function Matching(pkgs: seq<Package>, id: string): (r: seq<Package>)
    ensures forall p :: p in r <==> p in pkgs && p.id == id
    ensures |r| <= |pkgs|
  {
    if pkgs == [] then []
    else (if pkgs[0].id == id then [pkgs[0]] else []) + Matching(pkgs[1..], id)
  }

  /**
    Plain enumeration: a feed lists its own packages, an aggregate lists its
    members' packages in member order, a fallback lists its primary's only.
   */
  function GetPackages(r: Repo): (ps: seq<Package>)
    ensures r.Fallback? ==> ps == GetPackages(r.primary)
    ensures r.Aggregate? && r.members != [] ==> GetPackages(r.members[0]) <= ps
    decreases r, 1
  {
    match r
    case Plain(_, _, pkgs) => pkgs
    case Aggregate(ms) => GetAllPackages(ms)
    case Fallback(p, _) => GetPackages(p)
  }

  /** The enumerations of `ms`, concatenated in member order. */
  function GetAllPackages(ms: seq<Repo>): (ps: seq<Package>)
    ensures ms != [] ==> GetPackages(ms[0]) <= ps
    ensures forall k :: 0 <= k < |ms| ==> |GetPackages(ms[k])| <= |ps|
    decreases ms, 0
  {
    if ms == [] then [] else GetPackages(ms[0]) + GetAllPackages(ms[1..])
  }

  /**
    Lookup by id: a feed filters its packages, an aggregate concatenates its
    members' matches in member order (duplicates are kept), a fallback looks
    up in its primary, as it enumerates.
   */
  function FindById(r: Repo, id: string): (ps: seq<Package>)
    ensures forall k :: 0 <= k < |ps| ==> ps[k].id == id
    decreases r, 1
  {
    match r
    case Plain(_, _, pkgs) => Matching(pkgs, id)
    case Aggregate(ms) => FindInAll(ms, id)
    case Fallback(p, _) => FindById(p, id)
  }

  /** The matches of each repository of `ms` for `id`, concatenated in member order. */
  function FindInAll(ms: seq<Repo>, id: string): (ps: seq<Package>)
    ensures forall k :: 0 <= k < |ps| ==> ps[k].id == id
    decreases ms, 0
  {
    if ms == [] then [] else FindById(ms[0], id) + FindInAll(ms[1..], id)
  }

  /**
    The dependency-provider view. In this model only a fallback repository
    is a dependency provider (a choice of the model: no other kind is ever
    asked for dependencies); it answers a dependency lookup from its
    resolver, never from its primary.
   */
  function GetDependencies(r: Repo, id: string): (d: Option<seq<Package>>)
    ensures d.Some? <==> r.Fallback?
    ensures d.Some? ==> forall k :: 0 <= k < |d.value| ==> d.value[k].id == id
  {
    if r.Fallback? then Some(FindById(r.resolver, id)) else None
  }

  /** Filtering by id distributes over concatenation. */
  lemma {:induction false} MatchingAppend(a: seq<Package>, b: seq<Package>, id: string)
    ensures Matching(a + b, id) == Matching(a, id) + Matching(b, id)
  {
    if a == [] {
      assert a + b == b;
    } else {
      assert (a + b)[1..] == a[1..] + b;
      MatchingAppend(a[1..], b, id);
    }
  }

  /**
    Looking a package up by id finds exactly the packages the repository
    enumerates with that id, in enumeration order.
   */
  lemma {:induction false} FindByIdIsFilter(r: Repo, id: string)
    ensures FindById(r, id) == Matching(GetPackages(r), id)
    decreases r, 1
  {
    match r
    case Plain(_, _, _) =>
    case Aggregate(ms) => FindInAllIsFilter(ms, id);
    case Fallback(p, _) => FindByIdIsFilter(p, id);
  }

  /** The aggregate form of FindByIdIsFilter. */
  lemma {:induction false} FindInAllIsFilter(ms: seq<Repo>, id: string)
    ensures FindInAll(ms, id) == Matching(GetAllPackages(ms), id)
    decreases ms, 0
  {
    if ms != [] {
      FindByIdIsFilter(ms[0], id);
      FindInAllIsFilter(ms[1..], id);
      MatchingAppend(GetPackages(ms[0]), GetAllPackages(ms[1..]), id);
    }
  }

  /** A package is found by id exactly when it is enumerated and carries that id. */
  lemma FindByIdMembership(r: Repo, id: string, q: Package)
    ensures q in FindById(r, id) <==> q in GetPackages(r) && q.id == id
  {
    FindByIdIsFilter(r, id);
  }

  /** The aggregate's lookup over a split member list is the two lookups concatenated. */
  lemma {:induction false} FindInAllAppend(a: seq<Repo>, b: seq<Repo>, id: string)
    ensures FindInAll(a + b, id) == FindInAll(a, id) + FindInAll(b, id)
  {
    if a == [] {
      assert a + b == b;
    } else {
      assert (a + b)[1..] == a[1..] + b;
      FindInAllAppend(a[1..], b, id);
    }
  }

  /** Every member's matches reach the aggregate's lookup: one member cannot hide another. */
  lemma {:induction false} FindInAllHasMember(ms: seq<Repo>, m: Repo, id: string, q: Package)
    requires m in ms
    requires q in FindById(m, id)
    ensures q in FindInAll(ms, id)
  {
    if ms[0] != m {
      FindInAllHasMember(ms[1..], m, id, q);
    }
  }

  /** Everything the aggregate's lookup returns was found by one of its members. */
  lemma {:induction false} FindInAllFromMember(ms: seq<Repo>, id: string, q: Package)
    requires q in FindInAll(ms, id)
    ensures exists m :: m in ms && q in FindById(m, id)
  {
    if q !in FindById(ms[0], id) {
      FindInAllFromMember(ms[1..], id, q);
      var m :| m in ms[1..] && q in FindById(m, id);
      assert m in ms;
    }
  }

  /** The aggregate's enumeration over a split member list is the two enumerations concatenated, in member order. */
  lemma {:induction false} GetAllPackagesAppend(a: seq<Repo>, b: seq<Repo>)
    ensures GetAllPackages(a + b) == GetAllPackages(a) + GetAllPackages(b)
  {
    if a == [] {
      assert a + b == b;
    } else {
      assert (a + b)[1..] == a[1..] + b;
      GetAllPackagesAppend(a[1..], b);
    }
  }

  /** A package is enumerated by an aggregate exactly when some member enumerates it. */
  lemma {:induction false} GetAllPackagesMembership(ms: seq<Repo>, q: Package)
    ensures q in GetAllPackages(ms) <==> exists m :: m in ms && q in GetPackages(m)
  {
    if ms != [] {
      GetAllPackagesMembership(ms[1..], q);
      if q in GetAllPackages(ms[1..]) {
        var m :| m in ms[1..] && q in GetPackages(m);
        assert m in ms;
      }
      if exists m :: m in ms && q in GetPackages(m) {
        var m :| m in ms && q in GetPackages(m);
        if m != ms[0] {
          assert m in ms[1..];
        }
      }
    }
  }
}
