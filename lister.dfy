/** `JobsLister`: read-only views of the repository. */
module Lister {
  import opened JobEntity
  import opened Repository

  /** `array_map` of `toArray` over `jobs`. */
  function ArraysOf(jobs: seq<Job>): (r: seq<Entries>)
    ensures |r| == |jobs|
    ensures forall i :: 0 <= i < |r| ==> r[i] == ToArray(jobs[i])
  {
    seq(|jobs|, i requires 0 <= i < |jobs| => ToArray(jobs[i]))
  }

  class JobsLister {
    const repository: MySqlJobRepository

    constructor (repository: MySqlJobRepository)
      ensures this.repository == repository
    {
      this.repository := repository;
    }

    /** `list`: exactly what `findAll` returns. */
    method List() returns (jobs: seq<Job>)
      requires repository.Valid()
      ensures IsListing(repository.rows, jobs)
      ensures forall k :: 0 <= k < |jobs| ==> jobs[k].id.Some? && jobs[k].id.value >= 1
    {
      jobs := repository.FindAll();
    }

    /** `listAsArray`: `toArray` of each job `findAll` returns, in the same order. */
    method ListAsArray() returns (arrays: seq<Entries>)
      requires repository.Valid()
      ensures |arrays| == |repository.rows|
      ensures exists jobs :: IsListing(repository.rows, jobs) && ArraysOf(jobs) == arrays
    {
      var jobs := repository.FindAll();
      arrays := ArraysOf(jobs);
    }

    /** `count`: the repository's `count`. */
    method Count() returns (n: nat)
      requires repository.Valid()
      ensures n == |repository.rows|
    {
      n := repository.Count();
    }
  }
}
