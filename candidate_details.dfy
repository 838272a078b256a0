/**
 * The candidate detail page: the candidate looked up by the route's id,
 * and the archive button that flips the archived flag of the page's copy.
 */
module CandidateDetails {
  import opened Wrappers
  import opened Candidates

  /**
   * Array.prototype.find on the id: the first candidate whose id equals the
   * route parameter. A missing parameter (None) matches no candidate.
   */
  function FindById(cs: seq<Candidate>, routeId: Option<string>): (r: Option<Candidate>)
    ensures r.Some? ==> routeId.Some? && r.value in cs && r.value.id == routeId.value
    ensures routeId.None? ==> r.None?
  {
    if routeId.None? || cs == [] then None
    else if cs[0].id == routeId.value then Some(cs[0])
    else FindById(cs[1..], routeId)
  }

  /**
   * The lookup fails exactly when no candidate carries the id; when it
   * succeeds it returns the candidate at the first index with that id.
   */
  lemma {:induction false} FindByIdFirst(cs: seq<Candidate>, routeId: Option<string>)
    ensures FindById(cs, routeId).None? <==>
      routeId.None? || forall i :: 0 <= i < |cs| ==> cs[i].id != routeId.value
    ensures FindById(cs, routeId).Some? ==>
      exists k :: 0 <= k < |cs| && cs[k] == FindById(cs, routeId).value
        && cs[k].id == routeId.value
        && forall i :: 0 <= i < k ==> cs[i].id != routeId.value
  {
    if routeId.None? || cs == [] {
    } else if cs[0].id == routeId.value {
      assert cs[0] == FindById(cs, routeId).value;
    } else {
      FindByIdFirst(cs[1..], routeId);
      forall i | 0 <= i < |cs[1..]| ensures cs[1..][i] == cs[i + 1] {}
      if FindById(cs, routeId).Some? {
        var k :| 0 <= k < |cs[1..]| && cs[1..][k] == FindById(cs, routeId).value
          && cs[1..][k].id == routeId.value
          && forall i :: 0 <= i < k ==> cs[1..][i].id != routeId.value;
        assert cs[k + 1] == FindById(cs, routeId).value;
        forall i | 0 <= i < k + 1 ensures cs[i].id != routeId.value {
          if i > 0 { assert cs[1..][i - 1] == cs[i]; }
        }
      }
    }
  }

  /** The page's copy of a candidate with the archived flag flipped; every other field is kept. */
  function ToggledArchive(c: Candidate): (r: Candidate)
    ensures r.isArchived == !c.isArchived
    ensures r.(isArchived := c.isArchived) == c
  {
    c.(isArchived := !c.isArchived)
  }

  /** Pressing the archive button twice restores the candidate. */
  lemma ToggledArchiveTwice(c: Candidate)
    ensures ToggledArchive(ToggledArchive(c)) == c
  {
  }

  class CandidateDetailsPage {
    /** The candidate shown, or None when the route's id matched nobody. */
    var candidate: Option<Candidate>

    /** The page opens on the first candidate whose id is the route's id. */
    constructor (all: seq<Candidate>, routeId: Option<string>)
      ensures candidate == FindById(all, routeId)
    {
      candidate := FindById(all, routeId);
    }

    /** The page shows the not-found alert instead of the candidate. */
    predicate NotFound()
      reads this
    {
      candidate.None?
    }

    /**
     * Flips the archived flag of the shown candidate; does nothing when no
     * candidate was found. The id, name and every other field stay.
     */
    method HandleArchiveToggle()
      modifies this`candidate
      ensures old(candidate).None? ==> candidate == old(candidate)
      ensures old(candidate).Some? ==> candidate == Some(ToggledArchive(old(candidate).value))
      ensures NotFound() == old(NotFound())
    {
      if candidate.Some? {
        candidate := Some(ToggledArchive(candidate.value));
      }
    }
  }
}
