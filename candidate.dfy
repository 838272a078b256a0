/**
 * The candidate record as the list and detail pages use it (the shape of
 * the records in the page's data, not the backend's Candidate DTO).
 */
module Candidates {
  import opened Wrappers

  /** The eight stages the candidate list ranks and filters by. */
  datatype ListStatus =
    | Pending
    | Screening
    | AwaitingInterview
    | InterviewInProgress
    | InterviewCompleted
    | Approved
    | RejectedScreening
    | RejectedInterview

  /** A candidate's application; `appliedAt` is a time in milliseconds, a missing score is None. */
  datatype Candidate = Candidate(
    id: string,
    fullName: string,
    vacancyTitle: string,
    status: ListStatus,
    screeningScore: Option<int>,
    interviewScore: Option<int>,
    appliedAt: int,
    isArchived: bool)
}
