/**
 * The lookup helpers shared by the pages: a status label, a chip colour
 * for a status and a colour band for a score.
 */
module StatusTypes {

  /** The four statuses the backend reports, with their raw string values. */
  datatype CandidateStatus = ScreeningOk | ScreeningFailed | InterviewOk | InterviewFailed
  {
    function Raw(): string {
      match this
      case ScreeningOk => "screening_ok"
      case ScreeningFailed => "screening_failed"
      case InterviewOk => "interview_ok"
      case InterviewFailed => "interview_failed"
    }
  }

  /** The colours a status chip can take. */
  datatype ChipColor = Default | Primary | Secondary | Error | Info | Success | Warning

  /** The fixed label of a known status string, if it is one of the four. */
  function KnownLabel(status: string): (r: string)
  {
    if status == "screening_ok" then "Скрининг резюме пройден"
    else if status == "screening_failed" then "Скрининг резюме не пройден"
    else if status == "interview_ok" then "Интервью пройдено"
    else if status == "interview_failed" then "Интервью не пройдено"
    else ""
  }

  /**
   * getStatusLabel: the label of a known status; any other string is
   * shown as it is (the lookup misses and `||` falls back to the input).
   */
  function StatusLabel(status: string): (r: string)
    ensures status == "screening_ok" ==> r == "Скрининг резюме пройден"
    ensures status == "screening_failed" ==> r == "Скрининг резюме не пройден"
    ensures status == "interview_ok" ==> r == "Интервью пройдено"
    ensures status == "interview_failed" ==> r == "Интервью не пройдено"
    ensures status !in {"screening_ok", "screening_failed", "interview_ok", "interview_failed"} ==> r == status
  {
    var known := KnownLabel(status);
    if known != "" then known else status
  }

  /** getStatusColor: success for the passed stages, error for the failed ones, default otherwise. */
  function StatusColor(status: string): (r: ChipColor)
    ensures r == Success <==> status == "screening_ok" || status == "interview_ok"
    ensures r == Error <==> status == "screening_failed" || status == "interview_failed"
    ensures r == Default <==> status !in {"screening_ok", "screening_failed", "interview_ok", "interview_failed"}
  {
    if status == "screening_ok" || status == "interview_ok" then Success
    else if status == "screening_failed" || status == "interview_failed" then Error
    else Default
  }

  /** Every status the backend reports is a known one: it gets a colour and a label of its own. */
  lemma KnownStatusesAreStyled(s: CandidateStatus)
    ensures StatusColor(s.Raw()) != Default
    ensures StatusLabel(s.Raw()) != s.Raw()
    ensures StatusColor(s.Raw()) == (if s.ScreeningOk? || s.InterviewOk? then Success else Error)
  {
  }

  // ---------------------------------------------------------------------
  // score colour

  const Green := "#4caf50"
  const LightGreen := "#8bc34a"
  const Yellow := "#ffc107"
  const Orange := "#ff9800"
  const Red := "#f44336"

  /** The five score colours from the lowest band to the highest. */
  const ScoreBands: seq<string> := [Red, Orange, Yellow, LightGreen, Green]

  /** getScoreColor: the colour of the band a score falls in. */
  function ScoreColor(score: int): (r: string)
    ensures score >= 90 ==> r == Green
    ensures 70 <= score < 90 ==> r == LightGreen
    ensures 50 <= score < 70 ==> r == Yellow
    ensures 30 <= score < 50 ==> r == Orange
    ensures score < 30 ==> r == Red
  {
    if score >= 90 then Green
    else if score >= 70 then LightGreen
    else if score >= 50 then Yellow
    else if score >= 30 then Orange
    else Red
  }

  /** The position of a colour among the bands, or -1 for a colour that is not one. */
  function BandIndex(color: string): (k: int)
    ensures -1 <= k < |ScoreBands|
    ensures k >= 0 ==> ScoreBands[k] == color
    ensures k == -1 ==> color !in ScoreBands
  {
    if color == Red then 0
    else if color == Orange then 1
    else if color == Yellow then 2
    else if color == LightGreen then 3
    else if color == Green then 4
    else -1
  }

  /** The five band colours are pairwise different. */
  lemma BandsDistinct()
    ensures forall i, j :: 0 <= i < j < |ScoreBands| ==> ScoreBands[i] != ScoreBands[j]
  {
    assert Red[2] == '4' && Orange[2] == 'f' && Yellow[2] == 'f' && LightGreen[2] == 'b' && Green[2] == 'c';
    assert Orange[3] == '9' && Yellow[3] == 'c';
  }

  /** Every score gets exactly one of the five band colours. */
  lemma ScoreColorTotal(score: int)
    ensures 0 <= BandIndex(ScoreColor(score))
    ensures forall j :: 0 <= j < |ScoreBands| ==> (ScoreBands[j] == ScoreColor(score) <==> j == BandIndex(ScoreColor(score)))
  {
    BandsDistinct();
  }

  /** Raising a score never moves it to a lower band. */
  lemma ScoreColorMonotone(lo: int, hi: int)
    requires lo <= hi
    ensures BandIndex(ScoreColor(lo)) <= BandIndex(ScoreColor(hi))
    ensures 0 <= BandIndex(ScoreColor(lo))
  {
  }
}
