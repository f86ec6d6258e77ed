/**
 * Record shapes of the legislative-vote store: the votation metadata table,
 * the per-deputy vote table, the rows the scraper hands over, and the small
 * Option/Result wrappers the other modules use for absent values and errors.
 */
module Records {

  datatype Option<+T> = None | Some(value: T) {
    function GetOr(default: T): T {
      match this
      case Some(v) => v
      case None => default
    }
  }

  datatype Result<+R, +E> = Success(value: R) | Failure(error: E)

  /** No element occurs twice. */
  predicate NoDup<T(==)>(s: seq<T>) {
    forall i, j :: 0 <= i < j < |s| ==> s[i] != s[j]
  }

  /** The vote strings the chamber's site publishes. */
  const AFIRMATIVO: string := "AFIRMATIVO"
  const NEGATIVO: string := "NEGATIVO"
  const ABSTENCION: string := "ABSTENCION"
  const SIN_VOTAR: string := "SIN VOTAR"
  const AUSENTE: string := "AUSENTE"
  /** The presiding officer's row: not an ordinary vote. */
  const PRESIDENTE: string := "PRESIDENTE"

  /** One row of the `votation_metadata` table; `id` is its primary key. */
  datatype VotationMetadata = VotationMetadata(
    id: string,
    date: string,
    title: string,
    kind: string,
    result: string,
    loaded: bool,
    analyzed: bool)

  /**
   * One scraped metadata entry, as handed to the table constructor: the two
   * status columns may be absent, in which case the column default applies.
   */
  datatype VotationEntry = VotationEntry(
    id: string,
    date: string,
    title: string,
    kind: string,
    result: string,
    loaded: Option<bool>,
    analyzed: Option<bool>)

  /** The row the table constructor builds from an entry: `loaded` and `analyzed` default to false. */
  function NewVotationMetadata(e: VotationEntry): (m: VotationMetadata)
    ensures m.id == e.id && m.date == e.date && m.title == e.title
    ensures m.kind == e.kind && m.result == e.result
    ensures m.loaded <==> e.loaded == Some(true)
    ensures m.analyzed <==> e.analyzed == Some(true)
  {
    VotationMetadata(e.id, e.date, e.title, e.kind, e.result,
                     e.loaded.GetOr(false), e.analyzed.GetOr(false))
  }

  /** One row of the `deputies_votes` table (its autoincrement key is the row's position). */
  datatype DeputyVote = DeputyVote(
    voteId: string,
    deputy: string,
    block: string,
    province: string,
    vote: string)

  /** One record returned by the vote scraper for a votation, before it is tagged with the votation id. */
  datatype ScrapedVote = ScrapedVote(
    deputy: string,
    block: string,
    province: string,
    vote: string)

  /** The table row built from a scraped record once `vote_id` is set to its votation's id. */
  function TagVote(id: string, s: ScrapedVote): (v: DeputyVote)
    ensures v.voteId == id
    ensures v.deputy == s.deputy && v.block == s.block
    ensures v.province == s.province && v.vote == s.vote
  {
    DeputyVote(id, s.deputy, s.block, s.province, s.vote)
  }
}
