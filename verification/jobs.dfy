/**
 * The `search_jobs` tool of main.py: after navigation, the first `max_jobs`
 * job cards become records with defaulted fields and a best-effort
 * description fetched from each card's detail page.
 */
module Jobs {
  import opened Wrappers
  import opened Util
  import Auth
  import Navigation

  /** What fetching a card's detail page gives. */
  datatype Enrichment =
    | NoLink             // no link element, or the link has no `href`
    | Fails              // the detail page or its description region could not be read
    | Desc(text: string) // the description region's text

  /** A job card: its sub-element texts when present, its enrichment, and whether reading the card raises. */
  datatype Card = Card(title: Option<string>, company: Option<string>, location: Option<string>,
                       enrichment: Enrichment, raises: bool)

  /** A returned job record; `description` is `None` when the dictionary has no `description` key. */
  datatype JobRecord = JobRecord(title: string, company: string, location: string, description: Option<string>)

  const Unknown := "Unknown"
  const DescriptionLimit: nat := 500
  const Ellipsis := "..."
  const JobsErrorPrefix := "Error searching LinkedIn jobs: "

  /** The first 500 characters of the description text, always followed by "...". */
  function Description(text: string): (d: string)
    ensures |d| == Min(|text|, DescriptionLimit) + |Ellipsis|
    ensures |d| <= DescriptionLimit + |Ellipsis|
    ensures d[..|d| - |Ellipsis|] == text[..|d| - |Ellipsis|]
    ensures d[|d| - |Ellipsis|..] == Ellipsis
  {
    Take(text, DescriptionLimit) + Ellipsis
  }

  /** The record for a card that can be read. */
  function Record(c: Card): (r: JobRecord)
    ensures c.title.None? ==> r.title == Unknown
    ensures c.company.None? ==> r.company == Unknown
    ensures c.location.None? ==> r.location == Unknown
    // a field that is present is copied as it is
    ensures c.title.Some? ==> r.title == c.title.value
    ensures c.company.Some? ==> r.company == c.company.value
    ensures c.location.Some? ==> r.location == c.location.value
    // a failed or impossible enrichment only leaves the description out
    ensures r.description.Some? <==> c.enrichment.Desc?
    ensures c.enrichment.Desc? ==> r.description == Some(Description(c.enrichment.text))
  {
    JobRecord(c.title.GetOr(Unknown), c.company.GetOr(Unknown), c.location.GetOr(Unknown),
              if c.enrichment.Desc? then Some(Description(c.enrichment.text)) else None)
  }

  /** Reference definition: the records of all readable cards, in page order. */
  function Records(cards: seq<Card>): seq<JobRecord> {
    if cards == [] then []
    else (if cards[0].raises then [] else [Record(cards[0])]) + Records(cards[1..])
  }

  lemma {:induction false} RecordsAppend(a: seq<Card>, b: seq<Card>)
    ensures Records(a + b) == Records(a) + Records(b)
    decreases |a|
  {
    if a == [] {
      assert a + b == b;
    } else {
      assert (a + b)[1..] == a[1..] + b;
      RecordsAppend(a[1..], b);
    }
  }

  /** Every card that can be read gives exactly one record, in order, whatever its enrichment outcome. */
  lemma {:induction false} RecordsOfReadableCards(cards: seq<Card>)
    requires forall i :: 0 <= i < |cards| ==> !cards[i].raises
    ensures |Records(cards)| == |cards|
    ensures forall i :: 0 <= i < |cards| ==> Records(cards)[i] == Record(cards[i])
    decreases |cards|
  {
    if cards != [] {
      RecordsOfReadableCards(cards[1..]);
    }
  }

  /** At most one record per card. */
  lemma {:induction false} RecordsBound(cards: seq<Card>)
    ensures |Records(cards)| <= |cards|
    decreases |cards|
  {
    if cards != [] {
      RecordsBound(cards[1..]);
    }
  }

  /** Two cards that differ only in their enrichment outcome. */
  predicate SameButEnrichment(c: Card, d: Card) {
    c.title == d.title && c.company == d.company && c.location == d.location && c.raises == d.raises
  }

  /**
   * Enrichment never removes or reorders records: changing any card's
   * enrichment outcome changes at most the descriptions.
   */
  lemma {:induction false} EnrichmentOnlyAffectsDescription(cards: seq<Card>, others: seq<Card>)
    requires |cards| == |others|
    requires forall i :: 0 <= i < |cards| ==> SameButEnrichment(cards[i], others[i])
    ensures |Records(cards)| == |Records(others)|
    ensures forall i :: 0 <= i < |Records(cards)| ==>
              Records(cards)[i].(description := None) == Records(others)[i].(description := None)
    decreases |cards|
  {
    if cards != [] {
      EnrichmentOnlyAffectsDescription(cards[1..], others[1..]);
    }
  }

  /** The card loop of `search_jobs` over `jobs[:max_jobs]`. */
  method BuildRecords(jobs: seq<Card>, maxJobs: int) returns (results: seq<JobRecord>)
    ensures results == Records(SliceTo(jobs, maxJobs))
    ensures maxJobs >= 0 ==> |results| <= Min(maxJobs, |jobs|)
    ensures maxJobs >= 0 && (forall i :: 0 <= i < |jobs| ==> !jobs[i].raises) ==>
              |results| == Min(maxJobs, |jobs|)
  {
    var selected := SliceTo(jobs, maxJobs);
    results := [];
    var i := 0;
    while i < |selected|
      invariant 0 <= i <= |selected|
      invariant results == Records(selected[..i])
    {
      var job := selected[i];
      assert selected[..i + 1] == selected[..i] + [job];
      RecordsAppend(selected[..i], [job]);
      if !job.raises {
        var title := if job.title.Some? then job.title.value else Unknown;
        var company := if job.company.Some? then job.company.value else Unknown;
        var location := if job.location.Some? then job.location.value else Unknown;
        var description: Option<string> := None;
        match job.enrichment {
          case Desc(text) =>
            description := Some(Take(text, DescriptionLimit) + Ellipsis);
          case NoLink =>
          case Fails =>
        }
        results := results + [JobRecord(title, company, location, description)];
      }
      i := i + 1;
    }
    assert selected[..i] == selected;
    RecordsBound(selected);
    if maxJobs >= 0 && forall k :: 0 <= k < |jobs| ==> !jobs[k].raises {
      assert forall k :: 0 <= k < |selected| ==> selected[k] == jobs[k];
      RecordsOfReadableCards(selected);
    }
  }

  /**
   * The whole `search_jobs` tool: the session gate, the job navigation loop
   * (an empty list when the "no results" banner shows), then the card loop.
   */
  method SearchJobs(sessionSaved: bool, attempts: seq<Navigation.JobAttempt>, jobs: seq<Card>, maxJobs: int)
    returns (r: Result<seq<JobRecord>, string>)
    requires |attempts| >= Navigation.MaxAttempts
    ensures !sessionSaved ==> r == Err(Auth.NotAuthenticated)
    ensures sessionSaved ==>
              match Navigation.JobNavigation(attempts)
              case CardsReady(_) => r == Ok(Records(SliceTo(jobs, maxJobs)))
              case NoResults(_) => r == Ok([])
              case JobNavFailed(message) => r == Err(JobsErrorPrefix + message)
  {
    if !sessionSaved {
      return Err(Auth.NotAuthenticated);
    }
    var nav := Navigation.NavigateJobs(attempts);
    match nav {
      case NoResults(_) =>
        return Ok([]);
      case JobNavFailed(message) =>
        return Err(JobsErrorPrefix + message);
      case CardsReady(_) =>
        var results := BuildRecords(jobs, maxJobs);
        return Ok(results);
    }
  }
}
