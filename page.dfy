/**
 * The Badge Tracker page's state: the selected segment, the segment
 * collection and the form draft, each held in a state cell that the page's
 * handlers replace wholesale.
 */
module Page {
  import opened Records
  import opened Loader
  import opened Appender

  /**
   * How the initial read of the sheet ended: a parsed JSON body, whose
   * `values` field may be missing, or a thrown error. An HTTP error answered
   * with a JSON body (a rejected key, say) does not throw: it is a parsed
   * body without `values`, so `Fetched(None)`.
   */
  datatype FetchResult = Fetched(values: Option<seq<Row>>) | FetchFailed

  /** The segment selected before any tab is clicked. */
  const DefaultSegment: string := "Dragon"

  class HomePage {
    var segment: string
    var data: Collection
    var draft: Draft

    ghost predicate Valid()
      reads this
    {
      Records.Valid(data)
    }

    /** First render: the default segment, an empty collection and an empty draft. */
    constructor ()
      ensures Valid()
      ensures segment == DefaultSegment && data == Empty && draft == Draft("", "")
    {
      segment := DefaultSegment;
      data := Empty;
      draft := Draft("", "");
    }

    /** The tabs: the collection's keys in key order. */
    function Segments(): (tabs: seq<string>)
      reads this
      requires Valid()
      ensures Distinct(tabs)
      ensures forall s :: s in tabs <==> s in data.buckets
    {
      data.order
    }

    /**
     * The mount effect's continuation: a parsed body replaces the
     * collection with its rows grouped by segment (with the empty object
     * when the body has no `values`, as for an HTTP error answered in JSON);
     * a read that throws changes nothing.
     */
    method OnFetched(result: FetchResult)
      requires Valid()
      modifies this
      ensures Valid()
      ensures result.Fetched? ==> data == Group(RowsOf(result.values))
      ensures result.FetchFailed? ==> data == old(data)
      ensures segment == old(segment) && draft == old(draft)
    {
      match result
      case FetchFailed =>
      case Fetched(values) =>
        var rows := RowsOf(values);
        data := GroupRows(rows);
        GroupValid(rows);
    }

    /** Clicking a tab selects its segment; nothing else changes and nothing is sent. */
    method SelectSegment(s: string)
      modifies this
      ensures segment == s && data == old(data) && draft == old(draft)
    {
      segment := s;
    }

    /** Typing in the name field replaces the draft's name. */
    method EditName(name: string)
      modifies this
      ensures draft == Draft(name, old(draft).badge)
      ensures segment == old(segment) && data == old(data)
    {
      draft := draft.(name := name);
    }

    /** Typing in the badge field replaces the draft's badge. */
    method EditBadge(badge: string)
      modifies this
      ensures draft == Draft(old(draft).name, badge)
      ensures segment == old(segment) && data == old(data)
    {
      draft := draft.(badge := badge);
    }

    /**
     * The "Add Member" button: submits the draft for the selected segment
     * and returns the row sent to the sheet, if any.
     */
    method HandleAddMember(today: string, response: Response) returns (request: Option<Row>)
      requires Valid()
      modifies this
      ensures Valid()
      ensures var r := AddMember(old(data), old(draft), old(segment), today, response);
              data == r.data && draft == r.draft && request == r.request
      ensures segment == old(segment)
    {
      var r := AddMember(data, draft, segment, today, response);
      data, draft, request := r.data, r.draft, r.request;
    }
  }
}
