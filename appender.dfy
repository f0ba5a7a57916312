/**
 * The appender: validates the draft, sends one new row to the sheet and, when
 * the sheet accepts it, merges the new member into the local collection
 * without reloading.
 */
module Appender {
  import opened Records
  import opened Loader

  /**
   * How the append request ended: accepted, answered with a non-success
   * status, or failed by throwing (a network error).
   */
  datatype Response = Ok | NotOk | Thrown

  /** The page's collection and draft after a submission, and the row sent to the sheet, if any. */
  datatype AddResult = AddResult(data: Collection, draft: Draft, request: Option<Row>)

  /** The guard: both the name and the badge must be non-empty. */
  predicate Submittable(draft: Draft) {
    draft.name != "" && draft.badge != ""
  }

  /**
   * One submission of the add-member form. `today` is the submission's UTC
   * calendar date and `response` the outcome of the append request; both
   * are parameters because the clock and the network are outside the model.
   */
  function AddMember(data: Collection, draft: Draft, segment: string, today: string, response: Response): (r: AddResult)
    // an empty name or badge: nothing is sent and nothing changes
    ensures !Submittable(draft) ==> r == AddResult(data, draft, None)
    // otherwise exactly one row goes out: name, badge, date, segment and an empty reserved column
    ensures Submittable(draft) ==> r.request == Some(Row(draft.name, draft.badge, today, segment, ""))
    // a rejected or failed request changes neither the collection nor the draft
    ensures response != Ok ==> r.data == data && r.draft == draft
    // an accepted one appends the new member to the selected segment only, and clears the draft
    ensures Submittable(draft) && response == Ok ==>
              && Get(r.data, segment) == Get(data, segment) + [Member(draft.name, draft.badge, today)]
              && (forall s :: s != segment ==> Get(r.data, s) == Get(data, s))
              && r.data.buckets.Keys == data.buckets.Keys + {segment}
              && r.draft == Draft("", "")
    // a new segment becomes the last tab; an existing one keeps its place
    ensures segment in data.buckets ==> r.data.order == data.order
    ensures segment !in data.buckets && Submittable(draft) && response == Ok ==> r.data.order == data.order + [segment]
    ensures Valid(data) ==> Valid(r.data)
  {
    if !Submittable(draft) then AddResult(data, draft, None)
    else
      var request := Row(draft.name, draft.badge, today, segment, "");
      if response != Ok then AddResult(data, draft, Some(request))
      else
        var entry := Member(draft.name, draft.badge, today);
        AddResult(Push(data, segment, entry), Draft("", ""), Some(request))
  }

  /**
   * An accepted submission adds exactly one member to the collection and
   * loses none; any other submission leaves the members as they were.
   */
  lemma AddMemberCount(data: Collection, draft: Draft, segment: string, today: string, response: Response)
    requires Valid(data)
    ensures var r := AddMember(data, draft, segment, today, response);
            if Submittable(draft) && response == Ok then
              multiset(Flatten(r.data)) == multiset(Flatten(data)) + multiset{Member(draft.name, draft.badge, today)}
              && |Flatten(r.data)| == |Flatten(data)| + 1
            else Flatten(r.data) == Flatten(data)
  {
    if Submittable(draft) && response == Ok {
      PushAddsOne(data, segment, Member(draft.name, draft.badge, today));
    }
  }

  /**
   * The local merge agrees with the loader: after an accepted submission on
   * a collection loaded from `rows`, the collection is what the loader would
   * build from `rows` followed by the row that was sent. It equals what a
   * reload would show only if the sheet appended that row after the
   * existing rows and returns its cells exactly as they were sent.
   */
  lemma MergeAgreesWithReload(rows: seq<Row>, draft: Draft, segment: string, today: string)
    requires Submittable(draft)
    ensures var r := AddMember(Group(rows), draft, segment, today, Ok);
            r.request.Some? && r.data == Group(rows + [r.request.value])
  {
    var sent := Row(draft.name, draft.badge, today, segment, "");
    assert (rows + [sent])[..|rows|] == rows;
  }
}
