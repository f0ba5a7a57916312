# Badge Tracker — a Dafny model of the page's data handling

The Badge Tracker is a single page that shows members grouped by segment.
When the page mounts, it reads the rows of a spreadsheet (columns name, badge,
date, segment and a reserved column). It turns them into a collection that maps
each segment to its members, and shows one tab per segment. A form adds a
member to the selected segment. The form sends one new row to the sheet and,
when the sheet accepts it, merges the member into the local collection without
reloading.

The model has four modules:

- `Records` (`records.dfy`) holds the values: rows, members, the form draft and
  the collection. The collection is a JavaScript object, so it is modelled as a
  map plus its key order. That key order is what `Object.keys` returns and is
  the tab order. `Push` appends one member under a key and creates the key
  last when it is new. Both the loader's loop and the appender's spread do
  exactly this.
- `Loader` (`loader.dfy`) holds the grouping. `Group` is the recursive
  specification. `GroupRows` is the loop the page runs, and it is proved
  equal to `Group`. Lemmas state what grouping promises: the key set, the
  contents and order of each list, conservation of rows, and first-appearance
  tab order.
- `Appender` (`appender.dfy`) holds the add-member step as a pure function.
  It takes the collection, the draft, the selected segment, today's date and
  the outcome of the append request. It returns the new collection, the new
  draft and the row sent, if any. A lemma shows that the local merge gives the
  collection the loader would build from the old rows followed by the row
  sent. That is what a reload would show only if the sheet appends the row
  at the end and returns its cells exactly as sent.
- `Page` (`page.dfy`) holds the class `HomePage`. Its fields are the page's
  three state cells, and its methods are the page's handlers.

The page takes "today" from `new Date().toISOString()`, which is the UTC
calendar date, not the local one. In the model, `today` is a parameter
meant to hold that UTC date.

## Model

| member | source | states |
|---|---|---|
| `Records.Push` | src/pages/Home.jsx:26-27 | the list under the key gains exactly one trailing member; every other key's list is unchanged; the key set gains the key; an existing key keeps its position in the key order and a new key goes last; collection validity is preserved |
| `Records.PushAddsOne` | src/pages/Home.jsx:27 | one push adds exactly the pushed member to the collection, as a multiset, and drops none; the total member count grows by one |
| `Loader.GroupRows` | src/pages/Home.jsx:24-28 | the create-if-absent-then-push loop over the rows builds exactly the collection `Group` specifies |
| `Loader.GroupValid` | src/pages/Home.jsx:24-28 | a loaded collection lists each of its keys exactly once in its key order, lists nothing else, and has no empty list |
| `Loader.GroupKeys` | src/pages/Home.jsx:23-28 | the collection's keys are exactly the distinct segment values of the rows; no rows give the empty object |
| `Loader.GroupBuckets` | src/pages/Home.jsx:25-28 | each segment's list is the `{name, badge, date}` of exactly the rows carrying that segment, in row order |
| `Loader.GroupSnoc` | src/pages/Home.jsx:25-27 | grouping one more row pushes that row's `{name, badge, date}` onto the collection built from the rows before it |
| `Loader.GroupConserves` | src/pages/Home.jsx:25-28 | all lists together hold exactly the rows' members, as a multiset, so no row is dropped or duplicated |
| `Loader.GroupSize` | src/pages/Home.jsx:25-28 | the lengths of all lists add up to the number of rows |
| `Loader.GroupAddsOne` | src/pages/Home.jsx:25-27 | each row the loop handles adds exactly its own `{name, badge, date}` to the collection and removes nothing; the member count grows by one |
| `Loader.GroupHasKey` | src/pages/Home.jsx:26 | the segment of every row is a key of the collection |
| `Loader.GroupOrderOccurs` | src/pages/Home.jsx:26 | every key in the key order is the segment of some row |
| `Loader.GroupFirstAppearance` | src/pages/Home.jsx:24-28 | the key order, and so the tab order, is first-appearance order: a segment listed before another occurs in the rows before every row of the other |
| `Appender.AddMember` | src/pages/Home.jsx:36-77 | an empty name or badge sends nothing and changes nothing; otherwise the row sent is `[name, badge, today, segment, ""]`; a non-ok or thrown request changes neither the collection nor the draft; an accepted one appends `{name, badge, today}` to the selected segment's list, possibly new, leaves every other list unchanged, puts a new segment last in the tab order, and resets the draft to empty strings; validity is preserved |
| `Appender.AddMemberCount` | src/pages/Home.jsx:62-68 | an accepted submission adds exactly one member to the collection and loses none; any other submission leaves the members as they were |
| `Appender.MergeAgreesWithReload` | src/pages/Home.jsx:39-68 | after an accepted submission, the locally merged collection equals the one the loader builds from the old rows followed by the row that was sent (a reload shows this only if the sheet appends the row last and returns its cells as sent) |
| `Page.HomePage.constructor` | src/pages/Home.jsx:12-14 | initial state: segment "Dragon", the empty collection, an empty draft |
| `Page.HomePage.Segments` | src/pages/Home.jsx:79 | the tabs list each key of the collection exactly once and nothing else |
| `Page.HomePage.OnFetched` | src/pages/Home.jsx:17-34 | a parsed body replaces the collection with its grouped rows; a body without `values`, which is also what an HTTP error answered in JSON gives, yields the empty collection; a read that throws changes nothing; the segment and the draft are untouched |
| `Page.HomePage.SelectSegment` | src/pages/Home.jsx:88 | clicking a tab changes only the selected segment and sends nothing |
| `Page.HomePage.EditName` | src/pages/Home.jsx:114 | typing a name replaces only the draft's name |
| `Page.HomePage.EditBadge` | src/pages/Home.jsx:119 | typing a badge replaces only the draft's badge |
| `Page.HomePage.HandleAddMember` | src/pages/Home.jsx:36-77 | the handler's new collection, new draft and sent row are those of `AddMember` on the state at the click; the selected segment is unchanged; validity is preserved |

## Left out

- Network I/O is not modelled. This covers the read and append requests to the spreadsheet API, the JSON bodies, and the sheet id and API key taken from the environment. The read's outcome is a `FetchResult` parameter, and the append's outcome is a `Response` parameter (`Ok`, `NotOk` or `Thrown`).
- A read whose body is unparsable, or whose `values` is not a list of rows, throws inside the promise chain. The page catches that throw and keeps its state. The model treats it as `FetchFailed`, which has the same effect.
- An HTTP error on the read that is answered with a JSON body (a rejected API key, say) does not throw. Its body has no `values`, so the page quietly sets the empty collection. The model covers this as `Fetched(None)`, not as `FetchFailed`.
- How the sheet stores the appended cells is not modelled. The append asks the sheet to parse them as typed input, and the read returns formatted values, so a name such as `007` or `=1+1` can come back as `7` or `2`. `MergeAgreesWithReload` compares the merge with the loader run on the cells as sent.
- The clock is not modelled: `today` is a parameter.
- `console.error` and `alert` are not modelled. They only report errors and change no state.
- Rendering is not modelled: the JSX, the member cards and the button and card components, which only choose CSS classes.
- Stale state in the add handler is not modelled. Each handler closes over the state of the render it came from, and the model runs one handler at a time on the current state. Two effects follow in the page and are absent from the model. First, two submissions in flight can both merge into the same old collection, so one entry is lost locally. Second, a submission clicked before the initial read finishes merges into the `{}` captured at the click. Its `setData` then replaces the loaded collection with that single segment.
- Short rows are not modelled. A row with fewer than four cells would group under the literal key "undefined". Every `Row` has all five columns.
- JavaScript's key order puts integer-like keys first, in numeric order. The model's key order is insertion order, which matches only for ordinary segment names.
- Segment names that are properties of `Object.prototype` (such as "constructor" or "toString") are not modelled. For those names, the lookup `data[seg]` finds an inherited value that is truthy and is not an array, so the push or spread throws. Reading such a row would leave the page's state unchanged, and adding to such a segment would raise the error alert.
