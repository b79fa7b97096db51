# County reconciliation and classification, modelled in Dafny

The digital-divide cartogram draws one shape per U.S. county and colours it by
broadband availability or usage. Before drawing, it joins two datasets: the
county features decoded from the U.S. topology, and the rows of the broadband
table. This project models that pipeline in `src/js/graphic.js` and proves
properties about it:

- `fixDiscrepancies` reconciles the two datasets. It drops territories, meaning
  ids above 57000 and ids that do not coerce to a number. It then drops every
  remaining county whose id has no broadband row.
- `generateCountyData` merges the reconciled counties with the table. For each
  county it uses `find` to look up the first row with the same numeric id. It
  then replaces the county's properties with that row's name, state,
  availability and usage.
- `filterCounties` classifies a merged county as `"selected-county"` or
  `"unselected-county"` against the slider threshold. The summary next to the
  slider counts the selected counties.

Ids are compared after the unary `+` coercion, so `"00501"` and `501` are the
same county. The model writes JavaScript numbers as `JsNumber = NaN | Num(real)`.
Under strict equality and ordered comparison NaN matches nothing. Raw ids are
`RawValue = Number | Text | Undefined`, and `ToNumber` models the coercion.

Modules, one per file:

- `JsNumbers` (`js_numbers.dfy`): coercion, `===`, `<=`, `>=`, `indexOf`.
- `Sequences` (`sequences.dfy`): `filter`, counting, subsequences.
- `Counties` (`counties.dfy`): the feature and broadband-row records.
- `Reconcile` (`reconcile.dfy`): `fixDiscrepancies`.
- `Merge` (`merge.dfy`): `find` and `generateCountyData`.
- `Classify` (`classify.dfy`): `filterCounties` and the selected count.
- `EndToEnd` (`end_to_end.dfy`): a worked example of the pipeline, proved on one input.

The source mutates its input: it assigns `counties.features` in place. The
model returns the reconciled pair as a new value instead.

Consider geometry ids 1, 2, 3, 57001 and 60010 against table ids 1, 2, 3 and
57001. One might expect county 57001 to survive, because it has a row. The
territory filter `+county.id <= 57000` drops it anyway, so the merged output
holds only 1, 2 and 3. `EndToEnd.FixDiscrepanciesExample` proves that outcome.
The broadband table is returned untouched, so it may hold ids that match no
county. The reconciled county ids are therefore a subset of the table ids, not
equal to them: every surviving county has a row.

## Model

| member | source | states |
|---|---|---|
| JsNumbers.ZeroPaddingCoercesAlike | src/js/graphic.js:46 | For every digit-string id, prefixing any number of zeros leaves its coerced value unchanged, so "00501" and "501" coerce alike |
| JsNumbers.PaddedCodeMatchesNumber | src/js/graphic.js:46 | A county code padded with any number of leading zeros, such as "00501", is `===` to the plain number 501 once both sides are coerced |
| JsNumbers.DecimalTextRoundTrip | src/js/graphic.js:46 | Writing a natural number in decimal and coercing the text back gives the same number |
| JsNumbers.LeadingZerosIgnored | src/js/graphic.js:46 | Leading zeros do not change the value a digit string coerces to |
| JsNumbers.IndexOf | src/js/graphic.js:32-34 | `indexOf` returns the first position holding a `===` number, or -1 exactly when no position does (so NaN is never found) |
| Counties.RowIds | src/js/graphic.js:28 | The broadband id list has one entry per row, in row order, each being that row's coerced id |
| Counties.FeatureIds | src/js/graphic.js:29 | The county id list has one entry per remaining feature, in order, each being that feature's coerced id |
| Sequences.Filter | src/js/graphic.js:25-35 | `filter` keeps exactly the elements that pass the test: none is added, and every passing element appears |
| Sequences.FilterIsSubsequence | src/js/graphic.js:25-35 | A filter result is an order-preserving subsequence of its input and holds no element more often than the input does |
| Sequences.FilterIdempotent | src/js/graphic.js:25-35 | Filtering twice by the same test gives the same result as filtering once |
| Sequences.CountMonotone | src/js/graphic.js:161-165 | A test that passes fewer elements never yields a larger count |
| Reconcile.RowIdsIndexOf | src/js/graphic.js:28-32 | `indexOf` finds an id among the broadband ids exactly when some broadband row has that id |
| Reconcile.NoDataMembership | src/js/graphic.js:31-35 | For a numeric county id, "not among the ids missing from the table" holds exactly when the id has a broadband row |
| Reconcile.SourceFiltersKeepSurvivors | src/js/graphic.js:24-35 | The source's territory filter followed by its `noData` filter keeps the same features as one filter by "id at most 57000 and has a row" |
| Reconcile.FixDiscrepancies | src/js/graphic.js:19-38 | The broadband rows come back unchanged. The surviving features are a subsequence of the input and add no duplicates. Each survivor has a numeric id of at most 57000 that occurs among the row ids. Every input feature meeting both conditions survives |
| Reconcile.FixDiscrepanciesIsFilter | src/js/graphic.js:19-38 | Reference definition: the reconciled features are the input filtered by "numeric id at most 57000 and has a broadband row" |
| Reconcile.FixDiscrepanciesIdempotent | src/js/graphic.js:19-38 | Reconciling the reconciled output against the same rows returns it unchanged |
| Merge.Find | src/js/graphic.js:45-47 | `find` comes back empty exactly when no row has the id; otherwise it returns the first row whose id is `===` to it |
| Merge.MergeCounty | src/js/graphic.js:44-61 | A county merges exactly when it has a row, and otherwise fails with the error naming it. A merged county keeps its id and geometry and takes name, state, availability and usage from its first matching row |
| Merge.MergeAll | src/js/graphic.js:44-62 | The `map` completes exactly when every county has a row, with one merged record per county in order. Otherwise it fails on the first county without a row |
| Merge.GenerateCountyData | src/js/graphic.js:40-65 | The merge never fails after reconciliation, so the `countyInfo == null` branch is unreachable. It returns one record per reconciled county, in order, each built from its county and the first row with that id |
| Classify.ClassifyMonotone | src/js/graphic.js:67-71 | Raising the threshold never turns an unselected county into a selected one |
| Classify.SelectedCountIsFilter | src/js/graphic.js:161-165 | The summary count equals the number of counties whose chosen metric reaches the slider value divided by 100 |
| Classify.MergedCountyClassification | src/js/graphic.js:44-71 | The class of each merged county is decided by its first matching broadband row: the county is "selected-county" exactly when that row's chosen metric is a number at least the threshold |
| Classify.SelectedCountMonotone | src/js/graphic.js:154-165 | Moving the slider up never increases the summary count |
| EndToEnd.FixDiscrepanciesExample | src/js/graphic.js:19-38 | With padded codes 1, 2, 3, 57001 and 60010 against rows 1, 2, 3 and 57001, only counties 1, 2 and 3 survive, in order |
| EndToEnd.GenerateCountyDataExample | src/js/graphic.js:40-65 | On that input the merge yields three records, keeping the padded codes "00001", "00002" and "00003" as ids |

## Left out

- JsNumbers.ToNumber: covers only the empty string, ASCII digit strings, numbers and `undefined`. Every other string is treated as NaN. JavaScript would also trim whitespace and read signs, decimal points, exponents, hex/octal/binary prefixes and `Infinity`. County codes are digit strings, so these cases do not arise in the data.
- JsNumbers.ZeroPaddingCoercesAlike: the lemma also covers strings that are not all digits, where padding keeps the model's coercion at NaN. That half holds only for the model's coercion, not for JavaScript's `+`: "x1F" is NaN but "0x1F" is 31, and "e5" is NaN but "0e5" is 0. Only the digit-string half is claimed as behaviour of line 46.
- Infinity and negative zero are not part of `JsNumber`, and arithmetic is exact `real` arithmetic rather than IEEE doubles. This covers `threshold / 100` too.
- The text-to-number coercion of the broadband table's `availability` and `usage` cells is not modelled. Rows carry the coerced number, NaN included.
- The slider value is taken as a number. The string-to-number step of `threshold / 100` is abstracted.
- `filterCounties` is modelled only for the keys `availability` and `usage`. Line 107 passes `"availability"`, and `usage` is the other metric the merge writes at line 59. Line 160 takes the key from `summaryType.node().value`, whose possible values are set outside `src/js/graphic.js`. Any other property key is not modelled.
- A feature is modelled only as its id, geometry and properties. Any other fields copied by the `...county` spread are not modelled.
- The in-place assignment to `counties.features` is not modelled. The model returns a new value.
- `console.log(county)` at line 50 is a side effect only, and `Merge.GenerateCountyData` proves it unreachable.
- `generateCartogram`, `setupCartogram` and `updateCartogram` (SVG, d3 projection, slider and DOM wiring, text formatting) are not modelled. They are presentation over libraries this model cannot see. Only the selected count they display is kept, as `Classify.SelectedCount`.
- `init` and `loadData` (asynchronous loading) are not modelled. `topojson.feature` and `topojson.mesh` (topology decoding) are also out: the decoded feature list is an input sequence, and geometry is a type parameter.
- `src/js/main.js` (resize, mobile detection, header and modal setup) and `webpack.config.js` (build configuration) contain no pipeline logic.
- Identifier normalisation to a fixed width, patch-by-name repair, mean/median aggregation and ranked top-K selection are not modelled. None of them exists in `src/js/graphic.js`.
