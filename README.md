# Prospect import service: a Dafny model of its CRUD layer and import endpoint

The service keeps contacts ("prospects") and uploaded import files per user.
This project models three parts of it over an in-memory, owner-scoped store:

- **The import endpoint** (`import_prospects_file`). It builds the column-index
  list, with a quirk inherited from Python truthiness: a first- or last-name
  index of `0` counts as "not supplied". It then refuses repeated indexes,
  then negative ones, then files over the size limit, always in that order.
  After that it walks the rows, skipping row 0 when `has_headers` is set and
  reading the email column of every other row. On success it returns a fixed
  "hello world" reply. The page endpoint and the progress stub are modelled too.
- **`ProspectCrud`**. Paging clamps `page` up to `MIN_PAGE` and `page_size`
  down to `MAX_PAGE_SIZE`, then takes a window of the user's prospects. The
  other operations are: a per-user count, create, a name-only update by
  (user, email), lookup by (user, email), a conditional file link, and
  narrowing candidate ids to the ones the user owns.
- **`FileCrud`**. `create_file`, the owner-scoped `get_file` lookup, and
  `update_file_progress`, which adds exactly one to `done_rows`.

Layout, one module per file:

- `wrappers.dfy` (`Wrappers`): `Option` and `Result`.
- `query.dfy` (`Query`): the ORM query operations the CRUD code uses, over a
  table held as a sequence of rows in storage order. These are `filter`,
  `count`, `first`, `one_or_none` and `offset`/`limit`, with lemmas about them.
- `models.dfy` (`Models`): the prospect and file records, the filters, and the
  `Db` class. `Db` is the session: both tables and the autoincrement counters,
  with an invariant that ids are unique.
- `prospect_crud.dfy`, `file_crud.dfy`, `prospects_router.dfy`: the three
  source files.
- `import_scenarios.dfy`: concrete import requests. Their outcomes follow from
  the endpoint's contract alone.

Operations that change the store are module-level methods that take the
session `db: Db` and declare `modifies db`. Their
`ensures` give the new tables in terms of the old ones. Queries are functions
on the tables. The two missing-record paths are modelled as an
`Err(MissingRecord)` outcome that leaves the store unchanged. In the source,
`update_prospect` and `update_file_progress` dereference `None` there.

The model follows what the code does, including where an import service
would be expected to behave otherwise:

- The import endpoint does not deduplicate, record per-row outcomes, return a
  summary or finalise the import job; it only checks the request, reads each
  row's email column and answers "hello world".
- A request `{email: 0, first_name: 0}` is not a duplicate-index error: a name
  index of `0` is dropped before the comparison, so the request is accepted
  (`ImportScenarios.ZeroNameIndexNotCompared`).
- The progress endpoint does not report the job's counts; it always returns
  total 0, done 0.
- Nothing keeps `done_rows <= total_rows`: `update_file_progress` adds one
  without a check, and the model claims no such bound.
- Emails are compared with plain equality, not case-insensitively.

## Model

| member | source | states |
|---|---|---|
| `Query.Filter` | server/api/crud/prospect.py:23-24 | every row returned satisfies the filter and is stored; every stored row that satisfies it is returned; no more rows than stored |
| `Query.Count` | server/api/crud/prospect.py:32 | count is at most the table size and is 0 exactly when no row matches (that it equals the filtered rows' length is the ensures of the lemma `Query.CountIsFilterLength`) |
| `Query.CountIsNumberOfMatchingPositions` | server/api/crud/prospect.py:32 | count equals the number of table positions whose row satisfies the filter |
| `Query.FirstIndex` | server/api/crud/prospect.py:47-52 | `.first()`: a position of a matching row with no match before it; none exactly when nothing matches |
| `Query.First` | server/api/crud/file.py:27-32 | `.first()` returns a stored matching row, and None exactly when no stored row matches |
| `Query.OneOrNone` | server/api/crud/prospect.py:81-86 | `.one_or_none()` fails with MultipleResultsFound exactly when more than one row matches; None exactly when none does; otherwise a stored matching row |
| `Query.OffsetLimit` | server/api/crud/prospect.py:25-27 | window of `min(limit, max(0, n - offset))` rows starting at `offset`; error exactly when offset or limit is negative, offset reported first |
| `Query.AtMostOneWithKey` | server/api/crud/prospect.py:61-73 | a filter pinning a unique key (the primary-key id) matches at most one row, so `one_or_none` cannot fail on it |
| `ProspectCrud.GetUsersProspects` | server/api/crud/prospect.py:10-28 | page raised to `MIN_PAGE`, page size lowered to `MAX_PAGE_SIZE` and nothing else clamped; result is the window of the user's prospects at `page*page_size`; at most the clamped page size; every row belongs to the user |
| `ProspectCrud.GetUserProspectsTotal` | server/api/crud/prospect.py:30-32 | the number of stored prospects whose user id is `user_id` |
| `ProspectCrud.CreateProspect` | server/api/crud/prospect.py:34-43 | appends exactly one record with the caller's fields, `user_id`, a fresh id and no file; file table unchanged; ids stay unique |
| `ProspectCrud.CreateProspectTotals` | server/api/crud/prospect.py:35-43 | after a create the owner's total rises by one and every other user's total is unchanged |
| `ProspectCrud.UpdateProspect` | server/api/crud/prospect.py:45-57 | only `first_name` and `last_name` of the first (user, email) match change; with no match the call fails and nothing changes |
| `ProspectCrud.RenameKeepsQueries` | server/api/crud/prospect.py:54-55 | a name update leaves every user's total, every (user, email) first match, and every id validation as before |
| `ProspectCrud.UpdateProspectFile` | server/api/crud/prospect.py:59-76 | `file_id` is set on the user's prospect only when both that prospect and that file exist under the user; otherwise nothing changes |
| `ProspectCrud.GetUserProspectEmail` | server/api/crud/prospect.py:78-86 | a returned prospect is stored and has that user and email; None exactly when none has; MultipleResultsFound exactly when two or more have |
| `ProspectCrud.ValidateProspectIds` | server/api/crud/prospect.py:88-99 | the result is exactly the input ids that are ids of the user's prospects |
| `FileCrud.CreateFile` | server/api/crud/file.py:7-18 | appends one file with the given filename, size, total rows and user, a fresh id, `done_rows = 0` and no `done_at`; prospects unchanged |
| `FileCrud.GetFile` | server/api/crud/file.py:20-46 | both identical definitions: a returned file is stored and matches both user and file id; None exactly when no stored file matches both, so another user's file is never returned |
| `FileCrud.CreatedFileIsFound` | server/api/crud/file.py:8-32 | a freshly created file is found by its owner and not by another user |
| `FileCrud.UpdateFileProgress` | server/api/crud/file.py:48-52 | fails, changing nothing, exactly when `get_file` finds nothing; otherwise that file's `done_rows` goes up by one and nothing else changes |
| `FileCrud.AdvanceSeenThroughGetFile` | server/api/crud/file.py:49-52 | after one progress step `get_file` returns the same file with `done_rows + 1`, and lookups of every other (user, id) are unchanged |
| `ProspectsRouter.GetProspectsPage` | server/api/routers/prospects.py:15-29 | no user: 401; otherwise `prospects` is exactly the page `get_users_prospects` returns (the window of the user's rows at the clamped `page*page_size`), `size == len(prospects)`, `total` is the user's count, `size <= total`, and every prospect is the user's; fails only when the clamped window is negative |
| `ProspectsRouter.GetProspectsFileProgress` | server/api/routers/prospects.py:32-43 | no user: 401; otherwise total 0 and done 0, whatever the file |
| `ProspectsRouter.SetSizeDetectsRepeats` | server/api/routers/prospects.py:74 | the list and its set have the same size exactly when no value repeats |
| `ProspectsRouter.HasDuplicates` | server/api/routers/prospects.py:72-78 | `len(indexes) != len(set(indexes))` holds exactly when some index repeats |
| `ProspectsRouter.ImportProspectsFile` | server/api/routers/prospects.py:46-111 | index list is the email index plus each name index that is neither None nor 0; a repeat is refused first, then a negative index, then size above the limit (equal is accepted); only then rows: success exactly when every row except a skipped header has an email column, otherwise the first such short row is reported; success is always "hello world" |
| `ImportScenarios.DuplicateReportedBeforeNegative` | server/api/routers/prospects.py:74-85 | email -1 with first name -1 reports the duplicate error, not the negative one |
| `ImportScenarios.ZeroNameIndexNotCompared` | server/api/routers/prospects.py:64-78 | email 0 with first and last name 0 is accepted: the zero indexes are never compared; a size equal to the limit passes |
| `ImportScenarios.SizeCheckedBeforeRows` | server/api/routers/prospects.py:96-109 | a file one byte over the limit is refused even though its only row is too short to read |
| `ImportScenarios.HeaderRowNotRead` | server/api/routers/prospects.py:104-109 | an empty row 0 is skipped with `has_headers` and reported as too short without it |

## Left out

- Sessions (`add`, `commit`, `refresh`, `query`): replaced by the `Db` object's tables. A change is visible as soon as the method returns. There are no transactions or rollbacks.
- `update_prospect_file` never commits. The model shows the change as it stands in the session and does not model whether a later commit keeps it.
- FastAPI routing, `Depends` and the auth dependency. The current user is an `Option<User>` argument. The import endpoint takes no user, because its auth check is commented out (server/api/routers/prospects.py:58-61).
- CSV parsing, UTF-8 decoding and the `seek`/`tell` size probe: the rows and the byte size are inputs. A decoding error during the row walk is not modelled.
- The email read in the import loop is discarded, as in the source. `force` is accepted and unused.
- `MIN_PAGE`, `MAX_PAGE_SIZE` and `MAX_IMPORT_FILE_SIZE` come from a constants module that is not part of this model, so they are parameters. The defaults `DEFAULT_PAGE` and `DEFAULT_PAGE_SIZE` apply only when the caller omits a value, so the model always takes explicit values.
- A negative OFFSET or LIMIT is modelled as a database error, offset checked first. This is how PostgreSQL behaves. The database engine is not part of this model.
- `.first()`, `offset` and `limit` without `order_by` have no defined order in SQL; the model takes storage order. With unique ids at most one file matches, so this does not change `get_file`. `update_prospect` renames the first (user, email) match, which in SQL may be any matching row when emails repeat; the model renames the first in storage order. For `get_users_prospects`, which rows make up a page, and whether two pages overlap, are not fixed in SQL; the model fixes each page to a window of positions in the user's rows in storage order.
- The prospect model and the prospect and user schemas are not part of this model. The prospect fields are taken from their uses: id, user_id, email, first_name, last_name, file_id. A new prospect's file_id is assumed to default to null.
- `create_file` reads `data["file_size"]`, but the `FileCreate` schema names that field `file_size_bytes`. The model reads `file_size` as the code does. The KeyError a dict built from the schema would cause is not modelled.
- `uploaded_at` is set by the database clock and is not modelled. `done_at` is never set by the code.
- Integer widths (BigInteger, Integer) are not modelled; values are unbounded integers. A `done_rows` overflow is not modelled.
- Dedup, row outcomes, an import summary, job finalisation and real progress reporting are not modelled, because the code has none of them.
- server/seed.py (random seeding data) is not modelled: it is I/O and random numbers with no logic to verify.
- Query.Filter: its contract gives membership in both directions and a length bound. It does not state that storage order is kept; the order comes from its definition, which `Query.OffsetLimit` windows over.
