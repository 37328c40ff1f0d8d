/**
 * The prospects endpoints: a page of the user's prospects, the progress stub,
 * and the precondition checks and row walk of the file import.
 */
module ProspectsRouter {
  import opened Wrappers
  import opened Query
  import opened Models
  import ProspectCrud

  /** HTTP errors raised by the page and progress endpoints. */
  datatype ApiError =
    | Unauthorized              // 401 "Please log in"
    | Database(e: QueryError)   // an exception from the query, surfaced as a server error

  /** `{"prospects": ..., "size": ..., "total": ...}` */
  datatype PageResponse = PageResponse(prospects: seq<Prospect>, size: int, total: int)

  /** `{"total": ..., "done": ...}` */
  datatype ProgressResponse = ProgressResponse(total: int, done: int)

  /**
   * `get_prospects_page`: refuse an anonymous caller; otherwise one page of the
   * user's prospects, its size, and the user's total.
   */
  method GetProspectsPage(db: Db, currentUser: Option<User>, page: int, pageSize: int, minPage: int, maxPageSize: int)
    returns (r: Result<PageResponse, ApiError>)
    ensures currentUser.None? ==> r == Err(Unauthorized)
    ensures currentUser.Some? && r.Err? ==> r.error.Database?
    ensures currentUser.Some? && r.Ok? ==>
              var u := currentUser.value.id;
              r.value.size == |r.value.prospects| &&
              r.value.total == ProspectCrud.GetUserProspectsTotal(db.prospects, u) &&
              r.value.size <= r.value.total &&
              forall x :: x in r.value.prospects ==> x.userId == u
    ensures currentUser.Some? ==>
              var p := if page < minPage then minPage else page;
              var size := if pageSize > maxPageSize then maxPageSize else pageSize;
              (r.Ok? <==> 0 <= p * size && 0 <= size) &&
              (r.Ok? ==>
                 r.value.prospects == OffsetLimit(ProspectCrud.UserProspects(db.prospects, currentUser.value.id), p * size, size).value)
  {
    if currentUser.None? {
      return Err(Unauthorized);
    }
    var u := currentUser.value.id;
    var prospects := ProspectCrud.GetUsersProspects(db, u, page, pageSize, minPage, maxPageSize);
    if prospects.Err? {
      return Err(Database(prospects.error));
    }
    var total := ProspectCrud.GetUserProspectsTotal(db.prospects, u);
    r := Ok(PageResponse(prospects.value, |prospects.value|, total));
  }

  /**
   * `get_prospects_file_progress`: refuse an anonymous caller; otherwise the
   * fixed reply total 0, done 0, whatever the file and its stored progress.
   */
  function GetProspectsFileProgress(fileId: int, currentUser: Option<User>): (r: Result<ProgressResponse, ApiError>)
    ensures r.Err? <==> currentUser.None?
    ensures r.Err? ==> r.error == Unauthorized
    ensures r.Ok? ==> r.value.total == 0 && r.value.done == 0
  {
    if currentUser.None? then Err(Unauthorized) else Ok(ProgressResponse(0, 0))
  }

  /** Why an import request is refused. */
  datatype ImportError =
    | DuplicateIndexes         // 422 "Indexes cannot be the same"
    | NegativeIndex            // 422 "Indexes cannot be below 0"
    | FileTooLarge(limit: int) // 422 "File size cannot exceed <limit> bytes"
    | RowTooShort(row: nat)    // row `row` has no email column: an uncaught IndexError

  /** `{"message": ...}` */
  datatype ImportResponse = ImportResponse(message: string)

  /** Python truthiness of an optional index: None and 0 both count as not supplied. */
  predicate Supplied(index: Option<int>) {
    index.Some? && index.value != 0
  }

  /** The index list: the email index, then each name index that is supplied. */
  function IndexList(emailIndex: int, firstNameIndex: Option<int>, lastNameIndex: Option<int>): seq<int> {
    [emailIndex]
      + (if Supplied(firstNameIndex) then [firstNameIndex.value] else [])
      + (if Supplied(lastNameIndex) then [lastNameIndex.value] else [])
  }

  /** No value occurs twice. */
  predicate Distinct(xs: seq<int>) {
    forall i, j :: 0 <= i < j < |xs| ==> xs[i] != xs[j]
  }

  function Elements(xs: seq<int>): set<int> {
    set x | x in xs
  }

  /** A list never has more distinct elements than entries. */
  lemma {:induction false} ElementsBound(xs: seq<int>)
    ensures |Elements(xs)| <= |xs|
  {
    if xs != [] {
      ElementsBound(xs[1..]);
      assert Elements(xs) == Elements(xs[1..]) + {xs[0]};
    }
  }

  /** Comparing the list with its set detects exactly the repeated values. */
  lemma {:induction false} SetSizeDetectsRepeats(xs: seq<int>)
    ensures |Elements(xs)| == |xs| <==> Distinct(xs)
  {
    if xs != [] {
      var t := xs[1..];
      SetSizeDetectsRepeats(t);
      ElementsBound(t);
      assert Elements(xs) == Elements(t) + {xs[0]};
      if xs[0] in t {
        var j :| 0 <= j < |t| && t[j] == xs[0];
        assert xs[j + 1] == xs[0];
        assert Elements(xs) == Elements(t);
      } else {
        assert xs[0] !in Elements(t);
        assert |Elements(xs)| == |Elements(t)| + 1;
        if Distinct(t) {
          forall i, j | 0 <= i < j < |xs| ensures xs[i] != xs[j] {
            if i > 0 {
              assert xs[i] == t[i - 1] && xs[j] == t[j - 1];
            } else {
              assert xs[j] == t[j - 1];
            }
          }
        } else {
          var i, j :| 0 <= i < j < |t| && t[i] == t[j];
          assert xs[i + 1] == xs[j + 1];
        }
      }
    }
  }

  /** `len(indexes) != len(set(indexes))`: true exactly when some index repeats. */
  function HasDuplicates(indexes: seq<int>): (r: bool)
    ensures r <==> !Distinct(indexes)
  {
    SetSizeDetectsRepeats(indexes);
    |indexes| != |Elements(indexes)|
  }

  /** `any(idx < 0 for idx in indexes)` */
  predicate AnyNegative(indexes: seq<int>) {
    exists i :: 0 <= i < |indexes| && indexes[i] < 0
  }

  /** Row `i` is read unless it is row 0 of a file with a header row. */
  predicate IsDataRow(i: nat, hasHeaders: bool) {
    !(i == 0 && hasHeaders)
  }

  /** Every row that is read has a column at `emailIndex`. */
  predicate AllRowsReadable(rows: seq<seq<string>>, emailIndex: int, hasHeaders: bool) {
    forall i :: 0 <= i < |rows| && IsDataRow(i, hasHeaders) ==> emailIndex < |rows[i]|
  }

  /** Row `k` is the first read row that has no column at `emailIndex`. */
  predicate FirstShortRow(rows: seq<seq<string>>, emailIndex: int, hasHeaders: bool, k: nat) {
    k < |rows| && IsDataRow(k, hasHeaders) && |rows[k]| <= emailIndex &&
    forall i :: 0 <= i < k && IsDataRow(i, hasHeaders) ==> emailIndex < |rows[i]|
  }

  /**
   * `import_prospects_file`: build the index list, refuse repeated indexes,
   * then negative ones, then a file over `maxImportFileSize` bytes, and only
   * then walk the rows, skipping row 0 when `hasHeaders` and reading the email
   * column of every other row. Success is the fixed reply "hello world".
   * `force` is accepted and not used; the caller's identity is not checked.
   */
  method ImportProspectsFile(
    emailIndex: int,
    firstNameIndex: Option<int>,
    lastNameIndex: Option<int>,
    force: bool,
    hasHeaders: bool,
    rows: seq<seq<string>>,
    fileSizeBytes: nat,
    maxImportFileSize: int)
    returns (r: Result<ImportResponse, ImportError>)
    ensures var ix := IndexList(emailIndex, firstNameIndex, lastNameIndex);
            !Distinct(ix) ==> r == Err(DuplicateIndexes)
    ensures var ix := IndexList(emailIndex, firstNameIndex, lastNameIndex);
            Distinct(ix) && AnyNegative(ix) ==> r == Err(NegativeIndex)
    ensures var ix := IndexList(emailIndex, firstNameIndex, lastNameIndex);
            Distinct(ix) && !AnyNegative(ix) && fileSizeBytes > maxImportFileSize ==>
              r == Err(FileTooLarge(maxImportFileSize))
    ensures var ix := IndexList(emailIndex, firstNameIndex, lastNameIndex);
            Distinct(ix) && !AnyNegative(ix) && fileSizeBytes <= maxImportFileSize ==>
              (r.Ok? <==> AllRowsReadable(rows, emailIndex, hasHeaders)) &&
              (r.Err? ==> r.error.RowTooShort? && FirstShortRow(rows, emailIndex, hasHeaders, r.error.row))
    ensures r.Ok? ==> r.value == ImportResponse("hello world")
  {
    var indexes := [emailIndex];
    if Supplied(firstNameIndex) {
      indexes := indexes + [firstNameIndex.value];
    }
    if Supplied(lastNameIndex) {
      indexes := indexes + [lastNameIndex.value];
    }
    assert indexes == IndexList(emailIndex, firstNameIndex, lastNameIndex);

    if HasDuplicates(indexes) {
      return Err(DuplicateIndexes);
    }
    if AnyNegative(indexes) {
      return Err(NegativeIndex);
    }
    if fileSizeBytes > maxImportFileSize {
      return Err(FileTooLarge(maxImportFileSize));
    }

    assert 0 <= emailIndex by { assert indexes[0] == emailIndex; }
    var i := 0;
    while i < |rows|
      invariant 0 <= i <= |rows|
      invariant forall j :: 0 <= j < i && IsDataRow(j, hasHeaders) ==> emailIndex < |rows[j]|
    {
      if !IsDataRow(i, hasHeaders) {
        i := i + 1;
        continue;
      }
      if |rows[i]| <= emailIndex {
        return Err(RowTooShort(i));
      }
      var email := rows[i][emailIndex];
      i := i + 1;
    }
    r := Ok(ImportResponse("hello world"));
  }
}
