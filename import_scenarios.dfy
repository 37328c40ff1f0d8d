/**
 * Concrete requests to the import endpoint whose outcome the endpoint's
 * contract determines: the order of the checks and the header and zero-index
 * quirks.
 */
module ImportScenarios {
  import opened Wrappers
  import opened ProspectsRouter

  /** email -1 and first name -1: the repeat is reported, not the negative value. */
  method DuplicateReportedBeforeNegative() returns (r: Result<ImportResponse, ImportError>)
    ensures r == Err(DuplicateIndexes)
  {
    var ix := IndexList(-1, Some(-1), None);
    assert ix == [-1, -1];
    assert !Distinct(ix) by { assert ix[0] == ix[1]; }
    r := ImportProspectsFile(-1, Some(-1), None, false, false, [["a@b.com"]], 0, 100);
  }

  /** email 0 and first name 0: the zero first-name index is dropped, so no repeat. */
  method ZeroNameIndexNotCompared() returns (r: Result<ImportResponse, ImportError>)
    ensures r == Ok(ImportResponse("hello world"))
  {
    r := ImportProspectsFile(0, Some(0), Some(0), false, false, [["a@b.com", "John"]], 10, 10);
  }

  /** A file one byte over the limit is refused before any row is looked at. */
  method SizeCheckedBeforeRows() returns (r: Result<ImportResponse, ImportError>)
    ensures r == Err(FileTooLarge(10))
  {
    r := ImportProspectsFile(2, Some(1), None, false, false, [[]], 11, 10);
  }

  /** An empty header row is skipped; the same row without `has_headers` is read and is too short. */
  method HeaderRowNotRead() returns (withHeader: Result<ImportResponse, ImportError>, without: Result<ImportResponse, ImportError>)
    ensures withHeader == Ok(ImportResponse("hello world"))
    ensures without == Err(RowTooShort(0))
  {
    withHeader := ImportProspectsFile(0, None, None, false, true, [[], ["a@b.com"]], 0, 0);
    without := ImportProspectsFile(0, None, None, false, false, [[], ["a@b.com"]], 0, 0);
    assert !AllRowsReadable([[], ["a@b.com"]], 0, false) by {
      assert IsDataRow(0, false);
    }
    assert without.Err? && without.error.RowTooShort?;
    assert without.error.row == 0;
  }
}
