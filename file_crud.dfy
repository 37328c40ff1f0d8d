/** `FileCrud`: the import-file records and their progress counter. */
module FileCrud {
  import opened Wrappers
  import opened Query
  import opened Models

  /** `create_file`: store a new file with no rows done and no completion time. */
  method CreateFile(db: Db, userId: int, data: FileCreate) returns (f: File)
    requires db.Valid()
    modifies db
    ensures db.Valid()
    ensures f == File(old(db.nextFileId), userId, data.filename, data.fileSize, data.totalRows, 0, None)
    ensures db.files == old(db.files) + [f]
    ensures db.nextFileId == old(db.nextFileId) + 1
    ensures db.prospects == old(db.prospects) && db.nextProspectId == old(db.nextProspectId)
  {
    f := File(db.nextFileId, userId, data.filename, data.fileSize, data.totalRows, 0, None);
    db.files := db.files + [f];
    db.nextFileId := db.nextFileId + 1;
  }

  /**
   * `get_file` (declared twice with the same body; the second replaces the
   * first): the user's file with that id, or None. Another user's file is
   * never returned.
   */
  function GetFile(files: seq<File>, userId: int, fileId: int): (r: Option<File>)
    ensures r.Some? ==> r.value in files && r.value.userId == userId && r.value.id == fileId
    ensures r.None? <==> forall f :: f in files ==> !(f.userId == userId && f.id == fileId)
  {
    var r := First(files, FileKey(userId, fileId));
    assert r.None? <==> forall f :: f in files ==> !FileKey(userId, fileId)(f);
    r
  }

  /** A freshly created file is found by its owner and by nobody else. */
  lemma CreatedFileIsFound(files: seq<File>, f: File, userId: int)
    requires forall g :: g in files ==> g.id != f.id
    ensures GetFile(files + [f], f.userId, f.id) == Some(f)
    ensures userId != f.userId ==> GetFile(files + [f], userId, f.id) == None
  {
    var s := files + [f];
    var i := FirstIndex(s, FileKey(f.userId, f.id));
    assert FileKey(f.userId, f.id)(s[|files|]);
    assert i.Some?;
  }

  /** The table after file `i` has one more row done. */
  function Advanced(files: seq<File>, i: nat): (t: seq<File>)
    requires i < |files|
    ensures |t| == |files|
    ensures forall j :: 0 <= j < |files| ==> t[j].id == files[j].id && t[j].userId == files[j].userId
  {
    files[i := files[i].(doneRows := files[i].doneRows + 1)]
  }

  /**
   * `update_file_progress`: add one to `done_rows` of the file `get_file`
   * finds. When it finds none the source dereferences None, modelled as
   * MissingRecord with nothing changed. `done_rows` is not bounded by
   * `total_rows`.
   */
  method UpdateFileProgress(db: Db, userId: int, fileId: int) returns (r: Result<(), CrudError>)
    requires db.Valid()
    modifies db
    ensures db.Valid()
    ensures var i := FirstIndex(old(db.files), FileKey(userId, fileId));
            if i.None? then r == Err(MissingRecord) && db.files == old(db.files)
            else r == Ok(()) && db.files == Advanced(old(db.files), i.value)
    ensures r.Err? <==> GetFile(old(db.files), userId, fileId).None?
    ensures db.prospects == old(db.prospects)
    ensures db.nextProspectId == old(db.nextProspectId) && db.nextFileId == old(db.nextFileId)
  {
    var i := FirstIndex(db.files, FileKey(userId, fileId));
    if i.None? {
      return Err(MissingRecord);
    }
    db.files := Advanced(db.files, i.value);
    r := Ok(());
  }

  /** `get_file` returns the row at the first matching position. */
  lemma GetFileAt(files: seq<File>, i: nat, userId: int, fileId: int)
    requires FirstIndex(files, FileKey(userId, fileId)) == Some(i)
    ensures GetFile(files, userId, fileId) == Some(files[i])
  {
  }

  /** Advancing a file that does not match a lookup leaves that lookup unchanged. */
  lemma {:induction false} AdvanceKeepsOtherLookup(files: seq<File>, i: nat, userId: int, fileId: int)
    requires i < |files| && !FileKey(userId, fileId)(files[i])
    ensures GetFile(Advanced(files, i), userId, fileId) == GetFile(files, userId, fileId)
  {
    var t := Advanced(files, i);
    QueriesAgree(files, t, FileKey(userId, fileId));
    var j := FirstIndex(files, FileKey(userId, fileId));
    if j.Some? {
      assert j.value != i;
      assert t[j.value] == files[j.value];
    }
  }

  /**
   * After one progress step on the file found at position `i`, the same lookup
   * finds that file with `done_rows` one higher and every other field as
   * before, and every lookup by another key finds what it found before.
   */
  lemma {:induction false} AdvanceSeenThroughGetFile(files: seq<File>, i: nat, userId: int, fileId: int)
    requires FirstIndex(files, FileKey(userId, fileId)) == Some(i)
    ensures GetFile(files, userId, fileId) == Some(files[i])
    ensures GetFile(Advanced(files, i), userId, fileId) == Some(files[i].(doneRows := files[i].doneRows + 1))
    ensures forall u, id :: u != userId || id != fileId ==>
              GetFile(Advanced(files, i), u, id) == GetFile(files, u, id)
  {
    var t := Advanced(files, i);
    var p := FileKey(userId, fileId);
    assert FirstIndex(t, p) == Some(i) by {
      assert forall j :: 0 <= j < |files| ==> p(files[j]) == p(t[j]);
      QueriesAgree(files, t, p);
    }
    assert t[i] == files[i].(doneRows := files[i].doneRows + 1);
    GetFileAt(files, i, userId, fileId);
    GetFileAt(t, i, userId, fileId);
    forall u, id | u != userId || id != fileId
      ensures GetFile(t, u, id) == GetFile(files, u, id)
    {
      AdvanceKeepsOtherLookup(files, i, u, id);
    }
  }
}
