/**
 * The records the CRUD layer stores, the filters it queries them with, and the
 * database session that holds them.
 */
module Models {
  import opened Wrappers
  import opened Query

  /** The authenticated user; only the id is used. */
  datatype User = User(id: int)

  /** A stored prospect row: `file_id` names the last import file that touched it. */
  datatype Prospect = Prospect(
    id: int,
    userId: int,
    email: string,
    firstName: string,
    lastName: string,
    fileId: Option<int>)

  /** The fields a caller supplies to create or update a prospect. */
  datatype ProspectCreate = ProspectCreate(email: string, firstName: string, lastName: string)

  /**
   * A stored import-file row. `doneAt` is a nullable timestamp; `uploaded_at`
   * is set by the database clock and is not modelled.
   */
  datatype File = File(
    id: int,
    userId: int,
    filename: string,
    fileSize: int,
    totalRows: int,
    doneRows: int,
    doneAt: Option<int>)

  /** The keys `create_file` reads from its `data` argument. */
  datatype FileCreate = FileCreate(filename: string, fileSize: int, totalRows: int)

  /** Raised when an update dereferences a lookup that found nothing. */
  datatype CrudError = MissingRecord

  function ProspectId(p: Prospect): int { p.id }
  function FileId(f: File): int { f.id }

  /** `Prospect.user_id == user_id` */
  function OwnedBy(userId: int): Prospect -> bool {
    (p: Prospect) => p.userId == userId
  }

  /** `Prospect.user_id == user_id` and `Prospect.email == email` */
  function WithEmail(userId: int, email: string): Prospect -> bool {
    (p: Prospect) => p.userId == userId && p.email == email
  }

  /** `Prospect.user_id == user_id` and `Prospect.id == prospect_id` */
  function WithId(userId: int, prospectId: int): Prospect -> bool {
    (p: Prospect) => p.userId == userId && p.id == prospectId
  }

  /** `Prospect.user_id == user_id` and `Prospect.id.in_(ids)` */
  function WithIdIn(userId: int, ids: set<int>): Prospect -> bool {
    (p: Prospect) => p.userId == userId && p.id in ids
  }

  /** `File.user_id == user_id` and `File.id == file_id` */
  function FileKey(userId: int, fileId: int): File -> bool {
    (f: File) => f.userId == userId && f.id == fileId
  }

  /**
   * The database session: the prospects and files tables in storage order and
   * the next value of each autoincrement id.
   */
  class Db {
    var prospects: seq<Prospect>
    var files: seq<File>
    var nextProspectId: int
    var nextFileId: int

    /** Ids are primary keys: unique, and below the next autoincrement value. */
    ghost predicate Valid()
      reads this
    {
      DistinctKeys(prospects, ProspectId) && DistinctKeys(files, FileId) &&
      (forall i :: 0 <= i < |prospects| ==> prospects[i].id < nextProspectId) &&
      (forall i :: 0 <= i < |files| ==> files[i].id < nextFileId)
    }

    constructor Empty()
      ensures Valid()
      ensures prospects == [] && files == [] && nextProspectId == 1 && nextFileId == 1
    {
      prospects, files := [], [];
      nextProspectId, nextFileId := 1, 1;
    }
  }
}
