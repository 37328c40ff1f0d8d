/** `ProspectCrud`: the owner-scoped queries and updates on the prospects table. */
module ProspectCrud {
  import opened Wrappers
  import opened Query
  import opened Models

  /** The user's prospects in storage order. */
  function UserProspects(ps: seq<Prospect>, userId: int): seq<Prospect> {
    Filter(ps, OwnedBy(userId))
  }

  /**
   * `get_users_prospects`: raise `page` to at least `minPage`, lower
   * `pageSize` to at most `maxPageSize`, then return the window of the user's
   * prospects starting at `page * pageSize`.
   */
  method GetUsersProspects(db: Db, userId: int, page: int, pageSize: int, minPage: int, maxPageSize: int)
    returns (r: Result<seq<Prospect>, QueryError>)
    ensures var p := if page < minPage then minPage else page;
            var size := if pageSize > maxPageSize then maxPageSize else pageSize;
            r == OffsetLimit(UserProspects(db.prospects, userId), p * size, size)
    ensures r.Ok? ==> |r.value| <= pageSize && |r.value| <= maxPageSize
    ensures r.Ok? ==> forall x :: x in r.value ==> x.userId == userId && x in db.prospects
  {
    var p, size := page, pageSize;
    if p < minPage {
      p := minPage;
    }
    if size > maxPageSize {
      size := maxPageSize;
    }
    var mine := UserProspects(db.prospects, userId);
    r := OffsetLimit(mine, p * size, size);
    if r.Ok? {
      forall x | x in r.value ensures x.userId == userId && x in db.prospects {
        var k :| 0 <= k < |r.value| && r.value[k] == x;
        assert x == mine[p * size + k];
        assert OwnedBy(userId)(x);
      }
    }
  }

  /** `get_user_prospects_total`: the number of stored prospects with that user id. */
  function GetUserProspectsTotal(ps: seq<Prospect>, userId: int): (n: nat)
    ensures n == |set i: nat | i < |ps| && ps[i].userId == userId|
    ensures n == |UserProspects(ps, userId)|
  {
    CountIsNumberOfMatchingPositions(ps, OwnedBy(userId));
    CountIsFilterLength(ps, OwnedBy(userId));
    assert Positions(ps, OwnedBy(userId)) == set i: nat | i < |ps| && ps[i].userId == userId;
    Count(ps, OwnedBy(userId))
  }

  /** `create_prospect`: store one new record carrying `userId` and the fresh id. */
  method CreateProspect(db: Db, userId: int, data: ProspectCreate) returns (p: Prospect)
    requires db.Valid()
    modifies db
    ensures db.Valid()
    ensures p == Prospect(old(db.nextProspectId), userId, data.email, data.firstName, data.lastName, None)
    ensures db.prospects == old(db.prospects) + [p]
    ensures db.nextProspectId == old(db.nextProspectId) + 1
    ensures db.files == old(db.files) && db.nextFileId == old(db.nextFileId)
  {
    p := Prospect(db.nextProspectId, userId, data.email, data.firstName, data.lastName, None);
    db.prospects := db.prospects + [p];
    db.nextProspectId := db.nextProspectId + 1;
  }

  /** Creating a prospect raises its owner's total by one and leaves every other total. */
  lemma {:induction false} CreateProspectTotals(ps: seq<Prospect>, p: Prospect, userId: int)
    ensures GetUserProspectsTotal(ps + [p], userId)
         == GetUserProspectsTotal(ps, userId) + (if p.userId == userId then 1 else 0)
  {
    var s := ps + [p];
    assert s[..|ps|] == ps;
    assert Count(s, OwnedBy(userId)) == Count(ps, OwnedBy(userId)) + (if OwnedBy(userId)(p) then 1 else 0);
  }

  /** The table after the first (user, email) match has its names overwritten. */
  function Renamed(ps: seq<Prospect>, i: nat, data: ProspectCreate): seq<Prospect>
    requires i < |ps|
  {
    ps[i := ps[i].(firstName := data.firstName, lastName := data.lastName)]
  }

  /**
   * `update_prospect`: overwrite `first_name` and `last_name` of the first
   * prospect of the user with `data.email`; when there is none the source
   * dereferences None, modelled as MissingRecord with nothing changed.
   */
  method UpdateProspect(db: Db, userId: int, data: ProspectCreate) returns (r: Result<(), CrudError>)
    requires db.Valid()
    modifies db
    ensures db.Valid()
    ensures var i := FirstIndex(old(db.prospects), WithEmail(userId, data.email));
            if i.None? then r == Err(MissingRecord) && db.prospects == old(db.prospects)
            else r == Ok(()) && db.prospects == Renamed(old(db.prospects), i.value, data)
    ensures db.files == old(db.files)
    ensures db.nextProspectId == old(db.nextProspectId) && db.nextFileId == old(db.nextFileId)
  {
    var i := FirstIndex(db.prospects, WithEmail(userId, data.email));
    if i.None? {
      return Err(MissingRecord);
    }
    var before := db.prospects;
    db.prospects := Renamed(db.prospects, i.value, data);
    assert forall j :: 0 <= j < |before| ==> db.prospects[j].id == before[j].id;
    r := Ok(());
  }

  /** An id is one of the user's exactly when some stored row of the user carries it. */
  lemma UserProspectIdsByPosition(ps: seq<Prospect>, userId: int, x: int)
    ensures x in UserProspectIds(ps, userId) <==>
            exists j :: 0 <= j < |ps| && ps[j].userId == userId && ps[j].id == x
  {
    if x in UserProspectIds(ps, userId) {
      var p :| p in UserProspects(ps, userId) && p.id == x;
      InFilter(ps, OwnedBy(userId), p);
      var j :| 0 <= j < |ps| && ps[j] == p;
    }
    if exists j :: 0 <= j < |ps| && ps[j].userId == userId && ps[j].id == x {
      var j :| 0 <= j < |ps| && ps[j].userId == userId && ps[j].id == x;
      InFilter(ps, OwnedBy(userId), ps[j]);
    }
  }

  /** Renaming keeps the set of ids each user owns. */
  lemma RenameKeepsIds(ps: seq<Prospect>, i: nat, data: ProspectCreate, userId: int)
    requires i < |ps|
    ensures UserProspectIds(Renamed(ps, i, data), userId) == UserProspectIds(ps, userId)
  {
    var t := Renamed(ps, i, data);
    forall x ensures x in UserProspectIds(t, userId) <==> x in UserProspectIds(ps, userId) {
      UserProspectIdsByPosition(t, userId, x);
      UserProspectIdsByPosition(ps, userId, x);
      assert forall j :: 0 <= j < |ps| ==> t[j].userId == ps[j].userId && t[j].id == ps[j].id;
    }
  }

  /**
   * Renaming keeps every owner-, email- and id-based query as it was: each
   * user's total, which record is the first (user, email) match, and ids.
   */
  lemma RenameKeepsQueries(ps: seq<Prospect>, i: nat, data: ProspectCreate)
    requires i < |ps|
    ensures forall u :: GetUserProspectsTotal(Renamed(ps, i, data), u) == GetUserProspectsTotal(ps, u)
    ensures forall u, e :: FirstIndex(Renamed(ps, i, data), WithEmail(u, e)) == FirstIndex(ps, WithEmail(u, e))
    ensures forall u, ids :: ValidateProspectIds(Renamed(ps, i, data), u, ids) == ValidateProspectIds(ps, u, ids)
  {
    var t := Renamed(ps, i, data);
    assert |t| == |ps|;
    assert forall j :: 0 <= j < |ps| ==> t[j].userId == ps[j].userId && t[j].email == ps[j].email;
    forall u ensures GetUserProspectsTotal(t, u) == GetUserProspectsTotal(ps, u) {
      CountsAgree(t, ps, OwnedBy(u));
    }
    forall u, e ensures FirstIndex(t, WithEmail(u, e)) == FirstIndex(ps, WithEmail(u, e)) {
      FirstIndexesAgree(t, ps, WithEmail(u, e));
    }
    forall u, ids ensures ValidateProspectIds(t, u, ids) == ValidateProspectIds(ps, u, ids) {
      RenameKeepsIds(ps, i, data, u);
    }
  }

  /** The table after prospect `i` is linked to file `fileId`; ids are kept. */
  function WithFileLink(ps: seq<Prospect>, i: nat, fileId: int): (t: seq<Prospect>)
    requires i < |ps|
    ensures |t| == |ps| && forall j :: 0 <= j < |ps| ==> t[j].id == ps[j].id
  {
    ps[i := ps[i].(fileId := Some(fileId))]
  }

  /**
   * `update_prospect_file`: set `file_id` on the user's prospect with
   * `prospectId`, but only when the user also owns a file with `fileId`;
   * otherwise nothing changes.
   */
  method UpdateProspectFile(db: Db, userId: int, prospectId: int, fileId: int)
    requires db.Valid()
    modifies db
    ensures db.Valid()
    ensures var pi := FirstIndex(old(db.prospects), WithId(userId, prospectId));
            var fi := FirstIndex(old(db.files), FileKey(userId, fileId));
            if pi.Some? && fi.Some?
            then db.prospects == WithFileLink(old(db.prospects), pi.value, fileId)
            else db.prospects == old(db.prospects)
    ensures db.files == old(db.files)
    ensures db.nextProspectId == old(db.nextProspectId) && db.nextFileId == old(db.nextFileId)
  {
    var prospect := OneOrNone(db.prospects, WithId(userId, prospectId));
    var file := OneOrNone(db.files, FileKey(userId, fileId));
    assert prospect.Ok? && (prospect.value.Some? <==> FirstIndex(db.prospects, WithId(userId, prospectId)).Some?) by {
      AtMostOneWithKey(db.prospects, ProspectId, prospectId, WithId(userId, prospectId));
      OneOrNoneOfUnique(db.prospects, WithId(userId, prospectId));
    }
    assert file.Ok? && (file.value.Some? <==> FirstIndex(db.files, FileKey(userId, fileId)).Some?) by {
      AtMostOneWithKey(db.files, FileId, fileId, FileKey(userId, fileId));
      OneOrNoneOfUnique(db.files, FileKey(userId, fileId));
    }
    if prospect.Ok? && prospect.value.Some? && file.Ok? && file.value.Some? {
      var i := FirstIndex(db.prospects, WithId(userId, prospectId)).value;
      db.prospects := WithFileLink(db.prospects, i, fileId);
    }
  }

  /**
   * `get_user_prospect_email`: the user's prospect with that email, None when
   * there is none, MultipleResultsFound when several share it.
   */
  function GetUserProspectEmail(ps: seq<Prospect>, userId: int, email: string): (r: Result<Option<Prospect>, QueryError>)
    ensures r.Ok? && r.value.Some? ==> r.value.value in ps && r.value.value.userId == userId && r.value.value.email == email
    ensures r == Ok(None) <==> forall x :: x in ps ==> !(x.userId == userId && x.email == email)
    ensures r.Err? <==> Count(ps, WithEmail(userId, email)) > 1
    ensures r.Err? ==> r.error == MultipleResultsFound
  {
    var r := OneOrNone(ps, WithEmail(userId, email));
    assert r == Ok(None) <==> forall x :: x in ps ==> !WithEmail(userId, email)(x);
    r
  }

  /** The ids of the user's prospects. */
  function UserProspectIds(ps: seq<Prospect>, userId: int): set<int> {
    set p | p in UserProspects(ps, userId) :: p.id
  }

  /** `validate_prospect_ids`: the candidate ids that are ids of the user's prospects. */
  function ValidateProspectIds(ps: seq<Prospect>, userId: int, ids: set<int>): (r: set<int>)
    ensures r <= ids
    ensures r == ids * UserProspectIds(ps, userId)
  {
    var r := set p | p in Filter(ps, WithIdIn(userId, ids)) :: p.id;
    assert r == ids * UserProspectIds(ps, userId) by {
      forall x ensures x in r <==> x in ids * UserProspectIds(ps, userId) {
        if x in r {
          var p :| p in Filter(ps, WithIdIn(userId, ids)) && p.id == x;
          InFilter(ps, WithIdIn(userId, ids), p);
          InFilter(ps, OwnedBy(userId), p);
        }
        if x in ids * UserProspectIds(ps, userId) {
          var p :| p in UserProspects(ps, userId) && p.id == x;
          InFilter(ps, WithIdIn(userId, ids), p);
          InFilter(ps, OwnedBy(userId), p);
        }
      }
    }
    r
  }
}
