/**
 * The part of the ORM's query interface the CRUD layer relies on, over a table
 * modelled as a sequence of rows in storage order: `filter`, `count`, `first`,
 * `one_or_none`, `offset`/`limit`.
 */
module Query {
  import opened Wrappers

  /** Errors raised by the database layer rather than by the application. */
  datatype QueryError =
    | MultipleResultsFound   // `one_or_none` saw more than one row
    | NegativeOffset         // OFFSET below zero is refused by the database
    | NegativeLimit          // LIMIT below zero is refused by the database

  /** The rows satisfying `p`, in storage order (`query.filter(p).all()`). */
  function Filter<T>(s: seq<T>, p: T -> bool): (r: seq<T>)
    ensures |r| <= |s|
    ensures forall k :: 0 <= k < |r| ==> p(r[k]) && r[k] in s
    ensures forall i :: 0 <= i < |s| && p(s[i]) ==> s[i] in r
    decreases |s|
  {
    if |s| == 0 then []
    else
      var n := |s| - 1;
      var r' := Filter(s[..n], p);
      assert forall i :: 0 <= i < n && p(s[i]) ==> s[i] in r' by {
        forall i | 0 <= i < n && p(s[i]) ensures s[i] in r' { assert s[..n][i] == s[i]; }
      }
      r' + (if p(s[n]) then [s[n]] else [])
  }

  /** A row is returned by the filter exactly when it is stored and satisfies `p`. */
  lemma InFilter<T>(s: seq<T>, p: T -> bool, x: T)
    ensures x in Filter(s, p) <==> x in s && p(x)
  {
    var r := Filter(s, p);
    if x in r {
      var k :| 0 <= k < |r| && r[k] == x;
    }
    if x in s && p(x) {
      var i :| 0 <= i < |s| && s[i] == x;
    }
  }

  /** The number of rows satisfying `p` (`query.filter(p).count()`). */
  function Count<T>(s: seq<T>, p: T -> bool): (n: nat)
    ensures n <= |s|
    ensures n == 0 <==> forall i :: 0 <= i < |s| ==> !p(s[i])
    decreases |s|
  {
    if |s| == 0 then 0
    else
      var m := |s| - 1;
      var c := Count(s[..m], p);
      assert c == 0 <==> forall i :: 0 <= i < m ==> !p(s[i]) by {
        assert forall i :: 0 <= i < m ==> s[..m][i] == s[i];
      }
      c + (if p(s[m]) then 1 else 0)
  }

  /** The count is the number of rows the same filter returns. */
  lemma {:induction false} CountIsFilterLength<T>(s: seq<T>, p: T -> bool)
    ensures Count(s, p) == |Filter(s, p)|
    decreases |s|
  {
    if |s| > 0 {
      CountIsFilterLength(s[..|s| - 1], p);
    }
  }

  /** The positions of the table whose row satisfies `p`. */
  function Positions<T>(s: seq<T>, p: T -> bool): set<nat> {
    set i: nat | i < |s| && p(s[i])
  }

  /** Appending a row adds its position when it satisfies `p`. */
  lemma PositionsOfLast<T>(s: seq<T>, p: T -> bool)
    requires |s| > 0
    ensures Positions(s, p) == Positions(s[..|s| - 1], p) + (if p(s[|s| - 1]) then {|s| - 1} else {})
  {
    var n := |s| - 1;
    forall i: nat ensures i in Positions(s, p) <==> i in Positions(s[..n], p) + (if p(s[n]) then {n} else {}) {
      if i < n { assert s[..n][i] == s[i]; }
    }
  }

  /** Unfolding the count at the last row. */
  lemma CountOfLast<T>(s: seq<T>, p: T -> bool)
    requires |s| > 0
    ensures Count(s, p) == Count(s[..|s| - 1], p) + (if p(s[|s| - 1]) then 1 else 0)
  {
  }

  /** The count is the number of positions of the table whose row satisfies `p`. */
  lemma {:induction false} CountIsNumberOfMatchingPositions<T>(s: seq<T>, p: T -> bool)
    ensures Count(s, p) == |Positions(s, p)|
    decreases |s|
  {
    if |s| > 0 {
      var n := |s| - 1;
      var before := Positions(s[..n], p);
      assert Count(s[..n], p) == |before| by {
        CountIsNumberOfMatchingPositions(s[..n], p);
      }
      assert Count(s, p) == Count(s[..n], p) + (if p(s[n]) then 1 else 0) by {
        CountOfLast(s, p);
      }
      assert |Positions(s, p)| == |before| + (if p(s[n]) then 1 else 0) by {
        PositionsOfLast(s, p);
        if p(s[n]) {
          assert n !in before;
          assert |before + {n}| == |before| + 1;
        } else {
          assert Positions(s, p) == before;
        }
      }
    }
  }

  /** The position of the first row satisfying `p`, if any. */
  function FirstIndex<T>(s: seq<T>, p: T -> bool): (r: Option<nat>)
    ensures r.Some? ==> r.value < |s| && p(s[r.value]) && forall j :: 0 <= j < r.value ==> !p(s[j])
    ensures r.None? <==> forall j :: 0 <= j < |s| ==> !p(s[j])
  {
    if |s| == 0 then None
    else if p(s[0]) then Some(0)
    else match FirstIndex(s[1..], p)
      case None => None
      case Some(k) => Some(k + 1)
  }

  /** `query.filter(p).first()`: the first matching row in storage order, or None. */
  function First<T>(s: seq<T>, p: T -> bool): (r: Option<T>)
    ensures r.Some? ==> r.value in s && p(r.value)
    ensures r.None? <==> forall x :: x in s ==> !p(x)
  {
    match FirstIndex(s, p)
    case None => None
    case Some(i) => Some(s[i])
  }

  /**
   * `query.filter(p).one_or_none()`: None when nothing matches, the row when
   * exactly one does, and MultipleResultsFound when more than one does.
   */
  function OneOrNone<T>(s: seq<T>, p: T -> bool): (r: Result<Option<T>, QueryError>)
    ensures r.Err? <==> Count(s, p) > 1
    ensures r.Err? ==> r.error == MultipleResultsFound
    ensures r == Ok(None) <==> forall x :: x in s ==> !p(x)
    ensures r.Ok? && r.value.Some? ==> r.value.value in s && p(r.value.value)
  {
    var n := Count(s, p);
    if n == 0 then Ok(None)
    else if n == 1 then Ok(First(s, p))
    else Err(MultipleResultsFound)
  }

  function Min(a: int, b: int): int { if a <= b then a else b }
  function Max(a: int, b: int): int { if a >= b then a else b }

  /**
   * `query.offset(offset).limit(limit).all()`: the window of at most `limit`
   * rows starting at position `offset`; a negative offset or limit is an error.
   */
  function OffsetLimit<T>(s: seq<T>, offset: int, limit: int): (r: Result<seq<T>, QueryError>)
    ensures r.Err? <==> offset < 0 || limit < 0
    ensures r.Err? ==> r.error == if offset < 0 then NegativeOffset else NegativeLimit
    ensures r.Ok? ==> |r.value| == Min(limit, Max(0, |s| - offset))
    ensures r.Ok? ==> forall k :: 0 <= k < |r.value| ==> r.value[k] == s[offset + k]
  {
    if offset < 0 then Err(NegativeOffset)
    else if limit < 0 then Err(NegativeLimit)
    else if offset >= |s| then Ok([])
    else if offset + limit <= |s| then Ok(s[offset..offset + limit])
    else Ok(s[offset..])
  }

  /** No two rows of the table share a key (a primary or unique column). */
  predicate DistinctKeys<T>(s: seq<T>, key: T -> int) {
    forall i, j :: 0 <= i < j < |s| ==> key(s[i]) != key(s[j])
  }

  /** A prefix of a table with distinct keys has distinct keys. */
  lemma DistinctKeysPrefix<T>(s: seq<T>, key: T -> int, n: nat)
    requires DistinctKeys(s, key) && n <= |s|
    ensures DistinctKeys(s[..n], key)
  {
    forall i, j | 0 <= i < j < n ensures key(s[..n][i]) != key(s[..n][j]) {
      assert s[..n][i] == s[i] && s[..n][j] == s[j];
    }
  }

  /** A filter that pins a unique key to one value matches at most one row. */
  lemma {:induction false} AtMostOneWithKey<T>(s: seq<T>, key: T -> int, k: int, p: T -> bool)
    requires DistinctKeys(s, key)
    requires forall x :: p(x) ==> key(x) == k
    ensures Count(s, p) <= 1
    decreases |s|
  {
    if |s| > 0 {
      var n := |s| - 1;
      var prefix := s[..n];
      DistinctKeysPrefix(s, key, n);
      AtMostOneWithKey(prefix, key, k, p);
      if p(s[n]) {
        forall i | 0 <= i < n ensures !p(prefix[i]) {
          assert prefix[i] == s[i];
          assert key(s[i]) != key(s[n]);
        }
        assert Count(prefix, p) == 0;
      }
      CountOfLast(s, p);
    }
  }

  /** When at most one row matches, `one_or_none` succeeds exactly as `first` finds. */
  lemma OneOrNoneOfUnique<T>(s: seq<T>, p: T -> bool)
    requires Count(s, p) <= 1
    ensures OneOrNone(s, p).Ok?
    ensures OneOrNone(s, p).value.Some? <==> FirstIndex(s, p).Some?
  {
  }

  /**
   * Two tables of the same length on which `p` holds at the same positions
   * give the same count and the same first match.
   */
  lemma QueriesAgree<T>(s: seq<T>, t: seq<T>, p: T -> bool)
    requires |s| == |t|
    requires forall i :: 0 <= i < |s| ==> p(s[i]) == p(t[i])
    ensures Count(s, p) == Count(t, p)
    ensures FirstIndex(s, p) == FirstIndex(t, p)
  {
    CountsAgree(s, t, p);
    FirstIndexesAgree(s, t, p);
  }

  lemma {:induction false} CountsAgree<T>(s: seq<T>, t: seq<T>, p: T -> bool)
    requires |s| == |t|
    requires forall i :: 0 <= i < |s| ==> p(s[i]) == p(t[i])
    ensures Count(s, p) == Count(t, p)
    decreases |s|
  {
    if |s| > 0 {
      var n := |s| - 1;
      assert forall i :: 0 <= i < n ==> p(s[..n][i]) == p(t[..n][i]) by {
        assert forall i :: 0 <= i < n ==> s[..n][i] == s[i] && t[..n][i] == t[i];
      }
      CountsAgree(s[..n], t[..n], p);
      CountOfLast(s, p);
      CountOfLast(t, p);
    }
  }

  lemma {:induction false} FirstIndexesAgree<T>(s: seq<T>, t: seq<T>, p: T -> bool)
    requires |s| == |t|
    requires forall i :: 0 <= i < |s| ==> p(s[i]) == p(t[i])
    ensures FirstIndex(s, p) == FirstIndex(t, p)
    decreases |s|
  {
    if |s| > 0 {
      assert forall i :: 0 <= i < |s| - 1 ==> p(s[1..][i]) == p(t[1..][i]) by {
        assert forall i :: 0 <= i < |s| - 1 ==> s[1..][i] == s[i + 1] && t[1..][i] == t[i + 1];
      }
      FirstIndexesAgree(s[1..], t[1..], p);
    }
  }
}
